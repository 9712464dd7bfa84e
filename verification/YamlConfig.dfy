/**
 * The configuration parser (yaml_config.c): one boolean, one nesting counter and a few flags,
 * against a recursive reading of the document tree.
 */
module YamlConfig {
  import opened Bytes

  // ----- Events and trees -----

  datatype Event =
    | NoEvent | StreamStart | StreamEnd | DocumentStart | DocumentEnd
    | SequenceStart | SequenceEnd | MappingStart | MappingEnd | Alias
    | Scalar(value: string)

  /** A document whose mapping keys are scalars. */
  datatype Node = Leaf(s: string) | Map(entries: Entries)
  datatype Entries = End | Entry(key: string, value: Node, rest: Entries)

  function NodeEvents(n: Node): seq<Event> {
    match n
    case Leaf(s) => [Scalar(s)]
    case Map(es) => [MappingStart] + (EntryEvents(es) + [MappingEnd])
  }

  function EntryEvents(es: Entries): seq<Event> {
    match es
    case End => []
    case Entry(key, value, rest) => [Scalar(key)] + (NodeEvents(value) + EntryEvents(rest))
  }

  function DocumentEvents(docs: seq<Node>): seq<Event> {
    if docs == [] then []
    else [DocumentStart] + (NodeEvents(docs[0]) + ([DocumentEnd] + DocumentEvents(docs[1..])))
  }

  /** The events libyaml delivers for a file holding these documents. */
  function Stream(docs: seq<Node>): seq<Event> {
    [StreamStart] + (DocumentEvents(docs) + [StreamEnd])
  }

  // ----- The parser -----

  /** A struct proto_config. */
  datatype ProtoConfig = ProtoConfig(initialized: bool, bindAddress: string, validate: bool, tcpCork: bool,
                                     alwaysResolveDns: bool, maxSendQueue: nat, ring: seq<string>)

  datatype Section = Carbon | Statsd

  datatype Config = Config(carbon: ProtoConfig, statsd: ProtoConfig) {
    function Get(s: Section): ProtoConfig {
      if s == Carbon then carbon else statsd
    }

    function Set(s: Section, pc: ProtoConfig): Config {
      if s == Carbon then this.(carbon := pc) else this.(statsd := pc)
    }
  }

  function InitProtoConfig(bindAddress: string): ProtoConfig {
    ProtoConfig(false, bindAddress, true, true, false, 134217728, [])
  }

  const DEFAULT_CONFIG := Config(InitProtoConfig("127.0.0.1:2003"), InitProtoConfig("127.0.0.1:8125"))

  /** strtol in base 10: the value, if any digits were converted. */
  type Strtol = string -> Option<int>

  /** The four flags cleared by the value they wait for. */
  datatype Pending = Pending(bindAddress: bool, sendQueue: bool, validate: bool, tcpCork: bool)

  const NOTHING_PENDING := Pending(false, false, false, false)

  /** The local variables of parse_config. */
  datatype Parser = Parser(config: Config, protoc: Option<Section>, shardCount: int, mapNesting: int,
                           inDocument: bool, isKey: bool, pending: Pending, alwaysResolveDns: bool, expectShardMap: bool)

  const START := Parser(DEFAULT_CONFIG, None, -1, 0, false, false, NOTHING_PENDING, false, false)

  /** Going on, stopping at parse_err, or dereferencing the NULL `protoc`. */
  datatype Outcome = Going(p: Parser) | Failed | Crashed

  function SectionNamed(s: string): Option<Section> {
    if s == "carbon" then Some(Carbon) else if s == "statsd" then Some(Statsd) else None
  }

  /** set_boolean. */
  function Boolean(s: string): Option<bool> {
    if s == "true" then Some(true) else if s == "false" then Some(false) else None
  }

  /** max_send_queue: a long stored in a uint64_t; a failed conversion leaves 0 and is only logged. */
  function SendQueueLimit(num: Strtol, s: string): nat {
    match num(s)
    case Some(v) => v % 0x1_0000_0000_0000_0000
    case None => 0
  }

  function OnSectionName(p: Parser, s: string): Outcome {
    match SectionNamed(s)
    case None => Failed
    case Some(sec) => Going(p.(protoc := Some(sec), config := p.config.Set(sec, p.config.Get(sec).(initialized := true))))
  }

  datatype OptionName = Bind | MaxSendQueue | ShardMap | Validate | TcpCork | AlwaysResolveDns | Unknown

  function NameOf(s: string): OptionName {
    if s == "bind" then Bind
    else if s == "max_send_queue" then MaxSendQueue
    else if s == "shard_map" then ShardMap
    else if s == "validate" then Validate
    else if s == "tcp_cork" then TcpCork
    else if s == "always_resolve_dns" then AlwaysResolveDns
    else Unknown
  }

  function OnOptionKey(p: Parser, s: string): Parser {
    match NameOf(s)
    case Bind => p.(pending := p.pending.(bindAddress := true))
    case MaxSendQueue => p.(pending := p.pending.(sendQueue := true))
    case ShardMap => p.(shardCount := -1, expectShardMap := true)
    case Validate => p.(pending := p.pending.(validate := true))
    case TcpCork => p.(pending := p.pending.(tcpCork := true))
    case AlwaysResolveDns => p.(alwaysResolveDns := true)
    case Unknown => p
  }

  /** A NULL `protoc` is dereferenced by every assignment, but not by a set_boolean that fails. */
  function OnOptionValue(num: Strtol, p: Parser, s: string): Outcome {
    if p.pending == NOTHING_PENDING && !p.alwaysResolveDns then Going(p)
    else if !p.pending.bindAddress && !p.pending.sendQueue && Boolean(s).None? then Failed
    else if p.protoc.None? then Crashed
    else
      var sec := p.protoc.value;
      var pc := p.config.Get(sec);
      if p.pending.bindAddress then
        Going(p.(config := p.config.Set(sec, pc.(bindAddress := s)), pending := p.pending.(bindAddress := false)))
      else if p.pending.sendQueue then
        Going(p.(config := p.config.Set(sec, pc.(maxSendQueue := SendQueueLimit(num, s))), pending := p.pending.(sendQueue := false)))
      else
        var b := Boolean(s).value;
        if p.pending.validate then
          Going(p.(config := p.config.Set(sec, pc.(validate := b)), pending := p.pending.(validate := false)))
        else if p.pending.tcpCork then
          Going(p.(config := p.config.Set(sec, pc.(tcpCork := b)), pending := p.pending.(tcpCork := false)))
        else
          Going(p.(config := p.config.Set(sec, pc.(alwaysResolveDns := b))))
  }

  function OnShardScalar(num: Strtol, p: Parser, s: string): Outcome {
    if !p.expectShardMap then Failed
    else if p.isKey then
      if num(s) == Some(p.shardCount + 1) then Going(p.(shardCount := p.shardCount + 1)) else Failed
    else if p.protoc.None? then Crashed
    else
      var pc := p.config.Get(p.protoc.value);
      Going(p.(config := p.config.Set(p.protoc.value, pc.(ring := pc.ring + [s]))))
  }

  /** The switch on map_nesting. */
  function OnScalar(num: Strtol, p: Parser, s: string): Outcome {
    if p.mapNesting == 0 then Failed
    else if p.mapNesting == 1 then OnSectionName(p, s)
    else if p.mapNesting == 2 then (if p.isKey then Going(OnOptionKey(p, s)) else OnOptionValue(num, p, s))
    else if p.mapNesting == 3 then OnShardScalar(num, p, s)
    else Going(p)
  }

  /** One turn of the event loop, for every event but the one that ends it. */
  function Step(num: Strtol, p: Parser, ev: Event): Outcome {
    match ev
    case NoEvent | StreamStart | StreamEnd => Going(p)
    case DocumentStart => if p.inDocument then Failed else Going(p.(inDocument := true))
    case DocumentEnd => Going(p.(inDocument := false))
    case SequenceStart | SequenceEnd | Alias => Failed
    case MappingStart => Going(p.(isKey := true, mapNesting := p.mapNesting + 1))
    case MappingEnd => Going(p.(mapNesting := p.mapNesting - 1))
    case Scalar(s) =>
      var r := OnScalar(num, p, s);
      if r.Going? then Going(r.p.(isKey := !r.p.isKey)) else r
  }

  function Run(num: Strtol, p: Parser, evs: seq<Event>): Outcome
    decreases |evs|
  {
    if evs == [] then Going(p)
    else
      var r := Step(num, p, evs[0]);
      if r.Going? then Run(num, r.p, evs[1..]) else r
  }

  datatype Result = Parsed(config: Config) | ParseError | NullDereference

  /** The whole loop: it ends at STREAM-END; running out of events is a yaml_parser_parse error. */
  function Parse(num: Strtol, p: Parser, evs: seq<Event>): Result
    decreases |evs|
  {
    if evs == [] then ParseError
    else if evs[0] == StreamEnd then Parsed(p.config)
    else
      match Step(num, p, evs[0])
      case Going(q) => Parse(num, q, evs[1..])
      case Failed => ParseError
      case Crashed => NullDereference
  }

  /** The scalar case of the switch, nested by map_nesting. */
  method HandleScalar(num: Strtol, p: Parser, s: string) returns (r: Outcome)
    ensures r == OnScalar(num, p, s)
  {
    hide Boolean, SendQueueLimit;
    var q := p;
    match p.mapNesting {
      case 0 =>
        return Failed;
      case 1 =>
        var sec;
        if s == "carbon" {
          sec := Carbon;
        } else if s == "statsd" {
          sec := Statsd;
        } else {
          return Failed;
        }
        q := q.(protoc := Some(sec));
        q := q.(config := q.config.Set(sec, q.config.Get(sec).(initialized := true)));
      case 2 =>
        if p.isKey {
          match NameOf(s) {
            case Bind => q := q.(pending := q.pending.(bindAddress := true));
            case MaxSendQueue => q := q.(pending := q.pending.(sendQueue := true));
            case ShardMap => q := q.(shardCount := -1, expectShardMap := true);
            case Validate => q := q.(pending := q.pending.(validate := true));
            case TcpCork => q := q.(pending := q.pending.(tcpCork := true));
            case AlwaysResolveDns => q := q.(alwaysResolveDns := true);
            case Unknown =>
          }
        } else {
          r := HandleOptionValue(num, p, s);
          return;
        }
      case 3 =>
        if !p.expectShardMap {
          return Failed;
        } else if p.isKey {
          if num(s).None? {
            return Failed;
          }
          q := q.(shardCount := q.shardCount + 1);
          if num(s).value != q.shardCount {
            return Failed;
          }
        } else if p.protoc.None? {
          return Crashed;
        } else {
          var pc := q.config.Get(p.protoc.value);
          q := q.(config := q.config.Set(p.protoc.value, pc.(ring := pc.ring + [s])));
        }
      case _ =>
    }
    r := Going(q);
  }

  method HandleOptionValue(num: Strtol, p: Parser, s: string) returns (r: Outcome)
    ensures r == OnOptionValue(num, p, s)
  {
    hide Boolean, SendQueueLimit;
    var q := p;
    if p.pending.bindAddress {
      if p.protoc.None? {
        return Crashed;
      }
      q := q.(config := q.config.Set(p.protoc.value, q.config.Get(p.protoc.value).(bindAddress := s)));
      q := q.(pending := q.pending.(bindAddress := false));
    } else if p.pending.sendQueue {
      if p.protoc.None? {
        return Crashed;
      }
      q := q.(config := q.config.Set(p.protoc.value, q.config.Get(p.protoc.value).(maxSendQueue := SendQueueLimit(num, s))));
      q := q.(pending := q.pending.(sendQueue := false));
    } else if p.pending.validate || p.pending.tcpCork || p.alwaysResolveDns {
      var b := Boolean(s);
      if b.None? {
        return Failed;
      }
      if p.protoc.None? {
        return Crashed;
      }
      var pc := q.config.Get(p.protoc.value);
      if p.pending.validate {
        pc := pc.(validate := b.value);
        q := q.(pending := q.pending.(validate := false));
      } else if p.pending.tcpCork {
        pc := pc.(tcpCork := b.value);
        q := q.(pending := q.pending.(tcpCork := false));
      } else {
        pc := pc.(alwaysResolveDns := b.value);
      }
      q := q.(config := q.config.Set(p.protoc.value, pc));
    }
    r := Going(q);
  }

  /** parse_config. */
  method ParseConfig(num: Strtol, events: seq<Event>) returns (r: Result)
    ensures r == Parse(num, START, events)
  {
    var p := START;
    var i := 0;
    while i < |events|
      invariant i <= |events|
      invariant Parse(num, p, events[i..]) == Parse(num, START, events)
    {
      var ev := events[i];
      match ev {
        case NoEvent =>
        case StreamStart =>
        case StreamEnd =>
          return Parsed(p.config);
        case DocumentStart =>
          if p.inDocument {
            return ParseError;
          }
          p := p.(inDocument := true);
        case DocumentEnd =>
          p := p.(inDocument := false);
        case SequenceStart =>
          return ParseError;
        case SequenceEnd =>
          return ParseError;
        case Alias =>
          return ParseError;
        case MappingStart =>
          p := p.(isKey := true);
          p := p.(mapNesting := p.mapNesting + 1);
        case MappingEnd =>
          p := p.(mapNesting := p.mapNesting - 1);
        case Scalar(s) =>
          var r := HandleScalar(num, p, s);
          match r {
            case Going(q) => p := q;
            case Failed => return ParseError;
            case Crashed => return NullDereference;
          }
          p := p.(isKey := !p.isKey);
      }
      i := i + 1;
    }
    r := ParseError;
  }

  lemma {:induction false} RunConcat(num: Strtol, p: Parser, a: seq<Event>, b: seq<Event>)
    ensures var r := Run(num, p, a); Run(num, p, a + b) == if r.Going? then Run(num, r.p, b) else r
    decreases |a|
  {
    hide Step;
    if a == [] {
      assert a + b == b;
    } else {
      assert (a + b)[1..] == a[1..] + b;
      var r := Step(num, p, a[0]);
      if r.Going? {
        RunConcat(num, r.p, a[1..], b);
      }
    }
  }

  lemma {:induction false} ParseConcat(num: Strtol, p: Parser, a: seq<Event>, b: seq<Event>)
    requires StreamEnd !in a
    ensures Parse(num, p, a + b) ==
      match Run(num, p, a)
      case Going(q) => Parse(num, q, b)
      case Failed => ParseError
      case Crashed => NullDereference
    decreases |a|
  {
    hide Step;
    if a == [] {
      assert a + b == b;
    } else {
      assert (a + b)[1..] == a[1..] + b;
      var r := Step(num, p, a[0]);
      if r.Going? {
        ParseConcat(num, r.p, a[1..], b);
      }
    }
  }

  // ----- Without the boolean and the counter -----

  /** The parser at a key or a value of a mapping at `depth`. */
  function At(p: Parser, isKey: bool, depth: nat): Parser {
    p.(isKey := isKey, mapNesting := depth)
  }

  /**
   * The same switch applied by recursion over the document, which knows by itself where the
   * keys are and how deep it is. Only the other flags are threaded through.
   */
  function WalkNode(num: Strtol, p: Parser, n: Node, depth: nat): Outcome
    decreases n
  {
    match n
    case Leaf(s) => OnScalar(num, At(p, false, depth), s)
    case Map(es) => WalkEntries(num, p, es, depth + 1)
  }

  function WalkEntries(num: Strtol, p: Parser, es: Entries, depth: nat): Outcome
    decreases es
  {
    match es
    case End => Going(p)
    case Entry(key, value, rest) =>
      var r := OnScalar(num, At(p, true, depth), key);
      if !r.Going? then r
      else
        var v := WalkNode(num, r.p, value, depth);
        if v.Going? then WalkEntries(num, v.p, rest, depth) else v
  }

  function WalkDocuments(num: Strtol, p: Parser, docs: seq<Node>): Outcome
    decreases |docs|
  {
    if docs == [] then Going(p)
    else
      var r := WalkNode(num, p.(inDocument := true), docs[0], 0);
      if r.Going? then WalkDocuments(num, At(r.p, true, 0).(inDocument := false), docs[1..]) else r
  }

  /** The event loop's outcome is the walk's, with is_key true and map_nesting back at `depth`. */
  ghost predicate Realises(run: Outcome, walk: Outcome, depth: nat) {
    if walk.Going? then run == Going(At(walk.p, true, depth)) else run == walk
  }

  lemma RunOne(num: Strtol, p: Parser, a: Event)
    ensures Run(num, p, [a]) == Step(num, p, a)
  {
    hide Step;
    assert [a][1..] == [];
  }

  lemma RunCons(num: Strtol, p: Parser, a: Event, evs: seq<Event>)
    ensures var r := Step(num, p, a);
      Run(num, p, [a] + evs) == if r.Going? then Run(num, r.p, evs) else r
  {
    hide Step;
    assert ([a] + evs)[1..] == evs;
  }

  lemma ScalarStep(num: Strtol, p: Parser, isKey: bool, depth: nat, s: string)
    ensures var r := OnScalar(num, At(p, isKey, depth), s);
      Step(num, At(p, isKey, depth), Scalar(s)) == if r.Going? then Going(At(r.p, !isKey, depth)) else r
  {
    hide NameOf, Boolean, SectionNamed;
    ScalarKeeps(num, At(p, isKey, depth), s);
  }

  lemma ScalarKeeps(num: Strtol, p: Parser, s: string)
    ensures var r := OnScalar(num, p, s); r.Going? ==> r.p.isKey == p.isKey && r.p.mapNesting == p.mapNesting
  {
    hide NameOf, Boolean, SectionNamed;
  }

  lemma {:induction false} NodeWalks(num: Strtol, p: Parser, n: Node, depth: nat)
    ensures Realises(Run(num, At(p, false, depth), NodeEvents(n)), WalkNode(num, p, n, depth), depth)
    decreases n
  {
    hide OnScalar, Step, Run;
    match n
    case Leaf(s) =>
      RunOne(num, At(p, false, depth), Scalar(s));
      ScalarStep(num, p, false, depth, s);
    case Map(es) => MappingWalks(num, p, false, es, depth);
  }

  lemma {:induction false} MappingWalks(num: Strtol, p: Parser, isKey: bool, es: Entries, depth: nat)
    ensures Realises(Run(num, At(p, isKey, depth), NodeEvents(Map(es))), WalkEntries(num, p, es, depth + 1), depth)
    decreases es, 1
  {
    hide OnScalar, Run, WalkEntries, EntryEvents;
    var inner := At(p, true, depth + 1);
    RunCons(num, At(p, isKey, depth), MappingStart, EntryEvents(es) + [MappingEnd]);
    EntriesWalk(num, p, es, depth + 1);
    RunConcat(num, inner, EntryEvents(es), [MappingEnd]);
    var r := Run(num, inner, EntryEvents(es));
    if r.Going? {
      RunOne(num, r.p, MappingEnd);
    }
  }

  lemma {:induction false} EntriesWalk(num: Strtol, p: Parser, es: Entries, depth: nat)
    ensures Realises(Run(num, At(p, true, depth), EntryEvents(es)), WalkEntries(num, p, es, depth), depth)
    decreases es, 0
  {
    match es
    case End =>
    case Entry(key, value, rest) =>
      hide OnScalar, Step, Run, NodeEvents, WalkNode;
      RunCons(num, At(p, true, depth), Scalar(key), NodeEvents(value) + EntryEvents(rest));
      ScalarStep(num, p, true, depth, key);
      var r := OnScalar(num, At(p, true, depth), key);
      if r.Going? {
        NodeWalks(num, r.p, value, depth);
        RunConcat(num, At(r.p, false, depth), NodeEvents(value), EntryEvents(rest));
        var v := WalkNode(num, r.p, value, depth);
        if v.Going? {
          EntriesWalk(num, v.p, rest, depth);
        }
      }
  }

  /** A whole document, whatever is_key was left at by the one before it. */
  lemma RootWalks(num: Strtol, p: Parser, root: Node)
    requires p.mapNesting == 0
    ensures Realises(Run(num, p, NodeEvents(root)), WalkNode(num, p, root, 0), 0)
  {
    hide Run;
    match root
    case Leaf(s) => RunOne(num, p, Scalar(s));
    case Map(es) =>
      assert At(p, p.isKey, 0) == p;
      MappingWalks(num, p, p.isKey, es, 0);
  }

  lemma {:induction false} NoStreamEnd(n: Node)
    ensures StreamEnd !in NodeEvents(n)
  {
    if n.Map? {
      NoStreamEndIn(n.entries);
    }
  }

  lemma {:induction false} NoStreamEndIn(es: Entries)
    ensures StreamEnd !in EntryEvents(es)
  {
    if es.Entry? {
      NoStreamEnd(es.value);
      NoStreamEndIn(es.rest);
    }
  }

  function ResultOf(o: Outcome): Result {
    match o
    case Going(p) => Parsed(p.config)
    case Failed => ParseError
    case Crashed => NullDereference
  }

  lemma {:induction false} DocumentsWalk(num: Strtol, p: Parser, docs: seq<Node>)
    requires p.mapNesting == 0 && !p.inDocument
    ensures Parse(num, p, DocumentEvents(docs) + [StreamEnd]) == ResultOf(WalkDocuments(num, p, docs))
    decreases |docs|
  {
    if docs == [] {
      assert DocumentEvents(docs) + [StreamEnd] == [StreamEnd];
    } else {
      hide Run, WalkNode, Step, NodeEvents, DocumentEvents;
      OneDocument(num, p, docs[0], DocumentEvents(docs[1..]) + [StreamEnd]);
      assert DocumentEvents(docs) + [StreamEnd] ==
        [DocumentStart] + (NodeEvents(docs[0]) + ([DocumentEnd] + (DocumentEvents(docs[1..]) + [StreamEnd]))) by {
        DocumentEventsStep(docs);
      }
      var r := WalkNode(num, p.(inDocument := true), docs[0], 0);
      if r.Going? {
        DocumentsWalk(num, At(r.p, true, 0).(inDocument := false), docs[1..]);
      }
    }
  }

  lemma DocumentEventsStep(docs: seq<Node>)
    requires docs != []
    ensures DocumentEvents(docs) == [DocumentStart] + (NodeEvents(docs[0]) + ([DocumentEnd] + DocumentEvents(docs[1..])))
  {}

  lemma OneDocument(num: Strtol, p: Parser, root: Node, more: seq<Event>)
    requires p.mapNesting == 0 && !p.inDocument
    ensures var r := WalkNode(num, p.(inDocument := true), root, 0);
      Parse(num, p, [DocumentStart] + (NodeEvents(root) + ([DocumentEnd] + more))) ==
      if r.Going? then Parse(num, At(r.p, true, 0).(inDocument := false), more) else ResultOf(r)
  {
    hide Run, WalkNode, NodeEvents, OnScalar;
    var q := p.(inDocument := true);
    var evs := NodeEvents(root) + ([DocumentEnd] + more);
    assert ([DocumentStart] + evs)[1..] == evs;
    assert ([DocumentEnd] + more)[1..] == more;
    NoStreamEnd(root);
    ParseConcat(num, q, NodeEvents(root), [DocumentEnd] + more);
    RootWalks(num, q, root);
  }

  /**
   * For every stream of documents with scalar keys, errors included, the event loop with its
   * boolean and its counter computes the recursive walk that needs neither.
   */
  lemma ParseIsWalk(num: Strtol, docs: seq<Node>)
    ensures Parse(num, START, Stream(docs)) == ResultOf(WalkDocuments(num, START, docs))
  {
    hide WalkDocuments;
    var evs := DocumentEvents(docs) + [StreamEnd];
    assert ([StreamStart] + evs)[1..] == evs;
    DocumentsWalk(num, START, docs);
  }
}
