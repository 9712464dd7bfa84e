/**
 * What the flags of yaml_config.c make of any file with scalar keys: which files are accepted,
 * and what is written where. Neither needs the configuration to decide acceptance.
 */
module YamlFlags {
  import opened Bytes
  import opened YamlConfig
  import opened YamlReading

  /**
   * What is remembered between two options: the values waited for, whether always_resolve_dns
   * has been seen, and the number of the next shard once a shard_map has been seen.
   */
  datatype Memory = Memory(pending: Pending, seen: bool, next: Option<nat>)

  const NO_MEMORY := Memory(NOTHING_PENDING, false, None)

  function AfterKey(m: Memory, name: OptionName): Memory {
    match name
    case Bind => m.(pending := m.pending.(bindAddress := true))
    case MaxSendQueue => m.(pending := m.pending.(sendQueue := true))
    case ShardMap => m.(next := Some(0))
    case Validate => m.(pending := m.pending.(validate := true))
    case TcpCork => m.(pending := m.pending.(tcpCork := true))
    case AlwaysResolveDns => m.(seen := true)
    case Unknown => m
  }

  /** The option that a scalar value is taken for, whatever its own key. */
  function Taker(m: Memory): OptionName {
    if m.pending.bindAddress then Bind
    else if m.pending.sendQueue then MaxSendQueue
    else if m.pending.validate then Validate
    else if m.pending.tcpCork then TcpCork
    else if m.seen then AlwaysResolveDns
    else Unknown
  }

  function Served(m: Memory): Memory {
    match Taker(m)
    case Bind => m.(pending := m.pending.(bindAddress := false))
    case MaxSendQueue => m.(pending := m.pending.(sendQueue := false))
    case Validate => m.(pending := m.pending.(validate := false))
    case TcpCork => m.(pending := m.pending.(tcpCork := false))
    case _ => m
  }

  // ----- Which files are accepted -----

  /** The keys are n, n + 1, ...; the values may be anything. */
  predicate Numbered(num: Strtol, n: nat, es: Entries)
    decreases es
  {
    es.Entry? ==> num(es.key) == Some(n) && Numbered(num, n + 1, es.rest)
  }

  function Length(es: Entries): nat {
    if es.End? then 0 else 1 + Length(es.rest)
  }

  /** A value taken for a boolean must be one; a mapping must go on with the last shard_map. */
  predicate OptionOk(num: Strtol, m: Memory, key: string, value: Node) {
    var k := AfterKey(m, NameOf(key));
    match value
    case Leaf(s) => Taker(k) in {Validate, TcpCork, AlwaysResolveDns} ==> Boolean(s).Some?
    case Map(shards) => shards.Entry? ==> k.next.Some? && Numbered(num, k.next.value, shards)
  }

  function AfterOption(m: Memory, key: string, value: Node): Memory {
    var k := AfterKey(m, NameOf(key));
    match value
    case Leaf(_) => Served(k)
    case Map(shards) => if k.next.Some? then k.(next := Some(k.next.value + Length(shards))) else k
  }

  predicate OptionsOk(num: Strtol, m: Memory, es: Entries)
    decreases es
  {
    es.Entry? ==> OptionOk(num, m, es.key, es.value) && OptionsOk(num, AfterOption(m, es.key, es.value), es.rest)
  }

  function AfterOptions(m: Memory, es: Entries): Memory
    decreases es
  {
    match es
    case End => m
    case Entry(key, value, rest) => AfterOptions(AfterOption(m, key, value), rest)
  }

  /** A scalar in the place of a section must name a section. */
  predicate SectionOk(num: Strtol, m: Memory, key: string, value: Node) {
    SectionNamed(key).Some? &&
    match value
    case Leaf(s) => SectionNamed(s).Some?
    case Map(options) => OptionsOk(num, m, options)
  }

  function AfterSection(m: Memory, value: Node): Memory {
    match value
    case Leaf(_) => m
    case Map(options) => AfterOptions(m, options)
  }

  predicate SectionsOk(num: Strtol, m: Memory, es: Entries)
    decreases es
  {
    es.Entry? ==> SectionOk(num, m, es.key, es.value) && SectionsOk(num, AfterSection(m, es.value), es.rest)
  }

  function AfterSections(m: Memory, es: Entries): Memory
    decreases es
  {
    match es
    case End => m
    case Entry(_, value, rest) => AfterSections(AfterSection(m, value), rest)
  }

  ghost predicate Acceptable(num: Strtol, docs: seq<Node>) {
    (forall d :: d in docs ==> d.Map?) && SectionsOk(num, NO_MEMORY, Sections(docs))
  }

  // ----- What an accepted file writes -----

  /** The scalar values of a mapping. */
  function Texts(es: Entries): seq<string> {
    match es
    case End => []
    case Entry(_, value, rest) => (if value.Leaf? then [value.s] else []) + Texts(rest)
  }

  function WriteOption(num: Strtol, m: Memory, pc: ProtoConfig, key: string, value: Node): ProtoConfig {
    match value
    case Leaf(s) =>
      var r := ReadScalarOption(num, pc, Taker(AfterKey(m, NameOf(key))), s);
      if r.Some? then r.value else pc
    case Map(shards) => pc.(ring := pc.ring + Texts(shards))
  }

  function WriteOptions(num: Strtol, m: Memory, pc: ProtoConfig, es: Entries): ProtoConfig
    decreases es
  {
    match es
    case End => pc
    case Entry(key, value, rest) => WriteOptions(num, AfterOption(m, key, value), WriteOption(num, m, pc, key, value), rest)
  }

  function Begin(config: Config, name: string): Config {
    match SectionNamed(name)
    case None => config
    case Some(sec) => config.Set(sec, config.Get(sec).(initialized := true))
  }

  function WriteSection(num: Strtol, m: Memory, config: Config, key: string, value: Node): Config {
    var begun := Begin(config, key);
    match value
    case Leaf(s) => Begin(begun, s)
    case Map(options) =>
      match SectionNamed(key)
      case None => begun
      case Some(sec) => begun.Set(sec, WriteOptions(num, m, begun.Get(sec), options))
  }

  function WriteSections(num: Strtol, m: Memory, config: Config, es: Entries): Config
    decreases es
  {
    match es
    case End => config
    case Entry(key, value, rest) => WriteSections(num, AfterSection(m, value), WriteSection(num, m, config, key, value), rest)
  }

  // ----- The walk does exactly that -----

  ghost predicate Alive(p: Parser) {
    -1 <= p.shardCount
  }

  ghost function MemoryOf(p: Parser): Memory
    requires Alive(p)
  {
    Memory(p.pending, p.alwaysResolveDns, if p.expectShardMap then Some(p.shardCount + 1) else None)
  }

  /** The outcome of a walk from p: failure, or this memory and this configuration. */
  ghost predicate Comes(p: Parser, r: Outcome, ok: bool, m: Memory, config: Config) {
    if !ok then r == Failed
    else r.Going? && Alive(r.p) && MemoryOf(r.p) == m && r.p.config == config && r.p.inDocument == p.inDocument
  }

  /** Two parsers that differ at most in is_key and map_nesting. */
  ghost predicate Alike(p: Parser, q: Parser) {
    At(p, true, 0) == At(q, true, 0)
  }

  /** Below the shards nothing is looked at. */
  lemma {:induction false} DeepNode(num: Strtol, p: Parser, n: Node, depth: nat)
    requires 3 < depth || (depth == 3 && n.Map?)
    ensures var r := WalkNode(num, p, n, depth); r.Going? && Alike(r.p, p)
    decreases n, 1
  {
    if n.Map? {
      DeepEntries(num, p, n.entries, depth + 1);
    }
  }

  lemma {:induction false} DeepEntries(num: Strtol, p: Parser, es: Entries, depth: nat)
    requires 3 < depth
    ensures var r := WalkEntries(num, p, es, depth); r.Going? && Alike(r.p, p)
    decreases es, 0
  {
    if es.Entry? {
      var q := OnScalar(num, At(p, true, depth), es.key).p;
      DeepNode(num, q, es.value, depth);
      DeepEntries(num, WalkNode(num, q, es.value, depth).p, es.rest, depth);
    }
  }

  /** The parser after the shards below n, of which these had a scalar. */
  ghost function AfterShards(p: Parser, n: nat, vs: seq<string>): Parser
    requires p.protoc.Some?
  {
    var pc := p.config.Get(p.protoc.value);
    p.(shardCount := n - 1, config := p.config.Set(p.protoc.value, pc.(ring := pc.ring + vs)))
  }

  /** Key and value of one entry. */
  function WalkEntry(num: Strtol, p: Parser, key: string, value: Node, depth: nat): Outcome {
    var r := OnScalar(num, At(p, true, depth), key);
    if r.Going? then WalkNode(num, r.p, value, depth) else r
  }

  lemma WalkEntryFirst(num: Strtol, p: Parser, key: string, value: Node, rest: Entries, depth: nat)
    ensures var r := WalkEntry(num, p, key, value, depth);
      WalkEntries(num, p, Entry(key, value, rest), depth) == if r.Going? then WalkEntries(num, r.p, rest, depth) else r
  {
    hide OnScalar, WalkNode;
  }

  lemma ShardStep(num: Strtol, p: Parser, n: nat, key: string, value: Node)
    requires p.expectShardMap && p.protoc.Some? && p.shardCount == n - 1
    ensures var r := WalkEntry(num, p, key, value, 3);
      if num(key) != Some(n) then r == Failed
      else r.Going? && Alike(r.p, AfterShards(p, n + 1, if value.Leaf? then [value.s] else []))
  {
    var pc := p.config.Get(p.protoc.value);
    assert pc.ring + [] == pc.ring;
    if num(key) == Some(n) && value.Map? {
      hide WalkEntries;
      DeepNode(num, OnScalar(num, At(p, true, 3), key).p, value, 3);
    }
  }

  lemma AfterShardsTwice(p: Parser, q: Parser, m: nat, n: nat, vs: seq<string>, ws: seq<string>)
    requires p.protoc.Some? && Alike(q, AfterShards(p, m, vs))
    ensures Alike(AfterShards(q, n, ws), AfterShards(p, n, vs + ws))
  {
    var pc := p.config.Get(p.protoc.value);
    assert (pc.ring + vs) + ws == pc.ring + (vs + ws);
  }

  lemma {:induction false} ShardsRead(num: Strtol, p: Parser, n: nat, es: Entries)
    requires p.expectShardMap && p.protoc.Some? && p.shardCount == n - 1
    ensures var r := WalkEntries(num, p, es, 3);
      if !Numbered(num, n, es) then r == Failed
      else r.Going? && Alike(r.p, AfterShards(p, n + Length(es), Texts(es)))
    decreases es
  {
    match es
    case End => assert p.config.Get(p.protoc.value).ring + [] == p.config.Get(p.protoc.value).ring;
    case Entry(key, value, rest) =>
      hide WalkEntries, WalkEntry;
      ShardStep(num, p, n, key, value);
      WalkEntryFirst(num, p, key, value, rest, 3);
      if num(key) == Some(n) {
        var q := WalkEntry(num, p, key, value, 3).p;
        ShardsRead(num, q, n + 1, rest);
        AfterShardsTwice(p, q, n + 1, n + 1 + Length(rest), if value.Leaf? then [value.s] else [], Texts(rest));
      }
  }

  /** The walk in a section: failure, or the memory and the settings it ends with. */
  ghost predicate ComesIn(p: Parser, r: Outcome, ok: bool, m: Memory, pc: ProtoConfig)
    requires p.protoc.Some?
  {
    Comes(p, r, ok, m, p.config.Set(p.protoc.value, pc)) && (ok ==> r.p.protoc == p.protoc)
  }

  lemma OptionKey(num: Strtol, p: Parser, key: string)
    requires Alive(p)
    ensures var r := OnScalar(num, At(p, true, 2), key);
      r.Going? && Alive(r.p) && MemoryOf(r.p) == AfterKey(MemoryOf(p), NameOf(key)) && r.p.config == p.config &&
      r.p.protoc == p.protoc && r.p.inDocument == p.inDocument
  {
    hide NameOf;
  }

  lemma OptionScalar(num: Strtol, p: Parser, s: string)
    requires Alive(p) && p.protoc.Some?
    ensures var m := MemoryOf(p);
      var pc := ReadScalarOption(num, p.config.Get(p.protoc.value), Taker(m), s);
      ComesIn(p, OnScalar(num, At(p, false, 2), s), pc.Some?, Served(m), if pc.Some? then pc.value else p.config.Get(p.protoc.value))
  {
    hide Boolean, SendQueueLimit;
  }

  lemma ScalarAccepted(num: Strtol, pc: ProtoConfig, m: Memory, s: string)
    ensures ReadScalarOption(num, pc, Taker(m), s).Some? <==> (Taker(m) in {Validate, TcpCork, AlwaysResolveDns} ==> Boolean(s).Some?)
  {
    hide Boolean, SendQueueLimit;
  }

  lemma OptionShards(num: Strtol, p: Parser, es: Entries)
    requires Alive(p) && p.protoc.Some?
    ensures var m, pc := MemoryOf(p), p.config.Get(p.protoc.value);
      ComesIn(p, WalkEntries(num, p, es, 3), es.Entry? ==> m.next.Some? && Numbered(num, m.next.value, es),
              if m.next.Some? then m.(next := Some(m.next.value + Length(es))) else m, pc.(ring := pc.ring + Texts(es)))
  {
    hide WalkEntries, Numbered, Texts, Length;
    if es.End? {
      NoShards(num, p);
    } else if p.expectShardMap {
      ShardsRead(num, p, p.shardCount + 1, es);
    } else {
      UnexpectedShards(num, p, es);
    }
  }

  lemma NoShards(num: Strtol, p: Parser)
    requires p.protoc.Some?
    ensures var pc := p.config.Get(p.protoc.value);
      pc.(ring := pc.ring + Texts(End)) == pc && Length(End) == 0 && p.config.Set(p.protoc.value, pc) == p.config
    ensures WalkEntries(num, p, End, 3) == Going(p)
  {
    var pc := p.config.Get(p.protoc.value);
    assert pc.ring + [] == pc.ring;
  }

  lemma UnexpectedShards(num: Strtol, p: Parser, es: Entries)
    requires es.Entry? && !p.expectShardMap
    ensures WalkEntries(num, p, es, 3) == Failed
  {}

  lemma OptionReads(num: Strtol, p: Parser, key: string, value: Node)
    requires Alive(p) && p.protoc.Some?
    ensures var m, pc := MemoryOf(p), p.config.Get(p.protoc.value);
      ComesIn(p, WalkEntry(num, p, key, value, 2), OptionOk(num, m, key, value), AfterOption(m, key, value),
              WriteOption(num, m, pc, key, value))
  {
    hide OnScalar, WalkEntries, NameOf, AfterKey, Taker, Served, ReadScalarOption, Boolean, Numbered, Texts, Length;
    OptionKey(num, p, key);
    var q := OnScalar(num, At(p, true, 2), key).p;
    match value
    case Leaf(s) =>
      OptionScalar(num, q, s);
      ScalarAccepted(num, p.config.Get(p.protoc.value), MemoryOf(q), s);
    case Map(es) => OptionShards(num, q, es);
  }

  lemma {:induction false} OptionsRead(num: Strtol, p: Parser, es: Entries)
    requires Alive(p) && p.protoc.Some?
    ensures var m, pc := MemoryOf(p), p.config.Get(p.protoc.value);
      ComesIn(p, WalkEntries(num, p, es, 2), OptionsOk(num, m, es), AfterOptions(m, es), WriteOptions(num, m, pc, es))
    decreases es
  {
    match es
    case End =>
    case Entry(key, value, rest) =>
      hide WalkEntries, WalkEntry, OptionOk, AfterOption, WriteOption;
      WalkEntryFirst(num, p, key, value, rest, 2);
      OptionReads(num, p, key, value);
      var r := WalkEntry(num, p, key, value, 2);
      if r.Going? {
        OptionsRead(num, r.p, rest);
      }
  }

  lemma SectionReads(num: Strtol, p: Parser, key: string, value: Node)
    requires Alive(p)
    ensures var m := MemoryOf(p);
      Comes(p, WalkEntry(num, p, key, value, 1), SectionOk(num, m, key, value), AfterSection(m, value),
            WriteSection(num, m, p.config, key, value))
  {
    hide WalkEntries, OptionsOk, AfterOptions, WriteOptions, SectionNamed;
    if value.Map? && SectionNamed(key).Some? {
      OptionsRead(num, OnScalar(num, At(p, true, 1), key).p, value.entries);
    }
  }

  lemma {:induction false} SectionsRead(num: Strtol, p: Parser, es: Entries)
    requires Alive(p)
    ensures var m := MemoryOf(p);
      Comes(p, WalkEntries(num, p, es, 1), SectionsOk(num, m, es), AfterSections(m, es), WriteSections(num, m, p.config, es))
    decreases es
  {
    match es
    case End =>
    case Entry(key, value, rest) =>
      hide WalkEntries, WalkEntry, SectionOk, AfterSection, WriteSection;
      WalkEntryFirst(num, p, key, value, rest, 1);
      SectionReads(num, p, key, value);
      var r := WalkEntry(num, p, key, value, 1);
      if r.Going? {
        SectionsRead(num, r.p, rest);
      }
  }

  lemma {:induction false} SectionsConcat(num: Strtol, m: Memory, config: Config, a: Entries, b: Entries)
    ensures AfterSections(m, Append(a, b)) == AfterSections(AfterSections(m, a), b)
    ensures SectionsOk(num, m, Append(a, b)) <==> SectionsOk(num, m, a) && SectionsOk(num, AfterSections(m, a), b)
    ensures WriteSections(num, m, config, Append(a, b)) ==
      WriteSections(num, AfterSections(m, a), WriteSections(num, m, config, a), b)
    decreases a
  {
    hide SectionOk, AfterSection, WriteSection;
    if a.Entry? {
      SectionsConcat(num, AfterSection(m, a.value), WriteSection(num, m, config, a.key, a.value), a.rest, b);
    }
  }

  /** A root that is no mapping is rejected, unless something before it has been. */
  lemma {:induction false} ScalarRootFails(num: Strtol, p: Parser, docs: seq<Node>)
    requires Alive(p) && exists d :: d in docs && !d.Map?
    ensures WalkDocuments(num, p, docs) == Failed
    decreases |docs|
  {
    hide WalkEntries, SectionsOk, WriteSections, AfterSections;
    if docs[0].Map? {
      SectionsRead(num, p.(inDocument := true), docs[0].entries);
      var r := WalkNode(num, p.(inDocument := true), docs[0], 0);
      if r.Going? {
        var d :| d in docs && !d.Map?;
        assert d in docs[1..];
        ScalarRootFails(num, At(r.p, true, 0).(inDocument := false), docs[1..]);
      }
    }
  }

  lemma NoSections(num: Strtol, m: Memory, config: Config)
    ensures SectionsOk(num, m, End) && WriteSections(num, m, config, End) == config
  {}

  lemma {:induction false} DocumentsRead(num: Strtol, p: Parser, docs: seq<Node>)
    requires Alive(p) && forall d :: d in docs ==> d.Map?
    ensures var m, es := MemoryOf(p), Sections(docs);
      ResultOf(WalkDocuments(num, p, docs)) ==
      if SectionsOk(num, m, es) then Parsed(WriteSections(num, m, p.config, es)) else ParseError
    decreases |docs|
  {
    hide WalkEntries, SectionsOk, WriteSections, AfterSections, Append;
    if docs == [] {
      NoSections(num, MemoryOf(p), p.config);
    } else {
      var es := docs[0].entries;
      assert docs[0] in docs && forall d :: d in docs[1..] ==> d in docs;
      SectionsRead(num, p.(inDocument := true), es);
      SectionsConcat(num, MemoryOf(p), p.config, es, Sections(docs[1..]));
      var r := WalkNode(num, p.(inDocument := true), docs[0], 0);
      if r.Going? {
        DocumentsRead(num, At(r.p, true, 0).(inDocument := false), docs[1..]);
      }
    }
  }

  /**
   * For every stream of documents with scalar keys: the parser accepts exactly the acceptable
   * ones, and its configuration is what they write.
   */
  lemma ParserReads(num: Strtol, docs: seq<Node>)
    ensures Parse(num, START, Stream(docs)) ==
      if Acceptable(num, docs) then Parsed(WriteSections(num, NO_MEMORY, DEFAULT_CONFIG, Sections(docs))) else ParseError
  {
    hide Parse, WalkDocuments, SectionsOk, WriteSections, Sections;
    ParseIsWalk(num, docs);
    if forall d :: d in docs ==> d.Map? {
      DocumentsRead(num, START, docs);
    } else {
      ScalarRootFails(num, START, docs);
    }
  }
}
