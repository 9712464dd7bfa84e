/**
 * The configuration file in its own words: the names of sections and options, the booleans, the
 * numbers and the defaults written out, against what the parser makes of a file.
 */
module ConfigLaws {
  import opened Bytes
  import opened YamlConfig
  import opened YamlReading
  import opened YamlFlags
  import opened YamlLeaks

  // ----- The format -----

  /** A uint64_t takes the number modulo 2^64; what is no number counts as 0. */
  function StoredNumber(num: Strtol, v: string): nat {
    match num(v)
    case Some(x) => x % 18446744073709551616
    case None => 0
  }

  /** A section not mentioned in the file, and one mentioned without options. */
  const CARBON_DEFAULT := ProtoConfig(false, "127.0.0.1:2003", true, true, false, 134217728, [])
  const STATSD_DEFAULT := ProtoConfig(false, "127.0.0.1:8125", true, true, false, 134217728, [])

  function Shards(num: Strtol, n: nat, es: Entries): Option<seq<string>>
    decreases es
  {
    match es
    case End => Some([])
    case Entry(key, value, rest) =>
      if num(key) != Some(n) || value.Map? then None
      else
        match Shards(num, n + 1, rest)
        case None => None
        case Some(vs) => Some([value.s] + vs)
  }

  /** One option: the one field that its name stands for. */
  function Option1(num: Strtol, pc: ProtoConfig, key: string, value: Node): Option<ProtoConfig> {
    match value
    case Map(es) =>
      if key != "shard_map" || Shards(num, 0, es).None? then None
      else Some(pc.(ring := pc.ring + Shards(num, 0, es).value))
    case Leaf(v) =>
      if key == "bind" then Some(pc.(bindAddress := v))
      else if key == "max_send_queue" then Some(pc.(maxSendQueue := StoredNumber(num, v)))
      else if key == "shard_map" then None
      else if key == "validate" && v == "true" then Some(pc.(validate := true))
      else if key == "validate" && v == "false" then Some(pc.(validate := false))
      else if key == "tcp_cork" && v == "true" then Some(pc.(tcpCork := true))
      else if key == "tcp_cork" && v == "false" then Some(pc.(tcpCork := false))
      else if key == "always_resolve_dns" && v == "true" then Some(pc.(alwaysResolveDns := true))
      else if key == "always_resolve_dns" && v == "false" then Some(pc.(alwaysResolveDns := false))
      else if key == "validate" || key == "tcp_cork" || key == "always_resolve_dns" then None
      else Some(pc)
  }

  function Options(num: Strtol, pc: ProtoConfig, es: Entries): Option<ProtoConfig>
    decreases es
  {
    match es
    case End => Some(pc)
    case Entry(key, value, rest) =>
      match Option1(num, pc, key, value)
      case None => None
      case Some(pc') => Options(num, pc', rest)
  }

  function SectionsOf(num: Strtol, config: Config, es: Entries): Option<Config>
    decreases es
  {
    match es
    case End => Some(config)
    case Entry(key, Leaf(_), _) => None
    case Entry(key, Map(options), rest) =>
      if key == "carbon" then
        match Options(num, config.carbon.(initialized := true), options)
        case None => None
        case Some(pc) => SectionsOf(num, Config(pc, config.statsd), rest)
      else if key == "statsd" then
        match Options(num, config.statsd.(initialized := true), options)
        case None => None
        case Some(pc) => SectionsOf(num, Config(config.carbon, pc), rest)
      else None
  }

  function File(num: Strtol, docs: seq<Node>): Result {
    if exists d :: d in docs && d.Leaf? then ParseError
    else
      match SectionsOf(num, Config(CARBON_DEFAULT, STATSD_DEFAULT), Sections(docs))
      case None => ParseError
      case Some(config) => Parsed(config)
  }

  // ----- The reading is the format -----

  lemma {:induction false} ShardsAre(num: Strtol, n: nat, es: Entries)
    ensures ReadShards(num, n, es) == Shards(num, n, es)
    decreases es
  {
    if es.Entry? {
      ShardsAre(num, n + 1, es.rest);
    }
  }

  lemma OptionIs(num: Strtol, pc: ProtoConfig, key: string, value: Node)
    ensures ReadOption(num, pc, NameOf(key), value) == Option1(num, pc, key, value)
  {
    hide ReadShards, Shards;
    if value.Map? {
      ShardsAre(num, 0, value.entries);
    } else {
      ScalarOptionIs(num, pc, key, value.s);
    }
  }

  lemma ScalarOptionIs(num: Strtol, pc: ProtoConfig, key: string, v: string)
    ensures ReadOption(num, pc, NameOf(key), Leaf(v)) == Option1(num, pc, key, Leaf(v))
  {}

  /** The options the parser does not know are all but six. */
  lemma UnknownIs(key: string)
    ensures NameOf(key) == Unknown <==>
      key !in {"bind", "max_send_queue", "shard_map", "validate", "tcp_cork", "always_resolve_dns"}
  {}

  lemma {:induction false} OptionsAre(num: Strtol, pc: ProtoConfig, es: Entries)
    ensures ReadOptions(num, pc, es) == Options(num, pc, es)
    decreases es
  {
    if es.Entry? {
      hide ReadOption, Option1, NameOf;
      OptionIs(num, pc, es.key, es.value);
      var r := Option1(num, pc, es.key, es.value);
      if r.Some? {
        OptionsAre(num, r.value, es.rest);
      }
    }
  }

  lemma {:induction false} SectionsAre(num: Strtol, config: Config, es: Entries)
    ensures ReadSections(num, config, es) == SectionsOf(num, config, es)
    decreases es
  {
    if es.Entry? && SectionNamed(es.key).Some? && es.value.Map? {
      hide ReadOptions, Options;
      var sec := SectionNamed(es.key).value;
      var pc := config.Get(sec).(initialized := true);
      OptionsAre(num, pc, es.value.entries);
      if Options(num, pc, es.value.entries).Some? {
        SectionsAre(num, config.Set(sec, Options(num, pc, es.value.entries).value), es.rest);
      }
    }
  }

  /** The recursive reading, which the parser is compared with, is the format. */
  lemma ReadingIsFile(num: Strtol, docs: seq<Node>)
    ensures ReadConfig(num, docs) == File(num, docs)
  {
    hide ReadSections, SectionsOf, Sections;
    if forall d :: d in docs ==> d.Map? {
      SectionsAre(num, DEFAULT_CONFIG, Sections(docs));
    }
  }

  /** So wherever the parser agrees with the reading, it agrees with the format. */
  lemma ParserReadsFile(num: Strtol, docs: seq<Node>)
    requires PlainDocuments(docs) && Harmless(docs)
    ensures Parse(num, START, Stream(docs)) == File(num, docs)
  {
    hide Parse, ReadConfig, File, Harmless;
    ReadingIsFile(num, docs);
    PlainParserAgreesIff(num, docs);
  }

  // ----- One option at a time -----

  predicate IsBoolean(v: string) { v == "true" || v == "false" }

  predicate BooleanOption(key: string) {
    key == "validate" || key == "tcp_cork" || key == "always_resolve_dns"
  }

  /** The section after one option with a scalar value: its own field, and no other. */
  function SetTo(num: Strtol, pc: ProtoConfig, key: string, v: string): ProtoConfig {
    ProtoConfig(true,
                if key == "bind" then v else pc.bindAddress,
                if key == "validate" then v == "true" else pc.validate,
                if key == "tcp_cork" then v == "true" else pc.tcpCork,
                if key == "always_resolve_dns" then v == "true" else pc.alwaysResolveDns,
                if key == "max_send_queue" then StoredNumber(num, v) else pc.maxSendQueue,
                pc.ring)
  }

  /**
   * A file with one section and one option, whatever their names and the value: the parser's
   * answer. An option of any other name sets nothing, and so does shard_map with a scalar.
   */
  lemma SingleOption(num: Strtol, section: string, key: string, v: string)
    ensures Parse(num, START, Stream([Map(Entry(section, Map(Entry(key, Leaf(v), End)), End))])) ==
      if section != "carbon" && section != "statsd" then ParseError
      else if BooleanOption(key) && !IsBoolean(v) then ParseError
      else if section == "carbon" then Parsed(Config(SetTo(num, CARBON_DEFAULT, key, v), STATSD_DEFAULT))
      else Parsed(Config(CARBON_DEFAULT, SetTo(num, STATSD_DEFAULT, key, v)))
  {
    hide Parse, Sections, Stream;
    var options := Entry(key, Leaf(v), End);
    var es := Entry(section, Map(options), End);
    OneDocumentSections(es);
    ParserReads(num, [Map(es)]);
    OneScalarOption(num, if section == "carbon" then CARBON_DEFAULT else STATSD_DEFAULT, key, v);
    hide OptionsOk, WriteOptions;
    OneSection(num, section, options);
  }

  lemma OneScalarOption(num: Strtol, pc: ProtoConfig, key: string, v: string)
    ensures var es, begun := Entry(key, Leaf(v), End), pc.(initialized := true);
      && (OptionsOk(num, NO_MEMORY, es) <==> (BooleanOption(key) ==> IsBoolean(v)))
      && (OptionsOk(num, NO_MEMORY, es) ==> WriteOptions(num, NO_MEMORY, begun, es) == SetTo(num, pc, key, v))
  {
    var es, begun := Entry(key, Leaf(v), End), pc.(initialized := true);
    var m := AfterOption(NO_MEMORY, key, Leaf(v));
    assert OptionsOk(num, m, End);
    assert WriteOptions(num, m, WriteOption(num, NO_MEMORY, begun, key, Leaf(v)), End) == WriteOption(num, NO_MEMORY, begun, key, Leaf(v));
    hide OptionsOk, WriteOptions, AfterOption;
    OneOption(num, key, Leaf(v), begun);
    TakenFor(num, begun, key, v);
  }

  lemma OneOption(num: Strtol, key: string, value: Node, pc: ProtoConfig)
    ensures OptionsOk(num, NO_MEMORY, Entry(key, value, End)) <==> OptionOk(num, NO_MEMORY, key, value)
    ensures WriteOptions(num, NO_MEMORY, pc, Entry(key, value, End)) == WriteOption(num, NO_MEMORY, pc, key, value)
  {
    hide OptionOk, WriteOption, AfterOption;
    assert OptionsOk(num, AfterOption(NO_MEMORY, key, value), End);
  }

  lemma TakenFor(num: Strtol, pc: ProtoConfig, key: string, v: string)
    ensures OptionOk(num, NO_MEMORY, key, Leaf(v)) <==> (BooleanOption(key) ==> IsBoolean(v))
    ensures pc.initialized && OptionOk(num, NO_MEMORY, key, Leaf(v)) ==>
      WriteOption(num, NO_MEMORY, pc, key, Leaf(v)) == SetTo(num, pc, key, v)
  {
  }

  lemma OneSection(num: Strtol, section: string, options: Entries)
    ensures var es := Entry(section, Map(options), End);
      var config := WriteSections(num, NO_MEMORY, DEFAULT_CONFIG, es);
      var carbon := WriteOptions(num, NO_MEMORY, CARBON_DEFAULT.(initialized := true), options);
      var statsd := WriteOptions(num, NO_MEMORY, STATSD_DEFAULT.(initialized := true), options);
      && (SectionsOk(num, NO_MEMORY, es) <==> (section == "carbon" || section == "statsd") && OptionsOk(num, NO_MEMORY, options))
      && (section == "carbon" ==> config == Config(carbon, STATSD_DEFAULT))
      && (section == "statsd" ==> config == Config(CARBON_DEFAULT, statsd))
  {
    hide OptionsOk, WriteOptions;
    var m := AfterSection(NO_MEMORY, Map(options));
    assert SectionsOk(num, m, End);
    assert WriteSections(num, m, WriteSection(num, NO_MEMORY, DEFAULT_CONFIG, section, Map(options)), End) ==
      WriteSection(num, NO_MEMORY, DEFAULT_CONFIG, section, Map(options));
    assert section == "carbon" ==> section != "statsd";
  }

  /** Of two options, the one whose flag is looked at first. */
  function Foremost(key1: string, key2: string): string {
    if key1 == "bind" || key2 == "bind" then "bind"
    else if key1 == "max_send_queue" || key2 == "max_send_queue" then "max_send_queue"
    else if key1 == "validate" || key2 == "validate" then "validate"
    else if key1 == "tcp_cork" || key2 == "tcp_cork" then "tcp_cork"
    else "always_resolve_dns"
  }

  predicate Waits(key: string) {
    BooleanOption(key) || key == "bind" || key == "max_send_queue"
  }

  /** An option given an empty mapping waits; the next scalar goes to the foremost of the two. */
  lemma WaitingOption(num: Strtol, key1: string, key2: string, v: string)
    requires Waits(key1) && Waits(key2)
    ensures Parse(num, START, Stream(TwoOptions(key1, Map(End), key2, Leaf(v)))) ==
      if BooleanOption(Foremost(key1, key2)) && !IsBoolean(v) then ParseError
      else Parsed(Config(CARBON_DEFAULT, SetTo(num, STATSD_DEFAULT, Foremost(key1, key2), v)))
  {
    hide Parse, Sections, Stream;
    var options := Entry(key1, Map(End), Entry(key2, Leaf(v), End));
    var es := Entry("statsd", Map(options), End);
    var pc := STATSD_DEFAULT.(initialized := true);
    OneDocumentSections(es);
    ParserReads(num, [Map(es)]);
    TwoAre(num, key1, key2, v, pc);
    WaitingTaken(num, key1, key2, v, pc);
    hide OptionsOk, WriteOptions, OptionOk, WriteOption, AfterOption;
    OneSection(num, "statsd", options);
  }

  lemma TwoAre(num: Strtol, key1: string, key2: string, v: string, pc: ProtoConfig)
    ensures var options := Entry(key1, Map(End), Entry(key2, Leaf(v), End));
      var m := AfterOption(NO_MEMORY, key1, Map(End));
      && (OptionsOk(num, NO_MEMORY, options) <==> OptionOk(num, m, key2, Leaf(v)))
      && WriteOptions(num, NO_MEMORY, pc, options) == WriteOption(num, m, pc, key2, Leaf(v))
  {
    hide AfterKey, NameOf, ReadScalarOption, Boolean, Served, Taker;
    var m := AfterOption(NO_MEMORY, key1, Map(End));
    var last := Entry(key2, Leaf(v), End);
    assert OptionOk(num, NO_MEMORY, key1, Map(End));
    assert WriteOption(num, NO_MEMORY, pc, key1, Map(End)) == pc by { Reassociate(pc.ring, [], []); }
    assert OptionsOk(num, AfterOption(m, key2, Leaf(v)), End);
    assert OptionsOk(num, m, last) <==> OptionOk(num, m, key2, Leaf(v));
    assert WriteOptions(num, m, pc, last) == WriteOption(num, m, pc, key2, Leaf(v));
  }

  lemma WaitingTaken(num: Strtol, key1: string, key2: string, v: string, pc: ProtoConfig)
    requires pc.initialized
    requires Waits(key1) && Waits(key2)
    ensures var m := AfterOption(NO_MEMORY, key1, Map(End)); var key := Foremost(key1, key2);
      && (OptionOk(num, m, key2, Leaf(v)) <==> (BooleanOption(key) ==> IsBoolean(v)))
      && (OptionOk(num, m, key2, Leaf(v)) ==> WriteOption(num, m, pc, key2, Leaf(v)) == SetTo(num, pc, key, v))
  {
    NamesAre(key1);
    NamesAre(key2);
    hide NameOf, Boolean, SendQueueLimit;
    BooleansAre(v);
    NumbersAre(num, v);
    var m := AfterOption(NO_MEMORY, key1, Map(End));
    var key := Foremost(key1, key2);
    NamesAre(key);
    assert m == AfterKey(NO_MEMORY, NameOf(key1));
    assert Taker(AfterKey(m, NameOf(key2))) == NameOf(key);
    hide AfterKey, Taker;
    assert OptionOk(num, m, key2, Leaf(v)) <==> (NameOf(key) in {Validate, TcpCork, AlwaysResolveDns} ==> Boolean(v).Some?);
  }

  lemma NamesAre(key: string)
    ensures NameOf(key) == Bind <==> key == "bind"
    ensures NameOf(key) == MaxSendQueue <==> key == "max_send_queue"
    ensures NameOf(key) == ShardMap <==> key == "shard_map"
    ensures NameOf(key) == Validate <==> key == "validate"
    ensures NameOf(key) == TcpCork <==> key == "tcp_cork"
    ensures NameOf(key) == AlwaysResolveDns <==> key == "always_resolve_dns"
  {}

  lemma BooleansAre(v: string)
    ensures Boolean(v) == if v == "true" then Some(true) else if v == "false" then Some(false) else None
  {}

  lemma NumbersAre(num: Strtol, v: string)
    ensures SendQueueLimit(num, v) == StoredNumber(num, v)
  {}

  /** A section without options has the defaults, and a file without sections two of them. */
  lemma Defaults(num: Strtol)
    ensures Parse(num, START, Stream([])) == Parsed(Config(CARBON_DEFAULT, STATSD_DEFAULT))
    ensures Parse(num, START, Stream([Map(Entry("carbon", Map(End), End))])) ==
      Parsed(Config(ProtoConfig(true, "127.0.0.1:2003", true, true, false, 134217728, []), STATSD_DEFAULT))
    ensures Parse(num, START, Stream([Map(Entry("statsd", Map(End), End))])) ==
      Parsed(Config(CARBON_DEFAULT, ProtoConfig(true, "127.0.0.1:8125", true, true, false, 134217728, [])))
  {
    hide Parse, Stream;
    ParserReads(num, []);
    EmptySection(num, "carbon");
    EmptySection(num, "statsd");
  }

  lemma EmptySection(num: Strtol, section: string)
    requires section == "carbon" || section == "statsd"
    ensures Parse(num, START, Stream([Map(Entry(section, Map(End), End))])) ==
      Parsed(if section == "carbon" then Config(CARBON_DEFAULT.(initialized := true), STATSD_DEFAULT)
             else Config(CARBON_DEFAULT, STATSD_DEFAULT.(initialized := true)))
  {
    hide Parse, Sections, Stream;
    var es := Entry(section, Map(End), End);
    OneDocumentSections(es);
    ParserReads(num, [Map(es)]);
    OneSection(num, section, End);
    assert OptionsOk(num, NO_MEMORY, End);
  }

  /** One shard map: accepted exactly if its keys are numbered from 0, and then its values are the ring. */
  lemma SingleShardMap(num: Strtol, section: string, es: Entries)
    requires Flat(es)
    ensures Parse(num, START, Stream([Map(Entry(section, Map(Entry("shard_map", Map(es), End)), End))])) ==
      if (section == "carbon" || section == "statsd") && InOrder(num, 0, ShardKeys(es)) then
        if section == "carbon" then Parsed(Config(CARBON_DEFAULT.(initialized := true, ring := Texts(es)), STATSD_DEFAULT))
        else Parsed(Config(CARBON_DEFAULT, STATSD_DEFAULT.(initialized := true, ring := Texts(es))))
      else ParseError
  {
    hide Parse, Sections, Stream, InOrder, ShardKeys, Texts, Numbered;
    var options := Entry("shard_map", Map(es), End);
    var sections := Entry(section, Map(options), End);
    OneDocumentSections(sections);
    ParserReads(num, [Map(sections)]);
    NumberedIsInOrder(num, 0, es);
    NothingNumbered(num, es);
    assert NameOf("shard_map") == ShardMap;
    var pc := if section == "carbon" then CARBON_DEFAULT.(initialized := true) else STATSD_DEFAULT.(initialized := true);
    OneOption(num, "shard_map", Map(es), pc);
    Reassociate(Texts(es), [], []);
    hide OptionsOk, WriteOptions, NameOf;
    OneSection(num, section, options);
  }

  // ----- Events that end the parse -----

  /** Inside a document, after these events. */
  function InDocument(open: bool, evs: seq<Event>): bool {
    if evs == [] then open
    else
      match evs[|evs| - 1]
      case DocumentStart => true
      case DocumentEnd => false
      case _ => InDocument(open, evs[..|evs| - 1])
  }

  /** The event does not by itself end the parse. */
  predicate Allowed(open: bool, ev: Event) {
    ev != SequenceStart && ev != SequenceEnd && ev != Alias && (ev == DocumentStart ==> !open)
  }

  /**
   * What is parsed ends with STREAM-END, before which there is no sequence, no alias, and no
   * document inside a document.
   */
  lemma {:induction false} ParsedEvents(num: Strtol, p: Parser, evs: seq<Event>) returns (n: nat)
    requires Parse(num, p, evs).Parsed?
    ensures n < |evs| && evs[n] == StreamEnd && StreamEnd !in evs[..n]
    ensures forall k :: 0 <= k < n ==> Allowed(InDocument(p.inDocument, evs[..k]), evs[k])
    decreases |evs|
  {
    if evs[0] == StreamEnd {
      n := 0;
    } else {
      hide OnScalar;
      var q := Step(num, p, evs[0]).p;
      var m := ParsedEvents(num, q, evs[1..]);
      n := m + 1;
      assert evs[..n] == [evs[0]] + evs[1..][..m];
      StepAllowed(num, p, evs[0]);
      forall k | 0 <= k < n ensures Allowed(InDocument(p.inDocument, evs[..k]), evs[k]) {
        if k > 0 {
          assert evs[..k] == [evs[0]] + evs[1..][..k - 1] && evs[k] == evs[1..][k - 1];
          InDocumentCons(p.inDocument, evs[0], evs[1..][..k - 1]);
          assert Allowed(InDocument(q.inDocument, evs[1..][..k - 1]), evs[1..][k - 1]);
        }
      }
    }
  }

  lemma StepAllowed(num: Strtol, p: Parser, ev: Event)
    requires Step(num, p, ev).Going?
    ensures Allowed(p.inDocument, ev) && Step(num, p, ev).p.inDocument == InDocument(p.inDocument, [ev])
  {
    hide OnScalar;
    assert [ev][..0] == [];
    if ev.Scalar? {
      ScalarKeepsDocument(num, p, ev.value);
    }
  }

  lemma ScalarKeepsDocument(num: Strtol, p: Parser, s: string)
    ensures var r := OnScalar(num, p, s); r.Going? ==> r.p.inDocument == p.inDocument
  {
    hide NameOf, Boolean, SectionNamed;
  }

  lemma {:induction false} InDocumentCons(open: bool, ev: Event, evs: seq<Event>)
    ensures InDocument(open, [ev] + evs) == InDocument(InDocument(open, [ev]), evs)
  {
    if evs == [] {
      assert [ev] + evs == [ev];
    } else {
      var n := |evs| - 1;
      assert ([ev] + evs)[..|[ev] + evs| - 1] == [ev] + evs[..n];
      InDocumentCons(open, ev, evs[..n]);
    }
  }
}
