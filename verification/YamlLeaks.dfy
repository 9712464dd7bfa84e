/**
 * Exactly when the parser of yaml_config.c agrees with the reading of a file: the two flags it
 * never clears, what they do, and when that does no harm.
 */
module YamlLeaks {
  import opened Bytes
  import opened YamlConfig
  import opened YamlReading
  import opened YamlFlags

  // ----- The leaky reading -----

  /**
   * The flag of always_resolve_dns is never cleared. Once it has been `seen`, in this section
   * or an earlier one, an option the parser does not know is taken for always_resolve_dns.
   */
  function LeakyName(seen: bool, key: string): OptionName {
    if seen && NameOf(key) == Unknown then AlwaysResolveDns else NameOf(key)
  }

  function LeakyOptions(num: Strtol, seen: bool, pc: ProtoConfig, es: Entries): Option<ProtoConfig>
    decreases es
  {
    match es
    case End => Some(pc)
    case Entry(key, value, rest) =>
      match ReadOption(num, pc, LeakyName(seen, key), value)
      case None => None
      case Some(pc') => LeakyOptions(num, seen || NameOf(key) == AlwaysResolveDns, pc', rest)
  }

  /** always_resolve_dns occurs among the options. */
  predicate SetsFlag(es: Entries) {
    es.Entry? && (NameOf(es.key) == AlwaysResolveDns || SetsFlag(es.rest))
  }

  function LeakySections(num: Strtol, seen: bool, config: Config, es: Entries): Option<Config>
    decreases es
  {
    match es
    case End => Some(config)
    case Entry(key, value, rest) =>
      if SectionNamed(key).None? || !value.Map? then None
      else
        var sec := SectionNamed(key).value;
        match LeakyOptions(num, seen, config.Get(sec).(initialized := true), value.entries)
        case None => None
        case Some(pc) => LeakySections(num, seen || SetsFlag(value.entries), config.Set(sec, pc), rest)
  }

  /** A flat mapping is accepted, and read, the same with and without the flags. */
  lemma {:induction false} FlatIsNumbered(num: Strtol, n: nat, es: Entries)
    requires Flat(es)
    ensures ReadShards(num, n, es) == if Numbered(num, n, es) then Some(Texts(es)) else None
    decreases es
  {
    if es.Entry? {
      FlatIsNumbered(num, n + 1, es.rest);
    }
  }

  lemma NothingNumbered(num: Strtol, es: Entries)
    ensures es.End? ==> Numbered(num, 0, es)
  {}

  predicate PlainOption(key: string, value: Node) {
    if NameOf(key) == ShardMap then value.Map? && Flat(value.entries) else value.Leaf?
  }

  lemma OptionIsLeaky(num: Strtol, m: Memory, pc: ProtoConfig, key: string, value: Node)
    requires m.pending == NOTHING_PENDING && PlainOption(key, value)
    ensures ReadOption(num, pc, LeakyName(m.seen, key), value) ==
      if OptionOk(num, m, key, value) then Some(WriteOption(num, m, pc, key, value)) else None
    ensures var k := AfterOption(m, key, value);
      k.pending == NOTHING_PENDING && k.seen == (m.seen || NameOf(key) == AlwaysResolveDns)
  {
    hide NameOf, Boolean, SendQueueLimit, ReadShards, Numbered;
    if value.Map? {
      FlatIsNumbered(num, 0, value.entries);
      NothingNumbered(num, value.entries);
    }
  }

  /** In a section of plain options no flag but the one of always_resolve_dns is set between two options. */
  lemma {:induction false} OptionsAreLeaky(num: Strtol, m: Memory, pc: ProtoConfig, es: Entries)
    requires m.pending == NOTHING_PENDING && PlainOptions(es)
    ensures LeakyOptions(num, m.seen, pc, es) == if OptionsOk(num, m, es) then Some(WriteOptions(num, m, pc, es)) else None
    ensures var k := AfterOptions(m, es); k.pending == NOTHING_PENDING && k.seen == (m.seen || SetsFlag(es))
    decreases es
  {
    match es
    case End =>
    case Entry(key, value, rest) =>
      assert PlainOption(key, value);
      hide NameOf, ReadOption, LeakyName, OptionOk, WriteOption, AfterOption, PlainOption;
      OptionIsLeaky(num, m, pc, key, value);
      OptionsAreLeaky(num, AfterOption(m, key, value), WriteOption(num, m, pc, key, value), rest);
  }

  lemma {:induction false} SectionsAreLeaky(num: Strtol, m: Memory, config: Config, es: Entries)
    requires m.pending == NOTHING_PENDING && PlainSections(es)
    ensures LeakySections(num, m.seen, config, es) ==
      if SectionsOk(num, m, es) then Some(WriteSections(num, m, config, es)) else None
    decreases es
  {
    match es
    case End =>
    case Entry(key, value, rest) =>
      if SectionNamed(key).Some? {
        hide SectionNamed, LeakyOptions, OptionsOk, WriteOptions, AfterOptions, SetsFlag;
        var sec := SectionNamed(key).value;
        var begun := Begin(config, key);
        OptionsAreLeaky(num, m, begun.Get(sec), value.entries);
        SectionsAreLeaky(num, AfterSection(m, value), WriteSection(num, m, config, key, value), rest);
      }
  }

  /** For all plain documents the parser computes the leaky reading, errors included. */
  lemma ParserIsLeaky(num: Strtol, docs: seq<Node>)
    requires PlainDocuments(docs)
    ensures var config := LeakySections(num, false, DEFAULT_CONFIG, Sections(docs));
      Parse(num, START, Stream(docs)) == if config.None? then ParseError else Parsed(config.value)
  {
    hide Parse, LeakySections, SectionsOk, WriteSections, Sections, PlainSections;
    ParserReads(num, docs);
    SectionsPlain(docs);
    SectionsAreLeaky(num, NO_MEMORY, DEFAULT_CONFIG, Sections(docs));
  }

  // ----- When the leak does no harm -----

  /** A value taken by the leak is a boolean. */
  predicate LeakIsBoolean(seen: bool, key: string, value: Node) {
    seen && NameOf(key) == Unknown ==> value.Leaf? && Boolean(value.s).Some?
  }

  predicate LeaksBooleans(seen: bool, es: Entries)
    decreases es
  {
    es.Entry? ==>
      LeakIsBoolean(seen, es.key, es.value) && LeaksBooleans(seen || NameOf(es.key) == AlwaysResolveDns, es.rest)
  }

  predicate LeaksBooleansIn(seen: bool, es: Entries)
    decreases es
  {
    es.Entry? ==>
      && (es.value.Map? ==> LeaksBooleans(seen, es.value.entries))
      && LeaksBooleansIn(seen || (es.value.Map? && SetsFlag(es.value.entries)), es.rest)
  }

  /**
   * The setting after one entry, x before it: written by always_resolve_dns, and also by the
   * options taken for it if `leaky`.
   */
  function Written(leaky: bool, seen: bool, x: bool, key: string, value: Node): bool {
    var name := if leaky then LeakyName(seen, key) else NameOf(key);
    if name == AlwaysResolveDns && value.Leaf? && Boolean(value.s).Some? then Boolean(value.s).value else x
  }

  /** The last boolean written to the setting, or x. */
  function LastWritten(leaky: bool, seen: bool, x: bool, es: Entries): bool
    decreases es
  {
    match es
    case End => x
    case Entry(key, value, rest) =>
      LastWritten(leaky, seen || NameOf(key) == AlwaysResolveDns, Written(leaky, seen, x, key, value), rest)
  }

  /** ... by one section, if it is named `sec`. */
  function WrittenIn(leaky: bool, seen: bool, x: bool, key: string, value: Node, sec: Section): bool {
    if value.Map? && SectionNamed(key) == Some(sec) then LastWritten(leaky, seen, x, value.entries) else x
  }

  /** ... in all the sections named `sec`. */
  function LastWrittenIn(leaky: bool, seen: bool, x: bool, es: Entries, sec: Section): bool
    decreases es
  {
    match es
    case End => x
    case Entry(key, value, rest) =>
      LastWrittenIn(leaky, seen || (value.Map? && SetsFlag(value.entries)),
                    WrittenIn(leaky, seen, x, key, value, sec), rest, sec)
  }

  function Overwrite(pc: ProtoConfig, x: bool): ProtoConfig {
    pc.(alwaysResolveDns := x)
  }

  /** One option: the leak fails on it, or overwrites the one setting. */
  lemma EntryCompared(num: Strtol, seen: bool, pc: ProtoConfig, x: bool, key: string, value: Node)
    ensures var r := ReadOption(num, pc, NameOf(key), value);
      var l := ReadOption(num, Overwrite(pc, x), LeakyName(seen, key), value);
      if r.None? then l.None?
      else
        && r.value.alwaysResolveDns == Written(false, seen, pc.alwaysResolveDns, key, value)
        && l == if LeakIsBoolean(seen, key, value) then Some(Overwrite(r.value, Written(true, seen, x, key, value))) else None
  {
    hide ReadShards, Boolean, SendQueueLimit, NameOf;
  }

  /** Where the reading gives r, the leak fails or gives r with the setting overwritten. */
  ghost predicate OverwrittenOptions(seen: bool, before: bool, es: Entries, x: bool, r: ProtoConfig, l: Option<ProtoConfig>) {
    && r.alwaysResolveDns == LastWritten(false, seen, before, es)
    && l == if LeaksBooleans(seen, es) then Some(Overwrite(r, LastWritten(true, seen, x, es))) else None
  }

  lemma OverwrittenOptionsStep(seen: bool, before: bool, es: Entries, x: bool, r: ProtoConfig, l: Option<ProtoConfig>)
    requires es.Entry?
    requires OverwrittenOptions(seen || NameOf(es.key) == AlwaysResolveDns, Written(false, seen, before, es.key, es.value), es.rest,
                                Written(true, seen, x, es.key, es.value), r, l)
    ensures OverwrittenOptions(seen, before, es, x, r, if LeakIsBoolean(seen, es.key, es.value) then l else None)
  {
    hide NameOf, LeakIsBoolean, Written, Overwrite;
  }

  /** Where the reading fails so does the leak. */
  lemma {:induction false} OptionsCompared(num: Strtol, seen: bool, pc: ProtoConfig, es: Entries, x: bool)
    ensures var r, l := ReadOptions(num, pc, es), LeakyOptions(num, seen, Overwrite(pc, x), es);
      if r.None? then l.None? else OverwrittenOptions(seen, pc.alwaysResolveDns, es, x, r.value, l)
    decreases es
  {
    match es
    case End =>
    case Entry(key, value, rest) =>
      hide ReadOption, NameOf, LeakyName, LeakIsBoolean, Written, Overwrite, OverwrittenOptions;
      EntryCompared(num, seen, pc, x, key, value);
      var pc' := ReadOption(num, pc, NameOf(key), value);
      if pc'.Some? {
        var seen', x' := seen || NameOf(key) == AlwaysResolveDns, Written(true, seen, x, key, value);
        OptionsCompared(num, seen', pc'.value, rest, x');
        var r := ReadOptions(num, pc, es);
        if r.Some? {
          OverwrittenOptionsStep(seen, pc.alwaysResolveDns, es, x, r.value, LeakyOptions(num, seen', Overwrite(pc'.value, x'), rest));
        }
      }
  }

  function OverwriteBoth(config: Config, c: bool, s: bool): Config {
    Config(Overwrite(config.carbon, c), Overwrite(config.statsd, s))
  }

  /** One named section is a section of the same name with the setting overwritten. */
  lemma SectionCompared(num: Strtol, seen: bool, config: Config, sec: Section, key: string, es: Entries, c: bool, s: bool)
    requires SectionNamed(key) == Some(sec)
    ensures var r := ReadOptions(num, config.Get(sec).(initialized := true), es);
      var l := LeakyOptions(num, seen, OverwriteBoth(config, c, s).Get(sec).(initialized := true), es);
      if r.None? then l.None?
      else
        var config' := config.Set(sec, r.value);
        && config'.carbon.alwaysResolveDns == WrittenIn(false, seen, config.carbon.alwaysResolveDns, key, Map(es), Carbon)
        && config'.statsd.alwaysResolveDns == WrittenIn(false, seen, config.statsd.alwaysResolveDns, key, Map(es), Statsd)
        && l.Some? == LeaksBooleans(seen, es)
        && (l.Some? ==> OverwriteBoth(config, c, s).Set(sec, l.value) ==
                        OverwriteBoth(config', WrittenIn(true, seen, c, key, Map(es), Carbon),
                                               WrittenIn(true, seen, s, key, Map(es), Statsd)))
  {
    hide SectionNamed, ReadOptions, LeakyOptions, LeaksBooleans, LastWritten;
    var pc := config.Get(sec).(initialized := true);
    var x := if sec == Carbon then c else s;
    assert OverwriteBoth(config, c, s).Get(sec).(initialized := true) == Overwrite(pc, x);
    OptionsCompared(num, seen, pc, es, x);
  }

  /** Where the reading gives r, the leak fails or gives r with the setting overwritten. */
  ghost predicate Overwritten(seen: bool, config: Config, es: Entries, c: bool, s: bool, r: Config, l: Option<Config>) {
    && r.carbon.alwaysResolveDns == LastWrittenIn(false, seen, config.carbon.alwaysResolveDns, es, Carbon)
    && r.statsd.alwaysResolveDns == LastWrittenIn(false, seen, config.statsd.alwaysResolveDns, es, Statsd)
    && l == if !LeaksBooleansIn(seen, es) then None
            else Some(OverwriteBoth(r, LastWrittenIn(true, seen, c, es, Carbon), LastWrittenIn(true, seen, s, es, Statsd)))
  }

  lemma OverwrittenStep(seen: bool, config: Config, config': Config, es: Entries, c: bool, s: bool, r: Config, l: Option<Config>)
    requires es.Entry? && es.value.Map?
    requires config'.carbon.alwaysResolveDns == WrittenIn(false, seen, config.carbon.alwaysResolveDns, es.key, es.value, Carbon)
    requires config'.statsd.alwaysResolveDns == WrittenIn(false, seen, config.statsd.alwaysResolveDns, es.key, es.value, Statsd)
    requires Overwritten(seen || SetsFlag(es.value.entries), config', es.rest,
                         WrittenIn(true, seen, c, es.key, es.value, Carbon), WrittenIn(true, seen, s, es.key, es.value, Statsd), r, l)
    ensures Overwritten(seen, config, es, c, s, r, if LeaksBooleans(seen, es.value.entries) then l else None)
  {
    hide WrittenIn, LeaksBooleans, SetsFlag, OverwriteBoth;
  }

  lemma {:induction false} SectionsCompared(num: Strtol, seen: bool, config: Config, es: Entries, c: bool, s: bool)
    ensures var r, l := ReadSections(num, config, es), LeakySections(num, seen, OverwriteBoth(config, c, s), es);
      if r.None? then l.None? else Overwritten(seen, config, es, c, s, r.value, l)
    decreases es
  {
    match es
    case End =>
    case Entry(key, value, rest) =>
      if SectionNamed(key).Some? && value.Map? {
        hide SectionNamed, ReadOptions, LeakyOptions, LeaksBooleans, WrittenIn, SetsFlag, OverwriteBoth, Overwritten;
        var sec := SectionNamed(key).value;
        SectionCompared(num, seen, config, sec, key, value.entries, c, s);
        var pc := ReadOptions(num, config.Get(sec).(initialized := true), value.entries);
        if pc.Some? {
          var seen', config' := seen || SetsFlag(value.entries), config.Set(sec, pc.value);
          var c', s' := WrittenIn(true, seen, c, key, value, Carbon), WrittenIn(true, seen, s, key, value, Statsd);
          SectionsCompared(num, seen', config', rest, c', s');
          var r := ReadSections(num, config, es);
          if r.Some? {
            var l := LeakySections(num, seen', OverwriteBoth(config', c', s'), rest);
            OverwrittenStep(seen, config, config', es, c, s, r.value, l);
          }
        }
      }
  }

  /**
   * The leak goes unnoticed: every leaked value is a boolean, and in each section the last one
   * written with the leak is the last one written without it.
   */
  ghost predicate Harmless(docs: seq<Node>)
    requires PlainDocuments(docs)
  {
    var es := Sections(docs);
    && LeaksBooleansIn(false, es)
    && LastWrittenIn(true, false, false, es, Carbon) == LastWrittenIn(false, false, false, es, Carbon)
    && LastWrittenIn(true, false, false, es, Statsd) == LastWrittenIn(false, false, false, es, Statsd)
  }

  /**
   * The exact condition, for every stream of documents with scalar keys. Where each option has
   * a value of its kind, the parser agrees with the reading when the reading rejects the file
   * anyway, or the leak is harmless, and in no other case. Any other file is malformed for the
   * reading, and the parser agrees unless the file is acceptable to the flags.
   */
  lemma ParserAgreesIff(num: Strtol, docs: seq<Node>)
    ensures Parse(num, START, Stream(docs)) == ReadConfig(num, docs) <==>
      if PlainDocuments(docs) then ReadConfig(num, docs) == ParseError || Harmless(docs)
      else !Acceptable(num, docs)
  {
    hide Parse, ReadConfig, Harmless, Acceptable;
    if PlainDocuments(docs) {
      PlainParserAgreesIff(num, docs);
    } else {
      OnlyPlainIsRead(num, docs);
      ParserReads(num, docs);
    }
  }

  lemma PlainParserAgreesIff(num: Strtol, docs: seq<Node>)
    requires PlainDocuments(docs)
    ensures Parse(num, START, Stream(docs)) == ReadConfig(num, docs) <==>
      ReadConfig(num, docs) == ParseError || Harmless(docs)
  {
    hide Parse, ReadSections, LeakySections, LastWrittenIn, LeaksBooleansIn, Sections;
    var es := Sections(docs);
    ParserIsLeaky(num, docs);
    var d := DEFAULT_CONFIG;
    assert OverwriteBoth(d, false, false) == d;
    SectionsCompared(num, false, d, es, false, false);
    if ReadSections(num, d, es).Some? {
      var r := ReadSections(num, d, es).value;
      var c, s := LastWrittenIn(true, false, false, es, Carbon), LastWrittenIn(true, false, false, es, Statsd);
      assert OverwriteBoth(r, c, s) == r <==> c == r.carbon.alwaysResolveDns && s == r.statsd.alwaysResolveDns;
    }
  }

  /** An unknown option comes after an always_resolve_dns. */
  predicate Leaks(seen: bool, es: Entries)
    decreases es
  {
    es.Entry? && ((seen && NameOf(es.key) == Unknown) || Leaks(seen || NameOf(es.key) == AlwaysResolveDns, es.rest))
  }

  predicate LeaksIn(seen: bool, es: Entries)
    decreases es
  {
    es.Entry? &&
    ((es.value.Map? && Leaks(seen, es.value.entries)) || LeaksIn(seen || (es.value.Map? && SetsFlag(es.value.entries)), es.rest))
  }

  lemma {:induction false} NoLeak(seen: bool, x: bool, es: Entries)
    requires !Leaks(seen, es)
    ensures LeaksBooleans(seen, es) && LastWritten(true, seen, x, es) == LastWritten(false, seen, x, es)
    decreases es
  {
    if es.Entry? {
      hide NameOf, Boolean;
      NoLeak(seen || NameOf(es.key) == AlwaysResolveDns, Written(true, seen, x, es.key, es.value), es.rest);
    }
  }

  lemma {:induction false} NoLeakIn(seen: bool, x: bool, es: Entries, sec: Section)
    requires !LeaksIn(seen, es)
    ensures LeaksBooleansIn(seen, es) && LastWrittenIn(true, seen, x, es, sec) == LastWrittenIn(false, seen, x, es, sec)
    decreases es
  {
    if es.Entry? {
      hide SectionNamed, Leaks, LeaksBooleans, LastWritten, SetsFlag;
      if es.value.Map? {
        NoLeak(seen, x, es.value.entries);
      }
      NoLeakIn(seen || (es.value.Map? && SetsFlag(es.value.entries)), WrittenIn(true, seen, x, es.key, es.value, sec), es.rest, sec);
    }
  }

  /** In particular they agree, errors included, if no unknown option comes after an always_resolve_dns. */
  lemma ParserAgrees(num: Strtol, docs: seq<Node>)
    requires PlainDocuments(docs) && !LeaksIn(false, Sections(docs))
    ensures Parse(num, START, Stream(docs)) == ReadConfig(num, docs)
  {
    hide Parse, ReadConfig, LeaksIn, LeaksBooleansIn, LastWrittenIn;
    NoLeakIn(false, false, Sections(docs), Carbon);
    NoLeakIn(false, false, Sections(docs), Statsd);
    PlainParserAgreesIff(num, docs);
  }

  // ----- Files that are read otherwise -----

  /** One document with one statsd section of two options. */
  function TwoOptions(key1: string, value1: Node, key2: string, value2: Node): seq<Node> {
    [Map(Entry("statsd", Map(Entry(key1, value1, Entry(key2, value2, End))), End))]
  }

  /**
   * An option the parser does not know, after an always_resolve_dns: the reading ignores it,
   * and the parser rejects the file or silently overwrites the setting.
   */
  lemma UnknownAfterFlag(num: Strtol, x: string, key: string, y: string)
    requires Boolean(x).Some? && NameOf(key) == Unknown
    ensures var docs := TwoOptions("always_resolve_dns", Leaf(x), key, Leaf(y));
      var pc := DEFAULT_CONFIG.statsd.(initialized := true);
      && ReadConfig(num, docs) == Parsed(DEFAULT_CONFIG.(statsd := Overwrite(pc, Boolean(x).value)))
      && Parse(num, START, Stream(docs)) ==
         if Boolean(y).None? then ParseError else Parsed(DEFAULT_CONFIG.(statsd := Overwrite(pc, Boolean(y).value)))
  {
    var docs := TwoOptions("always_resolve_dns", Leaf(x), key, Leaf(y));
    var last := Entry(key, Leaf(y), End);
    var options := Entry("always_resolve_dns", Leaf(x), last);
    var sections := Entry("statsd", Map(options), End);
    assert NameOf("always_resolve_dns") == AlwaysResolveDns && SectionNamed("statsd") == Some(Statsd);
    hide Parse, NameOf, SectionNamed, Boolean;
    OneDocumentSections(sections);
    assert PlainOptions(last) && PlainOptions(options) && PlainSections(sections);
    ParserIsLeaky(num, docs);
    var pc := DEFAULT_CONFIG.statsd.(initialized := true);
    var pc' := Overwrite(pc, Boolean(x).value);
    assert ReadOptions(num, pc', last) == Some(pc');
    assert ReadOptions(num, pc, options) == Some(pc');
    assert LeakyOptions(num, false, pc, options) == LeakyOptions(num, true, pc', last);
    assert LeakyOptions(num, true, pc', last) == if Boolean(y).None? then None else Some(Overwrite(pc', Boolean(y).value));
    StatsdLast(num, false, DEFAULT_CONFIG, options);
  }

  /** The parser rejects a file it should accept. */
  lemma LeakExample(num: Strtol)
    ensures var docs := TwoOptions("always_resolve_dns", Leaf("true"), "comment", Leaf("x"));
      Parse(num, START, Stream(docs)) == ParseError && ReadConfig(num, docs).Parsed?
  {
    UnknownAfterFlag(num, "true", "comment", "x");
  }

  /** The parser accepts the file and has the setting wrong. */
  lemma OverwriteExample(num: Strtol)
    ensures var docs := TwoOptions("always_resolve_dns", Leaf("true"), "comment", Leaf("false"));
      var parsed, reading := Parse(num, START, Stream(docs)), ReadConfig(num, docs);
      && parsed.Parsed? && !parsed.config.statsd.alwaysResolveDns
      && reading.Parsed? && reading.config.statsd.alwaysResolveDns
  {
    UnknownAfterFlag(num, "true", "comment", "false");
  }

  /** The flag set in the carbon section lets an unknown option of statsd write its setting. */
  lemma UnknownInNextSection(num: Strtol, x: string, key: string, y: string)
    requires Boolean(x).Some? && NameOf(key) == Unknown
    ensures var docs := [Map(Entry("carbon", Map(Entry("always_resolve_dns", Leaf(x), End)),
                             Entry("statsd", Map(Entry(key, Leaf(y), End)), End)))];
      var carbon := Overwrite(DEFAULT_CONFIG.carbon.(initialized := true), Boolean(x).value);
      var statsd := DEFAULT_CONFIG.statsd.(initialized := true);
      && ReadConfig(num, docs) == Parsed(Config(carbon, statsd))
      && Parse(num, START, Stream(docs)) ==
         if Boolean(y).None? then ParseError else Parsed(Config(carbon, Overwrite(statsd, Boolean(y).value)))
  {
    var first, second := Entry("always_resolve_dns", Leaf(x), End), Entry(key, Leaf(y), End);
    var rest := Entry("statsd", Map(second), End);
    var sections := Entry("carbon", Map(first), rest);
    var docs := [Map(sections)];
    assert NameOf("always_resolve_dns") == AlwaysResolveDns;
    assert SectionNamed("carbon") == Some(Carbon) && SectionNamed("statsd") == Some(Statsd);
    hide Parse, NameOf, SectionNamed, Boolean;
    OneDocumentSections(sections);
    assert PlainOptions(first) && PlainOptions(second) && PlainSections(rest) && PlainSections(sections);
    ParserIsLeaky(num, docs);
    var carbon := Overwrite(DEFAULT_CONFIG.carbon.(initialized := true), Boolean(x).value);
    var statsd := DEFAULT_CONFIG.statsd.(initialized := true);
    var c := DEFAULT_CONFIG.Set(Carbon, carbon);
    assert c.Get(Statsd).(initialized := true) == statsd;
    CarbonFirst(num, first, rest, carbon);
    StatsdLast(num, false, c, second);
    StatsdLast(num, true, c, second);
    hide Sections, ReadSections, LeakySections;
    assert ReadOptions(num, statsd, second) == Some(statsd);
  }

  lemma CarbonFirst(num: Strtol, first: Entries, rest: Entries, carbon: ProtoConfig)
    requires ReadOptions(num, DEFAULT_CONFIG.carbon.(initialized := true), first) == Some(carbon)
    requires LeakyOptions(num, false, DEFAULT_CONFIG.carbon.(initialized := true), first) == Some(carbon)
    ensures var config := DEFAULT_CONFIG.Set(Carbon, carbon);
      && ReadSections(num, DEFAULT_CONFIG, Entry("carbon", Map(first), rest)) == ReadSections(num, config, rest)
      && LeakySections(num, false, DEFAULT_CONFIG, Entry("carbon", Map(first), rest)) ==
         LeakySections(num, SetsFlag(first), config, rest)
  {
    assert SectionNamed("carbon") == Some(Carbon);
    hide SectionNamed, ReadOptions, LeakyOptions, SetsFlag;
  }

  lemma StatsdLast(num: Strtol, seen: bool, config: Config, es: Entries)
    ensures var pc := config.statsd.(initialized := true);
      var r, l := ReadOptions(num, pc, es), LeakyOptions(num, seen, pc, es);
      var sections := Entry("statsd", Map(es), End);
      && ReadSections(num, config, sections) == (if r.None? then None else Some(config.Set(Statsd, r.value)))
      && LeakySections(num, seen, config, sections) == if l.None? then None else Some(config.Set(Statsd, l.value))
  {
    assert SectionNamed("statsd") == Some(Statsd);
    hide SectionNamed, ReadOptions, LeakyOptions, SetsFlag;
  }

  lemma OtherSectionExample(num: Strtol)
    ensures var docs := [Map(Entry("carbon", Map(Entry("always_resolve_dns", Leaf("false"), End)),
                             Entry("statsd", Map(Entry("comment", Leaf("true"), End)), End)))];
      var parsed, reading := Parse(num, START, Stream(docs)), ReadConfig(num, docs);
      && parsed.Parsed? && parsed.config.statsd.alwaysResolveDns
      && reading.Parsed? && !reading.config.statsd.alwaysResolveDns
  {
    UnknownInNextSection(num, "false", "comment", "true");
  }

  // ----- The flag of shard_map -----

  predicate HasShardMap(es: Entries) {
    es.Entry? && (NameOf(es.key) == ShardMap || HasShardMap(es.rest))
  }

  predicate HasShardMapIn(es: Entries) {
    es.Entry? && ((es.value.Map? && HasShardMap(es.value.entries)) || HasShardMapIn(es.rest))
  }

  lemma {:induction false} NextAfterOptions(m: Memory, es: Entries)
    ensures AfterOptions(m, es).next.Some? <==> m.next.Some? || HasShardMap(es)
    decreases es
  {
    hide NameOf;
    if es.Entry? {
      NextAfterOptions(AfterOption(m, es.key, es.value), es.rest);
    }
  }

  lemma {:induction false} NextAfterSections(m: Memory, es: Entries)
    ensures AfterSections(m, es).next.Some? <==> m.next.Some? || HasShardMapIn(es)
    decreases es
  {
    hide AfterOptions, HasShardMap;
    if es.Entry? {
      if es.value.Map? {
        NextAfterOptions(m, es.value.entries);
      }
      NextAfterSections(AfterSection(m, es.value), es.rest);
    }
  }

  lemma {:induction false} OptionsConcat(num: Strtol, m: Memory, a: Entries, b: Entries)
    ensures AfterOptions(m, Append(a, b)) == AfterOptions(AfterOptions(m, a), b)
    ensures OptionsOk(num, m, Append(a, b)) <==> OptionsOk(num, m, a) && OptionsOk(num, AfterOptions(m, a), b)
    decreases a
  {
    hide OptionOk, AfterOption;
    if a.Entry? {
      OptionsConcat(num, AfterOption(m, a.key, a.value), a.rest, b);
    }
  }

  lemma {:induction false} AppendIsNotPlain(a: Entries, b: Entries)
    requires !PlainOptions(b)
    ensures !PlainOptions(Append(a, b))
  {
    if a.Entry? {
      AppendIsNotPlain(a.rest, b);
    }
  }

  lemma MappingIsNotPlain(name: string, before: Entries, key: string, more: Entries, after: Entries, last: Entries)
    requires NameOf(key) == Unknown
    ensures !PlainSections(Entry(name, Map(Append(before, Entry(key, Map(more), after))), last))
  {
    AppendIsNotPlain(before, Entry(key, Map(more), after));
  }

  lemma NotPlainAmong(docs: seq<Node>, first: Entries, entry: Entries)
    requires (forall d :: d in docs ==> d.Map?) && Sections(docs) == Append(first, entry) && !PlainSections(entry)
    ensures !PlainDocuments(docs)
  {
    hide PlainSections, Sections;
    if PlainDocuments(docs) {
      SectionsPlain(docs);
      PlainParts(first, entry);
    }
  }

  /** Where a section with such a mapping is acceptable. */
  lemma SectionWithMapping(num: Strtol, m0: Memory, name: string, before: Entries, key: string, more: Entries, after: Entries, last: Entries)
    requires NameOf(key) == Unknown
    ensures var m := AfterOptions(m0, before);
      var m1 := if m.next.Some? then m.(next := Some(m.next.value + Length(more))) else m;
      SectionsOk(num, m0, Entry(name, Map(Append(before, Entry(key, Map(more), after))), last)) <==>
        && SectionNamed(name).Some? && OptionsOk(num, m0, before)
        && (more.Entry? ==> m.next.Some? && Numbered(num, m.next.value, more))
        && OptionsOk(num, m1, after) && SectionsOk(num, AfterOptions(m1, after), last)
  {
    var mapping := Entry(key, Map(more), after);
    OptionsConcat(num, m0, before, mapping);
    var m := AfterOptions(m0, before);
    var m1 := AfterOption(m, key, Map(more));
    assert m1 == if m.next.Some? then m.(next := Some(m.next.value + Length(more))) else m;
    assert OptionOk(num, m, key, Map(more)) <==> (more.Entry? ==> m.next.Some? && Numbered(num, m.next.value, more));
    hide NameOf, SectionNamed, AfterOption, OptionOk, Append, Numbered, Length;
    assert OptionsOk(num, m, mapping) <==> OptionOk(num, m, key, Map(more)) && OptionsOk(num, m1, after);
    assert AfterOptions(m, mapping) == AfterOptions(m1, after);
    hide OptionsOk, AfterOptions;
  }

  /**
   * expect_shard_map is never cleared, so a mapping under an option the parser does not know
   * may go on with the shards. The reading rejects every file that has one. The parser agrees
   * exactly when such a mapping is not empty and precedes every shard_map, or is not empty and
   * its keys do not go on from the last shard, or the rest of the file is rejected.
   */
  lemma ShardsUnderUnknown(num: Strtol, docs: seq<Node>, first: Entries, name: string, before: Entries,
                           key: string, more: Entries, after: Entries, last: Entries)
    requires forall d :: d in docs ==> d.Map?
    requires Sections(docs) == Append(first, Entry(name, Map(Append(before, Entry(key, Map(more), after))), last))
    requires NameOf(key) == Unknown
    ensures var m0 := AfterSections(NO_MEMORY, first);
      var m := AfterOptions(m0, before);
      var m1 := if m.next.Some? then m.(next := Some(m.next.value + Length(more))) else m;
      && ReadConfig(num, docs) == ParseError
      && (m.next.Some? <==> HasShardMapIn(first) || HasShardMap(before))
      && (Parse(num, START, Stream(docs)) == ReadConfig(num, docs) <==>
            || (more.Entry? && m.next.None?)
            || (more.Entry? && m.next.Some? && !Numbered(num, m.next.value, more))
            || !SectionsOk(num, NO_MEMORY, first) || SectionNamed(name).None? || !OptionsOk(num, m0, before)
            || !OptionsOk(num, m1, after) || !SectionsOk(num, AfterOptions(m1, after), last))
  {
    hide Parse, ReadConfig, PlainOptions, PlainSections, NameOf, SectionNamed, Sections, AfterSections, SectionsOk, WriteSections,
      Append, Stream, OptionsOk, AfterOptions, Numbered, Length, PlainDocuments, HasShardMap, HasShardMapIn;
    var section := Entry(name, Map(Append(before, Entry(key, Map(more), after))), last);
    MappingIsNotPlain(name, before, key, more, after, last);
    NotPlainAmong(docs, first, section);
    OnlyPlainIsRead(num, docs);
    ParserReads(num, docs);
    var m0 := AfterSections(NO_MEMORY, first);
    NextAfterSections(NO_MEMORY, first);
    NextAfterOptions(m0, before);
    SectionsConcat(num, NO_MEMORY, DEFAULT_CONFIG, first, section);
    SectionWithMapping(num, m0, name, before, key, more, after, last);
  }

  /**
   * A section whose value is a scalar is malformed for the reading. For the parser it is a
   * second section name: it agrees exactly when that is none, or the rest is rejected.
   */
  lemma ScalarSection(num: Strtol, docs: seq<Node>, first: Entries, name: string, s: string, last: Entries)
    requires forall d :: d in docs ==> d.Map?
    requires Sections(docs) == Append(first, Entry(name, Leaf(s), last))
    ensures var m := AfterSections(NO_MEMORY, first);
      && ReadConfig(num, docs) == ParseError
      && (Parse(num, START, Stream(docs)) == ReadConfig(num, docs) <==>
            SectionNamed(s).None? || SectionNamed(name).None? || !SectionsOk(num, NO_MEMORY, first) || !SectionsOk(num, m, last))
  {
    var section := Entry(name, Leaf(s), last);
    assert !PlainSections(section);
    var m := AfterSections(NO_MEMORY, first);
    assert SectionsOk(num, m, section) <==> SectionNamed(name).Some? && SectionNamed(s).Some? && SectionsOk(num, m, last);
    hide Parse, ReadConfig, PlainSections, SectionNamed, Sections, AfterSections, SectionsOk, WriteSections, Append, Stream, PlainDocuments;
    NotPlainAmong(docs, first, section);
    OnlyPlainIsRead(num, docs);
    ParserReads(num, docs);
    SectionsConcat(num, NO_MEMORY, DEFAULT_CONFIG, first, section);
  }

  /** A shard_map and a mapping under an unknown option that goes on with it: both end up in the ring. */
  lemma MappingGoesOn(num: Strtol, name: string, key1: string, shards: Entries, key2: string, more: Entries)
    requires SectionNamed(name) == Some(Statsd) && NameOf(key1) == ShardMap && NameOf(key2) == Unknown
    requires Numbered(num, 0, shards) && Numbered(num, Length(shards), more)
    ensures var docs := [Map(Entry(name, Map(Entry(key1, Map(shards), Entry(key2, Map(more), End))), End))];
      var pc := DEFAULT_CONFIG.statsd.(initialized := true, ring := Texts(shards) + Texts(more));
      Parse(num, START, Stream(docs)) == Parsed(DEFAULT_CONFIG.(statsd := pc)) && ReadConfig(num, docs) == ParseError
  {
    hide Parse, ReadConfig, NameOf, SectionNamed, Sections, Stream, PlainDocuments, PlainSections, PlainOptions, Numbered, Length, Texts;
    var before := Entry(key1, Map(shards), End);
    var options := Entry(key1, Map(shards), Entry(key2, Map(more), End));
    var docs := [Map(Entry(name, Map(options), End))];
    OneDocumentSections(Entry(name, Map(options), End));
    assert options == Append(before, Entry(key2, Map(more), End));
    MappingIsNotPlain(name, before, key2, more, End, End);
    NotPlainAmong(docs, End, Entry(name, Map(options), End));
    OnlyPlainIsRead(num, docs);
    ParserReads(num, docs);
    assert AfterOption(NO_MEMORY, key1, Map(shards)).next == Some(Length(shards));
    assert AfterOptions(NO_MEMORY, before) == AfterOption(NO_MEMORY, key1, Map(shards));
    assert OptionsOk(num, NO_MEMORY, before);
    SectionWithMapping(num, NO_MEMORY, name, before, key2, more, End, End);
    assert Acceptable(num, docs);
    TwoMappings(num, NO_MEMORY, DEFAULT_CONFIG.statsd.(initialized := true), key1, shards, key2, more);
    Reassociate(Texts(shards), [], []);
    var config := WriteSections(num, NO_MEMORY, DEFAULT_CONFIG, Entry(name, Map(options), End));
    assert config == WriteSection(num, NO_MEMORY, DEFAULT_CONFIG, name, Map(options));
  }

  lemma ShardsElsewhereExample(num: Strtol)
    requires num("0") == Some(0) && num("1") == Some(1)
    ensures var docs := TwoOptions("shard_map", Map(Entry("0", Leaf("a"), End)), "extra", Map(Entry("1", Leaf("b"), End)));
      var parsed := Parse(num, START, Stream(docs));
      && parsed.Parsed? && parsed.config.statsd.ring == ["a", "b"]
      && ReadConfig(num, docs) == ParseError
  {
    hide Parse, ReadConfig, Numbered, Length, Texts;
    OneShard(num, 0, "0", "a");
    OneShard(num, 1, "1", "b");
    MappingGoesOn(num, "statsd", "shard_map", Entry("0", Leaf("a"), End), "extra", Entry("1", Leaf("b"), End));
  }

  lemma OneShard(num: Strtol, n: nat, key: string, value: string)
    requires num(key) == Some(n)
    ensures var es := Entry(key, Leaf(value), End); Numbered(num, n, es) && Texts(es) == [value] && Length(es) == 1
  {
    assert Texts(End) == [] && [value] + [] == [value];
  }

  lemma TwoMappings(num: Strtol, m: Memory, pc: ProtoConfig, key1: string, es1: Entries, key2: string, es2: Entries)
    ensures WriteOptions(num, m, pc, Entry(key1, Map(es1), Entry(key2, Map(es2), End))) ==
      pc.(ring := pc.ring + Texts(es1) + Texts(es2))
  {
    hide AfterOption, Texts;
    var last := Entry(key2, Map(es2), End);
    var pc1 := pc.(ring := pc.ring + Texts(es1));
    var m1 := AfterOption(m, key1, Map(es1));
    assert WriteOptions(num, AfterOption(m1, key2, Map(es2)), pc1.(ring := pc1.ring + Texts(es2)), End) == pc1.(ring := pc1.ring + Texts(es2));
    assert WriteOptions(num, m1, pc1, last) == pc1.(ring := pc1.ring + Texts(es2));
  }

  lemma ScalarSectionExample(num: Strtol)
    ensures var docs := [Map(Entry("carbon", Leaf("statsd"), End))];
      var parsed := Parse(num, START, Stream(docs));
      && parsed.Parsed? && parsed.config.carbon.initialized && parsed.config.statsd.initialized
      && ReadConfig(num, docs) == ParseError
  {
    var section := Entry("carbon", Leaf("statsd"), End);
    var docs := [Map(section)];
    hide Parse, ReadConfig, Sections;
    OneDocumentSections(section);
    ScalarSection(num, docs, End, "carbon", "statsd", End);
    ParserReads(num, docs);
  }

  // ----- Shards -----

  function ShardKeys(es: Entries): seq<string> {
    if es.End? then [] else [es.key] + ShardKeys(es.rest)
  }

  /** The keys are the numbers from n on, in order. */
  ghost predicate InOrder(num: Strtol, n: nat, keys: seq<string>) {
    forall i :: 0 <= i < |keys| ==> num(keys[i]) == Some(n + i)
  }

  lemma InOrderStep(num: Strtol, n: nat, key: string, keys: seq<string>)
    ensures InOrder(num, n, [key] + keys) <==> num(key) == Some(n) && InOrder(num, n + 1, keys)
  {
    var all := [key] + keys;
    if InOrder(num, n, all) {
      assert num(all[0]) == Some(n);
      forall i | 0 <= i < |keys| ensures num(keys[i]) == Some(n + 1 + i) {
        assert all[i + 1] == keys[i];
      }
    }
  }

  lemma {:induction false} NumberedIsInOrder(num: Strtol, n: nat, es: Entries)
    ensures Numbered(num, n, es) <==> InOrder(num, n, ShardKeys(es))
    decreases es
  {
    if es.Entry? {
      hide InOrder;
      NumberedIsInOrder(num, n + 1, es.rest);
      InOrderStep(num, n, es.key, ShardKeys(es.rest));
    }
  }

  /** A shard map is accepted exactly when its keys are numbered in order, and gives its values. */
  lemma ShardsInOrder(num: Strtol, n: nat, es: Entries)
    requires Flat(es)
    ensures ReadShards(num, n, es) == if InOrder(num, n, ShardKeys(es)) then Some(Texts(es)) else None
  {
    hide InOrder;
    FlatIsNumbered(num, n, es);
    NumberedIsInOrder(num, n, es);
  }

  /** The scalars under all the mappings of a section. */
  function OptionsRing(es: Entries): seq<string> {
    if es.End? then [] else (if es.value.Map? then Texts(es.value.entries) else []) + OptionsRing(es.rest)
  }

  /** ... and under all the sections of one name. */
  function SectionRing(es: Entries, sec: Section): seq<string> {
    if es.End? then []
    else
      (if es.value.Map? && SectionNamed(es.key) == Some(sec) then OptionsRing(es.value.entries) else []) + SectionRing(es.rest, sec)
  }

  /** Every mapping under a shard_map is numbered from 0 in order. */
  ghost predicate OptionsNumbered(num: Strtol, es: Entries) {
    es.Entry? ==>
      (NameOf(es.key) == ShardMap && es.value.Map? ==> InOrder(num, 0, ShardKeys(es.value.entries))) && OptionsNumbered(num, es.rest)
  }

  ghost predicate SectionsNumbered(num: Strtol, es: Entries) {
    es.Entry? ==> (es.value.Map? ==> OptionsNumbered(num, es.value.entries)) && SectionsNumbered(num, es.rest)
  }

  lemma {:induction false} AcceptedOptionsNumbered(num: Strtol, m: Memory, es: Entries)
    requires OptionsOk(num, m, es)
    ensures OptionsNumbered(num, es)
    decreases es
  {
    if es.Entry? {
      hide NameOf, InOrder, AfterOption, Numbered;
      if es.value.Map? {
        NumberedIsInOrder(num, 0, es.value.entries);
        NothingNumbered(num, es.value.entries);
      }
      AcceptedOptionsNumbered(num, AfterOption(m, es.key, es.value), es.rest);
    }
  }

  lemma {:induction false} AcceptedNumbered(num: Strtol, m: Memory, es: Entries)
    requires SectionsOk(num, m, es)
    ensures SectionsNumbered(num, es)
    decreases es
  {
    if es.Entry? {
      hide OptionsOk, OptionsNumbered, AfterSection;
      if es.value.Map? {
        AcceptedOptionsNumbered(num, m, es.value.entries);
      }
      AcceptedNumbered(num, AfterSection(m, es.value), es.rest);
    }
  }

  lemma Reassociate(a: seq<string>, b: seq<string>, c: seq<string>)
    ensures (a + b) + c == a + (b + c) && a + [] == a && [] + a == a
  {}

  lemma OptionRing(num: Strtol, m: Memory, pc: ProtoConfig, key: string, value: Node)
    ensures WriteOption(num, m, pc, key, value).ring == pc.ring + if value.Map? then Texts(value.entries) else []
  {
    hide AfterKey, Boolean, SendQueueLimit, Texts;
    Reassociate(pc.ring, [], []);
  }

  lemma {:induction false} OptionsRingWritten(num: Strtol, m: Memory, pc: ProtoConfig, es: Entries)
    ensures WriteOptions(num, m, pc, es).ring == pc.ring + OptionsRing(es)
    decreases es
  {
    hide WriteOption, AfterOption, Texts;
    if es.Entry? {
      OptionRing(num, m, pc, es.key, es.value);
      OptionsRingWritten(num, AfterOption(m, es.key, es.value), WriteOption(num, m, pc, es.key, es.value), es.rest);
      Reassociate(pc.ring, if es.value.Map? then Texts(es.value.entries) else [], OptionsRing(es.rest));
    } else {
      Reassociate(pc.ring, [], []);
    }
  }

  lemma SectionRingWritten(num: Strtol, m: Memory, config: Config, key: string, value: Node, sec: Section)
    ensures WriteSection(num, m, config, key, value).Get(sec).ring ==
      config.Get(sec).ring + if value.Map? && SectionNamed(key) == Some(sec) then OptionsRing(value.entries) else []
  {
    hide SectionNamed, OptionsRing, WriteOptions;
    Reassociate(config.Get(sec).ring, [], []);
    if value.Map? && SectionNamed(key).Some? {
      OptionsRingWritten(num, m, Begin(config, key).Get(SectionNamed(key).value), value.entries);
    }
  }

  lemma {:induction false} SectionsRingWritten(num: Strtol, m: Memory, config: Config, es: Entries, sec: Section)
    ensures WriteSections(num, m, config, es).Get(sec).ring == config.Get(sec).ring + SectionRing(es, sec)
    decreases es
  {
    hide SectionNamed, WriteSection, AfterSection, OptionsRing;
    if es.Entry? {
      SectionRingWritten(num, m, config, es.key, es.value, sec);
      SectionsRingWritten(num, AfterSection(m, es.value), WriteSection(num, m, config, es.key, es.value), es.rest, sec);
      Reassociate(config.Get(sec).ring,
                  if es.value.Map? && SectionNamed(es.key) == Some(sec) then OptionsRing(es.value.entries) else [],
                  SectionRing(es.rest, sec));
    } else {
      Reassociate(config.Get(sec).ring, [], []);
    }
  }

  /**
   * Every accepted file numbers the shards of every shard_map 0, 1, ... in order, and its rings
   * hold exactly the scalars under the mappings of their sections, in that order, whatever the
   * flags: in a plain file with one shard_map, ring[i] is shard i.
   */
  lemma RingsOfDocument(num: Strtol, docs: seq<Node>, sec: Section)
    requires Parse(num, START, Stream(docs)).Parsed?
    ensures forall d :: d in docs ==> d.Map?
    ensures SectionsNumbered(num, Sections(docs))
    ensures Parse(num, START, Stream(docs)).config.Get(sec).ring == SectionRing(Sections(docs), sec)
  {
    hide Parse, Sections, SectionsOk, WriteSections, SectionRing;
    ParserReads(num, docs);
    AcceptedNumbered(num, NO_MEMORY, Sections(docs));
    SectionsRingWritten(num, NO_MEMORY, DEFAULT_CONFIG, Sections(docs), sec);
    Reassociate(SectionRing(Sections(docs), sec), [], []);
  }
}
