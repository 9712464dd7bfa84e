/** What a configuration file says, read recursively with no flags at all. */
module YamlReading {
  import opened Bytes
  import opened YamlConfig

  // ----- The recursive reading -----

  /** Shard keys must be n, n + 1, ... in order. */
  function ReadShards(num: Strtol, n: nat, es: Entries): Option<seq<string>>
    decreases es
  {
    match es
    case End => Some([])
    case Entry(key, value, rest) =>
      if num(key) != Some(n) || !value.Leaf? then None
      else
        match ReadShards(num, n + 1, rest)
        case None => None
        case Some(vs) => Some([value.s] + vs)
  }

  function ReadScalarOption(num: Strtol, pc: ProtoConfig, name: OptionName, s: string): Option<ProtoConfig> {
    match name
    case Bind => Some(pc.(bindAddress := s))
    case MaxSendQueue => Some(pc.(maxSendQueue := SendQueueLimit(num, s)))
    case Validate => if Boolean(s).None? then None else Some(pc.(validate := Boolean(s).value))
    case TcpCork => if Boolean(s).None? then None else Some(pc.(tcpCork := Boolean(s).value))
    case AlwaysResolveDns => if Boolean(s).None? then None else Some(pc.(alwaysResolveDns := Boolean(s).value))
    case ShardMap => None
    case Unknown => Some(pc)
  }

  function ReadOption(num: Strtol, pc: ProtoConfig, name: OptionName, value: Node): Option<ProtoConfig> {
    if name == ShardMap then
      if !value.Map? then None
      else
        match ReadShards(num, 0, value.entries)
        case None => None
        case Some(vs) => Some(pc.(ring := pc.ring + vs))
    else if !value.Leaf? then None
    else ReadScalarOption(num, pc, name, value.s)
  }

  function ReadOptions(num: Strtol, pc: ProtoConfig, es: Entries): Option<ProtoConfig>
    decreases es
  {
    match es
    case End => Some(pc)
    case Entry(key, value, rest) =>
      match ReadOption(num, pc, NameOf(key), value)
      case None => None
      case Some(pc') => ReadOptions(num, pc', rest)
  }

  function ReadSections(num: Strtol, config: Config, es: Entries): Option<Config>
    decreases es
  {
    match es
    case End => Some(config)
    case Entry(key, value, rest) =>
      if SectionNamed(key).None? || !value.Map? then None
      else
        var sec := SectionNamed(key).value;
        match ReadOptions(num, config.Get(sec).(initialized := true), value.entries)
        case None => None
        case Some(pc) => ReadSections(num, config.Set(sec, pc), rest)
  }

  function Append(a: Entries, b: Entries): Entries {
    match a
    case End => b
    case Entry(key, value, rest) => Entry(key, value, Append(rest, b))
  }

  /** The sections of a stream of documents, in order. */
  function Sections(docs: seq<Node>): Entries
    requires forall d :: d in docs ==> d.Map?
  {
    if docs == [] then End else Append(docs[0].entries, Sections(docs[1..]))
  }

  function ReadConfig(num: Strtol, docs: seq<Node>): Result {
    if exists d :: d in docs && !d.Map? then ParseError
    else
      match ReadSections(num, DEFAULT_CONFIG, Sections(docs))
      case None => ParseError
      case Some(config) => Parsed(config)
  }

  // ----- The documents compared -----

  /** All values are scalars. */
  predicate Flat(es: Entries) {
    es.Entry? ==> es.value.Leaf? && Flat(es.rest)
  }

  /** Options are scalars, except shard_map, a flat mapping. */
  predicate PlainOptions(es: Entries) {
    es.Entry? ==>
      && (if NameOf(es.key) == ShardMap then es.value.Map? && Flat(es.value.entries) else es.value.Leaf?)
      && PlainOptions(es.rest)
  }

  predicate PlainSections(es: Entries) {
    es.Entry? ==> es.value.Map? && PlainOptions(es.value.entries) && PlainSections(es.rest)
  }

  ghost predicate PlainDocuments(docs: seq<Node>) {
    forall d :: d in docs ==> d.Map? && PlainSections(d.entries)
  }

  lemma {:induction false} PlainAppend(a: Entries, b: Entries)
    requires PlainSections(a) && PlainSections(b)
    ensures PlainSections(Append(a, b))
  {
    if a.Entry? {
      PlainAppend(a.rest, b);
    }
  }

  lemma {:induction false} SectionsPlain(docs: seq<Node>)
    requires PlainDocuments(docs)
    ensures PlainSections(Sections(docs))
  {
    if docs != [] {
      assert docs[0] in docs && forall d :: d in docs[1..] ==> d in docs;
      SectionsPlain(docs[1..]);
      PlainAppend(docs[0].entries, Sections(docs[1..]));
    }
  }

  /** Everything else is malformed for the reading. */
  lemma {:induction false} NotFlat(num: Strtol, n: nat, es: Entries)
    requires !Flat(es)
    ensures ReadShards(num, n, es).None?
    decreases es
  {
    if es.value.Leaf? {
      NotFlat(num, n + 1, es.rest);
    }
  }

  lemma {:induction false} NotPlainOptions(num: Strtol, pc: ProtoConfig, es: Entries)
    requires !PlainOptions(es)
    ensures ReadOptions(num, pc, es).None?
    decreases es
  {
    hide NameOf, ReadShards, ReadScalarOption;
    if NameOf(es.key) == ShardMap && es.value.Map? && !Flat(es.value.entries) {
      NotFlat(num, 0, es.value.entries);
    }
    var r := ReadOption(num, pc, NameOf(es.key), es.value);
    if r.Some? && !PlainOptions(es.rest) {
      NotPlainOptions(num, r.value, es.rest);
    }
  }

  lemma {:induction false} NotPlainSections(num: Strtol, config: Config, es: Entries)
    requires !PlainSections(es)
    ensures ReadSections(num, config, es).None?
    decreases es
  {
    if SectionNamed(es.key).Some? && es.value.Map? {
      hide SectionNamed, ReadOptions, PlainOptions;
      var sec := SectionNamed(es.key).value;
      var pc := config.Get(sec).(initialized := true);
      if !PlainOptions(es.value.entries) {
        NotPlainOptions(num, pc, es.value.entries);
      } else if ReadOptions(num, pc, es.value.entries).Some? {
        NotPlainSections(num, config.Set(sec, ReadOptions(num, pc, es.value.entries).value), es.rest);
      }
    }
  }

  lemma {:induction false} PlainParts(a: Entries, b: Entries)
    requires PlainSections(Append(a, b))
    ensures PlainSections(a) && PlainSections(b)
  {
    if a.Entry? {
      PlainParts(a.rest, b);
    }
  }

  lemma {:induction false} PlainFromSections(docs: seq<Node>)
    requires (forall d :: d in docs ==> d.Map?) && PlainSections(Sections(docs))
    ensures PlainDocuments(docs)
  {
    if docs != [] {
      assert docs[0] in docs && forall d :: d in docs[1..] ==> d in docs;
      PlainParts(docs[0].entries, Sections(docs[1..]));
      PlainFromSections(docs[1..]);
      assert forall d :: d in docs ==> d == docs[0] || d in docs[1..];
    }
  }

  lemma OnlyPlainIsRead(num: Strtol, docs: seq<Node>)
    requires !PlainDocuments(docs)
    ensures ReadConfig(num, docs) == ParseError
  {
    hide ReadSections, PlainSections, Sections;
    if forall d :: d in docs ==> d.Map? {
      if PlainSections(Sections(docs)) {
        PlainFromSections(docs);
      } else {
        NotPlainSections(num, DEFAULT_CONFIG, Sections(docs));
      }
    }
  }

  lemma OneDocumentSections(sections: Entries)
    ensures Sections([Map(sections)]) == sections
  {
    assert [Map(sections)][1..] == [];
    AppendNothing(sections);
  }

  lemma {:induction false} AppendNothing(es: Entries)
    ensures Append(es, End) == es
  {
    if es.Entry? {
      AppendNothing(es.rest);
    }
  }
}
