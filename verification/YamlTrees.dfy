/**
 * The parser on files whose mapping keys may be mappings themselves: when is_key and
 * map_nesting still stand in for a stack, and when the parser dereferences its NULL section.
 */
module YamlTrees {
  import opened Bytes
  import opened YamlConfig

  datatype Tree = Text(s: string) | Table(rows: Rows)
  datatype Rows = Nil | Row(key: Tree, value: Tree, rest: Rows)

  function TreeEvents(t: Tree): seq<Event> {
    match t
    case Text(s) => [Scalar(s)]
    case Table(rows) => [MappingStart] + (RowEvents(rows) + [MappingEnd])
  }

  function RowEvents(rows: Rows): seq<Event> {
    match rows
    case Nil => []
    case Row(key, value, rest) => TreeEvents(key) + (TreeEvents(value) + RowEvents(rest))
  }

  function TreesEvents(docs: seq<Tree>): seq<Event> {
    if docs == [] then []
    else [DocumentStart] + (TreeEvents(docs[0]) + ([DocumentEnd] + TreesEvents(docs[1..])))
  }

  /** The events libyaml delivers for these documents. */
  function TreeStream(docs: seq<Tree>): seq<Event> {
    [StreamStart] + (TreesEvents(docs) + [StreamEnd])
  }

  // ----- is_key and map_nesting stand in for a stack -----

  /** For every event of a tree: whether it is a key, and at what depth. */
  function TreeMarks(t: Tree, isKey: bool, depth: nat): seq<(bool, int)> {
    match t
    case Text(_) => [(isKey, depth)]
    case Table(rows) => [(isKey, depth)] + (RowMarks(rows, depth + 1) + [(isKey, depth)])
  }

  function RowMarks(rows: Rows, depth: nat): seq<(bool, int)> {
    match rows
    case Nil => []
    case Row(key, value, rest) => TreeMarks(key, true, depth) + (TreeMarks(value, false, depth) + RowMarks(rest, depth))
  }

  /** What one event does to is_key and map_nesting. */
  function Track(st: (bool, int), ev: Event): (bool, int) {
    match ev
    case MappingStart => (true, st.1 + 1)
    case MappingEnd => (st.0, st.1 - 1)
    case Scalar(_) => (!st.0, st.1)
    case _ => st
  }

  function TrackAll(st: (bool, int), evs: seq<Event>): (bool, int)
    decreases |evs|
  {
    if evs == [] then st else TrackAll(Track(st, evs[0]), evs[1..])
  }

  lemma {:induction false} TrackConcat(st: (bool, int), a: seq<Event>, b: seq<Event>)
    ensures TrackAll(st, a + b) == TrackAll(TrackAll(st, a), b)
    decreases |a|
  {
    hide Track;
    if a == [] {
      assert a + b == b;
    } else {
      assert (a + b)[1..] == a[1..] + b;
      TrackConcat(Track(st, a[0]), a[1..], b);
    }
  }

  /** At every scalar map_nesting is the marked depth, and also is_key the mark if `both`. */
  ghost predicate Matches(both: bool, st: (bool, int), evs: seq<Event>, marks: seq<(bool, int)>)
    decreases |evs|
  {
    |evs| == |marks| &&
    (evs != [] ==>
      (evs[0].Scalar? ==> st.1 == marks[0].1 && (both ==> st.0 == marks[0].0)) && Matches(both, Track(st, evs[0]), evs[1..], marks[1..]))
  }

  lemma {:induction false} MatchesConcat(both: bool, st: (bool, int), a: seq<Event>, ma: seq<(bool, int)>, b: seq<Event>, mb: seq<(bool, int)>)
    requires |a| == |ma|
    ensures Matches(both, st, a + b, ma + mb) <==> Matches(both, st, a, ma) && Matches(both, TrackAll(st, a), b, mb)
    decreases |a|
  {
    hide Track;
    if a == [] {
      assert a + b == b && ma + mb == mb;
    } else {
      assert (a + b)[1..] == a[1..] + b && (ma + mb)[1..] == ma[1..] + mb;
      MatchesConcat(both, Track(st, a[0]), a[1..], ma[1..], b, mb);
    }
  }

  lemma MatchesOne(both: bool, st: (bool, int), ev: Event, mark: (bool, int))
    ensures Matches(both, st, [ev], [mark]) <==> (ev.Scalar? ==> st.1 == mark.1 && (both ==> st.0 == mark.0))
    ensures TrackAll(st, [ev]) == Track(st, ev)
  {
    assert [ev][1..] == [] && [mark][1..] == [];
    assert Matches(both, Track(st, ev), [], []);
  }

  /** No mapping used as a key has a scalar for its value. */
  predicate Regular(t: Tree) {
    t.Table? ==> RegularRows(t.rows)
  }

  predicate RegularRows(rows: Rows) {
    rows.Row? ==>
      !(rows.key.Table? && rows.value.Text?) && Regular(rows.key) && Regular(rows.value) && RegularRows(rows.rest)
  }

  lemma {:induction false} MarksLength(t: Tree, isKey: bool, depth: nat)
    ensures |TreeEvents(t)| == |TreeMarks(t, isKey, depth)|
  {
    if t.Table? {
      RowMarksLength(t.rows, depth + 1);
    }
  }

  lemma {:induction false} RowMarksLength(rows: Rows, depth: nat)
    ensures |RowEvents(rows)| == |RowMarks(rows, depth)|
  {
    if rows.Row? {
      MarksLength(rows.key, true, depth);
      MarksLength(rows.value, false, depth);
      RowMarksLength(rows.rest, depth);
    }
  }

  lemma TableParts(both: bool, b: bool, rows: Rows, isKey: bool, depth: nat)
    ensures Matches(both, (b, depth), TreeEvents(Table(rows)), TreeMarks(Table(rows), isKey, depth)) <==>
      Matches(both, (true, depth + 1), RowEvents(rows), RowMarks(rows, depth + 1))
    ensures var end := TrackAll((true, depth + 1), RowEvents(rows));
      TrackAll((b, depth), TreeEvents(Table(rows))) == (end.0, end.1 - 1)
  {
    hide Matches, TrackAll, RowEvents, RowMarks;
    var inner, marks := RowEvents(rows), RowMarks(rows, depth + 1);
    var end := TrackAll((true, depth + 1), inner);
    RowMarksLength(rows, depth + 1);
    MatchesOne(both, (b, depth), MappingStart, (isKey, depth));
    MatchesOne(both, end, MappingEnd, (isKey, depth));
    TrackConcat((b, depth), [MappingStart], inner + [MappingEnd]);
    TrackConcat((true, depth + 1), inner, [MappingEnd]);
    MatchesConcat(both, (true, depth + 1), inner, marks, [MappingEnd], [(isKey, depth)]);
    MatchesConcat(both, (b, depth), [MappingStart], [(isKey, depth)], inner + [MappingEnd], marks + [(isKey, depth)]);
  }

  lemma RowParts(both: bool, b: bool, key: Tree, value: Tree, rest: Rows, depth: nat)
    ensures var st := TrackAll((b, depth), TreeEvents(key));
      var st' := TrackAll(st, TreeEvents(value));
      && (Matches(both, (b, depth), RowEvents(Row(key, value, rest)), RowMarks(Row(key, value, rest), depth)) <==>
            Matches(both, (b, depth), TreeEvents(key), TreeMarks(key, true, depth)) &&
            Matches(both, st, TreeEvents(value), TreeMarks(value, false, depth)) &&
            Matches(both, st', RowEvents(rest), RowMarks(rest, depth)))
      && TrackAll((b, depth), RowEvents(Row(key, value, rest))) == TrackAll(st', RowEvents(rest))
  {
    hide Matches, TrackAll, TreeEvents, TreeMarks;
    var st := TrackAll((b, depth), TreeEvents(key));
    MarksLength(key, true, depth);
    MarksLength(value, false, depth);
    TrackConcat((b, depth), TreeEvents(key), TreeEvents(value) + RowEvents(rest));
    TrackConcat(st, TreeEvents(value), RowEvents(rest));
    MatchesConcat(both, (b, depth), TreeEvents(key), TreeMarks(key, true, depth),
                  TreeEvents(value) + RowEvents(rest), TreeMarks(value, false, depth) + RowMarks(rest, depth));
    MatchesConcat(both, st, TreeEvents(value), TreeMarks(value, false, depth), RowEvents(rest), RowMarks(rest, depth));
  }

  /** The counter is always right. */
  lemma {:induction false} DepthMatches(t: Tree, b: bool, isKey: bool, depth: nat)
    ensures Matches(false, (b, depth), TreeEvents(t), TreeMarks(t, isKey, depth))
    ensures TrackAll((b, depth), TreeEvents(t)).1 == depth
    decreases t, 1
  {
    hide Matches, TrackAll;
    match t
    case Text(s) => MatchesOne(false, (b, depth), Scalar(s), (isKey, depth));
    case Table(rows) =>
      TableParts(false, b, rows, isKey, depth);
      RowsDepthMatches(rows, true, depth + 1);
  }

  lemma {:induction false} RowsDepthMatches(rows: Rows, b: bool, depth: nat)
    ensures Matches(false, (b, depth), RowEvents(rows), RowMarks(rows, depth))
    ensures TrackAll((b, depth), RowEvents(rows)).1 == depth
    decreases rows, 0
  {
    match rows
    case Nil =>
    case Row(key, value, rest) =>
      hide Matches, TrackAll, RowEvents, RowMarks;
      RowParts(false, b, key, value, rest, depth);
      DepthMatches(key, b, true, depth);
      var st := TrackAll((b, depth), TreeEvents(key));
      DepthMatches(value, st.0, false, depth);
      RowsDepthMatches(rest, TrackAll(st, TreeEvents(value)).0, depth);
  }

  /** Where a tree starts with is_key as it should be, the flag stays right exactly in a regular tree. */
  lemma {:induction false} FlagMatchesIff(t: Tree, b: bool, isKey: bool, depth: nat)
    ensures Matches(true, (b, depth), TreeEvents(t), TreeMarks(t, isKey, depth)) <==> (t.Text? ==> b == isKey) && Regular(t)
    ensures Regular(t) ==> TrackAll((b, depth), TreeEvents(t)) == (if t.Text? then !b else true, depth)
    decreases t, 1
  {
    hide Matches, TrackAll;
    match t
    case Text(s) => MatchesOne(true, (b, depth), Scalar(s), (isKey, depth));
    case Table(rows) =>
      TableParts(true, b, rows, isKey, depth);
      RowsFlagMatchesIff(rows, depth + 1);
  }

  lemma {:induction false} RowsFlagMatchesIff(rows: Rows, depth: nat)
    ensures Matches(true, (true, depth), RowEvents(rows), RowMarks(rows, depth)) <==> RegularRows(rows)
    ensures RegularRows(rows) ==> TrackAll((true, depth), RowEvents(rows)) == (true, depth)
    decreases rows, 0
  {
    match rows
    case Nil =>
    case Row(key, value, rest) =>
      hide Matches, TrackAll, RowEvents, RowMarks, TreeEvents, TreeMarks;
      RowParts(true, true, key, value, rest, depth);
      FlagMatchesIff(key, true, true, depth);
      if Regular(key) {
        FlagMatchesIff(value, key.Table?, false, depth);
        RowsFlagMatchesIff(rest, depth);
      }
  }

  lemma StepTracks(num: Strtol, p: Parser, ev: Event)
    requires Step(num, p, ev).Going?
    ensures var q := Step(num, p, ev).p; (q.isKey, q.mapNesting) == Track((p.isKey, p.mapNesting), ev)
  {
    hide OnScalar;
    if ev.Scalar? {
      ScalarKeeps(num, p, ev.value);
    }
  }

  lemma {:induction false} RunTracks(num: Strtol, p: Parser, evs: seq<Event>)
    requires Run(num, p, evs).Going?
    ensures var q := Run(num, p, evs).p; (q.isKey, q.mapNesting) == TrackAll((p.isKey, p.mapNesting), evs)
    decreases |evs|
  {
    hide Step, Track;
    if evs != [] {
      StepTracks(num, p, evs[0]);
      RunTracks(num, Step(num, p, evs[0]).p, evs[1..]);
    }
  }

  lemma {:induction false} MatchesAt(both: bool, st: (bool, int), evs: seq<Event>, marks: seq<(bool, int)>, i: nat)
    requires Matches(both, st, evs, marks) && i < |evs| && evs[i].Scalar?
    ensures var now := TrackAll(st, evs[..i]); now.1 == marks[i].1 && (both ==> now.0 == marks[i].0)
    decreases i
  {
    hide Track;
    if i > 0 {
      assert evs[..i][1..] == evs[1..][..i - 1];
      MatchesAt(both, Track(st, evs[0]), evs[1..], marks[1..], i - 1);
    }
  }

  /** If the pair is right at every scalar, it matches. */
  lemma {:induction false} MatchesEverywhere(both: bool, st: (bool, int), evs: seq<Event>, marks: seq<(bool, int)>)
    requires |evs| == |marks|
    requires forall i :: 0 <= i < |evs| && evs[i].Scalar? ==>
      var now := TrackAll(st, evs[..i]); now.1 == marks[i].1 && (both ==> now.0 == marks[i].0)
    ensures Matches(both, st, evs, marks)
    decreases |evs|
  {
    hide Track;
    if evs != [] {
      assert evs[..0] == [];
      forall i | 0 <= i < |evs[1..]| && evs[1..][i].Scalar?
        ensures var now := TrackAll(Track(st, evs[0]), evs[1..][..i]);
          now.1 == marks[1..][i].1 && (both ==> now.0 == marks[1..][i].0)
      {
        assert evs[..i + 1][1..] == evs[1..][..i] && evs[i + 1] == evs[1..][i];
      }
      MatchesEverywhere(both, Track(st, evs[0]), evs[1..], marks[1..]);
    }
  }

  /**
   * At every scalar that the parser reaches, in whatever document and whatever came before it,
   * map_nesting is the depth of the mapping; and is_key is true exactly at key positions, if no
   * mapping used as a key has a scalar value and a scalar root does not find is_key set.
   */
  lemma KeyFlagIsExact(num: Strtol, p: Parser, root: Tree, i: nat)
    requires p.mapNesting == 0
    requires i < |TreeEvents(root)| && TreeEvents(root)[i].Scalar?
    requires Run(num, p, TreeEvents(root)[..i]).Going?
    ensures i < |TreeMarks(root, false, 0)|
    ensures var q, mark := Run(num, p, TreeEvents(root)[..i]).p, TreeMarks(root, false, 0)[i];
      q.mapNesting == mark.1 && (Regular(root) && (root.Text? ==> !p.isKey) ==> q.isKey == mark.0)
  {
    hide Run, TreeEvents, TreeMarks, Regular;
    var evs, marks := TreeEvents(root), TreeMarks(root, false, 0);
    MarksLength(root, false, 0);
    DepthMatches(root, p.isKey, false, 0);
    FlagMatchesIff(root, p.isKey, false, 0);
    RunTracks(num, p, evs[..i]);
    MatchesAt(false, (p.isKey, 0), evs, marks, i);
    if Regular(root) && (root.Text? ==> !p.isKey) {
      MatchesAt(true, (p.isKey, 0), evs, marks, i);
    }
  }

  /** ... and that condition is exact: in any other tree some scalar finds is_key wrong. */
  lemma KeyFlagExactIff(root: Tree, isKey: bool)
    ensures |TreeMarks(root, false, 0)| == |TreeEvents(root)|
    ensures (forall i :: 0 <= i < |TreeEvents(root)| && TreeEvents(root)[i].Scalar? ==>
               TrackAll((isKey, 0), TreeEvents(root)[..i]) == TreeMarks(root, false, 0)[i]) <==>
      Regular(root) && (root.Text? ==> !isKey)
  {
    hide TrackAll, TreeEvents, TreeMarks, Regular, Matches;
    var evs, marks := TreeEvents(root), TreeMarks(root, false, 0);
    MarksLength(root, false, 0);
    FlagMatchesIff(root, isKey, false, 0);
    if Regular(root) && (root.Text? ==> !isKey) {
      forall i | 0 <= i < |evs| && evs[i].Scalar? ensures TrackAll((isKey, 0), evs[..i]) == marks[i] {
        MatchesAt(true, (isKey, 0), evs, marks, i);
      }
    } else if forall i :: 0 <= i < |evs| && evs[i].Scalar? ==> TrackAll((isKey, 0), evs[..i]) == marks[i] {
      MatchesEverywhere(true, (isKey, 0), evs, marks);
    }
  }

  // ----- When the NULL section is dereferenced -----

  /** This scalar is stored through `protoc`. */
  predicate Dereferences(p: Parser, s: string) {
    && !p.isKey
    && (p.mapNesting == 2 ==>
          p.pending.bindAddress || p.pending.sendQueue ||
          ((p.pending.validate || p.pending.tcpCork || p.alwaysResolveDns) && Boolean(s).Some?))
    && (p.mapNesting == 3 ==> p.expectShardMap)
    && (p.mapNesting == 2 || p.mapNesting == 3)
  }

  lemma CrashStep(num: Strtol, p: Parser, ev: Event)
    ensures Step(num, p, ev) == Crashed <==> p.protoc.None? && ev.Scalar? && Dereferences(p, ev.value)
  {
    hide NameOf, Boolean, SectionNamed;
  }

  /** Only a scalar of the outermost mapping sets `protoc`, and nothing clears it. */
  lemma ProtocStep(num: Strtol, p: Parser, ev: Event)
    requires Step(num, p, ev).Going?
    ensures Step(num, p, ev).p.protoc.None? <==> p.protoc.None? && !(ev.Scalar? && p.mapNesting == 1)
  {
    hide NameOf, Boolean, SectionNamed;
  }

  /** No scalar stands in the outermost mapping. */
  ghost predicate NoSectionYet(st: (bool, int), evs: seq<Event>) {
    forall j :: 0 <= j < |evs| && evs[j].Scalar? ==> TrackAll(st, evs[..j]).1 != 1
  }

  lemma NoSectionStep(st: (bool, int), evs: seq<Event>)
    requires evs != []
    ensures NoSectionYet(st, evs) <==> !(evs[0].Scalar? && st.1 == 1) && NoSectionYet(Track(st, evs[0]), evs[1..])
  {
    hide Track;
    assert evs[..0] == [];
    assert forall j :: 0 <= j < |evs[1..]| ==> evs[1..][j] == evs[j + 1] && evs[..j + 1][1..] == evs[1..][..j];
    if NoSectionYet(st, evs) {
      forall j | 0 <= j < |evs[1..]| && evs[1..][j].Scalar? ensures TrackAll(Track(st, evs[0]), evs[1..][..j]).1 != 1 {
        assert TrackAll(st, evs[..j + 1]).1 != 1;
      }
    }
    if NoSectionYet(Track(st, evs[0]), evs[1..]) && !(evs[0].Scalar? && st.1 == 1) {
      forall j | 0 <= j < |evs| && evs[j].Scalar? ensures TrackAll(st, evs[..j]).1 != 1 {
        if j > 0 {
          assert evs[1..][j - 1].Scalar?;
          assert evs[..j][1..] == evs[1..][..j - 1];
        }
      }
    }
  }

  lemma {:induction false} ProtocIff(num: Strtol, p: Parser, evs: seq<Event>)
    requires Run(num, p, evs).Going?
    ensures Run(num, p, evs).p.protoc.None? <==> p.protoc.None? && NoSectionYet((p.isKey, p.mapNesting), evs)
    decreases |evs|
  {
    hide Step, Track, NoSectionYet;
    if evs == [] {
      assert NoSectionYet((p.isKey, p.mapNesting), []) by { NoEvents((p.isKey, p.mapNesting)); }
    } else {
      var q := Step(num, p, evs[0]).p;
      StepTracks(num, p, evs[0]);
      ProtocStep(num, p, evs[0]);
      ProtocIff(num, q, evs[1..]);
      NoSectionStep((p.isKey, p.mapNesting), evs);
    }
  }

  lemma NoEvents(st: (bool, int))
    ensures NoSectionYet(st, [])
  {}

  ghost predicate StopsAt(num: Strtol, p: Parser, evs: seq<Event>, k: nat) {
    k < |evs| && StreamEnd !in evs[..k] && Run(num, p, evs[..k]).Going? && Step(num, Run(num, p, evs[..k]).p, evs[k]) == Crashed
  }

  lemma StopsStep(num: Strtol, p: Parser, evs: seq<Event>, k: nat)
    requires evs != [] && evs[0] != StreamEnd && Step(num, p, evs[0]).Going?
    ensures StopsAt(num, p, evs, k + 1) <==> StopsAt(num, Step(num, p, evs[0]).p, evs[1..], k)
  {
    hide Step;
    if k + 1 < |evs| {
      assert evs[..k + 1][1..] == evs[1..][..k] && evs[..k + 1] == [evs[0]] + evs[1..][..k];
    }
  }

  lemma {:induction false} ParseCrashes(num: Strtol, p: Parser, evs: seq<Event>)
    ensures Parse(num, p, evs) == NullDereference <==> exists k :: StopsAt(num, p, evs, k)
    decreases |evs|
  {
    hide Step, StopsAt;
    if evs != [] {
      StopsFirst(num, p, evs);
      if evs[0] != StreamEnd && Step(num, p, evs[0]).Going? {
        var q := Step(num, p, evs[0]).p;
        ParseCrashes(num, q, evs[1..]);
        forall k: nat ensures StopsAt(num, p, evs, k + 1) <==> StopsAt(num, q, evs[1..], k) {
          StopsStep(num, p, evs, k);
        }
        if k: nat :| StopsAt(num, p, evs, k) {
          assert k > 0 && k - 1 + 1 == k;
          assert StopsAt(num, q, evs[1..], k - 1);
        }
      }
    } else {
      forall k: nat ensures !StopsAt(num, p, evs, k) { StopsNowhere(num, p, k); }
    }
  }

  lemma StopsNowhere(num: Strtol, p: Parser, k: nat)
    ensures !StopsAt(num, p, [], k)
  {}

  lemma StopsFirst(num: Strtol, p: Parser, evs: seq<Event>)
    requires evs != []
    ensures StopsAt(num, p, evs, 0) <==> Step(num, p, evs[0]) == Crashed
    ensures evs[0] == StreamEnd || !Step(num, p, evs[0]).Going? ==> forall k :: 0 < k ==> !StopsAt(num, p, evs, k)
    ensures evs[0] == StreamEnd ==> Step(num, p, evs[0]).Going?
  {
    hide OnScalar;
    assert evs[..0] == [];
    forall k | 0 < k < |evs| && StopsAt(num, p, evs, k) ensures evs[0] != StreamEnd && Step(num, p, evs[0]).Going? {
      assert evs[..k][0] == evs[0];
    }
  }

  /** The k-th event is stored through `protoc` before any section has been named. */
  ghost predicate CrashesAt(num: Strtol, evs: seq<Event>, k: nat) {
    && k < |evs| && StreamEnd !in evs[..k]
    && NoSectionYet((false, 0), evs[..k])
    && Run(num, START, evs[..k]).Going?
    && evs[k].Scalar? && Dereferences(Run(num, START, evs[..k]).p, evs[k].value)
  }

  /** For every sequence of events: exactly when the parser dereferences NULL. */
  lemma CrashIff(num: Strtol, evs: seq<Event>)
    ensures Parse(num, START, evs) == NullDereference <==> exists k :: CrashesAt(num, evs, k)
  {
    hide Parse, Run, Step, NoSectionYet, Dereferences;
    ParseCrashes(num, START, evs);
    forall k: nat ensures StopsAt(num, START, evs, k) <==> CrashesAt(num, evs, k) {
      if k < |evs| && Run(num, START, evs[..k]).Going? {
        ProtocIff(num, START, evs[..k]);
        CrashStep(num, Run(num, START, evs[..k]).p, evs[k]);
      }
    }
    if k: nat :| StopsAt(num, START, evs, k) {
      assert CrashesAt(num, evs, k);
    }
    if k: nat :| CrashesAt(num, evs, k) {
      assert StopsAt(num, START, evs, k);
    }
  }

  lemma {:induction false} NamedNeverCrashes(num: Strtol, p: Parser, evs: seq<Event>)
    requires p.protoc.Some?
    ensures Parse(num, p, evs) != NullDereference
    decreases |evs|
  {
    hide Step;
    if evs != [] {
      CrashStep(num, p, evs[0]);
      var r := Step(num, p, evs[0]);
      if r.Going? {
        ProtocStep(num, p, evs[0]);
        NamedNeverCrashes(num, r.p, evs[1..]);
      }
    }
  }

  /** The first key of the first mapping that has one is a mapping itself. */
  predicate LeadsWithTable(docs: seq<Tree>) {
    docs != [] && docs[0].Table? && if docs[0].rows.Nil? then LeadsWithTable(docs[1..]) else docs[0].rows.key.Table?
  }

  lemma ParseCons(num: Strtol, p: Parser, ev: Event, evs: seq<Event>)
    requires ev != StreamEnd
    ensures Parse(num, p, [ev] + evs) ==
      match Step(num, p, ev)
      case Going(q) => Parse(num, q, evs)
      case Failed => ParseError
      case Crashed => NullDereference
  {
    hide Step;
    assert ([ev] + evs)[1..] == evs;
  }

  lemma FirstScalarNames(num: Strtol, p: Parser, s: string, evs: seq<Event>)
    requires p.mapNesting == 0 || p.mapNesting == 1
    ensures Parse(num, p, [Scalar(s)] + evs) != NullDereference
  {
    hide SectionNamed, Parse;
    ParseCons(num, p, Scalar(s), evs);
    var r := Step(num, p, Scalar(s));
    if r.Going? {
      NamedNeverCrashes(num, r.p, evs);
    }
  }

  lemma {:induction false} DocumentsNeverCrash(num: Strtol, p: Parser, docs: seq<Tree>)
    requires p.mapNesting == 0 && !p.inDocument && !LeadsWithTable(docs)
    ensures Parse(num, p, TreesEvents(docs) + [StreamEnd]) != NullDereference
    decreases |docs|
  {
    if docs == [] {
      assert TreesEvents(docs) + [StreamEnd] == [StreamEnd];
    } else {
      hide Parse, TreesEvents, TreeEvents, RowEvents, Step;
      var later := [DocumentEnd] + (TreesEvents(docs[1..]) + [StreamEnd]);
      TreesStep(docs);
      RootFirst(docs[0], later);
      match docs[0]
      case Text(s) => ScalarRoot(num, p, s, later);
      case Table(Nil) =>
        EmptyRoot(num, p, TreesEvents(docs[1..]) + [StreamEnd]);
        DocumentsNeverCrash(num, p.(isKey := true), docs[1..]);
      case Table(Row(Text(s), value, rest)) => ScalarKey(num, p, s, TreeEvents(value) + (RowEvents(rest) + ([MappingEnd] + later)));
    }
  }

  lemma ScalarRoot(num: Strtol, p: Parser, s: string, more: seq<Event>)
    requires p.mapNesting == 0 && !p.inDocument
    ensures Parse(num, p, [DocumentStart] + ([Scalar(s)] + more)) != NullDereference
  {
    hide Parse;
    ParseCons(num, p, DocumentStart, [Scalar(s)] + more);
    FirstScalarNames(num, p.(inDocument := true), s, more);
  }

  lemma EmptyRoot(num: Strtol, p: Parser, more: seq<Event>)
    requires p.mapNesting == 0 && !p.inDocument
    ensures Parse(num, p, [DocumentStart] + ([MappingStart] + ([MappingEnd] + ([DocumentEnd] + more)))) == Parse(num, p.(isKey := true), more)
  {
    hide Parse, OnScalar;
    var q := p.(inDocument := true);
    var r := q.(isKey := true);
    ParseCons(num, p, DocumentStart, [MappingStart] + ([MappingEnd] + ([DocumentEnd] + more)));
    ParseCons(num, q, MappingStart, [MappingEnd] + ([DocumentEnd] + more));
    ParseCons(num, r.(mapNesting := 1), MappingEnd, [DocumentEnd] + more);
    ParseCons(num, r, DocumentEnd, more);
  }

  lemma ScalarKey(num: Strtol, p: Parser, s: string, more: seq<Event>)
    requires p.mapNesting == 0 && !p.inDocument
    ensures Parse(num, p, [DocumentStart] + ([MappingStart] + ([Scalar(s)] + more))) != NullDereference
  {
    hide Parse, OnScalar;
    var q := p.(inDocument := true);
    ParseCons(num, p, DocumentStart, [MappingStart] + ([Scalar(s)] + more));
    ParseCons(num, q, MappingStart, [Scalar(s)] + more);
    FirstScalarNames(num, q.(isKey := true, mapNesting := 1), s, more);
  }

  lemma RootFirst(t: Tree, later: seq<Event>)
    ensures TreeEvents(t) + later ==
      match t
      case Text(s) => [Scalar(s)] + later
      case Table(Nil) => [MappingStart] + ([MappingEnd] + later)
      case Table(Row(key, value, rest)) =>
        [MappingStart] + (TreeEvents(key) + (TreeEvents(value) + (RowEvents(rest) + ([MappingEnd] + later))))
  {}

  lemma TreesStep(docs: seq<Tree>)
    requires docs != []
    ensures TreesEvents(docs) + [StreamEnd] ==
      [DocumentStart] + (TreeEvents(docs[0]) + ([DocumentEnd] + (TreesEvents(docs[1..]) + [StreamEnd])))
  {
    hide TreeEvents;
  }

  /** Only a file whose first key is a mapping can make the parser dereference NULL. */
  lemma ParserNeverCrashes(num: Strtol, docs: seq<Tree>)
    requires !LeadsWithTable(docs)
    ensures Parse(num, START, TreeStream(docs)) != NullDereference
  {
    hide Parse;
    ParseCons(num, START, StreamStart, TreesEvents(docs) + [StreamEnd]);
    DocumentsNeverCrash(num, START, docs);
  }

  /** This option's value is stored by the parser. */
  predicate Stored(name: OptionName, s: string) {
    match name
    case Bind | MaxSendQueue => true
    case Validate | TcpCork | AlwaysResolveDns => Boolean(s).Some?
    case ShardMap | Unknown => false
  }

  /** ... and it does, whatever follows, if that mapping begins with an option whose value is stored. */
  lemma LeadingOptionCrashes(num: Strtol, key: string, s: string, others: Rows, value: Tree, rest: Rows, docs: seq<Tree>)
    requires docs != [] && docs[0] == Table(Row(Table(Row(Text(key), Text(s), others)), value, rest))
    requires Stored(NameOf(key), s)
    ensures Parse(num, START, TreeStream(docs)) == NullDereference
  {
    hide Parse, NameOf, Boolean, TreesEvents, TreeEvents, RowEvents;
    var later := [DocumentEnd] + (TreesEvents(docs[1..]) + [StreamEnd]);
    var next := TreeEvents(value) + (RowEvents(rest) + ([MappingEnd] + later));
    var more := RowEvents(others) + ([MappingEnd] + next);
    TreesStep(docs);
    RootFirst(docs[0], later);
    RootFirst(docs[0].rows.key, next);
    KeyText(key, [Scalar(s)] + more);
    KeyText(s, more);
    ParseCons(num, START, StreamStart, TreesEvents(docs) + [StreamEnd]);
    OptionFirst(num, key, s, more);
  }

  lemma KeyText(s: string, more: seq<Event>)
    ensures TreeEvents(Text(s)) + more == [Scalar(s)] + more
  {}

  lemma OptionFirst(num: Strtol, key: string, s: string, more: seq<Event>)
    requires Stored(NameOf(key), s)
    ensures Parse(num, START, [DocumentStart] + ([MappingStart] + ([MappingStart] + ([Scalar(key)] + ([Scalar(s)] + more))))) == NullDereference
  {
    hide Parse, NameOf, Boolean;
    var p0 := START.(inDocument := true);
    var p2 := p0.(isKey := true, mapNesting := 2);
    ParseCons(num, START, DocumentStart, [MappingStart] + ([MappingStart] + ([Scalar(key)] + ([Scalar(s)] + more))));
    ParseCons(num, p0, MappingStart, [MappingStart] + ([Scalar(key)] + ([Scalar(s)] + more)));
    ParseCons(num, p0.(isKey := true, mapNesting := 1), MappingStart, [Scalar(key)] + ([Scalar(s)] + more));
    ParseCons(num, p2, Scalar(key), [Scalar(s)] + more);
    var p3 := Step(num, p2, Scalar(key)).p;
    ParseCons(num, p3, Scalar(s), more);
    CrashStep(num, p3, Scalar(s));
  }

  /** The smallest such file maps { bind: x } to y. */
  lemma CrashExample(num: Strtol)
    ensures var docs := [Table(Row(Table(Row(Text("bind"), Text("x"), Nil)), Text("y"), Nil))];
      Parse(num, START, TreeStream(docs)) == NullDereference
  {
    var docs := [Table(Row(Table(Row(Text("bind"), Text("x"), Nil)), Text("y"), Nil))];
    LeadingOptionCrashes(num, "bind", "x", Nil, Text("y"), Nil, docs);
  }
}
