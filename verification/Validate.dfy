/** The key parsers (protocol.c) and line validators (validate.c), against a grammar of the lines. */
module Validate {
  import opened Bytes

  datatype Protocol = Statsd | Carbon

  /** `numeric(s)` says whether strtod, given the C string s, converts a non-empty prefix of it. */
  type Numeric = Bytes -> bool

  // ----- Key length -----

  /** simple_parse; 0 stands for failure as well as for an empty key. */
  function SimpleParse(line: Bytes, needle: byte): (n: nat)
    ensures n < |line| || n == 0
    ensures n > 0 <==> |line| > 0 && line[0] != needle && needle in line
    ensures n > 0 ==> line[n] == needle && needle !in line[..n]
  {
    if line == [] then 0
    else if IndexOf(line, needle) == |line| then 0
    else IndexOf(line, needle)
  }

  function ParseKey(proto: Protocol, line: Bytes): (n: nat)
    ensures n <= |line|
  {
    SimpleParse(line, if proto == Statsd then COLON else SPACE)
  }

  // ----- statsd -----

  /** "c", "ms", "kv", "g", "h", "s". */
  const STAT_TYPES: seq<Bytes> := [[99], [109, 115], [107, 118], [103], [104], [115]]

  predicate IsType(kind: Bytes) { kind in STAT_TYPES }

  lemma TypeNames()
    ensures |STAT_TYPES| == 6
    ensures Spells(STAT_TYPES[0], "c") && Spells(STAT_TYPES[1], "ms") && Spells(STAT_TYPES[2], "kv")
    ensures Spells(STAT_TYPES[3], "g") && Spells(STAT_TYPES[4], "h") && Spells(STAT_TYPES[5], "s")
  {}

  /** A statsd line is key ':' value '|' type, or key ':' value '|' type "|@" rate. */
  function Typed(kind: Bytes, rate: Option<Bytes>): Bytes {
    kind + if rate.Some? then [PIPE] + ([AT] + rate.value) else []
  }

  function Valued(value: Bytes, kind: Bytes, rate: Option<Bytes>): Bytes {
    value + [PIPE] + Typed(kind, rate)
  }

  function StatsdLine(key: Bytes, value: Bytes, kind: Bytes, rate: Option<Bytes>): Bytes {
    key + [COLON] + Valued(value, kind, rate)
  }

  /** strtod stops at a NUL. */
  predicate Number(numeric: Numeric, s: Bytes) {
    numeric(CString(s))
  }

  ghost predicate GoodType(numeric: Numeric, kind: Bytes, rate: Option<Bytes>) {
    IsType(kind) && (rate.Some? ==> rate.value != [] && Number(numeric, rate.value))
  }

  /** As in the source, the value's number is looked for in everything after the ':'. */
  ghost predicate IsStatsd(numeric: Numeric, line: Bytes, key: Bytes, value: Bytes, kind: Bytes, rate: Option<Bytes>) {
    && line == StatsdLine(key, value, kind, rate)
    && key != [] && COLON !in key
    && PIPE !in value && Number(numeric, Valued(value, kind, rate))
    && GoodType(numeric, kind, rate)
  }

  ghost predicate StatsdGrammar(numeric: Numeric, line: Bytes) {
    exists key, value, kind, rate :: IsStatsd(numeric, line, key, value, kind, rate)
  }

  /** The decision procedure: cut at the first ':', the next '|' and the next '|' again. */
  predicate ValidStatsd(numeric: Numeric, line: Bytes) {
    var i := IndexOf(line, COLON);
    0 < i < |line| && Number(numeric, line[i + 1..]) && ValidValue(numeric, line[i + 1..])
  }

  predicate ValidValue(numeric: Numeric, rest: Bytes) {
    var j := IndexOf(rest, PIPE);
    j < |rest| && ValidType(numeric, rest[j + 1..])
  }

  predicate ValidType(numeric: Numeric, rest: Bytes) {
    var k := IndexOf(rest, PIPE);
    IsType(rest[..k]) && (k < |rest| ==> ValidRate(numeric, rest[k + 1..]))
  }

  predicate ValidRate(numeric: Numeric, rest: Bytes) {
    |rest| > 1 && rest[0] == AT && Number(numeric, rest[1..])
  }

  lemma TypesAreClean(kind: Bytes)
    requires IsType(kind)
    ensures PIPE !in kind
  {}

  lemma TypeIsGrammar(numeric: Numeric, rest: Bytes) returns (kind: Bytes, rate: Option<Bytes>)
    requires ValidType(numeric, rest)
    ensures rest == Typed(kind, rate) && GoodType(numeric, kind, rate)
  {
    hide IsType, IndexOf, Number;
    var k := IndexOf(rest, PIPE);
    kind := rest[..k];
    if k < |rest| {
      rate := Some(rest[k + 1..][1..]);
      assert rest[k + 1..] == [AT] + rate.value;
      assert rest == kind + [PIPE] + rest[k + 1..];
    } else {
      rate := None;
    }
  }

  lemma GrammarIsType(numeric: Numeric, kind: Bytes, rate: Option<Bytes>)
    requires GoodType(numeric, kind, rate)
    ensures ValidType(numeric, Typed(kind, rate))
  {
    hide IsType, IndexOf, Number;
    TypesAreClean(kind);
    var rest := Typed(kind, rate);
    if rate.Some? {
      assert rest == kind + [PIPE] + ([AT] + rate.value);
      FirstOf(kind, PIPE, [AT] + rate.value);
      assert ([AT] + rate.value)[1..] == rate.value;
    } else {
      assert rest == kind && kind[..|kind|] == kind;
      IndexOfUnique(rest, PIPE, |rest|);
    }
  }

  lemma ValueIsGrammar(numeric: Numeric, rest: Bytes) returns (value: Bytes, kind: Bytes, rate: Option<Bytes>)
    requires ValidValue(numeric, rest)
    ensures rest == Valued(value, kind, rate) && PIPE !in value && GoodType(numeric, kind, rate)
  {
    hide IsType, ValidType, GoodType, IndexOf, Typed, Number;
    var j := IndexOf(rest, PIPE);
    CutAt(rest, PIPE);
    kind, rate := TypeIsGrammar(numeric, rest[j + 1..]);
    value := rest[..j];
  }

  lemma ValidIsGrammar(numeric: Numeric, line: Bytes)
    requires ValidStatsd(numeric, line)
    ensures StatsdGrammar(numeric, line)
  {
    hide ValidValue, GoodType, IndexOf, Valued, Number;
    var i := IndexOf(line, COLON);
    CutAt(line, COLON);
    var value, kind, rate := ValueIsGrammar(numeric, line[i + 1..]);
    assert IsStatsd(numeric, line, line[..i], value, kind, rate);
  }

  lemma GrammarIsValid(numeric: Numeric, line: Bytes, key: Bytes, value: Bytes, kind: Bytes, rate: Option<Bytes>)
    requires IsStatsd(numeric, line, key, value, kind, rate)
    ensures ValidStatsd(numeric, line)
  {
    hide IsType, ValidType, GoodType, Typed, Number;
    FirstOf(key, COLON, Valued(value, kind, rate));
    FirstOf(value, PIPE, Typed(kind, rate));
    GrammarIsType(numeric, kind, rate);
  }

  /** The three cuts accept exactly the grammar. */
  lemma StatsdExact(numeric: Numeric, line: Bytes)
    ensures ValidStatsd(numeric, line) <==> StatsdGrammar(numeric, line)
  {
    hide ValidStatsd, IsStatsd;
    if ValidStatsd(numeric, line) {
      ValidIsGrammar(numeric, line);
    }
    if key, value, kind, rate :| IsStatsd(numeric, line, key, value, kind, rate) {
      GrammarIsValid(numeric, line, key, value, kind, rate);
    }
  }

  /**
   * validate_statsd scans a copy that ends at the line's first NUL for as many bytes as the line
   * has. C defines that for a line without NUL, and otherwise where each scan that is reached
   * finds its character in the copy.
   */
  predicate Scannable(numeric: Numeric, line: Bytes) {
    var c := CString(line);
    c == line ||
    (COLON in c &&
     var i := IndexOf(c, COLON);
     i == 0 || !numeric(c[i + 1..]) || TwoPipes(c[i + 1..]))
  }

  predicate TwoPipes(rest: Bytes) {
    PIPE in rest && PIPE in rest[IndexOf(rest, PIPE) + 1..]
  }

  /** memchr over a[from..to], or `to`; it may be told to go beyond `a` if it will not get there. */
  method MemChr(a: array<byte>, from: nat, to: nat, c: byte) returns (i: nat)
    requires from <= to && from <= a.Length && (to <= a.Length || c in a[from..])
    ensures from <= i <= to && i - from == IndexOf(a[from..if to <= a.Length then to else a.Length], c)
  {
    hide IndexOf;
    ghost var end := if to <= a.Length then to else a.Length;
    ghost var s := a[from..end];
    i := from;
    while i < to && a[i] != c
      invariant from <= i <= end
      invariant forall k :: from <= k < i ==> a[k] != c
      invariant i < to ==> i < a.Length
    {
      i := i + 1;
    }
    assert forall k :: 0 <= k < i - from ==> s[k] == a[from + k];
    IndexOfUnique(s, c, i - from);
  }

  /** The scratch copy of `line` made by strndup. */
  ghost predicate IsCopy(a: array<byte>, line: Bytes)
    reads a
  {
    a.Length == |CString(line)| + 1 && a[..] == CString(line) + [NUL]
  }

  lemma IndexBeforeEnd(s: Bytes, c: byte, end: Bytes)
    requires c in s
    ensures IndexOf(s + end, c) == IndexOf(s, c) && c in s + end
  {
    hide IndexOf;
    CutAt(s, c);
    var i := IndexOf(s, c);
    assert s + end == s[..i] + [c] + (s[i + 1..] + end);
    FirstOf(s[..i], c, s[i + 1..] + end);
  }

  /** A scan of the copy for as many bytes as the line has finds what is in the line. */
  lemma CopyIndex(copy: Bytes, line: Bytes, from: nat, c: byte)
    requires copy == CString(line) + [NUL] && from <= |CString(line)| && c != NUL
    requires CString(line) == line || c in CString(line)[from..]
    ensures var end := if |line| <= |copy| then |line| else |copy|;
      && from <= end && (|line| <= |copy| || c in copy[from..])
      && IndexOf(copy[from..end], c) == IndexOf(line[from..], c)
      && (IndexOf(line[from..], c) < |line| - from ==> from + IndexOf(line[from..], c) < |CString(line)|)
  {
    hide IndexOf, CString;
    var s := CString(line);
    CStringEnds(line);
    if s == line {
      assert copy[from..|line|] == line[from..];
    } else {
      IndexInCString(line, from, c);
      IndexBeforeEnd(s[from..], c, [NUL]);
      assert copy[from..] == s[from..] + [NUL] && copy[from..|copy|] == copy[from..];
    }
  }

  /** memchr over the rest of the line, in its copy. */
  method Scan(a: array<byte>, from: nat, line: Bytes, c: byte) returns (end: nat)
    requires IsCopy(a, line) && from <= |CString(line)| && c != NUL
    requires CString(line) == line || c in CString(line)[from..]
    ensures from <= end <= |line| && end - from == IndexOf(line[from..], c)
    ensures end < |line| ==> end < |CString(line)|
  {
    hide IndexOf, CString;
    CopyIndex(a[..], line, from, c);
    assert a[..][from..] == a[from..] && |a[..]| == a.Length;
    assert a[..][from..if |line| <= a.Length then |line| else a.Length] == a[from..if |line| <= a.Length then |line| else a.Length];
    end := MemChr(a, from, |line|, c);
  }

  /** strtod at `from`: it reads up to the terminating NUL, whatever stands before `from`. */
  method NumericAt(numeric: Numeric, a: array<byte>, from: nat, line: Bytes) returns (ok: bool)
    requires from <= |CString(line)| && from <= a.Length
    requires a[from..] == CString(line)[from..] + [NUL]
    ensures ok == Number(numeric, line[from..])
  {
    CStringFrom(line, from);
    ghost var s := CString(line)[from..];
    assert s + [NUL] == s + [NUL] + [];
    FirstOf(s, NUL, []);
    ok := numeric(CString(a[from..]));
  }

  /** The type-lookup loop: strlen must match, then strncmp. */
  method LookUpType(kind: Bytes) returns (valid: bool)
    ensures valid <==> IsType(kind)
  {
    valid := false;
    for i := 0 to |STAT_TYPES|
      invariant !valid && kind !in STAT_TYPES[..i]
    {
      if |STAT_TYPES[i]| == |kind| && STAT_TYPES[i] == kind {
        return true;
      }
    }
    assert STAT_TYPES[..|STAT_TYPES|] == STAT_TYPES;
  }

  /** From the second '|' on: "@" and a rate. */
  method CheckRate(numeric: Numeric, copy: array<byte>, end: nat, line: Bytes) returns (ok: bool)
    requires IsCopy(copy, line) && end < |CString(line)|
    ensures ok == ValidRate(numeric, line[end + 1..])
  {
    hide Number;
    CStringEnds(line);
    assert copy[end + 1] == (CString(line) + [NUL])[end + 1];
    if |line| - end > 1 && copy[end + 1] == AT {
      if |line| - (end + 2) == 0 {
        return false;
      }
      assert copy[end + 2..] == CString(line)[end + 2..] + [NUL] && line[end + 1..][1..] == line[end + 2..];
      ok := NumericAt(numeric, copy, end + 2, line);
    } else {
      ok := false;
    }
  }

  /** From the type on: the second '|' is overwritten for the lookup, then restored. */
  method CheckType(numeric: Numeric, copy: array<byte>, start: nat, line: Bytes) returns (ok: bool)
    requires IsCopy(copy, line) && start <= |CString(line)|
    requires CString(line) == line || PIPE in CString(line)[start..]
    modifies copy
    ensures ok == ValidType(numeric, line[start..])
  {
    hide IsType, ValidRate, IndexOf, CString;
    var len := |line|;
    ghost var s := CString(line);
    var end := Scan(copy, start, line, PIPE);
    var plen := end - start;
    var c := copy[end];
    if end != len {
      copy[end] := NUL;
    }
    assert copy[start..start + plen] == s[start..][..plen] == line[start..][..plen];
    var valid := LookUpType(copy[start..start + plen]);
    if !valid {
      return false;
    }
    if end == len {
      return true;
    }
    copy[end] := c;
    assert copy[..] == s + [NUL];
    assert line[start..][plen + 1..] == line[end + 1..];
    ok := CheckRate(numeric, copy, end, line);
  }

  /** From the value on. */
  method CheckValue(numeric: Numeric, copy: array<byte>, start: nat, line: Bytes) returns (ok: bool)
    requires IsCopy(copy, line) && start <= |CString(line)|
    requires CString(line) == line || TwoPipes(CString(line)[start..])
    modifies copy
    ensures ok == ValidValue(numeric, line[start..])
  {
    hide ValidType, IndexOf, CString;
    var len := |line|;
    var end := Scan(copy, start, line, PIPE);
    if end == len {
      return false;
    }
    if CString(line) != line {
      IndexInCString(line, start, PIPE);
      assert CString(line)[start..][end - start + 1..] == CString(line)[end + 1..];
    }
    assert line[start..][end - start + 1..] == line[end + 1..];
    ok := CheckType(numeric, copy, end + 1, line);
  }

  /**
   * validate_statsd: `start` and `end` walk a scratch copy whose ':' and second '|' are
   * overwritten with NUL and then restored. Returns 0 for an accepted line.
   */
  method ValidateStatsd(numeric: Numeric, line: Bytes) returns (rc: nat)
    requires Scannable(numeric, line)
    ensures rc == (if StatsdGrammar(numeric, line) then 0 else 1)
  {
    hide StatsdGrammar, ValidValue, IndexOf, TwoPipes, CString;
    StatsdExact(numeric, line);
    ghost var s := CString(line);
    assert s[0..] == s && line[0..] == line;
    var copy := Strndup(line);
    var end := Scan(copy, 0, line, COLON);
    if s != line {
      IndexInCString(line, 0, COLON);
    }
    if end == |line| || end < 1 {
      return 1;
    }
    var start := end + 1;
    var c := copy[end];
    copy[end] := NUL;
    assert copy[start..] == s[start..] + [NUL];
    CStringFrom(line, start);
    var ok := NumericAt(numeric, copy, start, line);
    if !ok {
      return 1;
    }
    copy[end] := c;
    assert copy[..] == s + [NUL];
    ok := CheckValue(numeric, copy, start, line);
    rc := if ok then 0 else 1;
  }

  method Strndup(line: Bytes) returns (copy: array<byte>)
    ensures fresh(copy) && IsCopy(copy, line)
  {
    var s := CString(line);
    copy := new byte[|s| + 1](i => if 0 <= i < |s| then s[i] else NUL);
    assert copy[..] == s + [NUL];
  }

  /** A line that passes validate_statsd always yields its key, so it is never counted as malformed. */
  lemma ValidStatsdHasKey(numeric: Numeric, line: Bytes, key: Bytes, value: Bytes, kind: Bytes, rate: Option<Bytes>)
    requires IsStatsd(numeric, line, key, value, kind, rate)
    ensures ParseKey(Statsd, line) > 0 && line[..ParseKey(Statsd, line)] == key
  {
    hide Valued, GoodType;
    FirstOf(key, COLON, Valued(value, kind, rate));
  }

  // ----- carbon -----

  ghost predicate IsCarbon(line: Bytes, a: Bytes, b: Bytes, c: Bytes) {
    SPACE !in a && SPACE !in b && SPACE !in c && line == a + [SPACE] + (b + [SPACE] + c)
  }

  /** Three space-free fields, the first of which may be empty. */
  ghost predicate CarbonGrammar(line: Bytes) {
    exists a, b, c :: IsCarbon(line, a, b, c)
  }

  predicate ValidCarbon(line: Bytes) {
    Count(line, SPACE) == 2
  }

  lemma CountCut(a: Bytes, c: byte, b: Bytes)
    requires c !in a
    ensures Count(a + [c] + b, c) == 1 + Count(b, c)
  {
    CountConcat(a + [c], b, c);
    CountConcat(a, [c], c);
    CountZero(a, c);
  }

  /** validate_carbon: hop from space to space and give up after the third. */
  method ValidateCarbon(line: Bytes) returns (rc: nat)
    ensures rc == (if CarbonGrammar(line) then 0 else 1)
  {
    hide IndexOf;
    var spacesFound := 0;
    var p := 0;
    while true
      invariant p <= |line|
      invariant spacesFound <= 2
      invariant Count(line, SPACE) == spacesFound + Count(line[p..], SPACE)
      decreases |line| - p
    {
      var s := IndexOf(line[p..], SPACE);
      if s == |line[p..]| {
        CountZero(line[p..], SPACE);
        break;
      }
      CutAt(line[p..], SPACE);
      CountCut(line[p..][..s], SPACE, line[p..][s + 1..]);
      assert line[p..][s + 1..] == line[p + s + 1..];
      spacesFound := spacesFound + 1;
      p := p + s + 1;
      if spacesFound > 2 {
        break;
      }
    }
    CarbonExact(line);
    rc := if spacesFound != 2 then 1 else 0;
  }

  /** Exactly two spaces is the same as three space-free fields. */
  lemma CarbonExact(line: Bytes)
    ensures ValidCarbon(line) <==> CarbonGrammar(line)
  {
    hide IndexOf, Count;
    CountZero(line, SPACE);
    if ValidCarbon(line) {
      CutAt(line, SPACE);
      var i := IndexOf(line, SPACE);
      var r := line[i + 1..];
      CountCut(line[..i], SPACE, r);
      CountZero(r, SPACE);
      CutAt(r, SPACE);
      var j := IndexOf(r, SPACE);
      CountCut(r[..j], SPACE, r[j + 1..]);
      CountZero(r[j + 1..], SPACE);
      assert IsCarbon(line, line[..i], r[..j], r[j + 1..]);
    }
    if a, b, c :| IsCarbon(line, a, b, c) {
      CountCut(a, SPACE, b + [SPACE] + c);
      CountCut(b, SPACE, c);
      CountZero(c, SPACE);
    }
  }

  /** Unlike statsd, a valid carbon line may have no key: exactly when it starts with a space. */
  lemma ValidCarbonKey(line: Bytes)
    requires ValidCarbon(line)
    ensures line != []
    ensures ParseKey(Carbon, line) == 0 <==> line[0] == SPACE
  {
    CountZero(line, SPACE);
  }

  /** " a " is valid and has no key. */
  lemma ValidCarbonNoKeyExample()
    ensures var line := [SPACE, 97, SPACE]; CarbonGrammar(line) && ParseKey(Carbon, line) == 0
  {
    var line := [SPACE, 97, SPACE];
    assert line == [] + [SPACE] + ([97] + [SPACE] + []);
    assert IsCarbon(line, [], [97], []);
  }
}
