/** The tools around the relay: stathasher.c names a key's shard, carbonsink.py writes carbon lines. */
module Routing {
  import opened Bytes
  import opened Validate
  import opened HashRings
  import opened Endpoints
  import opened Relay
  import opened Framing

  // ----- stathasher -----

  /** isspace in the C locale. */
  predicate IsSpace(c: byte) {
    c == SPACE || 9 <= c <= 13
  }

  function FirstSpace(s: Bytes): (i: nat)
    ensures i <= |s|
    ensures forall k :: 0 <= k < i ==> !IsSpace(s[k])
    ensures i < |s| ==> IsSpace(s[i])
  {
    if s == [] || IsSpace(s[0]) then 0 else 1 + FirstSpace(s[1..])
  }

  /** The C string left in `line` after the trim loop has cut it at the first whitespace. */
  function TrimmedKey(line: Bytes): Bytes {
    CString(line[..FirstSpace(line)])
  }

  /** The trim loop over what getline() read, which getline() terminates with NUL. */
  method Trim(line: array<byte>, bytesRead: nat)
    requires line.Length == bytesRead + 1 && line[bytesRead] == NUL
    modifies line
    ensures CString(line[..]) == TrimmedKey(old(line[..bytesRead]))
  {
    ghost var text := line[..bytesRead];
    var n := FirstSpace(text);
    CutShort(line[..], text, n);
    for i := 0 to bytesRead
      invariant i <= n && line[..] == old(line[..])
    {
      if IsSpace(line[i]) {
        line[i] := NUL;
        assert i == n;
        CutShort(line[..], text, n);
        return;
      }
    }
  }

  /** A NUL after the first n bytes leaves the C string of those bytes. */
  lemma CutShort(a: Bytes, text: Bytes, n: nat)
    requires n <= |text| < |a|
    ensures a[..n] == text[..n] && a[n] == NUL ==> CString(a) == CString(text[..n])
  {
    hide IndexOf;
    if a[..n] == text[..n] && a[n] == NUL {
      var i := IndexOf(text[..n], NUL);
      assert a[..i] == text[..n][..i];
      assert i < n ==> a[i] == a[..n][i];
      IndexOfUnique(a, NUL, i);
    }
  }

  /** What stathasher hashes of an input line: everything before the first whitespace or NUL. */
  lemma TrimmedIs(line: Bytes, key: Bytes)
    ensures TrimmedKey(line) == key <==>
      && key <= line
      && (forall k :: 0 <= k < |key| ==> key[k] !in {0, 9, 10, 11, 12, 13, 32})
      && (|key| < |line| ==> line[|key|] in {0, 9, 10, 11, 12, 13, 32})
  {
    hide FirstSpace, CString;
    var n := FirstSpace(line);
    var t := TrimmedKey(line);
    CStringEnds(line[..n]);
    assert t <= line[..n];
    assert |t| < n ==> line[|t|] == line[..n][|t|];
    assert forall k :: 0 <= k < |t| ==> t[k] == line[k] && t[k] in t;
    assert t == line[..|t|];
    assert key <= line ==> key == line[..|key|] && forall k :: 0 <= k < |key| ==> key[k] == line[k];
  }

  /** stathasher hashes a NUL-free key, typed on a line of its own, as given iff it has no whitespace. */
  lemma TrimKeepsIff(key: Bytes)
    requires NUL !in key
    ensures TrimmedKey(key + [NEWLINE]) == key <==> forall k :: 0 <= k < |key| ==> !IsSpace(key[k])
  {
    hide FirstSpace, IndexOf;
    var line := key + [NEWLINE];
    var n := FirstSpace(line);
    assert IsSpace(line[|key|]);
    assert line[..n] == key[..n];
    assert NUL !in key[..n];
    if n < |key| {
      assert IsSpace(key[n]);
    } else {
      assert key[..n] == key;
      assert forall k :: 0 <= k < |key| ==> line[k] == key[k];
    }
  }

  /**
   * For a key without whitespace or NUL, stathasher and the relay choose the same shard, and
   * the relay's backend is the one named on the line that stathasher prints.
   */
  lemma StathasherAgrees(w: World, s: Server, lines: seq<string>, key: Bytes, rest: Bytes)
    requires Loaded(s.config.client, lines, s.backends, s.ring)
    requires key != [] && NUL !in key && forall k :: 0 <= k < |key| ==> !IsSpace(key[k])
    requires s.config.proto == Statsd ==> COLON !in key
    requires var line := key + [if s.config.proto == Statsd then COLON else SPACE] + rest;
      s.config.validate ==> Accepts(w.numeric, s.config.proto, line)
    ensures var line := key + [if s.config.proto == Statsd then COLON else SPACE] + rest;
      var printed := Choose(lines, TrimmedKey(key + [NEWLINE]));
      var v := Route(w, s.config, s.ring, line);
      if printed.None? then v == Unroutable
      else
        var chosen := Choose(s.ring, line[..ParseKey(s.config.proto, line)]);
        && chosen == Some((printed.value.0, s.ring[printed.value.0]))
        && v == To(s.ring[printed.value.0])
        && Some(s.backends[v.backend].key) == Normalise(printed.value.1)
  {
    hide Accepts, Normalise, IndexOf;
    TrimKeepsIff(key);
    var needle := if s.config.proto == Statsd then COLON else SPACE;
    assert forall k :: 0 <= k < |key| ==> key[k] != SPACE;
    FirstOf(key, needle, rest);
    assert CString(key) == key;
  }

  // ----- carbonsink -----

  const UNDERSCORE: byte := 95
  const DOT: byte := 46
  const MINUS: byte := 45

  /** key.replace(' ', '_'). */
  function Replace(key: Bytes): (r: Bytes)
    ensures |r| == |key| && SPACE !in r
    ensures forall k :: 0 <= k < |key| ==> r[k] == if key[k] == SPACE then UNDERSCORE else key[k]
  {
    if key == [] then [] else [if key[0] == SPACE then UNDERSCORE else key[0]] + Replace(key[1..])
  }

  function Digits(n: nat): (r: Bytes)
    ensures forall c :: c in r ==> 48 <= c <= 57
    ensures forall k :: 0 <= k < |r| ==> 48 <= r[k] <= 57
  {
    if n < 10 then [Digit(n)] else Digits(n / 10) + [Digit(n % 10)]
  }

  function Digit(n: nat): (c: byte)
    requires n < 10
    ensures 48 <= c <= 57
  {
    48 + n as byte
  }

  /** The number that decimal digits stand for. */
  function NumberOf(digits: Bytes): nat
    requires forall k :: 0 <= k < |digits| ==> 48 <= digits[k] <= 57
  {
    if digits == [] then 0
    else NumberOf(digits[..|digits| - 1]) * 10 + ((digits[|digits| - 1] - 48) as nat)
  }

  lemma {:induction false} DigitsAreDecimal(n: nat)
    ensures NumberOf(Digits(n)) == n && Digits(n) != [] && (Digits(n)[0] == 48 ==> n == 0)
  {
    hide Digit, NumberOf;
    DigitIs(n % 10);
    if n >= 10 {
      DigitsAreDecimal(n / 10);
      NumberSnoc(Digits(n / 10), Digit(n % 10));
    } else {
      assert [] + [Digit(n)] == [Digit(n)];
      NumberSnoc([], Digit(n));
    }
  }

  lemma NumberSnoc(digits: Bytes, d: byte)
    requires 48 <= d <= 57 && forall k :: 0 <= k < |digits| ==> 48 <= digits[k] <= 57
    ensures NumberOf(digits + [d]) == NumberOf(digits) * 10 + (d - 48) as nat
    ensures NumberOf([]) == 0
  {
    assert (digits + [d])[..|digits|] == digits;
  }

  lemma DigitIs(n: nat)
    requires n < 10
    ensures (Digit(n) - 48) as nat == n && (Digit(n) == 48 <==> n == 0)
  {}

  /** "%d". */
  function Decimal(n: int): (r: Bytes)
    ensures SPACE !in r && NEWLINE !in r
  {
    if n < 0 then [MINUS] + Digits(-n) else Digits(n)
  }

  /** A CarbonMetric as handle_metric builds it, written by as_carbon_line without its newline. */
  function CarbonLine(prefix: Bytes, key: Bytes, value: Bytes, timestamp: int): Bytes {
    Replace(prefix + [DOT] + key) + [SPACE] + (value + [SPACE] + Decimal(timestamp))
  }

  /**
   * The line written out: prefix, '.' and key with every space made an underscore, the value as
   * it is, and the time in decimal, with single spaces between.
   */
  lemma CarbonLineIs(prefix: Bytes, key: Bytes, value: Bytes, timestamp: int) returns (name: Bytes, time: Bytes)
    ensures CarbonLine(prefix, key, value, timestamp) == name + [32] + value + [32] + time
    ensures var full := prefix + [46] + key;
      |name| == |full| && forall k :: 0 <= k < |full| ==> name[k] == if full[k] == 32 then 95 else full[k]
    ensures var digits := if timestamp < 0 then time[1..] else time;
      && (timestamp < 0 ==> time[..1] == [45])
      && (forall k :: 0 <= k < |digits| ==> 48 <= digits[k] <= 57)
      && NumberOf(digits) == if timestamp < 0 then -timestamp else timestamp
  {
    hide Replace, Digits;
    name := Replace(prefix + [DOT] + key);
    time := Decimal(timestamp);
    DigitsAreDecimal(if timestamp < 0 then -timestamp else timestamp);
    assert name + [SPACE] + (value + [SPACE] + time) == name + [32] + value + [32] + time;
  }

  lemma ReplaceClean(key: Bytes)
    requires NEWLINE !in key
    ensures NEWLINE !in Replace(key)
  {
    var r := Replace(key);
    assert forall k :: 0 <= k < |key| ==> key[k] in key;
  }

  lemma CarbonSpaces(key: Bytes, value: Bytes, ts: Bytes)
    requires SPACE !in key && SPACE !in ts
    ensures Count(key + [SPACE] + (value + [SPACE] + ts), SPACE) == 2 <==> SPACE !in value
  {
    CountCut(key, SPACE, value + [SPACE] + ts);
    CountConcat(value + [SPACE], ts, SPACE);
    CountConcat(value, [SPACE], SPACE);
    CountZero(value, SPACE);
    CountZero(ts, SPACE);
    CountCut([], SPACE, []);
    assert [] + [SPACE] + [] == [SPACE];
  }

  lemma OneLine(line: Bytes)
    requires NEWLINE !in line
    ensures Split(line + [NEWLINE]) == ([line], [])
  {
    hide Split;
    SplitNothing([]);
    assert line + [NEWLINE] == line + [NEWLINE] + [];
    SplitLine(line, []);
    assert [line] + [] == [line];
  }

  /**
   * The line arrives whole, passes validate_carbon exactly when its value has no space, and
   * then yields exactly the metric's key.
   */
  lemma CarbonLineAccepted(prefix: Bytes, key: Bytes, value: Bytes, timestamp: int)
    requires NEWLINE !in prefix && NEWLINE !in key && NEWLINE !in value
    ensures var line := CarbonLine(prefix, key, value, timestamp);
      && Split(line + [NEWLINE]) == ([line], [])
      && (ValidCarbon(line) <==> SPACE !in value)
      && ParseKey(Carbon, line) > 0
      && line[..ParseKey(Carbon, line)] == Replace(prefix + [DOT] + key)
  {
    hide Replace, Decimal, Split, IndexOf, Count;
    var full := Replace(prefix + [DOT] + key);
    var ts := Decimal(timestamp);
    ReplaceClean(prefix + [DOT] + key);
    OneLine(CarbonLine(prefix, key, value, timestamp));
    FirstOf(full, SPACE, value + [SPACE] + ts);
    CarbonSpaces(full, value, ts);
  }
}
