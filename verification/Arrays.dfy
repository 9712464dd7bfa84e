/** The fixed arrays that lines and keys are copied to: which streams stay within them. */
module Arrays {
  import opened Bytes
  import opened Buffers
  import opened Validate
  import opened Relay
  import opened Framing
  import opened Sessions

  const LINE_BUFFER: nat := MAX_UDP_LENGTH + 2
  const KEY_BUFFER: nat := 8192

  /** The line, a newline and a NUL. */
  predicate FitsLineBuffer(line: Bytes) {
    |line| + 2 <= LINE_BUFFER
  }

  /** The key and a NUL. */
  predicate FitsKeyBuffer(proto: Protocol, line: Bytes) {
    ParseKey(proto, line) + 1 <= KEY_BUFFER
  }

  function Needle(proto: Protocol): byte {
    if proto == Statsd then 58 else 32
  }

  /** A key fits exactly when the character that ends it, if any, is among the first 8192 bytes. */
  lemma KeyFitsIff(proto: Protocol, line: Bytes)
    ensures FitsKeyBuffer(proto, line) <==>
      (Needle(proto) in line ==> exists k :: 0 <= k < |line| && k < 8192 && line[k] == Needle(proto))
  {
    hide IndexOf;
    var needle := Needle(proto);
    var i := IndexOf(line, needle);
    if needle in line {
      assert line[i] == needle;
      assert forall k :: 0 <= k < i ==> line[..i][k] == line[k];
    }
  }

  /** data[a..b] is a whole line: it starts the data or follows a newline, and ends at the next. */
  ghost predicate LineAt(data: Bytes, a: int, b: int): (r: bool)
    ensures r ==> 0 <= a <= b < |data|
  {
    0 <= a <= b < |data| && (a == 0 || data[a - 1] == 10) && data[b] == 10 && 10 !in data[a..b]
  }

  lemma LineAtLater(first: Bytes, rest: Bytes, a: nat, b: nat)
    requires NEWLINE !in first
    ensures LineAt(rest, a, b) <==> LineAt(first + [NEWLINE] + rest, |first| + 1 + a, |first| + 1 + b)
    ensures a <= b <= |rest| ==> (first + [NEWLINE] + rest)[|first| + 1 + a..|first| + 1 + b] == rest[a..b]
  {
    var data, n := first + [NEWLINE] + rest, |first| + 1;
    if a <= b <= |rest| {
      assert data[n + a..n + b] == rest[a..b];
    }
    assert a > 0 && a - 1 < |rest| ==> data[n + a - 1] == rest[a - 1];
  }

  lemma LineAtFirst(first: Bytes, rest: Bytes, a: nat, b: nat)
    requires NEWLINE !in first && LineAt(first + [NEWLINE] + rest, a, b) && a <= |first|
    ensures a == 0 && b == |first| && (first + [NEWLINE] + rest)[a..b] == first
  {
    var data := first + [NEWLINE] + rest;
    assert forall k :: 0 <= k < |first| ==> data[k] == first[k];
    assert forall k :: 0 <= k < |first| ==> data[k] in first;
    assert forall k :: a <= k < b ==> data[a..b][k - a] == data[k];
    assert data[|first|] == NEWLINE;
  }

  ghost predicate IsLine(data: Bytes, line: Bytes) {
    exists a: nat, b: nat :: LineAt(data, a, b) && data[a..b] == line
  }

  lemma IsLineStep(first: Bytes, rest: Bytes, line: Bytes)
    requires NEWLINE !in first
    ensures IsLine(first + [NEWLINE] + rest, line) <==> line == first || IsLine(rest, line)
  {
    hide LineAt;
    var data, n := first + [NEWLINE] + rest, |first| + 1;
    if IsLine(data, line) {
      var a: nat, b: nat :| LineAt(data, a, b) && data[a..b] == line;
      if a < n {
        LineAtFirst(first, rest, a, b);
      } else {
        LineAtLater(first, rest, a - n, b - n);
      }
    }
    if line == first {
      FirstLineAt(first, rest);
      assert data[0..|first|] == first;
    }
    if IsLine(rest, line) {
      var a: nat, b: nat :| LineAt(rest, a, b) && rest[a..b] == line;
      LineAtLater(first, rest, a, b);
      assert LineAt(data, n + a, n + b);
    }
  }

  /** The lines cut from a stream are exactly its whole lines in place. */
  lemma {:induction false} LinesAre(data: Bytes, line: Bytes)
    ensures line in Split(data).0 <==> IsLine(data, line)
    decreases |data|
  {
    hide IndexOf, Split, IsLine;
    SplitStep(data);
    var i := IndexOf(data, NEWLINE);
    if i == |data| {
      assert !IsLine(data, line) by { NoLineAt(data, line); }
    } else {
      CutAt(data, NEWLINE);
      LinesAre(data[i + 1..], line);
      IsLineStep(data[..i], data[i + 1..], line);
    }
  }

  lemma NoLineAt(data: Bytes, line: Bytes)
    requires NEWLINE !in data
    ensures !IsLine(data, line)
  {}

  lemma FirstLineAt(first: Bytes, rest: Bytes)
    requires NEWLINE !in first
    ensures LineAt(first + [NEWLINE] + rest, 0, |first|)
  {
    assert (first + [NEWLINE] + rest)[0..|first|] == first;
  }

  /** A stream stays within both arrays exactly when each of its whole lines does. */
  lemma StreamFitsIff(proto: Protocol, data: Bytes)
    ensures (forall line :: line in Split(data).0 ==> FitsLineBuffer(line) && FitsKeyBuffer(proto, line)) <==>
      forall a: nat, b: nat :: LineAt(data, a, b) ==> b - a <= 65536 && FitsKeyBuffer(proto, data[a..b])
  {
    hide Split, FitsKeyBuffer, LineAt;
    forall a: nat, b: nat | LineAt(data, a, b) ensures data[a..b] in Split(data).0 {
      LinesAre(data, data[a..b]);
    }
    if forall a: nat, b: nat :: LineAt(data, a, b) ==> b - a <= 65536 && FitsKeyBuffer(proto, data[a..b]) {
      forall line | line in Split(data).0 ensures FitsLineBuffer(line) && FitsKeyBuffer(proto, line) {
        LinesAre(data, line);
      }
    }
  }

  lemma {:induction false} JoinHolds(lines: seq<Bytes>, rest: Bytes, k: nat)
    requires k < |lines|
    ensures |lines[k]| < |Join(lines, rest)|
  {
    if k > 0 {
      JoinHolds(lines[1..], rest, k - 1);
    }
  }

  /** A line of a datagram is never longer than the datagram. */
  lemma DatagramLineFits(data: Bytes, line: Bytes)
    requires |data| <= MAX_UDP_LENGTH && line in DatagramLines(data)
    ensures FitsLineBuffer(line)
  {
    hide Split, Join;
    var lines := DatagramLines(data);
    SplitJoins(EndLine(data));
    var k :| 0 <= k < |lines| && lines[k] == line;
    JoinHolds(lines, Split(EndLine(data)).1, k);
  }

  lemma {:induction false} DatagramsBounded(w: World, y: System, lines: seq<string>, evs: seq<Event>)
    requires Booted(y, lines)
    ensures forall n :: 0 <= n < |Run(w, y, evs).datagrams| ==> |Run(w, y, evs).datagrams[n]| <= MAX_UDP_LENGTH
  {
    hide Recv, ProcessDatagram, Callback, OfferSpace;
    if evs != [] {
      DatagramsBounded(w, y, lines, evs[..|evs| - 1]);
    }
  }

  lemma {:induction false} NonStatusOnly(lines: seq<Bytes>, line: Bytes)
    requires line in NonStatus(lines)
    ensures line in lines
  {
    if lines != [] && !(lines[0] != STATUS && line == lines[0]) {
      NonStatusOnly(lines[1..], line);
    }
  }

  /** A line on record is one of the whole lines of its stream, or one of its datagram's lines. */
  lemma EntryFrom(w: World, y: System, k: nat)
    requires SystemInv(w, y) && k < |y.server.log|
    ensures var e := y.server.log[k];
      match e.src
      case Tcp(id) => id < |y.sessions| && e.line in Split(y.sessions[id].stream).0
      case Udp(n) => n < |y.datagrams| && e.line in DatagramLines(y.datagrams[n])
  {
    hide ServerInv, From, Split, Doubled, SizeJustified, NonStatus, DatagramLines;
    var e := y.server.log[k];
    var es := From(y.server.log, e.src);
    FromHas(y.server.log, k);
    assert KnownSource(y, e.src);
    var j :| 0 <= j < |es| && es[j] == e;
    match e.src
    case Tcp(id) =>
      var lines := Split(y.sessions[id].stream).0;
      assert SessionInv(y.sessions[id], es, e.src);
      assert e.line == NonStatus(lines)[j];
      NonStatusOnly(lines, e.line);
    case Udp(n) =>
      assert DatagramInv(y.datagrams[n], es, e.src);
      assert e.line == DatagramLines(y.datagrams[n])[j];
  }

  /**
   * In a run whose clients send no line of more than 65536 bytes, and in which no key is longer
   * than 8191, every line and key handed to stats_relay_line fits its array.
   */
  lemma EndToEndFits(w: World, y: System, lines: seq<string>, evs: seq<Event>, proto: Protocol)
    requires Booted(y, lines)
    requires var z := Run(w, y, evs);
      && (forall id, a: nat, b: nat :: 0 <= id < |z.sessions| && LineAt(z.sessions[id].stream, a, b) ==>
            b - a <= 65536 && FitsKeyBuffer(proto, z.sessions[id].stream[a..b]))
      && (forall n, line :: 0 <= n < |z.datagrams| && line in DatagramLines(z.datagrams[n]) ==> FitsKeyBuffer(proto, line))
    ensures var log := Run(w, y, evs).server.log;
      forall k :: 0 <= k < |log| ==> FitsLineBuffer(log[k].line) && FitsKeyBuffer(proto, log[k].line)
  {
    hide Run, SystemInv, LineAt, FitsKeyBuffer, Split, DatagramLines;
    RunInv(w, y, lines, evs);
    DatagramsBounded(w, y, lines, evs);
    var z := Run(w, y, evs);
    forall k | 0 <= k < |z.server.log|
      ensures FitsLineBuffer(z.server.log[k].line) && FitsKeyBuffer(proto, z.server.log[k].line)
    {
      var e := z.server.log[k];
      EntryFrom(w, z, k);
      match e.src
      case Tcp(id) => StreamFitsIff(proto, z.sessions[id].stream);
      case Udp(n) => DatagramLineFits(z.datagrams[n], e.line);
    }
  }
}
