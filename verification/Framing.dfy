/** Cutting TCP streams and UDP datagrams into lines (stats.c). */
module Framing {
  import opened Bytes
  import opened Buffers
  import opened Validate
  import opened Relay

  /** "status": answered on the session, not relayed. */
  const STATUS: Bytes := [115, 116, 97, 116, 117, 115]

  lemma StatusName()
    ensures Spells(STATUS, "status")
  {}

  // ----- Newline splitting, declaratively -----

  /** The lines of `data`, and the newline-free remainder. */
  function Split(data: Bytes): (r: (seq<Bytes>, Bytes))
    decreases |data|
  {
    var i := IndexOf(data, NEWLINE);
    if i == |data| then ([], data)
    else
      var (lines, rest) := Split(data[i + 1..]);
      ([data[..i]] + lines, rest)
  }

  function Join(lines: seq<Bytes>, rest: Bytes): Bytes {
    if lines == [] then rest else lines[0] + [NEWLINE] + Join(lines[1..], rest)
  }

  /** Splitting is undone by joining, and leaves no newline inside a line. */
  lemma {:induction false} SplitJoins(data: Bytes)
    ensures var (lines, rest) := Split(data);
      Join(lines, rest) == data && NEWLINE !in rest && forall k :: 0 <= k < |lines| ==> NEWLINE !in lines[k]
    decreases |data|
  {
    hide IndexOf;
    if NEWLINE in data {
      CutAt(data, NEWLINE);
      SplitJoins(data[IndexOf(data, NEWLINE) + 1..]);
    }
  }

  lemma SplitLine(line: Bytes, data: Bytes)
    requires NEWLINE !in line
    ensures Split(line + [NEWLINE] + data) == ([line] + Split(data).0, Split(data).1)
  {
    hide IndexOf;
    FirstOf(line, NEWLINE, data);
  }

  lemma SplitNothing(data: Bytes)
    requires NEWLINE !in data
    ensures Split(data) == ([], data)
  {
    hide IndexOf;
  }

  /** ... and is the only such way to cut the data. */
  lemma {:induction false} SplitUnique(lines: seq<Bytes>, rest: Bytes)
    requires NEWLINE !in rest && forall k :: 0 <= k < |lines| ==> NEWLINE !in lines[k]
    ensures Split(Join(lines, rest)) == (lines, rest)
  {
    hide Split;
    if lines == [] {
      SplitNothing(rest);
    } else {
      SplitUnique(lines[1..], rest);
      SplitLine(lines[0], Join(lines[1..], rest));
      assert [lines[0]] + lines[1..] == lines;
    }
  }

  /** More data continues from the remainder. */
  lemma {:induction false} SplitAppend(a: Bytes, b: Bytes)
    ensures var (la, ra) := Split(a); var (lb, rb) := Split(ra + b); Split(a + b) == (la + lb, rb)
    decreases |a|
  {
    hide IndexOf, Split;
    if NEWLINE in a {
      var i := IndexOf(a, NEWLINE);
      CutAt(a, NEWLINE);
      var line, next := a[..i], a[i + 1..];
      SplitLine(line, next);
      assert a + b == line + [NEWLINE] + (next + b);
      SplitLine(line, next + b);
      SplitAppend(next, b);
      var la, lb := Split(next).0, Split(Split(next).1 + b).0;
      assert [line] + (la + lb) == ([line] + la) + lb;
    } else {
      SplitNothing(a);
      assert [] + Split(a + b).0 == Split(a + b).0;
    }
  }

  /** The lines that reach stats_relay_line. */
  function NonStatus(lines: seq<Bytes>): seq<Bytes> {
    if lines == [] then []
    else (if lines[0] == STATUS then [] else [lines[0]]) + NonStatus(lines[1..])
  }

  lemma {:induction false} NonStatusConcat(a: seq<Bytes>, b: seq<Bytes>)
    ensures NonStatus(a + b) == NonStatus(a) + NonStatus(b)
  {
    if a == [] {
      assert a + b == b;
    } else {
      assert (a + b)[1..] == a[1..] + b;
      NonStatusConcat(a[1..], b);
    }
  }

  // ----- Relaying lines until one is refused -----

  function RelayAll(w: World, s: Server, src: Source, lines: seq<Bytes>): (r: (Server, bool))
    requires s.WellFormed()
    ensures r.0.WellFormed()
    decreases |lines|
  {
    hide RelayLine;
    if lines == [] then (s, true)
    else
      var (t, rc) := RelayLine(w, s, src, lines[0]);
      if rc != 0 then (t, false) else RelayAll(w, t, src, lines[1..])
  }

  /** The loop of stats_process_lines over the buffered data: server, unconsumed data, and success. */
  function Process(w: World, s: Server, src: Source, data: Bytes): (r: (Server, Bytes, bool))
    requires s.WellFormed()
    ensures r.0.WellFormed()
    ensures |r.1| <= |data|
    decreases |data|
  {
    hide RelayLine, IndexOf;
    var i := IndexOf(data, NEWLINE);
    if i == |data| then (s, data, true)
    else if data[..i] == STATUS then Process(w, s, src, data[i + 1..])
    else
      var (t, rc) := RelayLine(w, s, src, data[..i]);
      if rc != 0 then (t, data, false) else Process(w, t, src, data[i + 1..])
  }

  /** What is not processed is the end of the data. */
  lemma {:induction false} ProcessSuffix(w: World, s: Server, src: Source, data: Bytes)
    requires s.WellFormed()
    ensures var rest := Process(w, s, src, data).1; rest == data[|data| - |rest|..]
    decreases |data|
  {
    hide RelayLine, IndexOf, Process;
    var i := IndexOf(data, NEWLINE);
    ProcessStep(w, s, src, data);
    if i < |data| {
      var t := if data[..i] == STATUS then s else RelayLine(w, s, src, data[..i]).0;
      ProcessSuffix(w, t, src, data[i + 1..]);
      SuffixOfSuffix(data, i + 1, Process(w, t, src, data[i + 1..]).1);
    }
  }

  lemma SuffixOfSuffix(data: Bytes, n: nat, rest: Bytes)
    requires n <= |data| && |rest| <= |data[n..]| && rest == data[n..][|data[n..]| - |rest|..]
    ensures |rest| <= |data| && rest == data[|data| - |rest|..]
  {}

  /** One turn of that loop. */
  lemma ProcessStep(w: World, s: Server, src: Source, data: Bytes)
    requires s.WellFormed()
    ensures var i := IndexOf(data, NEWLINE);
      Process(w, s, src, data) ==
      if i == |data| then (s, data, true)
      else if data[..i] == STATUS then Process(w, s, src, data[i + 1..])
      else if RelayLine(w, s, src, data[..i]).1 != 0 then (RelayLine(w, s, src, data[..i]).0, data, false)
      else Process(w, RelayLine(w, s, src, data[..i]).0, src, data[i + 1..])
  {
    hide RelayLine, IndexOf;
  }

  /** Every line that this loop validates may be validated. */
  predicate StreamDefined(w: World, s: Server, src: Source, data: Bytes)
    requires s.WellFormed()
    decreases |data|
  {
    hide RelayLine, IndexOf, LineDefined;
    var i := IndexOf(data, NEWLINE);
    i < |data| ==>
      if data[..i] == STATUS then StreamDefined(w, s, src, data[i + 1..])
      else
        && LineDefined(w.numeric, s.config, data[..i])
        && (RelayLine(w, s, src, data[..i]).1 == 0 ==> StreamDefined(w, RelayLine(w, s, src, data[..i]).0, src, data[i + 1..]))
  }

  lemma StreamDefinedStep(w: World, s: Server, src: Source, data: Bytes)
    requires s.WellFormed() && StreamDefined(w, s, src, data) && NEWLINE in data
    ensures var i := IndexOf(data, NEWLINE);
      if data[..i] == STATUS then StreamDefined(w, s, src, data[i + 1..])
      else
        && LineDefined(w.numeric, s.config, data[..i])
        && (RelayLine(w, s, src, data[..i]).1 == 0 ==> StreamDefined(w, RelayLine(w, s, src, data[..i]).0, src, data[i + 1..]))
  {
    hide RelayLine, IndexOf, LineDefined;
  }

  lemma NulFreeLine(numeric: Numeric, config: ServerConfig, data: Bytes, n: nat)
    requires n <= |data| && NUL !in data
    ensures LineDefined(numeric, config, data[..n])
  {}

  /** Without NUL bytes they all may. */
  lemma {:induction false} NulFreeStream(w: World, s: Server, src: Source, data: Bytes)
    requires s.WellFormed() && NUL !in data
    ensures StreamDefined(w, s, src, data)
    decreases |data|
  {
    hide RelayLine, IndexOf, LineDefined;
    var i := IndexOf(data, NEWLINE);
    if i < |data| {
      NulFreeLine(w.numeric, s.config, data, i);
      NulFreeStream(w, s, src, data[i + 1..]);
      NulFreeStream(w, RelayLine(w, s, src, data[..i]).0, src, data[i + 1..]);
    }
  }

  /** stats_process_lines on a buffer: what is processed is consumed. */
  function Drain(w: World, s: Server, src: Source, b: Buf): (r: (Server, Buf, bool))
    requires s.WellFormed() && b.Valid()
    ensures r.0.WellFormed() && r.1.Valid()
  {
    hide Process;
    var (t, rest, ok) := Process(w, s, src, b.data);
    (t, b.Consume(|b.data| - |rest|), ok)
  }

  /** One turn of stats_process_lines. */
  lemma DrainStep(w: World, s: Server, src: Source, b: Buf)
    requires s.WellFormed() && b.Valid()
    ensures var i := IndexOf(b.data, NEWLINE);
      if i == |b.data| then Drain(w, s, src, b) == (s, b, true)
      else
        var line, next := b.data[..i], b.Consume(i + 1);
        if line == STATUS then Drain(w, s, src, b) == Drain(w, s, src, next)
        else
          var (t, rc) := RelayLine(w, s, src, line);
          Drain(w, s, src, b) == if rc != 0 then (t, b, false) else Drain(w, t, src, next)
  {
    hide RelayLine, IndexOf, Process, Drain;
    var i := IndexOf(b.data, NEWLINE);
    ProcessStep(w, s, src, b.data);
    if i == |b.data| {
      DrainStops(w, s, src, b, s, true);
    } else if b.data[..i] == STATUS {
      DrainGoesOn(w, s, src, b, s, i + 1);
    } else {
      var (t, rc) := RelayLine(w, s, src, b.data[..i]);
      if rc == 0 {
        DrainGoesOn(w, s, src, b, t, i + 1);
      } else {
        DrainStops(w, s, src, b, t, false);
      }
    }
  }

  lemma DrainStops(w: World, s: Server, src: Source, b: Buf, t: Server, ok: bool)
    requires s.WellFormed() && b.Valid() && Process(w, s, src, b.data) == (t, b.data, ok)
    ensures t.WellFormed() && Drain(w, s, src, b) == (t, b, ok)
  {
    hide Process;
  }

  lemma DrainGoesOn(w: World, s: Server, src: Source, b: Buf, t: Server, n: nat)
    requires s.WellFormed() && t.WellFormed() && b.Valid() && n <= |b.data|
    requires Process(w, s, src, b.data) == Process(w, t, src, b.data[n..])
    ensures b.Consume(n).Valid() && Drain(w, s, src, b) == Drain(w, t, src, b.Consume(n))
  {
    hide Process, Drain;
    DrainAfter(w, t, src, b, n);
    DrainIs(w, s, src, b);
  }

  lemma DrainIs(w: World, s: Server, src: Source, b: Buf)
    requires s.WellFormed() && b.Valid()
    ensures var (t, rest, ok) := Process(w, s, src, b.data);
      Drain(w, s, src, b) == (t, b.Consume(|b.data| - |rest|), ok)
  {
    hide Process;
  }

  /** Consuming first makes no difference to where the buffer ends up. */
  lemma DrainAfter(w: World, s: Server, src: Source, b: Buf, n: nat)
    requires s.WellFormed() && b.Valid() && n <= |b.data|
    ensures b.Consume(n).Valid() && b.Consume(n).data == b.data[n..]
    ensures var (t, rest, ok) := Process(w, s, src, b.data[n..]);
      Drain(w, s, src, b.Consume(n)) == (t, b.Consume(|b.data| - |rest|), ok)
    ensures b.Consume(0) == b && b.data[0..] == b.data
  {
    hide Process;
    ConsumeTwice(b, n, |b.data| - n - |Process(w, s, src, b.data[n..]).1|);
  }

  /** The loop of stats_udp_recv, from `offset` on. */
  function ProcessDatagram(w: World, s: Server, src: Source, data: Bytes): (r: (Server, bool))
    requires s.WellFormed()
    ensures r.0.WellFormed()
    decreases |data|
  {
    hide RelayLine, IndexOf;
    if data == [] then (s, true)
    else
      var i := IndexOf(data, NEWLINE);
      var (t, rc) := RelayLine(w, s, src, data[..i]);
      if rc != 0 then (t, false) else ProcessDatagram(w, t, src, After(data, i + 1))
  }

  /** Every line that this loop validates may be validated. */
  predicate DatagramDefined(w: World, s: Server, src: Source, data: Bytes)
    requires s.WellFormed()
    decreases |data|
  {
    hide RelayLine, IndexOf, LineDefined;
    data != [] ==>
      var i := IndexOf(data, NEWLINE);
      && LineDefined(w.numeric, s.config, data[..i])
      && (RelayLine(w, s, src, data[..i]).1 == 0 ==> DatagramDefined(w, RelayLine(w, s, src, data[..i]).0, src, After(data, i + 1)))
  }

  lemma DatagramDefinedStep(w: World, s: Server, src: Source, data: Bytes)
    requires s.WellFormed() && DatagramDefined(w, s, src, data) && data != []
    ensures var i := IndexOf(data, NEWLINE);
      && LineDefined(w.numeric, s.config, data[..i])
      && (RelayLine(w, s, src, data[..i]).1 == 0 ==> DatagramDefined(w, RelayLine(w, s, src, data[..i]).0, src, After(data, i + 1)))
  {
    hide RelayLine, IndexOf, LineDefined;
  }

  lemma {:induction false} NulFreeDatagram(w: World, s: Server, src: Source, data: Bytes)
    requires s.WellFormed() && NUL !in data
    ensures DatagramDefined(w, s, src, data)
    decreases |data|
  {
    hide RelayLine, IndexOf, LineDefined;
    if data != [] {
      var i := IndexOf(data, NEWLINE);
      NulFreeLine(w.numeric, s.config, data, i);
      NulFreeDatagram(w, RelayLine(w, s, src, data[..i]).0, src, After(data, i + 1));
    }
  }

  /** What is left of `data` from an offset that may lie one beyond its end. */
  function After(data: Bytes, n: nat): Bytes {
    if n <= |data| then data[n..] else []
  }

  lemma AfterAfter(data: Bytes, n: nat, i: nat)
    requires n <= |data|
    ensures After(After(data, n), i) == After(data, n + i)
  {}

  /**
   * The TCP loop relays exactly the non-status lines of its data, up to and including the
   * first one refused, and leaves exactly the newline-free remainder.
   */
  lemma {:induction false} ProcessIsRelayAll(w: World, s: Server, src: Source, data: Bytes)
    requires s.WellFormed()
    ensures var (t, rest, ok) := Process(w, s, src, data);
      (t, ok) == RelayAll(w, s, src, NonStatus(Split(data).0)) && (ok ==> rest == Split(data).1)
    decreases |data|
  {
    hide IndexOf, RelayLine, Process, RelayAll, Split, NonStatus;
    var i := IndexOf(data, NEWLINE);
    ProcessStep(w, s, src, data);
    SplitStep(data);
    if i == |data| {
      NoNonStatus();
      RelayAllEmpty(w, s, src);
    } else {
      var next := Split(data[i + 1..]).0;
      NonStatusFirst(data[..i], next);
      if data[..i] == STATUS {
        ProcessIsRelayAll(w, s, src, data[i + 1..]);
      } else {
        RelayAllFirst(w, s, src, data[..i], NonStatus(next));
        ProcessIsRelayAll(w, RelayLine(w, s, src, data[..i]).0, src, data[i + 1..]);
      }
    }
  }

  lemma SplitStep(data: Bytes)
    ensures var i := IndexOf(data, NEWLINE);
      Split(data) ==
      if i == |data| then ([], data)
      else ([data[..i]] + Split(data[i + 1..]).0, Split(data[i + 1..]).1)
  {
    hide IndexOf;
  }

  lemma NoNonStatus()
    ensures NonStatus([]) == []
  {}

  lemma NonStatusFirst(line: Bytes, lines: seq<Bytes>)
    ensures NonStatus([line] + lines) == if line == STATUS then NonStatus(lines) else [line] + NonStatus(lines)
  {
    assert ([line] + lines)[1..] == lines;
    assert [] + NonStatus(lines) == NonStatus(lines);
  }

  lemma RelayAllFirst(w: World, s: Server, src: Source, line: Bytes, lines: seq<Bytes>)
    requires s.WellFormed()
    ensures var (t, rc) := RelayLine(w, s, src, line);
      RelayAll(w, s, src, [line] + lines) == if rc != 0 then (t, false) else RelayAll(w, t, src, lines)
  {
    hide RelayLine;
    assert ([line] + lines)[1..] == lines;
  }

  lemma {:induction false} RelayAllConcat(w: World, s: Server, src: Source, a: seq<Bytes>, b: seq<Bytes>)
    requires s.WellFormed()
    ensures var (t, ok) := RelayAll(w, s, src, a);
      RelayAll(w, s, src, a + b) == if ok then RelayAll(w, t, src, b) else (t, false)
    decreases |a|
  {
    hide RelayLine;
    if a == [] {
      assert a + b == b;
    } else {
      assert (a + b)[1..] == a[1..] + b;
      RelayAllConcat(w, RelayLine(w, s, src, a[0]).0, src, a[1..], b);
    }
  }

  // ----- Chunking independence -----

  /** A session fed its stream in chunks: each is appended to the remainder and processed. */
  function Feed(w: World, s: Server, src: Source, held: Bytes, chunks: seq<Bytes>): (r: (Server, Bytes, bool))
    requires s.WellFormed()
    decreases |chunks|
  {
    if chunks == [] then (s, held, true)
    else
      var (t, rest, ok) := Process(w, s, src, held + chunks[0]);
      if !ok then (t, rest, false) else Feed(w, t, src, rest, chunks[1..])
  }

  function Flatten(chunks: seq<Bytes>): Bytes {
    if chunks == [] then [] else chunks[0] + Flatten(chunks[1..])
  }

  /** However the stream is cut into chunks, the same lines are relayed and the same bytes held. */
  lemma {:induction false} ChunkingIndependent(w: World, s: Server, src: Source, held: Bytes, chunks: seq<Bytes>)
    requires s.WellFormed() && NEWLINE !in held
    ensures var (t, rest, ok) := Feed(w, s, src, held, chunks);
      var (lines, remainder) := Split(held + Flatten(chunks));
      (t, ok) == RelayAll(w, s, src, NonStatus(lines)) && (ok ==> rest == remainder)
    decreases |chunks|
  {
    hide IndexOf, RelayLine, Process, RelayAll;
    if chunks == [] {
      assert held + [] == held;
      SplitUnique([], held);
      assert RelayAll(w, s, src, []) == (s, true) by { RelayAllEmpty(w, s, src); }
    } else {
      var data := held + chunks[0];
      var later := Flatten(chunks[1..]);
      assert held + Flatten(chunks) == data + later;
      ProcessIsRelayAll(w, s, src, data);
      SplitAppend(data, later);
      SplitJoins(data);
      var (t, rest, ok) := Process(w, s, src, data);
      NonStatusConcat(Split(data).0, Split(Split(data).1 + later).0);
      RelayAllConcat(w, s, src, NonStatus(Split(data).0), NonStatus(Split(Split(data).1 + later).0));
      if ok {
        ChunkingIndependent(w, t, src, rest, chunks[1..]);
      }
    }
  }

  lemma RelayAllEmpty(w: World, s: Server, src: Source)
    requires s.WellFormed()
    ensures RelayAll(w, s, src, []) == (s, true)
  {}

  // ----- UDP agrees with TCP -----

  function EndLine(data: Bytes): Bytes {
    if data != [] && data[|data| - 1] == NEWLINE then data else data + [NEWLINE]
  }

  /** The lines of a datagram: the last one needs no newline. */
  function DatagramLines(data: Bytes): seq<Bytes> {
    Split(EndLine(data)).0
  }

  /** The UDP loop relays the lines of the datagram up to and including the first refused. */
  lemma {:induction false} DatagramIsRelayAll(w: World, s: Server, src: Source, data: Bytes)
    requires s.WellFormed() && data != []
    ensures ProcessDatagram(w, s, src, data) == RelayAll(w, s, src, DatagramLines(data))
    decreases |data|
  {
    hide RelayLine, IndexOf, Split;
    var i := IndexOf(data, NEWLINE);
    var t := RelayLine(w, s, src, data[..i]).0;
    var tail := After(data, i + 1);
    DatagramLinesStep(data);
    var later := if tail == [] then [] else DatagramLines(tail);
    assert DatagramLines(data)[0] == data[..i] && DatagramLines(data)[1..] == later;
    if tail != [] {
      DatagramIsRelayAll(w, t, src, tail);
    }
  }

  lemma DatagramLinesStep(data: Bytes)
    requires data != []
    ensures var i := IndexOf(data, NEWLINE);
      var tail := After(data, i + 1);
      DatagramLines(data) == [data[..i]] + if tail == [] then [] else DatagramLines(tail)
  {
    hide IndexOf, Split, EndLine;
    var i := IndexOf(data, NEWLINE);
    SplitNothing([]);
    EndLineCut(data);
    var tail := After(data, i + 1);
    var after := if tail == [] then [] else EndLine(tail);
    SplitLine(data[..i], after);
  }

  lemma EndLineCut(data: Bytes)
    requires data != []
    ensures var i := IndexOf(data, NEWLINE);
      var tail := After(data, i + 1);
      EndLine(data) == data[..i] + [NEWLINE] + if tail == [] then [] else EndLine(tail)
  {
    hide IndexOf, EndLine;
    var i := IndexOf(data, NEWLINE);
    if i == |data| {
      assert data[..i] == data;
      EndLineOfRest(data);
    } else {
      CutAt(data, NEWLINE);
      EndLineOfMore(data[..i], data[i + 1..]);
    }
  }

  lemma EndLineOfRest(line: Bytes)
    requires line != [] && NEWLINE !in line
    ensures EndLine(line) == line + [NEWLINE] + []
  {
    assert line[|line| - 1] in line;
  }

  lemma EndLineOfMore(line: Bytes, tail: Bytes)
    ensures EndLine(line + [NEWLINE] + tail) == line + [NEWLINE] + if tail == [] then [] else EndLine(tail)
  {
    var data := line + [NEWLINE] + tail;
    if tail != [] {
      assert data[|data| - 1] == tail[|tail| - 1];
    }
  }

  lemma {:induction false} NonStatusAll(lines: seq<Bytes>)
    requires STATUS !in lines
    ensures NonStatus(lines) == lines
  {
    if lines != [] {
      NonStatusAll(lines[1..]);
    }
  }

  /**
   * A datagram without a "status" line has exactly the effect of a fresh TCP session that is
   * sent the datagram, with a final newline if it lacks one, and both stop at the same refusal.
   */
  lemma UdpAgreesWithTcp(w: World, s: Server, src: Source, data: Bytes)
    requires s.WellFormed() && data != []
    requires STATUS !in DatagramLines(data)
    ensures var (t, rest, ok) := Process(w, s, src, EndLine(data));
      ProcessDatagram(w, s, src, data) == (t, ok)
  {
    hide Process, ProcessDatagram, RelayAll, Split;
    DatagramIsRelayAll(w, s, src, data);
    ProcessIsRelayAll(w, s, src, EndLine(data));
    NonStatusAll(DatagramLines(data));
  }

  // ----- What relaying lines does to the log -----

  /**
   * The log gains the lines up to and including the first refused, in order; `es` are the
   * entries gained.
   */
  ghost predicate Gained(es: seq<Entry>, src: Source, lines: seq<Bytes>, ok: bool) {
    && |es| <= |lines|
    && (forall k :: 0 <= k < |es| ==> es[k].src == src && es[k].line == lines[k])
    && (forall k :: 0 <= k < |es| - 1 ==> es[k].accepted)
    && (if ok then |es| == |lines| && (es != [] ==> es[|es| - 1].accepted)
        else es != [] && !es[|es| - 1].accepted)
  }

  lemma {:induction false} RelayAllLog(w: World, s: Server, src: Source, lines: seq<Bytes>)
    requires ServerInv(w, s)
    ensures var (t, ok) := RelayAll(w, s, src, lines);
      ServerInv(w, t) && Grown(s, t) && Gained(t.log[|s.log|..], src, lines, ok)
    decreases |lines|
  {
    hide ServerInv, RelayLine;
    if lines != [] {
      RelayLineKeepsWellFormed(w, s);
      var (t, rc) := RelayLine(w, s, src, lines[0]);
      RelayLinePreserves(w, s, src, lines[0]);
      if rc == 0 {
        RelayAllLog(w, t, src, lines[1..]);
        var (u, ok) := RelayAll(w, t, src, lines[1..]);
        assert u.log[|s.log|..] == [t.log[|s.log|]] + u.log[|t.log|..];
      } else {
        assert t.log[|s.log|..] == [t.log[|s.log|]];
      }
    }
  }

  lemma RelayLineKeepsWellFormed(w: World, s: Server)
    requires ServerInv(w, s)
    ensures s.WellFormed()
  {}
}
