/** Client sessions and datagrams (stats.c), and the whole relay as one step system. */
module Sessions {
  import opened Bytes
  import opened Buffers
  import opened TcpClients
  import opened ClientRuns
  import Validate
  import opened Relay
  import opened Framing

  const MAX_UDP_LENGTH: nat := 65536

  /** A stats_session_t; `stream` is everything received on it. A destroyed session is not `open`. */
  datatype Session = Session(open: bool, buf: Buf, stream: Bytes)

  datatype RecvResult = Received(bytes: Bytes) | Eof | RecvError

  /** The space stats_recv offers to recv: realign when full, then double; false when malloc refuses. */
  function OfferSpace(b: Buf, memLimit: nat): (r: (Buf, bool))
    requires b.Valid()
    ensures r.0.Valid() && r.0.data == b.data
    ensures r.1 ==> 0 < r.0.Space()
  {
    if b.Space() != 0 then (b, true)
    else
      var b1 := b.Realign();
      if b1.Space() != 0 then (b1, true)
      else (b1.Expand(memLimit), 2 * b1.size <= memLimit)
  }

  /** recv returns at most what it is offered, and 0 bytes only at the end of the stream. */
  predicate CanReceive(b: Buf, input: RecvResult) {
    input.Received? ==> 0 < |input.bytes| <= b.Space()
  }

  /** stats_recv on session number `id`. */
  function Recv(w: World, s: Server, id: nat, sess: Session, input: RecvResult, memLimit: nat): (r: (Server, Session))
    requires s.WellFormed() && sess.buf.Valid()
    requires CanReceive(OfferSpace(sess.buf, memLimit).0, input)
    ensures r.0.WellFormed() && r.1.buf.Valid()
  {
    hide Drain;
    var (b, ok) := OfferSpace(sess.buf, memLimit);
    if !ok || !input.Received? then (s, sess.(buf := b, open := false))
    else
      var b1 := b.Produce(input.bytes);
      var (t, b2, ok) := Drain(w, s.(bytesTcp := s.bytesTcp + |input.bytes|), Tcp(id), b1);
      (t, Session(ok, b2, sess.stream + input.bytes))
  }

  /** Every line validated by this stats_recv may be validated. */
  predicate RecvDefined(w: World, s: Server, id: nat, sess: Session, input: RecvResult, memLimit: nat)
    requires s.WellFormed() && sess.buf.Valid()
  {
    input.Received? && OfferSpace(sess.buf, memLimit).1 ==>
      StreamDefined(w, s.(bytesTcp := s.bytesTcp + |input.bytes|), Tcp(id), sess.buf.data + input.bytes)
  }

  // ----- The system -----

  datatype System = System(server: Server, sessions: seq<Session>, datagrams: seq<Bytes>) {
    ghost predicate WellFormed() {
      server.WellFormed() && forall id :: 0 <= id < |sessions| ==> sessions[id].buf.Valid()
    }
  }

  datatype Event =
    | Accept
    | TcpRead(id: nat, input: RecvResult, memLimit: nat)
    | UdpRead(data: Bytes)
    | OnBackend(i: nat, ev: ClientEvent)

  predicate CanHappen(y: System, ev: Event)
    requires y.WellFormed()
  {
    match ev
    case Accept => true
    case TcpRead(id, input, memLimit) =>
      id < |y.sessions| && y.sessions[id].open && CanReceive(OfferSpace(y.sessions[id].buf, memLimit).0, input)
    case UdpRead(data) => 0 < |data| <= MAX_UDP_LENGTH
    case OnBackend(i, ev) => i < |y.server.backends| && !ev.Send? && Enabled(y.server.backends[i].client, ev)
  }

  /** ... and so may those of any event. C does not say what the program does otherwise. */
  predicate Defined(w: World, y: System, ev: Event)
    requires y.WellFormed()
  {
    var s := y.server;
    match ev
    case TcpRead(id, input, memLimit) => id < |y.sessions| ==> RecvDefined(w, s, id, y.sessions[id], input, memLimit)
    case UdpRead(data) => DatagramDefined(w, s.(bytesUdp := s.bytesUdp + |data|), Udp(|y.datagrams|), data)
    case _ => true
  }

  function Perform(w: World, y: System, ev: Event): (r: System)
    requires y.WellFormed() && CanHappen(y, ev)
    ensures r.WellFormed()
  {
    hide Recv, ProcessDatagram, Callback;
    var s := y.server;
    match ev
    case Accept =>
      y.(server := s.(connections := s.connections + 1),
         sessions := y.sessions + [Session(true, Fresh(INITIAL_BUFFER_SIZE), [])])
    case TcpRead(id, input, memLimit) =>
      var (t, sess) := Recv(w, s, id, y.sessions[id], input, memLimit);
      y.(server := t, sessions := y.sessions[id := sess])
    case UdpRead(data) =>
      var t := ProcessDatagram(w, s.(bytesUdp := s.bytesUdp + |data|), Udp(|y.datagrams|), data).0;
      y.(server := t, datagrams := y.datagrams + [data])
    case OnBackend(i, ev) => y.(server := Callback(s, i, ev))
  }

  /** A run; an event that cannot happen is skipped. */
  function Run(w: World, y: System, evs: seq<Event>): (r: System)
    requires y.WellFormed()
    ensures r.WellFormed()
  {
    if evs == [] then y
    else
      var before := Run(w, y, evs[..|evs| - 1]);
      if CanHappen(before, evs[|evs| - 1]) then Perform(w, before, evs[|evs| - 1]) else before
  }

  // ----- Reading the log source by source -----

  function From(log: seq<Entry>, src: Source): seq<Entry> {
    if log == [] then []
    else From(log[..|log| - 1], src) + if log[|log| - 1].src == src then [log[|log| - 1]] else []
  }

  lemma FromSnoc(log: seq<Entry>, e: Entry, src: Source)
    ensures From(log + [e], src) == From(log, src) + if e.src == src then [e] else []
  {
    assert (log + [e])[..|log|] == log;
  }

  lemma {:induction false} FromAppend(log: seq<Entry>, es: seq<Entry>, origin: Source, src: Source)
    requires forall k :: 0 <= k < |es| ==> es[k].src == origin
    ensures From(log + es, src) == From(log, src) + if src == origin then es else []
  {
    hide From;
    if es == [] {
      assert log + es == log;
    } else {
      var n := |es| - 1;
      FromAppend(log, es[..n], origin, src);
      FromSnoc(log + es[..n], es[n], src);
      assert log + es == (log + es[..n]) + [es[n]];
      assert es == es[..n] + [es[n]];
    }
  }

  lemma {:induction false} FromNone(log: seq<Entry>, src: Source)
    requires forall k :: 0 <= k < |log| ==> log[k].src != src
    ensures From(log, src) == []
  {
    if log != [] {
      FromNone(log[..|log| - 1], src);
    }
  }

  // ----- What holds in every reachable state -----

  /** The longest newline-free stretch bounds a session's buffer. */
  ghost predicate SizeJustified(size: nat, stream: Bytes) {
    size == INITIAL_BUFFER_SIZE ||
    exists a: nat, b: nat :: a <= b <= |stream| && NEWLINE !in stream[a..b] && size <= 2 * (b - a)
  }

  /**
   * The entries from a session are its stream's non-status lines, in order: all of them while
   * it is open, when its buffer holds exactly the unterminated remainder, and up to and
   * including the first refused one if a refusal closed it.
   */
  ghost predicate SessionInv(sess: Session, es: seq<Entry>, src: Source) {
    var (lines, rest) := Split(sess.stream);
    && sess.buf.Valid()
    && Doubled(INITIAL_BUFFER_SIZE, sess.buf.size)
    && SizeJustified(sess.buf.size, sess.stream)
    && (Gained(es, src, NonStatus(lines), true) || (!sess.open && Gained(es, src, NonStatus(lines), false)))
    && (sess.open ==> Gained(es, src, NonStatus(lines), true) && sess.buf.data == rest)
  }

  /** The entries from a datagram are its lines up to and including the first refused one. */
  ghost predicate DatagramInv(data: Bytes, es: seq<Entry>, src: Source) {
    Gained(es, src, DatagramLines(data), true) || Gained(es, src, DatagramLines(data), false)
  }

  ghost predicate KnownSource(y: System, src: Source) {
    match src
    case Tcp(id) => id < |y.sessions|
    case Udp(n) => n < |y.datagrams|
  }

  ghost predicate SystemInv(w: World, y: System) {
    && y.WellFormed()
    && ServerInv(w, y.server)
    && (forall id :: 0 <= id < |y.sessions| ==> SessionInv(y.sessions[id], From(y.server.log, Tcp(id)), Tcp(id)))
    && (forall n :: 0 <= n < |y.datagrams| ==> DatagramInv(y.datagrams[n], From(y.server.log, Udp(n)), Udp(n)))
    && (forall k :: 0 <= k < |y.server.log| ==> KnownSource(y, y.server.log[k].src))
  }

  lemma GainedConcat(a: seq<Entry>, b: seq<Entry>, src: Source, la: seq<Bytes>, lb: seq<Bytes>, ok: bool)
    requires Gained(a, src, la, true) && Gained(b, src, lb, ok)
    ensures Gained(a + b, src, la + lb, ok)
  {
  }

  lemma RestIsSuffix(data: Bytes)
    ensures var rest := Split(data).1; |rest| <= |data| && data[|data| - |rest|..] == rest && NEWLINE !in rest
  {
    hide Split, Join;
    SplitJoins(data);
    JoinEnds(Split(data).0, Split(data).1);
  }

  lemma {:induction false} JoinEnds(lines: seq<Bytes>, rest: Bytes)
    ensures var data := Join(lines, rest); |rest| <= |data| && data[|data| - |rest|..] == rest
  {
    if lines != [] {
      JoinEnds(lines[1..], rest);
    }
  }

  /** The buffer doubles only when it is realigned, full and newline-free. */
  lemma OfferJustified(sess: Session, es: seq<Entry>, src: Source, memLimit: nat)
    requires SessionInv(sess, es, src) && sess.open
    ensures var b := OfferSpace(sess.buf, memLimit).0;
      && Doubled(INITIAL_BUFFER_SIZE, b.size) && SizeJustified(b.size, sess.stream)
      && (b.size != sess.buf.size ==>
            |sess.buf.data| == sess.buf.size && NEWLINE !in sess.buf.data && b.size == 2 * sess.buf.size)
  {
    hide Split, Gained, Doubled;
    DoubledAgain(INITIAL_BUFFER_SIZE, sess.buf.size);
    RestIsSuffix(sess.stream);
    var b := OfferSpace(sess.buf, memLimit).0;
    if b.size != sess.buf.size {
      var n := |sess.stream|;
      assert sess.stream[n - sess.buf.size..n] == sess.buf.data;
    }
  }

  lemma JustifiedLonger(size: nat, stream: Bytes, more: Bytes)
    requires SizeJustified(size, stream)
    ensures SizeJustified(size, stream + more)
  {
    if size != INITIAL_BUFFER_SIZE {
      var a: nat, b: nat :| a <= b <= |stream| && NEWLINE !in stream[a..b] && size <= 2 * (b - a);
      assert (stream + more)[a..b] == stream[a..b];
    }
  }

  /** What one stats_recv does to the log and to its own session. */
  lemma RecvPreserves(w: World, s: Server, id: nat, sess: Session, input: RecvResult, memLimit: nat)
    requires ServerInv(w, s) && SessionInv(sess, From(s.log, Tcp(id)), Tcp(id)) && sess.open
    requires CanReceive(OfferSpace(sess.buf, memLimit).0, input)
    ensures var (t, sess') := Recv(w, s, id, sess, input, memLimit);
      && ServerInv(w, t) && Grown(s, t)
      && (forall k :: |s.log| <= k < |t.log| ==> t.log[k].src == Tcp(id))
      && SessionInv(sess', From(s.log, Tcp(id)) + t.log[|s.log|..], Tcp(id))
  {
    hide Split, Gained, Doubled, SizeJustified, Process, RelayAll, NonStatus, ServerInv;
    var src := Tcp(id);
    var es := From(s.log, src);
    var (b, ok) := OfferSpace(sess.buf, memLimit);
    OfferJustified(sess, es, src, memLimit);
    if !ok || !input.Received? {
      assert s.log[|s.log|..] == [] && es + [] == es;
    } else {
      var b1 := b.Produce(input.bytes);
      var s1 := s.(bytesTcp := s.bytesTcp + |input.bytes|);
      CountBytes(w, s, s1);
      var lines := NonStatus(Split(b1.data).0);
      RelayLineKeepsWellFormed(w, s1);
      ProcessIsRelayAll(w, s1, src, b1.data);
      ProcessSuffix(w, s1, src, b1.data);
      RelayAllLog(w, s1, src, lines);
      var (t, rest, ok) := Process(w, s1, src, b1.data);
      SplitAppend(sess.stream, input.bytes);
      NonStatusConcat(Split(sess.stream).0, Split(b1.data).0);
      GainedConcat(es, t.log[|s.log|..], src, NonStatus(Split(sess.stream).0), lines, ok);
      JustifiedLonger(b.size, sess.stream, input.bytes);
      GainedSources(t.log[|s.log|..], src, lines, ok);
      assert forall k :: |s.log| <= k < |t.log| ==> t.log[k] == t.log[|s.log|..][k - |s.log|];
    }
  }

  lemma GainedSources(es: seq<Entry>, src: Source, lines: seq<Bytes>, ok: bool)
    requires Gained(es, src, lines, ok)
    ensures forall k :: 0 <= k < |es| ==> es[k].src == src
  {}

  /** The byte and connection counters are part of no other invariant. */
  lemma CountBytes(w: World, s: Server, t: Server)
    requires ServerInv(w, s) && t == s.(bytesTcp := t.bytesTcp, bytesUdp := t.bytesUdp, connections := t.connections)
    ensures ServerInv(w, t) && Grown(s, t) && t.log == s.log
  {
    hide BackendInv, Route;
    forall i | 0 <= i < |t.backends| ensures BackendInv(t.config.client, t.backends[i], t.log, i) {
      assert BackendInv(s.config.client, s.backends[i], s.log, i);
    }
    forall k | 0 <= k < |t.log| ensures EntryOk(w, t, t.log[k]) {
      assert EntryOk(w, s, s.log[k]);
    }
  }

  /** New entries from one source leave what every other source said untouched. */
  lemma OthersUnchanged(y: System, t: Server, origin: Source)
    requires y.server.log <= t.log
    requires forall k :: |y.server.log| <= k < |t.log| ==> t.log[k].src == origin
    ensures forall src :: src != origin ==> From(t.log, src) == From(y.server.log, src)
    ensures From(t.log, origin) == From(y.server.log, origin) + t.log[|y.server.log|..]
  {
    var es := t.log[|y.server.log|..];
    assert t.log == y.server.log + es;
    FromAppend(y.server.log, es, origin, origin);
    forall src | src != origin ensures From(t.log, src) == From(y.server.log, src) {
      FromAppend(y.server.log, es, origin, src);
      assert From(y.server.log, src) + [] == From(y.server.log, src);
    }
  }

  lemma AcceptPreserves(w: World, y: System)
    requires SystemInv(w, y)
    ensures SystemInv(w, Perform(w, y, Accept))
  {
    hide ServerInv, Gained, Doubled, From;
    var z := Perform(w, y, Accept);
    CountBytes(w, y.server, z.server);
    DoubledOnce(INITIAL_BUFFER_SIZE);
    FromNone(y.server.log, Tcp(|y.sessions|));
    GainedNothing(Tcp(|y.sessions|));
    SplitNothing([]);
  }

  lemma GainedNothing(src: Source)
    ensures Gained([], src, NonStatus([]), true)
  {}

  lemma TcpReadPreserves(w: World, y: System, id: nat, input: RecvResult, memLimit: nat)
    requires SystemInv(w, y) && CanHappen(y, TcpRead(id, input, memLimit))
    ensures SystemInv(w, Perform(w, y, TcpRead(id, input, memLimit)))
  {
    hide ServerInv, SessionInv, DatagramInv, From, Recv, OfferSpace;
    var z := Perform(w, y, TcpRead(id, input, memLimit));
    RecvPreserves(w, y.server, id, y.sessions[id], input, memLimit);
    OthersUnchanged(y, z.server, Tcp(id));
  }

  /** What one datagram does to the log. */
  lemma DatagramPreserves(w: World, s: Server, n: nat, data: Bytes)
    requires ServerInv(w, s) && data != []
    ensures var t := ProcessDatagram(w, s.(bytesUdp := s.bytesUdp + |data|), Udp(n), data).0;
      && ServerInv(w, t) && Grown(s, t)
      && (forall k :: |s.log| <= k < |t.log| ==> t.log[k].src == Udp(n))
      && DatagramInv(data, t.log[|s.log|..], Udp(n))
  {
    hide ServerInv, Gained, ProcessDatagram, RelayAll, DatagramLines;
    var s1 := s.(bytesUdp := s.bytesUdp + |data|);
    CountBytes(w, s, s1);
    RelayLineKeepsWellFormed(w, s1);
    DatagramIsRelayAll(w, s1, Udp(n), data);
    RelayAllLog(w, s1, Udp(n), DatagramLines(data));
    var (t, ok) := RelayAll(w, s1, Udp(n), DatagramLines(data));
    var es := t.log[|s.log|..];
    GainedSources(es, Udp(n), DatagramLines(data), ok);
    assert forall k :: |s.log| <= k < |t.log| ==> t.log[k] == es[k - |s.log|];
  }

  lemma UdpReadPreserves(w: World, y: System, data: Bytes)
    requires SystemInv(w, y) && CanHappen(y, UdpRead(data))
    ensures SystemInv(w, Perform(w, y, UdpRead(data)))
  {
    hide ServerInv, SessionInv, DatagramInv, From, ProcessDatagram;
    var z := Perform(w, y, UdpRead(data));
    var src := Udp(|y.datagrams|);
    DatagramPreserves(w, y.server, |y.datagrams|, data);
    OthersUnchanged(y, z.server, src);
    FromNone(y.server.log, src);
    var es := z.server.log[|y.server.log|..];
    assert [] + es == es;
  }

  lemma OnBackendPreserves(w: World, y: System, i: nat, ev: ClientEvent)
    requires SystemInv(w, y) && CanHappen(y, OnBackend(i, ev))
    ensures SystemInv(w, Perform(w, y, OnBackend(i, ev)))
  {
    hide ServerInv, SessionInv, DatagramInv, From, Callback, Enabled;
    CallbackPreserves(w, y.server, i, ev);
  }

  /** The system before the first client: a freshly created server. */
  ghost predicate Booted(y: System, lines: seq<string>): (b: bool)
    ensures b ==> y.WellFormed()
  {
    Created(y.server, lines) && y.sessions == [] && y.datagrams == []
  }

  /** The invariant holds after every interleaving of clients, datagrams and backend events. */
  lemma {:induction false} RunInv(w: World, y: System, lines: seq<string>, evs: seq<Event>)
    requires Booted(y, lines)
    ensures SystemInv(w, Run(w, y, evs))
  {
    if evs == [] {
      CreatedInv(w, y.server, lines);
    } else {
      hide Perform, CanHappen, SystemInv;
      RunInv(w, y, lines, evs[..|evs| - 1]);
      var before, ev := Run(w, y, evs[..|evs| - 1]), evs[|evs| - 1];
      if CanHappen(before, ev) {
        match ev
        case Accept => AcceptPreserves(w, before);
        case TcpRead(id, input, memLimit) => TcpReadPreserves(w, before, id, input, memLimit);
        case UdpRead(data) => UdpReadPreserves(w, before, data);
        case OnBackend(i, ev) => OnBackendPreserves(w, before, i, ev);
      }
    }
  }

  // ----- Lines stay whole -----

  ghost predicate Clean(lines: seq<Bytes>) {
    forall k :: 0 <= k < |lines| ==> NEWLINE !in lines[k]
  }

  lemma {:induction false} NonStatusClean(lines: seq<Bytes>)
    requires Clean(lines)
    ensures Clean(NonStatus(lines))
  {
    if lines != [] {
      assert forall k :: 0 <= k < |lines[1..]| ==> lines[1..][k] == lines[k + 1];
      NonStatusClean(lines[1..]);
    }
  }

  lemma {:induction false} FromHas(log: seq<Entry>, k: nat)
    requires k < |log|
    ensures log[k] in From(log, log[k].src)
  {
    if k < |log| - 1 {
      FromHas(log[..|log| - 1], k);
    }
  }

  lemma GainedClean(es: seq<Entry>, src: Source, lines: seq<Bytes>, ok: bool, e: Entry)
    requires Gained(es, src, lines, ok) && Clean(lines) && e in es
    ensures NEWLINE !in e.line
  {}

  /** No line that was relayed holds a newline, whichever way it came. */
  lemma EntryClean(w: World, y: System, k: nat)
    requires SystemInv(w, y) && k < |y.server.log|
    ensures NEWLINE !in y.server.log[k].line
  {
    hide ServerInv, From, Gained, Split, Join, Doubled, SizeJustified;
    var e := y.server.log[k];
    var es := From(y.server.log, e.src);
    FromHas(y.server.log, k);
    assert KnownSource(y, e.src);
    match e.src
    case Tcp(id) =>
      var sess := y.sessions[id];
      assert SessionInv(sess, es, e.src);
      SplitJoins(sess.stream);
      var lines := NonStatus(Split(sess.stream).0);
      NonStatusClean(Split(sess.stream).0);
      GainedClean(es, e.src, lines, Gained(es, e.src, lines, true), e);
    case Udp(n) =>
      var lines := DatagramLines(y.datagrams[n]);
      assert DatagramInv(y.datagrams[n], es, e.src);
      SplitJoins(EndLine(y.datagrams[n]));
      GainedClean(es, e.src, lines, Gained(es, e.src, lines, true), e);
  }

  /** The lines routed to backend i and accepted, in arrival order. */
  function AcceptedLines(log: seq<Entry>, i: nat): seq<Bytes> {
    if log == [] then []
    else
      var e := log[|log| - 1];
      AcceptedLines(log[..|log| - 1], i) + if e.verdict == To(i) && e.accepted then [e.line] else []
  }

  lemma {:induction false} JoinSnoc(lines: seq<Bytes>, line: Bytes)
    ensures Join(lines + [line], []) == Join(lines, []) + (line + [NEWLINE])
  {
    if lines == [] {
      assert [line][1..] == [];
      assert Join([line], []) == line + [NEWLINE] + Join([line][1..], []);
      assert lines + [line] == [line];
    } else {
      assert (lines + [line])[1..] == lines[1..] + [line];
      JoinSnoc(lines[1..], line);
    }
  }

  /** What a backend is owed is cut back into exactly the lines it accepted. */
  lemma {:induction false} WireSplits(log: seq<Entry>, i: nat)
    requires forall k :: 0 <= k < |log| ==> NEWLINE !in log[k].line
    ensures Clean(AcceptedLines(log, i))
    ensures Wire(log, i) == Join(AcceptedLines(log, i), [])
    ensures Split(Wire(log, i)) == (AcceptedLines(log, i), [])
  {
    hide Split, Join;
    if log != [] {
      var n := |log| - 1;
      var lines := AcceptedLines(log[..n], i);
      WireSplits(log[..n], i);
      if log[n].verdict == To(i) && log[n].accepted {
        JoinSnoc(lines, log[n].line);
        assert NEWLINE !in log[n].line;
        assert AcceptedLines(log, i) == lines + [log[n].line];
      } else {
        assert AcceptedLines(log, i) == lines + [] == lines;
        assert Wire(log, i) == Wire(log[..n], i) + [] == Wire(log[..n], i);
      }
    } else {
      assert Join([], []) == [] by { JoinNothing(); }
    }
    SplitUnique(AcceptedLines(log, i), []);
  }

  lemma JoinNothing()
    ensures Join([], []) == []
  {}

  // ----- The theorems -----

  /**
   * End to end: whatever happened, all bytes ever sent to a backend followed by its queue are
   * the lines routed to it and accepted, in arrival order, each whole with one newline: cut at
   * its newlines the wire gives back exactly those lines.
   */
  lemma EndToEndFifo(w: World, y: System, lines: seq<string>, evs: seq<Event>, i: nat)
    requires Booted(y, lines) && i < |Run(w, y, evs).server.backends|
    ensures var z := Run(w, y, evs).server; var b := z.backends[i];
      && b.client.sent + b.client.queue.data == Wire(z.log, i)
      && Split(b.client.sent + b.client.queue.data) == (AcceptedLines(z.log, i), [])
      && (forall k :: 0 <= k < |z.log| ==> NEWLINE !in z.log[k].line)
      && (forall k :: 0 <= k < |z.log| ==> z.log[k].verdict == Route(w, z.config, z.ring, z.log[k].line))
      && b.bytesQueued == b.bytesSent + |b.client.queue.data|
      && b.relayedLines == Tally(z.log, To(i), true) && b.droppedLines == Tally(z.log, To(i), false)
  {
    hide Run, Route, ClientInv, SessionInv, DatagramInv, Split, AcceptedLines;
    RunInv(w, y, lines, evs);
    var z := Run(w, y, evs).server;
    forall k | 0 <= k < |z.log| ensures NEWLINE !in z.log[k].line {
      EntryClean(w, Run(w, y, evs), k);
    }
    WireSplits(z.log, i);
    assert BackendInv(z.config.client, z.backends[i], z.log, i);
    forall k | 0 <= k < |z.log| ensures z.log[k].verdict == Route(w, z.config, z.ring, z.log[k].line) {
      assert EntryOk(w, z, z.log[k]);
    }
  }

  /** ... and the lines that arrived are those of each client's own stream, however it was chunked. */
  lemma EndToEndArrival(w: World, y: System, lines: seq<string>, evs: seq<Event>, id: nat)
    requires Booted(y, lines) && id < |Run(w, y, evs).sessions|
    ensures var z := Run(w, y, evs);
      SessionInv(z.sessions[id], From(z.server.log, Tcp(id)), Tcp(id))
  {
    hide Run, SessionInv;
    RunInv(w, y, lines, evs);
  }

  /** ... and of each datagram, up to and including the first refused one. */
  lemma EndToEndDatagram(w: World, y: System, lines: seq<string>, evs: seq<Event>, n: nat)
    requires Booted(y, lines) && n < |Run(w, y, evs).datagrams|
    ensures var z := Run(w, y, evs);
      DatagramInv(z.datagrams[n], From(z.server.log, Udp(n)), Udp(n))
  {
    hide Run, DatagramInv;
    RunInv(w, y, lines, evs);
  }

  /** Every line is counted once, over the whole run. */
  lemma EndToEndCounts(w: World, y: System, lines: seq<string>, evs: seq<Event>)
    requires Booted(y, lines)
    ensures var z := Run(w, y, evs).server;
      |z.log| == Routed(z.backends, |z.backends|) + z.malformed + Tally(z.log, Rejected, false) + Tally(z.log, Unroutable, false)
  {
    hide Run, SessionInv, DatagramInv, ServerInv;
    RunInv(w, y, lines, evs);
    LinesConserved(w, Run(w, y, evs).server);
  }

  /**
   * A session's buffer is 4096 bytes doubled some number of times, and never larger than 4096
   * or twice the longest newline-free stretch B of what the client has sent.
   */
  lemma EndToEndSessionMemory(w: World, y: System, lines: seq<string>, evs: seq<Event>, id: nat, B: nat)
    requires Booted(y, lines) && id < |Run(w, y, evs).sessions|
    requires var stream := Run(w, y, evs).sessions[id].stream;
      forall a: nat, b: nat :: a <= b <= |stream| && NEWLINE !in stream[a..b] ==> b - a <= B
    ensures var size := Run(w, y, evs).sessions[id].buf.size;
      Doubled(4096, size) && (size == 4096 || size <= 2 * B)
  {
    hide Run, Split, Gained, Doubled, ServerInv, DatagramInv;
    RunInv(w, y, lines, evs);
    var z := Run(w, y, evs);
    assert SessionInv(z.sessions[id], From(z.server.log, Tcp(id)), Tcp(id));
  }

  /** With statsd validation on, malformed_lines stays 0 whatever the relay is sent. */
  lemma EndToEndNoMalformed(w: World, y: System, lines: seq<string>, evs: seq<Event>)
    requires Booted(y, lines) && y.server.config.validate && y.server.config.proto == Validate.Statsd
    ensures Run(w, y, evs).server.malformed == 0
  {
    hide Run, SessionInv, DatagramInv, ServerInv;
    RunInv(w, y, lines, evs);
    RunKeepsConfig(w, y, lines, evs);
    ValidatedStatsdNeverMalformed(w, Run(w, y, evs).server);
  }

  lemma {:induction false} RunKeepsConfig(w: World, y: System, lines: seq<string>, evs: seq<Event>)
    requires Booted(y, lines)
    ensures Run(w, y, evs).server.config == y.server.config
  {
    if evs != [] {
      var before, ev := Run(w, y, evs[..|evs| - 1]), evs[|evs| - 1];
      RunKeepsConfig(w, y, lines, evs[..|evs| - 1]);
      RunInv(w, y, lines, evs[..|evs| - 1]);
      if CanHappen(before, ev) {
        PerformGrows(w, before, ev);
      }
    }
  }

  /** No step rewrites the history or the configuration. */
  lemma PerformGrows(w: World, y: System, ev: Event)
    requires SystemInv(w, y) && CanHappen(y, ev)
    ensures var t := Perform(w, y, ev).server; t.config == y.server.config && y.server.log <= t.log
  {
    hide ServerInv, SessionInv, DatagramInv, ProcessDatagram, RelayAll, Callback, Recv, OfferSpace, Enabled;
    match ev
    case Accept =>
    case TcpRead(id, input, memLimit) =>
      RecvPreserves(w, y.server, id, y.sessions[id], input, memLimit);
    case UdpRead(data) =>
      var s1 := y.server.(bytesUdp := y.server.bytesUdp + |data|);
      CountBytes(w, y.server, s1);
      DatagramIsRelayAll(w, s1, Udp(|y.datagrams|), data);
      RelayAllLog(w, s1, Udp(|y.datagrams|), DatagramLines(data));
    case OnBackend(i, ev) =>
      CallbackPreserves(w, y.server, i, ev);
  }
}
