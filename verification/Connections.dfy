/** Where in the stream of a backend's lines a connection to it begins. */
module Connections {
  import opened Bytes
  import opened Buffers
  import opened TcpClients
  import opened ClientRuns
  import opened Relay
  import opened Framing
  import opened Sessions

  /** The first n bytes are some number of whole lines. */
  ghost predicate AtLineStart(lines: seq<Bytes>, n: nat) {
    exists k :: 0 <= k <= |lines| && |Join(lines[..k], [])| == n
  }

  lemma AtLineStartStep(lines: seq<Bytes>, n: nat)
    requires lines != [] && AtLineStart(lines[1..], n)
    ensures AtLineStart(lines, |lines[0]| + 1 + n)
  {
    var k :| 0 <= k <= |lines[1..]| && |Join(lines[1..][..k], [])| == n;
    assert lines[..k + 1][1..] == lines[1..][..k];
    assert lines[..k + 1][0] == lines[0];
  }

  lemma {:induction false} JoinPrefix(lines: seq<Bytes>, k: nat)
    requires k <= |lines|
    ensures Join(lines[..k], []) <= Join(lines, [])
    ensures var first := Join(lines[..k], []); first == [] || first[|first| - 1] == NEWLINE
  {
    if k > 0 {
      JoinPrefix(lines[1..], k - 1);
      assert lines[..k][1..] == lines[1..][..k - 1];
    }
  }

  lemma {:induction false} EndedLines(lines: seq<Bytes>, sent: Bytes, queue: Bytes)
    requires Clean(lines) && sent + queue == Join(lines, [])
    requires sent == [] || sent[|sent| - 1] == NEWLINE
    ensures AtLineStart(lines, |sent|)
    decreases |lines|
  {
    if sent == [] {
      assert lines[..0] == [] && |Join(lines[..0], [])| == 0;
    } else {
      var line, rest := lines[0], Join(lines[1..], []);
      assert sent + queue == line + [NEWLINE] + rest;
      assert (sent + queue)[|sent| - 1] == NEWLINE;
      assert forall k :: 0 <= k < |line| ==> (line + [NEWLINE] + rest)[k] in line;
      var later := sent[|line| + 1..];
      assert later + queue == (sent + queue)[|line| + 1..] == rest;
      EndedLines(lines[1..], later, queue);
      AtLineStartStep(lines, |later|);
    }
  }

  /** The next byte to leave begins a line exactly when nothing has been sent, or a newline last. */
  lemma LineStartIff(lines: seq<Bytes>, sent: Bytes, queue: Bytes)
    requires Clean(lines) && sent + queue == Join(lines, [])
    ensures AtLineStart(lines, |sent|) <==> sent == [] || sent[|sent| - 1] == NEWLINE
  {
    if AtLineStart(lines, |sent|) {
      var k :| 0 <= k <= |lines| && |Join(lines[..k], [])| == |sent|;
      JoinPrefix(lines, k);
      assert sent == (sent + queue)[..|sent|] == Join(lines[..k], []);
    }
    if sent == [] || sent[|sent| - 1] == NEWLINE {
      EndedLines(lines, sent, queue);
    }
  }

  // ----- What has been sent is never taken back -----

  ghost predicate SentGrown(s: Server, t: Server) {
    |t.backends| == |s.backends| && forall i :: 0 <= i < |s.backends| ==> s.backends[i].client.sent <= t.backends[i].client.sent
  }

  lemma StepSent(cfg: ClientConfig, c: Client, ev: ClientEvent)
    requires c.queue.Valid()
    ensures c.sent <= Step(cfg, c, ev).sent
  {
    hide SendAll;
    if ev.Send? {
      SendEffect(cfg, c, ev.bytes, ev.env);
    }
  }

  lemma RelayLineSent(w: World, s: Server, src: Source, line: Bytes)
    requires s.WellFormed()
    ensures SentGrown(s, RelayLine(w, s, src, line).0)
  {
    hide Route, SendAll;
    var v := Route(w, s.config, s.ring, line);
    if v.To? {
      SendEffect(s.config.client, s.backends[v.backend].client, line + [NEWLINE], w.send(s.sends));
    }
  }

  lemma {:induction false} RelayAllSent(w: World, s: Server, src: Source, lines: seq<Bytes>)
    requires s.WellFormed()
    ensures SentGrown(s, RelayAll(w, s, src, lines).0)
    decreases |lines|
  {
    hide RelayLine;
    if lines != [] {
      RelayLineSent(w, s, src, lines[0]);
      RelayAllSent(w, RelayLine(w, s, src, lines[0]).0, src, lines[1..]);
    }
  }

  lemma RecvSent(w: World, s: Server, id: nat, sess: Session, input: RecvResult, memLimit: nat)
    requires s.WellFormed() && sess.buf.Valid() && CanReceive(OfferSpace(sess.buf, memLimit).0, input)
    ensures SentGrown(s, Recv(w, s, id, sess, input, memLimit).0)
  {
    hide Process, RelayAll, OfferSpace, NonStatus, Split;
    var (b, ok) := OfferSpace(sess.buf, memLimit);
    if ok && input.Received? {
      var s1 := s.(bytesTcp := s.bytesTcp + |input.bytes|);
      var data := b.Produce(input.bytes).data;
      ProcessIsRelayAll(w, s1, Tcp(id), data);
      RelayAllSent(w, s1, Tcp(id), NonStatus(Split(data).0));
    }
  }

  lemma PerformSent(w: World, y: System, ev: Event)
    requires y.WellFormed() && CanHappen(y, ev)
    ensures SentGrown(y.server, Perform(w, y, ev).server)
  {
    hide Recv, ProcessDatagram, RelayAll, DatagramLines, Step, OfferSpace, Enabled;
    match ev
    case Accept =>
    case TcpRead(id, input, memLimit) => RecvSent(w, y.server, id, y.sessions[id], input, memLimit);
    case UdpRead(data) =>
      var s1 := y.server.(bytesUdp := y.server.bytesUdp + |data|);
      DatagramIsRelayAll(w, s1, Udp(|y.datagrams|), data);
      RelayAllSent(w, s1, Udp(|y.datagrams|), DatagramLines(data));
    case OnBackend(i, ev) => StepSent(y.server.config.client, y.server.backends[i].client, ev);
  }

  lemma {:induction false} RunSent(w: World, y: System, evs: seq<Event>, more: seq<Event>)
    requires y.WellFormed()
    ensures SentGrown(Sessions.Run(w, y, evs).server, Sessions.Run(w, y, evs + more).server)
  {
    hide Perform, CanHappen;
    if more == [] {
      assert evs + more == evs;
    } else {
      var n := |more| - 1;
      RunSent(w, y, evs, more[..n]);
      assert (evs + more)[..|evs + more| - 1] == evs + more[..n];
      var before := Sessions.Run(w, y, evs + more[..n]);
      if CanHappen(before, more[n]) {
        PerformSent(w, before, more[n]);
      }
    }
  }

  /**
   * What a backend is sent after any moment of a run is a piece of the lines it accepted that
   * begins where the bytes sent before end.
   */
  lemma SentSince(w: World, y: System, lines: seq<string>, evs: seq<Event>, more: seq<Event>, i: nat)
    requires Booted(y, lines) && i < |Sessions.Run(w, y, evs).server.backends|
    ensures var before, z := Sessions.Run(w, y, evs).server, Sessions.Run(w, y, evs + more).server;
      && i < |z.backends|
      && var sent, later := before.backends[i].client.sent, z.backends[i].client.sent;
        && sent <= later
        && later <= Wire(z.log, i)
        && later[|sent|..] <= Wire(z.log, i)[|sent|..]
  {
    hide Sessions.Run, Booted, Split, AcceptedLines, Route, Wire;
    assert y.WellFormed();
    RunSent(w, y, evs, more);
    EndToEndFifo(w, y, lines, evs + more, i);
    var z := Sessions.Run(w, y, evs + more).server.backends[i].client;
    var wire := Wire(Sessions.Run(w, y, evs + more).server.log, i);
    assert z.sent + z.queue.data == wire;
    assert wire[..|z.sent|] == z.sent;
  }

  // ----- Where a connection begins -----

  /**
   * When a connection to a backend is established, whatever went before: it carries on from the
   * last byte sent, so it begins with a whole line exactly when nothing was sent before or the
   * last byte sent was a newline.
   */
  lemma EndToEndConnectionStart(w: World, y: System, lines: seq<string>, evs: seq<Event>, i: nat, stamp: int)
    requires Booted(y, lines)
    requires CanHappen(Sessions.Run(w, y, evs), OnBackend(i, ConnectDone(true, false, stamp)))
    ensures var before := Sessions.Run(w, y, evs).server;
      var z := Sessions.Run(w, y, evs + [OnBackend(i, ConnectDone(true, false, stamp))]).server;
      && i < |before.backends| && i < |z.backends|
      && var c, owed := z.backends[i].client, AcceptedLines(z.log, i);
        && c.link.state == Connected && c.sent == before.backends[i].client.sent
        && c.sent + c.queue.data == Join(owed, [])
        && (AtLineStart(owed, |c.sent|) <==> c.sent == [] || c.sent[|c.sent| - 1] == NEWLINE)
  {
    hide Sessions.Run, SystemInv, AtLineStart, Join, Split, AcceptedLines, Booted, OfferSpace;
    var ev := OnBackend(i, ConnectDone(true, false, stamp));
    var z := Sessions.Run(w, y, evs + [ev]);
    RunSnoc(w, y, evs, ev);
    RunInv(w, y, lines, evs + [ev]);
    forall k | 0 <= k < |z.server.log| ensures NEWLINE !in z.server.log[k].line {
      EntryClean(w, z, k);
    }
    WireSplits(z.server.log, i);
    EndToEndFifo(w, y, lines, evs + [ev], i);
    var c := z.server.backends[i].client;
    LineStartIff(AcceptedLines(z.server.log, i), c.sent, c.queue.data);
  }

  lemma RunSnoc(w: World, y: System, evs: seq<Event>, ev: Event)
    requires y.WellFormed() && CanHappen(Sessions.Run(w, y, evs), ev)
    ensures Sessions.Run(w, y, evs + [ev]) == Perform(w, Sessions.Run(w, y, evs), ev)
  {
    hide Perform, CanHappen;
    assert (evs + [ev])[..|evs|] == evs;
  }

  lemma ClientRunSnoc(cfg: ClientConfig, c: Client, evs: seq<ClientEvent>, ev: ClientEvent)
    requires c.queue.Valid()
    ensures ClientRuns.Run(cfg, c, evs + [ev]) == Step(cfg, ClientRuns.Run(cfg, c, evs), ev)
  {
    hide Step;
    assert (evs + [ev])[..|evs|] == evs;
  }

  /** A partial send, a failed read and a reconnect: the second connection begins inside the line "ab". */
  lemma CutLineExample(cfg: ClientConfig) returns (evs: seq<ClientEvent>)
    requires 0 < cfg.maxSendQueue
    ensures Started(cfg, FirstClient(cfg))
    ensures var c := ClientRuns.Run(cfg, FirstClient(cfg), evs);
      c.link.state == Connected && c.sent == [97] && [98, NEWLINE] <= c.queue.data
  {
    var c0 := FirstClient(cfg);
    assert Started(cfg, c0);
    hide ClientRuns.Run, Started;
    assert ClientRuns.Run(cfg, c0, []) == c0 by { NoEventsRun(cfg, c0); }
    var e1, e2 := ConnectDone(true, false, 0), ClientEvent.Send([97, 98, NEWLINE], SendEnv(ALL_GOOD, 0));
    var c1 := Step(cfg, c0, e1);
    ClientRunSnoc(cfg, c0, [], e1);
    var c2 := Step(cfg, c1, e2);
    assert c2.link == WakeWriter(c1.link) && c2.queue.data == [97, 98, NEWLINE] && c2.sent == [] by { FirstSend(cfg, c1, e2); }
    ClientRunSnoc(cfg, c0, [] + [e1], e2);
    var e3, e4 := WriteReady(true, 1, 0), ReadReady(true, true, -1, 0);
    var c3 := Step(cfg, c2, e3);
    ClientRunSnoc(cfg, c0, [] + [e1] + [e2], e3);
    assert c3.sent == [97] && c3.queue.data == [98, NEWLINE];
    var c4 := Step(cfg, c3, e4);
    ClientRunSnoc(cfg, c0, [] + [e1] + [e2] + [e3], e4);
    evs := [] + [e1] + [e2] + [e3] + [e4];
    var e5, e6 := Reconnect(c4, [99, NEWLINE]), ConnectDone(true, false, 0);
    var c5 := Step(cfg, c4, e5);
    assert c5.link.state == Connecting && c5.link.connect.active && c5.sent == [97] && [98, NEWLINE] <= c5.queue.data by {
      RetryAfterCut(cfg, c4, e5);
    }
    ClientRunSnoc(cfg, c0, evs, e5);
    ClientRunSnoc(cfg, c0, evs + [e5], e6);
    evs := evs + [e5] + [e6];
  }

  lemma NoEventsRun(cfg: ClientConfig, c: Client)
    requires c.queue.Valid()
    ensures ClientRuns.Run(cfg, c, []) == c
  {}

  lemma FirstSend(cfg: ClientConfig, c: Client, ev: ClientEvent)
    requires c.link.state == Connected && c.link.resolved && c.sent == [] && c.queue == Fresh(DEFAULT_BUFFER_SIZE)
    requires 0 < cfg.maxSendQueue && ev.Send? && |ev.bytes| < 10
    ensures var r := Step(cfg, c, ev); r.link == WakeWriter(c.link) && r.queue.data == ev.bytes && r.sent == []
  {
    assert [] + ev.bytes == ev.bytes;
  }

  lemma RetryAfterCut(cfg: ClientConfig, c: Client, ev: ClientEvent)
    requires c.queue.Valid() && c.link.state == Backoff && c.link.resolved && ev == Reconnect(c, [99, NEWLINE])
    ensures var r := Step(cfg, c, ev);
      r.link.state == Connecting && r.link.connect.active && r.sent == c.sent && c.queue.data <= r.queue.data
  {
    hide ExpandFor;
    SendEffect(cfg, c, ev.bytes, ev.env);
  }
}
