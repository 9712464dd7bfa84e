/** Every backend of a running relay behaves as a client run, so what holds of those holds of it. */
module SystemClients {
  import opened Bytes
  import opened Buffers
  import opened TcpClients
  import opened ClientRuns
  import opened Relay
  import opened Framing
  import opened Sessions

  ghost predicate ShortSends(evs: seq<ClientEvent>, L: nat) {
    forall i :: 0 <= i < |evs| && evs[i].Send? ==> |evs[i].bytes| <= L
  }

  ghost predicate IsRun(config: ClientConfig, start: Client, evs: seq<ClientEvent>, c: Client, L: nat) {
    Started(config, start) && start.queue.Valid() && ShortSends(evs, L) && ClientRuns.Run(config, start, evs) == c
  }

  /** Some run from a started client, with sends of at most L bytes, ends in `c`. */
  ghost predicate Reached(config: ClientConfig, c: Client, L: nat) {
    exists start, evs :: IsRun(config, start, evs, c, L)
  }

  lemma ReachedStarted(config: ClientConfig, c: Client, L: nat)
    requires Started(config, c)
    ensures Reached(config, c, L)
  {
    hide Started;
    assert c.queue.Valid() by { StartEstablishes(config, c); }
    assert IsRun(config, c, [], c, L);
  }

  lemma ReachedStep(config: ClientConfig, c: Client, ev: ClientEvent, L: nat)
    requires Reached(config, c, L) && c.queue.Valid() && (ev.Send? ==> |ev.bytes| <= L)
    ensures Reached(config, ClientRuns.Step(config, c, ev), L)
  {
    hide Started, ClientRuns.Step;
    var start, evs :| IsRun(config, start, evs, c, L);
    assert (evs + [ev])[..|evs|] == evs;
    assert IsRun(config, start, evs + [ev], ClientRuns.Step(config, c, ev), L);
  }

  ghost predicate AllReached(s: Server, L: nat) {
    forall i :: 0 <= i < |s.backends| ==> Reached(s.config.client, s.backends[i].client, L)
  }

  ghost predicate ShortLines(log: seq<Entry>, L: nat) {
    forall k :: 0 <= k < |log| ==> |log[k].line| < L
  }

  lemma RelayLineReaches(w: World, s: Server, src: Source, line: Bytes, L: nat)
    requires s.WellFormed() && AllReached(s, L) && |line| < L
    ensures AllReached(RelayLine(w, s, src, line).0, L)
  {
    hide Reached, Route, SendAll;
    var v := Route(w, s.config, s.ring, line);
    if v.To? {
      var c, e := s.backends[v.backend].client, w.send(s.sends);
      ReachedStep(s.config.client, c, Send(line + [NEWLINE], e), L);
      assert Enabled(c, Send(line + [NEWLINE], e));
    }
  }

  lemma {:induction false} RelayAllReaches(w: World, s: Server, src: Source, lines: seq<Bytes>, L: nat)
    requires ServerInv(w, s) && AllReached(s, L) && ShortLines(RelayAll(w, s, src, lines).0.log, L)
    ensures AllReached(RelayAll(w, s, src, lines).0, L)
    decreases |lines|
  {
    hide ServerInv, RelayLine, AllReached;
    if lines != [] {
      RelayLineKeepsWellFormed(w, s);
      RelayLinePreserves(w, s, src, lines[0]);
      var (t, rc) := RelayLine(w, s, src, lines[0]);
      var u := RelayAll(w, s, src, lines).0;
      if rc == 0 {
        RelayAllLog(w, t, src, lines[1..]);
      }
      assert t.log <= u.log && u.log[|s.log|] == t.log[|s.log|];
      RelayLineReaches(w, s, src, lines[0], L);
      if rc == 0 {
        RelayAllReaches(w, t, src, lines[1..], L);
      }
    }
  }

  lemma RecvReaches(w: World, s: Server, id: nat, sess: Session, input: RecvResult, memLimit: nat, L: nat)
    requires ServerInv(w, s) && sess.buf.Valid() && CanReceive(OfferSpace(sess.buf, memLimit).0, input)
    requires AllReached(s, L) && ShortLines(Recv(w, s, id, sess, input, memLimit).0.log, L)
    ensures AllReached(Recv(w, s, id, sess, input, memLimit).0, L)
  {
    hide Reached, Process, RelayAll, ServerInv, OfferSpace, NonStatus, Split;
    var (b, ok) := OfferSpace(sess.buf, memLimit);
    if ok && input.Received? {
      var s1 := s.(bytesTcp := s.bytesTcp + |input.bytes|);
      var data := b.Produce(input.bytes).data;
      CountBytes(w, s, s1);
      RelayLineKeepsWellFormed(w, s1);
      ProcessIsRelayAll(w, s1, Tcp(id), data);
      RelayAllReaches(w, s1, Tcp(id), NonStatus(Split(data).0), L);
    }
  }

  lemma DatagramReaches(w: World, s: Server, n: nat, data: Bytes, L: nat)
    requires ServerInv(w, s) && data != []
    requires AllReached(s, L) && ShortLines(ProcessDatagram(w, s, Udp(n), data).0.log, L)
    ensures AllReached(ProcessDatagram(w, s, Udp(n), data).0, L)
  {
    hide Reached, ProcessDatagram, RelayAll, ServerInv, DatagramLines;
    RelayLineKeepsWellFormed(w, s);
    DatagramIsRelayAll(w, s, Udp(n), data);
    RelayAllReaches(w, s, Udp(n), DatagramLines(data), L);
  }

  lemma PerformReaches(w: World, y: System, ev: Event, L: nat)
    requires SystemInv(w, y) && CanHappen(y, ev)
    requires AllReached(y.server, L) && ShortLines(Perform(w, y, ev).server.log, L)
    ensures AllReached(Perform(w, y, ev).server, L)
  {
    hide Reached, Recv, ProcessDatagram, ServerInv, SessionInv, DatagramInv, ClientRuns.Step, OfferSpace, ShortLines;
    var s := y.server;
    match ev
    case Accept =>
    case TcpRead(id, input, memLimit) =>
      RecvReaches(w, s, id, y.sessions[id], input, memLimit, L);
    case UdpRead(data) =>
      var s1 := s.(bytesUdp := s.bytesUdp + |data|);
      CountBytes(w, s, s1);
      DatagramReaches(w, s1, |y.datagrams|, data, L);
    case OnBackend(i, ev) =>
      ReachedStep(s.config.client, s.backends[i].client, ev, L);
  }

  /** Whatever the relay is given, each backend's client is in a state that some client run reaches. */
  lemma {:induction false} BackendsAreClientRuns(w: World, y: System, lines: seq<string>, evs: seq<Event>, L: nat)
    requires Booted(y, lines) && ShortLines(Sessions.Run(w, y, evs).server.log, L)
    ensures AllReached(Sessions.Run(w, y, evs).server, L)
  {
    hide Perform, CanHappen, SystemInv, Reached;
    if evs == [] {
      forall i | 0 <= i < |y.server.backends| ensures Reached(y.server.config.client, y.server.backends[i].client, L) {
        ReachedStarted(y.server.config.client, y.server.backends[i].client, L);
      }
    } else {
      var before, ev := Sessions.Run(w, y, evs[..|evs| - 1]), evs[|evs| - 1];
      RunInv(w, y, lines, evs[..|evs| - 1]);
      if CanHappen(before, ev) {
        PerformGrows(w, before, ev);
      }
      BackendsAreClientRuns(w, y, lines, evs[..|evs| - 1], L);
      if CanHappen(before, ev) {
        PerformReaches(w, before, ev, L);
      }
    }
  }

  /**
   * Memory: when every line has fewer than L bytes, no backend's queue ever exceeds
   * max_send_queue - 1 + L bytes, nor its allocation the larger of 65536 and 2 * (max_send_queue + L).
   */
  lemma EndToEndMemory(w: World, y: System, lines: seq<string>, evs: seq<Event>, L: nat, i: nat)
    requires Booted(y, lines) && ShortLines(Sessions.Run(w, y, evs).server.log, L)
    requires i < |Sessions.Run(w, y, evs).server.backends|
    ensures var s := Sessions.Run(w, y, evs).server; MemoryInv(s.config.client, s.backends[i].client.queue, L)
  {
    hide Sessions.Run, MemoryInv, Started;
    BackendsAreClientRuns(w, y, lines, evs, L);
    var s := Sessions.Run(w, y, evs).server;
    assert Reached(s.config.client, s.backends[i].client, L);
    var start, cevs :| IsRun(s.config.client, start, cevs, s.backends[i].client, L);
    QueueStaysBounded(s.config.client, start, cevs, L);
  }
}
