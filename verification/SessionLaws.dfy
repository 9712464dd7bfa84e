/** When a client session stays open and what closes it, step by step and over every run. */
module SessionLaws {
  import opened Bytes
  import opened Buffers
  import opened Relay
  import opened Framing
  import opened Sessions

  /** malloc refuses to double a buffer that is full of unread data. */
  predicate NoRoom(sess: Session, memLimit: nat) {
    |sess.buf.data| == sess.buf.size && 2 * sess.buf.size > memLimit
  }

  /** A line recorded since `before` was refused. */
  ghost predicate Refused(before: seq<Entry>, after: seq<Entry>) {
    exists k :: |before| <= k < |after| && !after[k].accepted
  }

  /** Space is refused exactly then; otherwise the data is kept, and doubled only if full. */
  lemma SpaceIff(b: Buf, memLimit: nat)
    requires b.Valid()
    ensures var (r, ok) := OfferSpace(b, memLimit);
      && (!ok <==> |b.data| == b.size && 2 * b.size > memLimit)
      && r.data == b.data
      && r.size == (if |b.data| == b.size && 2 * b.size <= memLimit then 2 * b.size else b.size)
      && (ok ==> r.size - r.off - |r.data| > 0)
  {
  }

  /**
   * One stats_recv: the session is open afterwards exactly when recv gave bytes, space could be
   * offered, and none of the lines it completed was refused. If it is open, all of them were
   * accepted and the session holds the bytes after the last newline.
   */
  lemma RecvOpenIff(w: World, s: Server, id: nat, sess: Session, input: RecvResult, memLimit: nat)
    requires ServerInv(w, s) && s.WellFormed() && sess.buf.Valid()
    requires CanReceive(OfferSpace(sess.buf, memLimit).0, input)
    ensures var (t, sess') := Recv(w, s, id, sess, input, memLimit);
      && s.log <= t.log
      && (sess'.open <==> input.Received? && !NoRoom(sess, memLimit) && !Refused(s.log, t.log))
      && (input.Received? && !NoRoom(sess, memLimit) ==>
            var (lines, rest) := Split(sess.buf.data + input.bytes);
            && sess'.stream == sess.stream + input.bytes
            && Gained(t.log[|s.log|..], Tcp(id), NonStatus(lines), sess'.open)
            && (sess'.open ==> sess'.buf.data == rest))
      && (!input.Received? || NoRoom(sess, memLimit) ==>
            t == s && sess'.stream == sess.stream && sess'.buf.data == sess.buf.data)
  {
    hide Split, Process, RelayAll, NonStatus, ServerInv, Gained, OfferSpace;
    SpaceIff(sess.buf, memLimit);
    var (b, ok) := OfferSpace(sess.buf, memLimit);
    if ok && input.Received? {
      var data := sess.buf.data + input.bytes;
      var s1 := s.(bytesTcp := s.bytesTcp + |input.bytes|);
      CountBytes(w, s, s1);
      RelayLineKeepsWellFormed(w, s1);
      ProcessIsRelayAll(w, s1, Tcp(id), data);
      ProcessSuffix(w, s1, Tcp(id), data);
      RelayAllLog(w, s1, Tcp(id), NonStatus(Split(data).0));
      var (t, ok) := RelayAll(w, s1, Tcp(id), NonStatus(Split(data).0));
      GainedRefuses(s.log, t.log, Tcp(id), NonStatus(Split(data).0), ok);
    }
  }

  lemma GainedRefuses(before: seq<Entry>, after: seq<Entry>, src: Source, lines: seq<Bytes>, ok: bool)
    requires before <= after && Gained(after[|before|..], src, lines, ok)
    ensures ok <==> !Refused(before, after)
  {
    var es := after[|before|..];
    assert forall k :: |before| <= k < |after| ==> after[k] == es[k - |before|];
    if !ok {
      assert !after[|after| - 1].accepted;
    }
  }

  // ----- Over runs -----

  /** Event k ends session `id` by an end of stream, an error, or for want of memory. */
  ghost predicate EndsAt(w: World, y: System, evs: seq<Event>, id: nat, k: nat)
    requires y.WellFormed()
  {
    k < |evs| &&
    var before := Run(w, y, evs[..k]);
    CanHappen(before, evs[k]) && evs[k].TcpRead? && evs[k].id == id &&
    (evs[k].input == Eof || evs[k].input == RecvError || NoRoom(before.sessions[id], evs[k].memLimit))
  }

  ghost predicate Ended(w: World, y: System, evs: seq<Event>, id: nat)
    requires y.WellFormed()
  {
    exists k: nat :: EndsAt(w, y, evs, id, k)
  }

  /** A line of this source was refused. */
  ghost predicate HasRefusal(log: seq<Entry>, src: Source) {
    exists k :: 0 <= k < |log| && log[k].src == src && !log[k].accepted
  }

  lemma EndedStep(w: World, y: System, evs: seq<Event>, id: nat)
    requires y.WellFormed() && evs != []
    ensures Ended(w, y, evs, id) <==> Ended(w, y, evs[..|evs| - 1], id) || EndsAt(w, y, evs, id, |evs| - 1)
  {
    hide Run, CanHappen, NoRoom;
    var n := |evs| - 1;
    forall k: nat | k < n ensures EndsAt(w, y, evs, id, k) <==> EndsAt(w, y, evs[..n], id, k) {
      assert evs[..n][..k] == evs[..k];
    }
    if Ended(w, y, evs, id) {
      var k: nat :| EndsAt(w, y, evs, id, k);
      assert k < n ==> EndsAt(w, y, evs[..n], id, k);
    }
    if Ended(w, y, evs[..n], id) {
      var k: nat :| EndsAt(w, y, evs[..n], id, k);
      assert EndsAt(w, y, evs, id, k);
    }
  }

  lemma RefusalAdds(log: seq<Entry>, more: seq<Entry>, src: Source, origin: Source)
    requires log <= more && forall k :: |log| <= k < |more| ==> more[k].src == origin
    ensures HasRefusal(more, src) <==> HasRefusal(log, src) || (src == origin && Refused(log, more))
  {
    if HasRefusal(log, src) {
      var k :| 0 <= k < |log| && log[k].src == src && !log[k].accepted;
      assert more[k] == log[k];
    }
  }

  /** The sessions not read from, and the record of what they said, are left alone. */
  ghost predicate ClosedRight(w: World, y: System, evs: seq<Event>)
    requires y.WellFormed()
  {
    var z := Run(w, y, evs);
    && (forall id :: 0 <= id < |z.sessions| ==> (!z.sessions[id].open <==> Ended(w, y, evs, id) || HasRefusal(z.server.log, Tcp(id))))
    && (forall id: nat :: |z.sessions| <= id ==> !Ended(w, y, evs, id) && !HasRefusal(z.server.log, Tcp(id)))
  }

  lemma NothingYet(w: World, y: System, lines: seq<string>)
    requires Booted(y, lines)
    ensures ClosedRight(w, y, [])
  {
    forall id: nat ensures !Ended(w, y, [], id) && !HasRefusal(y.server.log, Tcp(id)) {}
  }

  /** What one event does to the sessions and to their refusals. */
  lemma EventCloses(w: World, y: System, ev: Event, id: nat)
    requires SystemInv(w, y) && CanHappen(y, ev)
    ensures var z := Perform(w, y, ev);
      && |z.sessions| == |y.sessions| + (if ev == Accept then 1 else 0)
      && (id < |y.sessions| && !(ev.TcpRead? && ev.id == id) ==> z.sessions[id].open == y.sessions[id].open)
      && (id == |y.sessions| && ev == Accept ==> z.sessions[id].open)
      && (!(ev.TcpRead? && ev.id == id) ==> (HasRefusal(z.server.log, Tcp(id)) <==> HasRefusal(y.server.log, Tcp(id))))
      && (ev.TcpRead? && ev.id == id ==>
            id < |y.sessions| && y.sessions[id].open &&
            (!z.sessions[id].open <==>
              || ev.input == Eof || ev.input == RecvError || NoRoom(y.sessions[id], ev.memLimit)
              || Refused(y.server.log, z.server.log)) &&
            (HasRefusal(z.server.log, Tcp(id)) <==> HasRefusal(y.server.log, Tcp(id)) || Refused(y.server.log, z.server.log)))
  {
    hide ServerInv, SessionInv, DatagramInv, ProcessDatagram, Callback, Recv, OfferSpace, HasRefusal, Refused, NoRoom;
    var z := Perform(w, y, ev);
    match ev
    case Accept =>
    case TcpRead(i, input, memLimit) =>
      RecvPreserves(w, y.server, i, y.sessions[i], input, memLimit);
      RecvOpenIff(w, y.server, i, y.sessions[i], input, memLimit);
      RefusalAdds(y.server.log, z.server.log, Tcp(id), Tcp(i));
    case UdpRead(data) =>
      DatagramPreserves(w, y.server, |y.datagrams|, data);
      RefusalAdds(y.server.log, z.server.log, Tcp(id), Udp(|y.datagrams|));
    case OnBackend(i, ev) => CallbackPreserves(w, y.server, i, ev);
  }

  lemma ClosedRightStep(w: World, y: System, lines: seq<string>, evs: seq<Event>)
    requires Booted(y, lines) && evs != [] && ClosedRight(w, y, evs[..|evs| - 1])
    ensures ClosedRight(w, y, evs)
  {
    hide Perform, CanHappen, SystemInv, Booted, Ended, HasRefusal, NoRoom, Refused;
    var n := |evs| - 1;
    var before, ev := Run(w, y, evs[..n]), evs[n];
    RunInv(w, y, lines, evs[..n]);
    forall id: nat ensures Ended(w, y, evs, id) <==> Ended(w, y, evs[..n], id) || EndsAt(w, y, evs, id, n) {
      EndedStep(w, y, evs, id);
    }
    if CanHappen(before, ev) {
      var z := Perform(w, before, ev);
      forall id: nat
        ensures id < |z.sessions| ==> (!z.sessions[id].open <==> Ended(w, y, evs, id) || HasRefusal(z.server.log, Tcp(id)))
        ensures |z.sessions| <= id ==> !Ended(w, y, evs, id) && !HasRefusal(z.server.log, Tcp(id))
      {
        EventCloses(w, before, ev, id);
      }
    }
  }

  lemma {:induction false} AllClosedRight(w: World, y: System, lines: seq<string>, evs: seq<Event>)
    requires Booted(y, lines)
    ensures ClosedRight(w, y, evs)
  {
    if evs == [] {
      NothingYet(w, y, lines);
    } else {
      hide ClosedRight;
      AllClosedRight(w, y, lines, evs[..|evs| - 1]);
      ClosedRightStep(w, y, lines, evs);
    }
  }

  /**
   * Over every run: a session is closed exactly when it has met an end of stream, a recv error
   * or a refusal of memory for its full buffer, or one of its lines has been refused.
   */
  lemma ClosedIff(w: World, y: System, lines: seq<string>, evs: seq<Event>, id: nat)
    requires Booted(y, lines) && id < |Run(w, y, evs).sessions|
    ensures var z := Run(w, y, evs);
      !z.sessions[id].open <==>
        || (exists k: nat :: EndsAt(w, y, evs, id, k))
        || (exists k :: 0 <= k < |z.server.log| && z.server.log[k].src == Tcp(id) && !z.server.log[k].accepted)
  {
    hide Run, EndsAt, Booted;
    AllClosedRight(w, y, lines, evs);
  }
}
