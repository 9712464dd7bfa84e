/**
 * What each event does to a backend client, written out from the client's fields and the
 * answers of the system alone, and what follows from that over runs: when a connection is
 * given up and tried again, when a line is refused, and when the client waits to write.
 */
module ClientLaws {
  import opened Bytes
  import opened Buffers
  import opened TcpClients
  import opened ClientRuns

  // ----- The state machine -----

  /** The time an event reads when it records an error. */
  function Clock(ev: ClientEvent): int {
    match ev
    case Send(_, env) => env.conn.stamp
    case Timeout(stamp) => stamp
    case ConnectDone(_, _, stamp) => stamp
    case ReadReady(_, _, _, stamp) => stamp
    case WriteReady(_, _, stamp) => stamp
  }

  /** A send that tries to connect: at once when INIT, later than one second after the error in BACKOFF. */
  predicate Tries(c: Client, ev: ClientEvent) {
    ev.Send? && c.link.resolved &&
    (c.link.state == Init || (c.link.state == Backoff && ev.env.conn.now - c.link.lastError > 1))
  }

  predicate HasAddress(cfg: ClientConfig, e: ConnectEnv) {
    !cfg.alwaysResolveDns || e.resolves
  }

  /** ... and every system call it makes succeeds. */
  predicate Begins(cfg: ClientConfig, c: Client, ev: ClientEvent) {
    Tries(c, ev) && HasAddress(cfg, ev.env.conn) && ev.env.conn.socketOk && ev.env.conn.nonblockOk && ev.env.conn.connectOk
  }

  /** A timeout, a failed connect, a failed recv, a failed send, or a failed attempt to reconnect. */
  predicate Breaks(cfg: ClientConfig, c: Client, ev: ClientEvent) {
    match ev
    case Timeout(_) => true
    case ConnectDone(getsockoptOk, soError, _) => getsockoptOk && soError
    case ReadReady(readable, allocOk, len, _) => readable && allocOk && len < 0
    case WriteReady(writable, len, _) => writable && c.queue.data != [] && len < 0
    case Send(_, _) => Tries(c, ev) && !Begins(cfg, c, ev)
  }

  /** End of stream. */
  predicate Ends(ev: ClientEvent) {
    ev.ReadReady? && ev.readable && ev.allocOk && ev.len == 0
  }

  predicate Establishes(ev: ClientEvent) {
    ev.ConnectDone? && ev.getsockoptOk && !ev.soError
  }

  /**
   * The whole state machine: where each enabled event leads, when the clock is recorded, when
   * a socket is made and when the address is kept.
   */
  ghost predicate Moves(cfg: ClientConfig, c: Client, ev: ClientEvent, r: Link) {
    var l := c.link;
    && r.state == (if Breaks(cfg, c, ev) then Backoff
                   else if Ends(ev) then Init
                   else if Begins(cfg, c, ev) then Connecting
                   else if Establishes(ev) then Connected
                   else l.state)
    && r.lastError == (if Breaks(cfg, c, ev) || Ends(ev) then Clock(ev) else l.lastError)
    && r.resolved == (if Tries(c, ev) then HasAddress(cfg, ev.env.conn) else l.resolved)
    && r.sockets == l.sockets + if Tries(c, ev) && HasAddress(cfg, ev.env.conn) && ev.env.conn.socketOk then 1 else 0
  }

  lemma StateMachine(cfg: ClientConfig, c: Client, ev: ClientEvent)
    requires ClientInv(cfg, c) && Enabled(c, ev)
    ensures Moves(cfg, c, ev, Step(cfg, c, ev).link)
  {
    if ev.Send? {
      SendMoves(cfg, c, ev);
    }
  }

  lemma SendMoves(cfg: ClientConfig, c: Client, ev: ClientEvent)
    requires ClientInv(cfg, c) && ev.Send?
    ensures Moves(cfg, c, ev, Step(cfg, c, ev).link)
  {
    hide ExpandFor, Connect;
    if c.link.resolved {
      ConnectMoves(cfg, c.link, ev.env.conn);
    }
  }

  /** tcpclient_connect on a client with an address. */
  lemma ConnectMoves(cfg: ClientConfig, l: Link, e: ConnectEnv)
    requires LinkInv(l) && l.resolved
    ensures var r := Connect(cfg, l, e).0;
      var tries := l.state == Init || (l.state == Backoff && e.now - l.lastError > 1);
      var begins := HasAddress(cfg, e) && e.socketOk && e.nonblockOk && e.connectOk;
      && r.state == (if !tries then l.state else if begins then Connecting else Backoff)
      && r.lastError == (if tries && !begins then e.stamp else l.lastError)
      && r.resolved == (if tries then HasAddress(cfg, e) else true)
      && r.sockets == l.sockets + if tries && HasAddress(cfg, e) && e.socketOk then 1 else 0
  {
  }

  /** The client of a backend whose first tcpclient_connect has returned 0. */
  lemma StartsAs(cfg: ClientConfig, c: Client)
    requires Started(cfg, c)
    ensures var l := c.link;
      && l.state == Connecting && l.sd == 0 && l.sockets == 1 && l.open == {0} && l.resolved && l.lastError == 0
      && l.timer && l.connect.active && !l.read.active && !l.write.active && !l.fault
      && c.queue == Buf([], 0, 65536) && c.sent == [] && !c.failing
  {
  }

  // ----- Backing off, over runs -----

  /** No send comes later than one second after t. */
  predicate NoneLater(evs: seq<ClientEvent>, t: int) {
    forall k :: 0 <= k < |evs| && evs[k].Send? ==> evs[k].env.conn.now - t <= 1
  }

  lemma {:induction false} BackoffHolds(cfg: ClientConfig, c: Client, more: seq<ClientEvent>)
    requires ClientInv(cfg, c) && c.link.state == Backoff && NoneLater(more, c.link.lastError)
    ensures var r := Run(cfg, c, more).link;
      r.state == Backoff && r.lastError == c.link.lastError && r.sockets == c.link.sockets && r.resolved == c.link.resolved
  {
    if more != [] {
      hide Step, ClientInv;
      var n := |more| - 1;
      BackoffHolds(cfg, c, more[..n]);
      RunPreserves(cfg, c, more[..n]);
      var before := Run(cfg, c, more[..n]);
      NothingElse(cfg, before, more[n]);
    }
  }

  /** In BACKOFF every event but a send that is due leaves the connection alone. */
  lemma NothingElse(cfg: ClientConfig, c: Client, ev: ClientEvent)
    requires ClientInv(cfg, c) && c.link.state == Backoff && !Tries(c, ev)
    ensures Step(cfg, c, ev).link == c.link
  {
    hide ExpandFor;
  }

  /**
   * After any run: an event that breaks the connection at time t leaves BACKOFF in force, and
   * makes or allows no socket, until a send comes with now - t > 1. That send makes a socket
   * if there is an address and socket() succeeds, and connects if the other calls do too.
   */
  lemma BackoffLasts(cfg: ClientConfig, c: Client, evs: seq<ClientEvent>, ev: ClientEvent, more: seq<ClientEvent>, bytes: Bytes, e: SendEnv)
    requires Started(cfg, c)
    requires Enabled(Run(cfg, c, evs), ev) && Breaks(cfg, Run(cfg, c, evs), ev)
    requires NoneLater(more, Clock(ev))
    ensures var broken := Run(cfg, c, evs + [ev]).link;
      var waiting := Run(cfg, c, evs + [ev] + more).link;
      var next := Run(cfg, c, evs + [ev] + more + [Send(bytes, e)]).link;
      && broken.state == Backoff && broken.lastError == Clock(ev)
      && waiting.state == Backoff && waiting.lastError == Clock(ev) && waiting.sockets == broken.sockets
      && (e.conn.now - Clock(ev) <= 1 || !broken.resolved ==> next.state == Backoff && next.sockets == broken.sockets)
      && (e.conn.now - Clock(ev) > 1 && broken.resolved ==>
            && next.sockets == broken.sockets + (if HasAddress(cfg, e.conn) && e.conn.socketOk then 1 else 0)
            && (next.state == Connecting <==> HasAddress(cfg, e.conn) && e.conn.socketOk && e.conn.nonblockOk && e.conn.connectOk)
            && (next.state != Connecting ==> next.state == Backoff && next.lastError == e.conn.stamp))
  {
    hide Run, Step, ClientInv, Started, Enabled;
    StartEstablishes(cfg, c);
    var before := Run(cfg, c, evs);
    RunPreserves(cfg, c, evs);
    StateMachine(cfg, before, ev);
    StepPreserves(cfg, before, ev);
    var broken := Step(cfg, before, ev);
    RunAppend(cfg, c, evs, [ev]);
    RunOne(cfg, before, ev);
    RunAppend(cfg, c, evs + [ev], more);
    BackoffHolds(cfg, broken, more);
    RunPreserves(cfg, broken, more);
    var waiting := Run(cfg, broken, more);
    RunAppend(cfg, c, evs + [ev] + more, [Send(bytes, e)]);
    RunOne(cfg, waiting, Send(bytes, e));
    SendEnabled(waiting, bytes, e);
    StateMachine(cfg, waiting, Send(bytes, e));
  }

  lemma SendEnabled(c: Client, bytes: Bytes, e: SendEnv)
    ensures Enabled(c, Send(bytes, e))
  {}

  /** After an end of stream the next send is due at once, whatever time it is. */
  lemma EndOfStreamRetries(cfg: ClientConfig, c: Client, evs: seq<ClientEvent>, ev: ClientEvent, bytes: Bytes, e: SendEnv)
    requires Started(cfg, c)
    requires Enabled(Run(cfg, c, evs), ev) && Ends(ev)
    ensures var ended := Run(cfg, c, evs + [ev]).link;
      var next := Run(cfg, c, evs + [ev] + [Send(bytes, e)]).link;
      && ended.state == Init && ended.lastError == Clock(ev) && ended.open == {}
      && next.sockets == ended.sockets + (if HasAddress(cfg, e.conn) && e.conn.socketOk then 1 else 0)
      && (next.state == Connecting <==> HasAddress(cfg, e.conn) && e.conn.socketOk && e.conn.nonblockOk && e.conn.connectOk)
  {
    hide Run, Step, Started;
    StartEstablishes(cfg, c);
    var before := Run(cfg, c, evs);
    RunPreserves(cfg, c, evs);
    StateMachine(cfg, before, ev);
    StepPreserves(cfg, before, ev);
    var ended := Step(cfg, before, ev);
    RunAppend(cfg, c, evs, [ev]);
    RunOne(cfg, before, ev);
    RunAppend(cfg, c, evs + [ev], [Send(bytes, e)]);
    RunOne(cfg, ended, Send(bytes, e));
    StateMachine(cfg, ended, Send(bytes, e));
  }

  /** Every return code of tcpclient_connect. */
  lemma ConnectCode(cfg: ClientConfig, l: Link, e: ConnectEnv)
    ensures var rc := Connect(cfg, l, e).1;
      var tries := l.state == Init || (l.state == Backoff && e.now - l.lastError > 1);
      var address := (l.resolved && !cfg.alwaysResolveDns) || e.resolves;
      && (rc == 0 <==> tries && address && e.socketOk && e.nonblockOk && e.connectOk)
      && (rc == 1 <==> l.state == Connecting || l.state == Connected)
      && (rc == 2 <==> l.state == Backoff && e.now - l.lastError <= 1)
      && (rc == 3 <==> tries && !address)
      && (rc == 4 <==> tries && address && !e.socketOk)
      && (rc == 5 <==> tries && address && e.socketOk && !e.nonblockOk)
      && (rc == 6 <==> tries && address && e.socketOk && e.nonblockOk && !e.connectOk)
      && (rc == 7 <==> l.state == Terminated)
  {
  }

  // ----- When a line is refused -----

  /** Some doubling of the allocation, none at all or one that malloc provides, holds so many bytes. */
  ghost predicate CanHold(size: nat, total: nat, memLimit: nat) {
    exists k: nat :: total <= size * Pow2(k) && (k == 0 || size * Pow2(k) <= memLimit)
  }

  lemma HoldsAtOnce(size: nat, total: nat, memLimit: nat)
    requires total <= size
    ensures CanHold(size, total, memLimit)
  {
    assert total <= size * Pow2(0);
  }

  lemma HoldsDoubled(size: nat, total: nat, memLimit: nat)
    requires 0 < size < total
    ensures CanHold(size, total, memLimit) <==> 2 * size <= memLimit && CanHold(2 * size, total, memLimit)
  {
    hide Pow2;
    if CanHold(size, total, memLimit) {
      var k: nat :| total <= size * Pow2(k) && (k == 0 || size * Pow2(k) <= memLimit);
      OneMore(size, 0);
      assert k > 0;
      OneMore(size, k - 1);
    }
    if 2 * size <= memLimit && CanHold(2 * size, total, memLimit) {
      var k: nat :| total <= (2 * size) * Pow2(k) && (k == 0 || (2 * size) * Pow2(k) <= memLimit);
      OneMore(size, k);
    }
  }

  lemma OneMore(size: nat, k: nat)
    ensures size * Pow2(k + 1) == (2 * size) * Pow2(k) && 2 * size <= (2 * size) * Pow2(k)
    ensures size * Pow2(0) == size && (2 * size) * Pow2(0) == 2 * size
  {
    Product(2 * size, Pow2(k));
    assert size * (2 * Pow2(k)) == (2 * size) * Pow2(k);
  }

  lemma Product(a: nat, b: nat)
    requires b > 0
    ensures a <= a * b
  {}

  lemma {:induction false} ExpandsIff(b: Buf, len: nat, memLimit: nat)
    requires b.Valid() && (b.off == 0 || len <= b.size - b.off - |b.data|)
    ensures ExpandFor(b, len, memLimit).1 <==> CanHold(b.size, |b.data| + len, memLimit)
    decreases len - b.Space()
  {
    if |b.data| + len <= b.size {
      HoldsAtOnce(b.size, |b.data| + len, memLimit);
    } else {
      HoldsDoubled(b.size, |b.data| + len, memLimit);
      if 2 * b.size <= memLimit {
        ExpandsIff(b.Expand(memLimit), len, memLimit);
      }
    }
  }

  /**
   * The return code of tcpclient_sendall: 1 without an address; 2 with the queue at its limit,
   * and then the client is failing; 4 when no doubling of the allocation that malloc allows
   * holds queue and line; otherwise 0, and the line is at the end of the queue.
   */
  lemma SendCode(cfg: ClientConfig, c: Client, bytes: Bytes, e: SendEnv)
    requires c.queue.Valid()
    ensures var (r, rc) := SendAll(cfg, c, bytes, e);
      var holds := CanHold(c.queue.size, |c.queue.data| + |bytes|, e.memLimit);
      && (rc == 1 <==> !c.link.resolved)
      && (rc == 2 <==> c.link.resolved && |c.queue.data| >= cfg.maxSendQueue)
      && (rc == 4 <==> c.link.resolved && |c.queue.data| < cfg.maxSendQueue && !holds)
      && (rc == 0 <==> c.link.resolved && |c.queue.data| < cfg.maxSendQueue && holds)
      && r.failing == (c.failing || rc == 2)
      && r.queue.data == (if rc == 0 then c.queue.data + bytes else c.queue.data)
      && r.sent == c.sent
  {
    hide ExpandFor, Connect, CanHold;
    var q := if c.queue.size - c.queue.off - |c.queue.data| < |bytes| then c.queue.Realign() else c.queue;
    ExpandsIff(q, |bytes|, e.memLimit);
  }

  // ----- Reading and writing -----

  /** A write event takes from the front of the queue what send() took, and waits on exactly while bytes are left. */
  lemma WriteLaw(cfg: ClientConfig, c: Client, writable: bool, len: int, stamp: int)
    requires ClientInv(cfg, c) && Enabled(c, WriteReady(writable, len, stamp))
    ensures var r := Step(cfg, c, WriteReady(writable, len, stamp));
      var total := |c.queue.data|;
      && (!writable ==> r == c)
      && (writable && total == 0 ==> r.queue == c.queue && r.sent == c.sent && r.failing == c.failing &&
                                     r.link.state == Connected && !r.link.write.active && r.link.read == c.link.read)
      && (writable && total > 0 && len < 0 ==> r.queue == c.queue && r.sent == c.sent && r.failing == c.failing &&
                                               r.link.state == Backoff && r.link.open == {})
      && (writable && total > 0 && len >= 0 ==>
            && r.sent == c.sent + c.queue.data[..len] && r.queue.data == c.queue.data[len..]
            && r.failing == (c.failing && total - len >= cfg.maxSendQueue)
            && r.link.state == Connected && (r.link.write.active <==> len < total) && r.link.read == c.link.read)
  {
  }

  /** Unless a read event finds an error or the end of the stream it changes nothing. */
  lemma ReadLaw(cfg: ClientConfig, c: Client, readable: bool, allocOk: bool, len: int, stamp: int)
    requires ClientInv(cfg, c) && Enabled(c, ReadReady(readable, allocOk, len, stamp))
    ensures var r := Step(cfg, c, ReadReady(readable, allocOk, len, stamp));
      && r.queue == c.queue && r.sent == c.sent && r.failing == c.failing
      && (!readable || !allocOk || len > 0 ==> r == c)
      && (readable && allocOk && len <= 0 ==> r.link.open == {} && !r.link.read.active && !r.link.write.active)
  {
  }

  /** A connected client waits to write exactly while it has bytes to send. */
  ghost predicate Tight(c: Client) {
    c.link.state == Connected ==> (c.link.write.active <==> c.queue.data != [])
  }

  lemma TightStep(cfg: ClientConfig, c: Client, ev: ClientEvent)
    requires ClientInv(cfg, c) && Enabled(c, ev)
    requires (Tight(c) && !ev.ConnectDone?) || (ev.WriteReady? && ev.writable)
    requires ev.Send? ==> ev.bytes != []
    ensures Tight(Step(cfg, c, ev))
  {
    hide SendAll;
    StateMachine(cfg, c, ev);
    if ev.Send? {
      TightSend(cfg, c, ev.bytes, ev.env);
    }
  }

  lemma TightSend(cfg: ClientConfig, c: Client, bytes: Bytes, e: SendEnv)
    requires ClientInv(cfg, c) && Tight(c) && bytes != []
    ensures Tight(SendAll(cfg, c, bytes, e).0)
  {
    hide ExpandFor, Connect;
    ConnectPreserves(cfg, c.link, e.conn);
  }

  lemma {:induction false} TightHolds(cfg: ClientConfig, c: Client, more: seq<ClientEvent>)
    requires ClientInv(cfg, c) && Tight(c)
    requires forall k :: 0 <= k < |more| ==> !more[k].ConnectDone? && (more[k].Send? ==> more[k].bytes != [])
    ensures Tight(Run(cfg, c, more))
  {
    if more != [] {
      assert c.queue.Valid();
      hide Step, ClientInv, Enabled, Tight;
      var n := |more| - 1;
      TightHolds(cfg, c, more[..n]);
      var before := Run(cfg, c, more[..n]);
      RunPreserves(cfg, c, more[..n]);
      if Enabled(before, more[n]) {
        TightStep(cfg, before, more[n]);
      } else {
        Skipped(cfg, before, more[n]);
      }
    }
  }

  /** Once a write event has been handled, and until the next connection, the client never waits to write in vain. */
  lemma WaitsOnlyToSend(cfg: ClientConfig, c: Client, evs: seq<ClientEvent>, ev: ClientEvent, more: seq<ClientEvent>)
    requires ClientInv(cfg, c) && Enabled(Run(cfg, c, evs), ev) && ev.WriteReady? && ev.writable
    requires forall k :: 0 <= k < |more| ==> !more[k].ConnectDone? && (more[k].Send? ==> more[k].bytes != [])
    ensures Tight(Run(cfg, c, evs + [ev] + more))
  {
    assert c.queue.Valid();
    hide Step, Run, ClientInv, Enabled, Tight;
    var before := Run(cfg, c, evs);
    RunPreserves(cfg, c, evs);
    TightStep(cfg, before, ev);
    StepPreserves(cfg, before, ev);
    RunAppend(cfg, c, evs, [ev]);
    RunOne(cfg, before, ev);
    RunAppend(cfg, c, evs + [ev], more);
    TightHolds(cfg, Step(cfg, before, ev), more);
  }

  lemma Skipped(cfg: ClientConfig, c: Client, ev: ClientEvent)
    requires c.queue.Valid() && !Enabled(c, ev)
    ensures Step(cfg, c, ev) == c
  {}
}
