/** What holds of a backend client over every run of sends and libev callbacks. */
module ClientRuns {
  import opened Bytes
  import opened Buffers
  import opened TcpClients

  datatype ClientEvent =
    | Send(bytes: Bytes, env: SendEnv)
    | Timeout(stamp: int)
    | ConnectDone(getsockoptOk: bool, soError: bool, stamp: int)
    | ReadReady(readable: bool, allocOk: bool, len: int, stamp: int)
    | WriteReady(writable: bool, len: int, stamp: int)

  /** libev calls back only for an active watcher, and send() takes at most what it is offered. */
  predicate Enabled(c: Client, ev: ClientEvent) {
    match ev
    case Send(_, _) => true
    case Timeout(_) => c.link.timer
    case ConnectDone(_, _, _) => c.link.connect.active
    case ReadReady(_, _, _, _) => c.link.read.active
    case WriteReady(_, len, _) => c.link.write.active && len <= |c.queue.data|
  }

  /** One atomic step; an event that cannot happen leaves the client as it is. */
  function Step(cfg: ClientConfig, c: Client, ev: ClientEvent): (r: Client)
    requires c.queue.Valid()
    ensures r.queue.Valid()
  {
    if !Enabled(c, ev) then c
    else
      match ev
      case Send(bytes, env) => SendAll(cfg, c, bytes, env).0
      case Timeout(stamp) => c.(link := OnTimeout(c.link, stamp))
      case ConnectDone(ok, soError, stamp) => c.(link := OnConnected(c.link, ok, soError, stamp))
      case ReadReady(readable, allocOk, len, stamp) => c.(link := OnRead(c.link, readable, allocOk, len, stamp))
      case WriteReady(writable, len, stamp) => OnWrite(cfg, c, writable, len, stamp)
  }

  function Run(cfg: ClientConfig, c: Client, evs: seq<ClientEvent>): (r: Client)
    requires c.queue.Valid()
    ensures r.queue.Valid()
  {
    if evs == [] then c else Step(cfg, Run(cfg, c, evs[..|evs| - 1]), evs[|evs| - 1])
  }

  /** Some event of the run happened in a state where `p` holds of the two. */
  ghost predicate Happens(cfg: ClientConfig, c: Client, evs: seq<ClientEvent>, p: (Client, ClientEvent) -> bool)
    requires c.queue.Valid()
  {
    evs != [] &&
    (Happens(cfg, c, evs[..|evs| - 1], p) || p(Run(cfg, c, evs[..|evs| - 1]), evs[|evs| - 1]))
  }

  /** make_backend keeps a client only if its first tcpclient_connect returned 0. */
  ghost predicate Started(cfg: ClientConfig, c: Client) {
    exists e: ConnectEnv :: Connect(cfg, NEW_LINK, e).1 == 0 && c == NewClient().(link := Connect(cfg, NEW_LINK, e).0)
  }

  // ----- Watcher and socket discipline -----

  ghost predicate LinkInv(l: Link) {
    && !l.fault
    && l.state != Terminated
    && l.open == (if l.state == Connecting || l.state == Connected then {l.sd} else {})
    && l.sd < l.sockets
    && (l.state == Connecting || l.state == Connected ==> 0 <= l.sd && l.resolved)
    && (l.timer <==> l.connect.active)
    && (l.connect.active ==> l.state == Connecting && l.connect.started && l.connect.fd == l.sd)
    && (l.read.active <==> l.state == Connected)
    && (l.read.active ==> l.read.started)
    && (l.write.active ==> l.write.started && l.state == Connected)
    && (l.state == Connected ==> l.read.fd == l.sd && l.write.fd == l.sd)
  }

  ghost predicate ClientInv(cfg: ClientConfig, c: Client) {
    && c.queue.Valid()
    && LinkInv(c.link)
    && (c.link.state == Connected && c.queue.data != [] ==> c.link.write.active)
    && (c.failing ==> |c.queue.data| >= cfg.maxSendQueue)
  }

  lemma StartEstablishes(cfg: ClientConfig, c: Client)
    requires Started(cfg, c)
    ensures ClientInv(cfg, c) && c.link.state == Connecting && c.link.connect.active && c.link.resolved
    ensures c.queue == Fresh(DEFAULT_BUFFER_SIZE) && c.sent == []
  {
  }

  lemma ConnectPreserves(cfg: ClientConfig, l: Link, e: ConnectEnv)
    requires LinkInv(l)
    ensures LinkInv(Connect(cfg, l, e).0)
    ensures l.state == Connected <==> Connect(cfg, l, e).0.state == Connected
    ensures l.state == Connected ==> Connect(cfg, l, e).0 == l
  {
  }

  lemma SendPreserves(cfg: ClientConfig, c: Client, bytes: Bytes, e: SendEnv)
    requires ClientInv(cfg, c)
    ensures ClientInv(cfg, SendAll(cfg, c, bytes, e).0)
  {
    hide ExpandFor, Connect;
    ConnectPreserves(cfg, c.link, e.conn);
  }

  lemma StepPreserves(cfg: ClientConfig, c: Client, ev: ClientEvent)
    requires ClientInv(cfg, c)
    ensures ClientInv(cfg, Step(cfg, c, ev))
  {
    hide SendAll;
    if ev.Send? {
      SendPreserves(cfg, c, ev.bytes, ev.env);
    }
  }

  /**
   * In every reachable state: the socket is open exactly in CONNECTING and CONNECTED, and no
   * other socket is; the read watcher is active exactly in CONNECTED; the connect watcher and
   * the timer are active together and only in CONNECTING; an active watcher is flagged as
   * started and watches the current socket; a connected client with queued bytes is waiting
   * to write; no interface was misused on the way; a failing client's queue is full.
   */
  lemma {:induction false} RunPreserves(cfg: ClientConfig, c: Client, evs: seq<ClientEvent>)
    requires ClientInv(cfg, c)
    ensures ClientInv(cfg, Run(cfg, c, evs))
  {
    if evs != [] {
      RunPreserves(cfg, c, evs[..|evs| - 1]);
      StepPreserves(cfg, Run(cfg, c, evs[..|evs| - 1]), evs[|evs| - 1]);
    }
  }

  lemma NoLostWakeup(cfg: ClientConfig, c: Client, evs: seq<ClientEvent>)
    requires Started(cfg, c)
    ensures var r := Run(cfg, c, evs);
      r.link.state == Connected && r.queue.data != [] ==> r.link.write.active && r.link.write.fd == r.link.sd
  {
    StartEstablishes(cfg, c);
    RunPreserves(cfg, c, evs);
  }

  /** No socket is closed twice, leaked, or left open outside CONNECTING and CONNECTED. */
  lemma SocketDiscipline(cfg: ClientConfig, c: Client, evs: seq<ClientEvent>)
    requires Started(cfg, c)
    ensures var l := Run(cfg, c, evs).link;
      !l.fault && l.open == if l.state == Connecting || l.state == Connected then {l.sd} else {}
  {
    StartEstablishes(cfg, c);
    RunPreserves(cfg, c, evs);
  }

  // ----- Bytes in, bytes out -----

  /** The bytes of the sends that returned 0, in order. */
  function Accepted(cfg: ClientConfig, c: Client, evs: seq<ClientEvent>): Bytes
    requires c.queue.Valid()
  {
    if evs == [] then []
    else
      var before, ev := Run(cfg, c, evs[..|evs| - 1]), evs[|evs| - 1];
      Accepted(cfg, c, evs[..|evs| - 1]) +
      if ev.Send? && SendAll(cfg, before, ev.bytes, ev.env).1 == 0 then ev.bytes else []
  }

  /** A send appends exactly its bytes or nothing, and sends nothing. */
  lemma SendEffect(cfg: ClientConfig, c: Client, bytes: Bytes, e: SendEnv)
    requires c.queue.Valid()
    ensures var (r, rc) := SendAll(cfg, c, bytes, e);
      r.sent == c.sent && r.queue.data == if rc == 0 then c.queue.data + bytes else c.queue.data
  {
    hide ExpandFor, Connect;
  }

  /** A callback moves bytes from the front of the queue to the socket, and changes neither otherwise. */
  lemma CallbackEffect(cfg: ClientConfig, c: Client, ev: ClientEvent)
    requires c.queue.Valid() && !ev.Send?
    ensures var r := Step(cfg, c, ev); r.sent + r.queue.data == c.sent + c.queue.data
  {
    if ev.WriteReady? && Enabled(c, ev) && ev.writable && 0 < ev.len {
      assert c.queue.data[..ev.len] + c.queue.data[ev.len..] == c.queue.data;
    }
  }

  /** However the connection fails, reconnects and sends partially, bytes leave in the order accepted. */
  lemma {:induction false} ClientIsFifo(cfg: ClientConfig, c: Client, evs: seq<ClientEvent>)
    requires c.queue.Valid() && c.queue.data == [] && c.sent == []
    ensures var r := Run(cfg, c, evs); r.sent + r.queue.data == Accepted(cfg, c, evs)
  {
    if evs != [] {
      hide SendAll;
      ClientIsFifo(cfg, c, evs[..|evs| - 1]);
      var before, ev := Run(cfg, c, evs[..|evs| - 1]), evs[|evs| - 1];
      if ev.Send? {
        SendEffect(cfg, before, ev.bytes, ev.env);
      } else {
        CallbackEffect(cfg, before, ev);
      }
    }
  }

  // ----- Queue and memory bound -----

  function QueueBound(cfg: ClientConfig, L: nat): nat {
    if cfg.maxSendQueue == 0 then 0 else cfg.maxSendQueue - 1 + L
  }

  ghost predicate MemoryInv(cfg: ClientConfig, q: Buf, L: nat) {
    && q.Valid()
    && |q.data| <= QueueBound(cfg, L)
    && Doubled(65536, q.size)
    && (q.size == 65536 || q.size < 2 * (cfg.maxSendQueue + L))
  }

  lemma SendBound(cfg: ClientConfig, c: Client, bytes: Bytes, e: SendEnv, L: nat)
    requires MemoryInv(cfg, c.queue, L) && |bytes| <= L
    ensures MemoryInv(cfg, SendAll(cfg, c, bytes, e).0.queue, L)
  {
    hide Connect, Doubled;
    if c.queue.Space() < |bytes| {
      ExpandForBound(c.queue.Realign(), |bytes|, e.memLimit, DEFAULT_BUFFER_SIZE);
    }
  }

  /**
   * With sends of at most L bytes the queue never exceeds maxSendQueue - 1 + L bytes, and its
   * allocation is 65536 doubled some number of times, either 65536 or below 2 * (maxSendQueue + L).
   */
  lemma {:induction false} QueueStaysBounded(cfg: ClientConfig, c: Client, evs: seq<ClientEvent>, L: nat)
    requires Started(cfg, c)
    requires forall i :: 0 <= i < |evs| && evs[i].Send? ==> |evs[i].bytes| <= L
    ensures MemoryInv(cfg, Run(cfg, c, evs).queue, L)
  {
    if evs == [] {
      DoubledOnce(DEFAULT_BUFFER_SIZE);
    } else {
      hide SendAll;
      QueueStaysBounded(cfg, c, evs[..|evs| - 1], L);
      var before, ev := Run(cfg, c, evs[..|evs| - 1]), evs[|evs| - 1];
      if ev.Send? {
        SendBound(cfg, before, ev.bytes, ev.env, L);
      }
    }
  }

  // ----- Backoff and retry -----

  /** A send that finds the client disconnected and its backoff, if any, expired. */
  predicate RetryDue(c: Client, ev: ClientEvent) {
    ev.Send? && c.link.resolved &&
    (c.link.state == Init || (c.link.state == Backoff && ev.env.conn.now - c.link.lastError > RETRY_TIMEOUT))
  }

  /**
   * A disconnected client's connection and the bytes it has sent stay as they are, whatever else
   * happens and however full its queue, until a send arrives after the backoff: nothing else
   * creates a socket.
   */
  lemma {:induction false} QuietUntilRetry(cfg: ClientConfig, c: Client, evs: seq<ClientEvent>)
    requires ClientInv(cfg, c) && (c.link.state == Init || c.link.state == Backoff)
    requires !Happens(cfg, c, evs, RetryDue)
    ensures Run(cfg, c, evs).link == c.link && Run(cfg, c, evs).sent == c.sent
  {
    if evs != [] {
      hide ExpandFor;
      QuietUntilRetry(cfg, c, evs[..|evs| - 1]);
    }
  }

  lemma RetryStep(cfg: ClientConfig, c: Client, bytes: Bytes, e: SendEnv)
    requires ClientInv(cfg, c) && RetryDue(c, Send(bytes, e))
    ensures RetryResult(cfg, c, e.conn, SendAll(cfg, c, bytes, e).0.link)
  {
    hide ExpandFor;
  }

  /**
   * CONNECTING on a new socket, the only one open, with its watcher and timer active, if every
   * system call succeeded; otherwise a freshly stamped BACKOFF with nothing left behind.
   */
  ghost predicate RetryResult(cfg: ClientConfig, c: Client, e: ConnectEnv, l: Link) {
    if ((c.link.resolved && !cfg.alwaysResolveDns) || e.resolves) && e.socketOk && e.nonblockOk && e.connectOk
    then l.state == Connecting && l.connect.active && l.timer && l.sd == c.link.sockets && l.open == {l.sd}
    else l.state == Backoff && l.lastError == e.stamp && l.open == {} && !l.connect.active && !l.timer
  }

  /** However the client came to be disconnected, the first due send decides its state afresh. */
  lemma RetryOutcome(cfg: ClientConfig, c: Client, evs: seq<ClientEvent>, bytes: Bytes, e: SendEnv)
    requires Started(cfg, c)
    requires RetryDue(Run(cfg, c, evs), Send(bytes, e))
    ensures RetryResult(cfg, Run(cfg, c, evs), e.conn, Run(cfg, c, evs + [Send(bytes, e)]).link)
  {
    hide SendAll;
    StartEstablishes(cfg, c);
    RunPreserves(cfg, c, evs);
    RetryStep(cfg, Run(cfg, c, evs), bytes, e);
    assert (evs + [Send(bytes, e)])[..|evs|] == evs;
  }

  // ----- Name resolution -----

  /** A retry whose fresh lookup fails; only always_resolve_dns makes a retry look up again. */
  ghost function LookupFails(cfg: ClientConfig): (Client, ClientEvent) -> bool {
    (c: Client, ev: ClientEvent) => cfg.alwaysResolveDns && RetryDue(c, ev) && !ev.env.conn.resolves
  }

  lemma AddressStep(cfg: ClientConfig, c: Client, ev: ClientEvent)
    requires ClientInv(cfg, c)
    ensures !Step(cfg, c, ev).link.resolved <==> !c.link.resolved || LookupFails(cfg)(c, ev)
  {
    hide ExpandFor;
  }

  /**
   * The address is lost exactly when one re-resolve has failed. In particular it is never
   * lost with always_resolve_dns off, and with it on the loss is permanent.
   */
  lemma {:induction false} AddressLostIff(cfg: ClientConfig, c: Client, evs: seq<ClientEvent>)
    requires ClientInv(cfg, c) && c.link.resolved
    ensures !Run(cfg, c, evs).link.resolved <==> Happens(cfg, c, evs, LookupFails(cfg))
  {
    if evs != [] {
      hide Step, LookupFails, ClientInv;
      var before := Run(cfg, c, evs[..|evs| - 1]);
      AddressLostIff(cfg, c, evs[..|evs| - 1]);
      RunPreserves(cfg, c, evs[..|evs| - 1]);
      AddressStep(cfg, before, evs[|evs| - 1]);
    }
  }

  /** Without an address the client is dead: it never changes again and every send returns 1. */
  lemma {:induction false} AddressLostForever(cfg: ClientConfig, c: Client, evs: seq<ClientEvent>, bytes: Bytes, e: SendEnv)
    requires ClientInv(cfg, c) && !c.link.resolved
    ensures Run(cfg, c, evs) == c
    ensures SendAll(cfg, Run(cfg, c, evs), bytes, e) == (c, 1)
  {
    if evs != [] {
      AddressLostForever(cfg, c, evs[..|evs| - 1], bytes, e);
    }
  }

  // ----- A failing getsockopt -----

  /** CONNECTING with neither the connect watcher nor the timer active. */
  ghost predicate Wedged(c: Client) {
    c.link.state == Connecting && !c.link.connect.active && !c.link.timer
  }

  ghost predicate GetsockoptFails(c: Client, ev: ClientEvent) {
    ev.ConnectDone? && Enabled(c, ev) && !ev.getsockoptOk
  }

  lemma WedgedStep(cfg: ClientConfig, c: Client, ev: ClientEvent)
    requires ClientInv(cfg, c)
    ensures Wedged(Step(cfg, c, ev)) <==> Wedged(c) || GetsockoptFails(c, ev)
  {
    hide ExpandFor;
  }

  /**
   * CONNECTING implies active connect watcher and timer exactly when no getsockopt has failed.
   * After one such failure the client is stuck in CONNECTING for good and only queues.
   */
  lemma {:induction false} WedgedIff(cfg: ClientConfig, c: Client, evs: seq<ClientEvent>)
    requires ClientInv(cfg, c) && !Wedged(c)
    ensures Wedged(Run(cfg, c, evs)) <==> Happens(cfg, c, evs, GetsockoptFails)
  {
    if evs != [] {
      hide Step, GetsockoptFails, ClientInv, Wedged;
      var before := Run(cfg, c, evs[..|evs| - 1]);
      WedgedIff(cfg, c, evs[..|evs| - 1]);
      RunPreserves(cfg, c, evs[..|evs| - 1]);
      WedgedStep(cfg, before, evs[|evs| - 1]);
    }
  }

  /** In every other state something is still to come: a callback, or a send that reconnects. */
  lemma NeverIdleForGood(cfg: ClientConfig, c: Client, evs: seq<ClientEvent>, bytes: Bytes)
    requires Started(cfg, c)
    requires !Happens(cfg, c, evs, GetsockoptFails)
    requires !Happens(cfg, c, evs, LookupFails(cfg))
    ensures var r := Run(cfg, c, evs);
      match r.link.state
      case Connecting => r.link.connect.active && r.link.timer
      case Connected => r.link.read.active && (r.queue.data != [] ==> r.link.write.active)
      case Init => Run(cfg, c, evs + [Reconnect(r, bytes)]).link.state == Connecting
      case Backoff => Run(cfg, c, evs + [Reconnect(r, bytes)]).link.state == Connecting
      case Terminated => false
  {
    StartEstablishes(cfg, c);
    RunPreserves(cfg, c, evs);
    WedgedIff(cfg, c, evs);
    AddressLostIff(cfg, c, evs);
    var r := Run(cfg, c, evs);
    if r.link.state == Init || r.link.state == Backoff {
      hide SendAll;
      RetryOutcome(cfg, c, evs, bytes, Reconnect(r, bytes).env);
    }
  }

  // ----- Recovery -----

  /** A send after the backoff whose system calls all succeed. */
  function Reconnect(c: Client, bytes: Bytes): ClientEvent {
    Send(bytes, SendEnv(ConnectEnv(c.link.lastError + RETRY_TIMEOUT + 1, true, true, true, true, 0), 0))
  }

  /** Connected, with nothing left to send, and all that `c` had accepted has been sent first. */
  ghost predicate Delivered(c: Client, r: Client) {
    r.link.state == Connected && r.queue.data == [] && c.sent + c.queue.data <= r.sent
  }

  ghost predicate CanDeliver(cfg: ClientConfig, c: Client)
    requires c.queue.Valid()
  {
    exists more :: Delivered(c, Run(cfg, c, more))
  }

  lemma {:induction false} RunAppend(cfg: ClientConfig, c: Client, a: seq<ClientEvent>, b: seq<ClientEvent>)
    requires c.queue.Valid()
    ensures Run(cfg, c, a + b) == Run(cfg, Run(cfg, c, a), b)
  {
    hide Step;
    if b == [] {
      assert a + b == a;
    } else {
      RunAppend(cfg, c, a, b[..|b| - 1]);
      assert (a + b)[..|a + b| - 1] == a + b[..|b| - 1];
    }
  }

  lemma RunOne(cfg: ClientConfig, c: Client, ev: ClientEvent)
    requires c.queue.Valid()
    ensures Run(cfg, c, [ev]) == Step(cfg, c, ev)
  {
    hide Step;
    assert [ev][..0] == [];
    assert Run(cfg, c, []) == c;
  }

  lemma ConnectedDelivers(cfg: ClientConfig, c: Client) returns (more: seq<ClientEvent>)
    requires ClientInv(cfg, c) && c.link.state == Connected
    ensures Delivered(c, Run(cfg, c, more)) && forall k :: 0 <= k < |more| ==> !more[k].Send?
  {
    if c.queue.data == [] {
      more := [];
      assert c.sent + [] == c.sent;
    } else {
      var n := |c.queue.data|;
      more := [WriteReady(true, n, 0)];
      RunOne(cfg, c, more[0]);
      assert c.queue.data[..n] == c.queue.data && c.queue.data[n..] == [];
    }
  }

  lemma ConnectingDelivers(cfg: ClientConfig, c: Client) returns (more: seq<ClientEvent>)
    requires ClientInv(cfg, c) && c.link.state == Connecting && !Wedged(c)
    ensures Delivered(c, Run(cfg, c, more)) && forall k :: 0 <= k < |more| ==> !more[k].Send?
  {
    var ev := ConnectDone(true, false, 0);
    StepPreserves(cfg, c, ev);
    var r := Step(cfg, c, ev);
    assert r.link.state == Connected && r.queue == c.queue && r.sent == c.sent;
    hide Step, ClientInv, Wedged;
    RunOne(cfg, c, ev);
    var rest := ConnectedDelivers(cfg, r);
    RunAppend(cfg, c, [ev], rest);
    more := [ev] + rest;
  }

  /** From every state in which an address is left and no getsockopt has failed, one send is enough. */
  lemma RecoveryDelivers(cfg: ClientConfig, c: Client, bytes: Bytes) returns (more: seq<ClientEvent>)
    requires ClientInv(cfg, c) && c.link.resolved && !Wedged(c)
    ensures Delivered(c, Run(cfg, c, more))
    ensures forall k :: 0 <= k < |more| && more[k].Send? ==> k == 0 && more[k] == Reconnect(c, bytes)
  {
    if c.link.state == Connected {
      more := ConnectedDelivers(cfg, c);
    } else if c.link.state == Connecting {
      more := ConnectingDelivers(cfg, c);
    } else {
      hide SendAll;
      var ev := Reconnect(c, bytes);
      RetryStep(cfg, c, bytes, ev.env);
      SendEffect(cfg, c, bytes, ev.env);
      StepPreserves(cfg, c, ev);
      var r := Step(cfg, c, ev);
      RunOne(cfg, c, ev);
      var rest := ConnectingDelivers(cfg, r);
      RunAppend(cfg, c, [ev], rest);
      more := [ev] + rest;
    }
  }

  /**
   * After any run: some continuation brings the client to CONNECTED with an empty queue, having
   * delivered all it had accepted, exactly when no getsockopt and no re-resolve has failed.
   */
  lemma RecoversIff(cfg: ClientConfig, c: Client, evs: seq<ClientEvent>)
    requires Started(cfg, c)
    ensures CanDeliver(cfg, Run(cfg, c, evs)) <==>
      !Happens(cfg, c, evs, GetsockoptFails) && !Happens(cfg, c, evs, LookupFails(cfg))
  {
    hide Happens, Run;
    StartEstablishes(cfg, c);
    RunPreserves(cfg, c, evs);
    WedgedIff(cfg, c, evs);
    AddressLostIff(cfg, c, evs);
    var r := Run(cfg, c, evs);
    if r.link.resolved && !Wedged(r) {
      var more := RecoveryDelivers(cfg, r, []);
    }
    forall more | Delivered(r, Run(cfg, r, more)) ensures r.link.resolved && !Wedged(r) {
      if !r.link.resolved {
        AddressLostForever(cfg, r, more, [], Reconnect(r, []).env);
      }
      if Wedged(r) {
        StaysWedged(cfg, r, more);
      }
    }
  }

  lemma {:induction false} StaysWedged(cfg: ClientConfig, c: Client, evs: seq<ClientEvent>)
    requires ClientInv(cfg, c) && Wedged(c)
    ensures Wedged(Run(cfg, c, evs))
  {
    if evs != [] {
      hide Step, ClientInv, Wedged, GetsockoptFails;
      var before := Run(cfg, c, evs[..|evs| - 1]);
      StaysWedged(cfg, c, evs[..|evs| - 1]);
      RunPreserves(cfg, c, evs[..|evs| - 1]);
      WedgedStep(cfg, before, evs[|evs| - 1]);
    }
  }

  // ----- The two ways to be lost -----

  const ALL_GOOD := ConnectEnv(0, true, true, true, true, 0)

  /** The client of a backend whose first connect has begun. */
  function FirstClient(cfg: ClientConfig): Client {
    NewClient().(link := Connect(cfg, NEW_LINK, ALL_GOOD).0)
  }

  /** A connect timeout, and a due retry during which the name server does not answer. */
  lemma AddressLostExample(maxSendQueue: nat, bytes: Bytes)
    ensures var cfg := ClientConfig(maxSendQueue, true);
      var retry := Send(bytes, SendEnv(ALL_GOOD.(now := 2, resolves := false), 0));
      Started(cfg, FirstClient(cfg)) && !Run(cfg, FirstClient(cfg), [Timeout(0), retry]).link.resolved
  {
    var cfg := ClientConfig(maxSendQueue, true);
    var c := FirstClient(cfg);
    var retry := Send(bytes, SendEnv(ALL_GOOD.(now := 2, resolves := false), 0));
    var evs := [Timeout(0), retry];
    assert Started(cfg, c);
    RunOne(cfg, c, Timeout(0));
    assert evs[..1] == [Timeout(0)];
    hide ExpandFor;
  }

  /** One failing getsockopt. */
  lemma WedgedExample(cfg: ClientConfig)
    ensures Started(cfg, FirstClient(cfg)) && Wedged(Run(cfg, FirstClient(cfg), [ConnectDone(false, false, 0)]))
  {
    var c := FirstClient(cfg);
    assert Started(cfg, c);
    RunOne(cfg, c, ConnectDone(false, false, 0));
  }
}
