/**
 * The backend client (tcpclient.c): connection states, libev watchers, socket and send queue.
 * The functions say what each callback and tcpclient_sendall do to the state in one atomic
 * step; the class performs the steps in place.
 */
module TcpClients {
  import opened Bytes
  import opened Buffers

  const DEFAULT_BUFFER_SIZE: nat := 65536
  const RETRY_TIMEOUT: int := 1

  datatype ConnState = Init | Connecting | Backoff | Connected | Terminated

  /**
   * An io_watcher_t. `started` is the code's own flag, `active` is libev's, and `fd` is the
   * descriptor given to the last ev_io_init (-1 before the first).
   */
  datatype Watcher = Watcher(started: bool, active: bool, fd: int)

  datatype ClientConfig = ClientConfig(maxSendQueue: nat, alwaysResolveDns: bool)

  /**
   * The connection. `sd` numbers sockets in order of creation, so a descriptor number reused
   * by the kernel cannot hide a double close. `open` is the set of sockets not yet closed.
   * `fault` records a misuse of the system interfaces: closing a socket that is not open,
   * re-initialising or re-timing an active watcher, or starting or stopping a watcher that
   * was never initialised.
   */
  datatype Link = Link(
    state: ConnState, sd: int, resolved: bool, lastError: int,
    connect: Watcher, read: Watcher, write: Watcher, timer: bool,
    sockets: nat, open: set<int>, fault: bool)

  /** A client; `sent` is everything send() ever accepted from its queue. */
  datatype Client = Client(link: Link, queue: Buf, failing: bool, sent: Bytes)

  /** What the system calls of one tcpclient_connect answer; the clock is read at most twice. */
  datatype ConnectEnv = ConnectEnv(now: int, resolves: bool, socketOk: bool, nonblockOk: bool, connectOk: bool, stamp: int)

  /** ... and of one tcpclient_sendall, where malloc provides at most `memLimit` bytes. */
  datatype SendEnv = SendEnv(conn: ConnectEnv, memLimit: nat)

  // ----- Primitive effects -----

  const IDLE := Watcher(false, false, -1)

  const NEW_LINK := Link(Init, -1, false, 0, IDLE, IDLE, IDLE, false, 0, {}, false)

  function NewClient(): Client {
    Client(NEW_LINK, Fresh(DEFAULT_BUFFER_SIZE), false, [])
  }

  /** close(client->sd). */
  function Close(l: Link): Link {
    l.(open := l.open - {l.sd}, fault := l.fault || l.sd !in l.open)
  }

  /** The last_error and BACKOFF assignments that end every failure but one. */
  function BackOff(l: Link, stamp: int): Link {
    l.(lastError := stamp, state := Backoff)
  }

  /** ev_io_stop. */
  function Stopped(w: Watcher): Watcher { w.(active := false) }

  /** started = true; ev_io_init; ev_io_start. */
  function Armed(fd: int): Watcher { Watcher(true, true, fd) }

  // ----- tcpclient_connect -----

  /** With always_resolve_dns the old address is freed first, so a failure leaves none. */
  function Resolve(cfg: ClientConfig, l: Link, resolves: bool): Link {
    l.(resolved := (l.resolved && !cfg.alwaysResolveDns) || resolves)
  }

  /** client->sd = socket(...). */
  function OpenSocket(l: Link): Link {
    l.(sd := l.sockets, sockets := l.sockets + 1, open := l.open + {l.sockets})
  }

  /** Start waiting for the connection, and for its timeout. */
  function AwaitConnect(l: Link): Link {
    l.(connect := Armed(l.sd), timer := true, fault := l.fault || l.connect.active || l.timer)
  }

  function StopAwaiting(l: Link): Link {
    l.(timer := false, connect := Stopped(l.connect))
  }

  function ConnectFromInit(cfg: ClientConfig, l: Link, e: ConnectEnv): (Link, nat) {
    var l1 := Resolve(cfg, l, e.resolves);
    if !l1.resolved then (BackOff(l1, e.stamp), 3)
    else if !e.socketOk then (BackOff(l1, e.stamp), 4)
    else
      var l2 := OpenSocket(l1);
      if !e.nonblockOk then (Close(BackOff(l2, e.stamp)), 5)
      else
        var l3 := AwaitConnect(l2);
        if !e.connectOk then (Close(StopAwaiting(BackOff(l3, e.stamp))), 6)
        else (l3.(state := Connecting), 0)
  }

  function Connect(cfg: ClientConfig, l: Link, e: ConnectEnv): (Link, nat) {
    match l.state
    case Connected | Connecting => (l, 1)
    case Backoff => if e.now - l.lastError > RETRY_TIMEOUT then ConnectFromInit(cfg, l.(state := Init), e) else (l, 2)
    case Init => ConnectFromInit(cfg, l, e)
    case Terminated => (l, 7)
  }

  // ----- tcpclient_sendall -----

  /** Make room for `len` more bytes: realign if there is too little, then double. */
  function MakeRoom(q: Buf, len: nat, memLimit: nat): (r: (Buf, bool))
    requires q.Valid()
    ensures r.0.Valid() && r.0.data == q.data
    ensures r.1 <==> len <= r.0.Space()
  {
    ExpandFor(if q.Space() < len then q.Realign() else q, len, memLimit)
  }

  /** write_watcher.started = true; ev_io_start, when CONNECTED. */
  function WakeWriter(l: Link): Link {
    if l.state != Connected then l
    else l.(write := l.write.(started := true, active := true), fault := l.fault || l.write.fd == -1)
  }

  function Enqueue(c: Client, bytes: Bytes, memLimit: nat): (Client, nat)
    requires c.queue.Valid()
  {
    var (q, ok) := MakeRoom(c.queue, |bytes|, memLimit);
    if !ok then (c.(queue := q), 4)
    else (c.(queue := q.Produce(bytes), link := WakeWriter(c.link)), 0)
  }

  function SendAll(cfg: ClientConfig, c: Client, bytes: Bytes, e: SendEnv): (Client, nat)
    requires c.queue.Valid()
  {
    if !c.link.resolved then (c, 1)
    else
      var c1 := c.(link := Connect(cfg, c.link, e.conn).0);
      if |c1.queue.data| >= cfg.maxSendQueue then (c1.(failing := true), 2)
      else Enqueue(c1, bytes, e.memLimit)
  }

  // ----- The libev callbacks -----

  function OnTimeout(l: Link, stamp: int): Link {
    var l1 := l.(timer := false);
    var l2 := if l1.connect.started then l1.(connect := l1.connect.(active := false, started := false)) else l1;
    BackOff(Close(l2), stamp)
  }

  /** `soError` is (events & EV_ERROR) || err. */
  function OnConnected(l: Link, getsockoptOk: bool, soError: bool, stamp: int): Link {
    var l1 := StopAwaiting(l);
    if !getsockoptOk then l1
    else if soError then BackOff(Close(l1), stamp)
    else l1.(state := Connected, read := Armed(l1.sd), write := Armed(l1.sd),
             fault := l1.fault || l1.read.active || l1.write.active)
  }

  /** ev_io_stop on both watchers, whatever their flags say. */
  function StopBoth(l: Link): Link {
    l.(read := Stopped(l.read), write := Stopped(l.write),
       fault := l.fault || l.read.fd == -1 || l.write.fd == -1)
  }

  /** Stop a watcher, and clear its flag, if the flag is set. */
  function StopIfStarted(w: Watcher): Watcher {
    if w.started then w.(active := false, started := false) else w
  }

  function OnRead(l: Link, readable: bool, allocOk: bool, len: int, stamp: int): Link {
    if !readable || !allocOk then l
    else if len < 0 then
      BackOff(Close(l.(read := StopIfStarted(l.read), write := StopIfStarted(l.write))), stamp)
    else if len == 0 then
      Close(StopBoth(l)).(state := Init, lastError := stamp)
    else l
  }

  /** ev_io_stop on the write watcher; started = false. */
  function StopWriter(l: Link): Link {
    l.(write := l.write.(active := false, started := false), fault := l.fault || l.write.fd == -1)
  }

  /** The bytes handed to callback_sent by a write event. */
  function Transmitted(c: Client, writable: bool, len: int): nat {
    if writable && c.queue.data != [] && 0 < len then len else 0
  }

  function OnWrite(cfg: ClientConfig, c: Client, writable: bool, len: int, stamp: int): Client
    requires len <= |c.queue.data|
  {
    if !writable then c
    else if c.queue.data == [] then c.(link := StopWriter(c.link))
    else if len < 0 then c.(link := Close(BackOff(StopBoth(c.link), stamp)))
    else
      var q := c.queue.Consume(len);
      Client(if q.data == [] then StopWriter(c.link) else c.link, q,
             c.failing && |q.data| >= cfg.maxSendQueue, c.sent + c.queue.data[..len])
  }

  // ----- The client, updated in place -----

  class TcpClient {
    var state: ConnState
    var sd: int
    var resolved: bool
    var lastError: int
    var failing: bool
    var connectWatcher: Watcher
    var readWatcher: Watcher
    var writeWatcher: Watcher
    var timerActive: bool
    const sendQueue: Buffer
    const config: ClientConfig

    var sockets: nat  // stands for socket(): the next descriptor
    ghost var open: set<int>
    ghost var fault: bool
    ghost var sent: Bytes

    ghost predicate Valid()
      reads sendQueue
    {
      sendQueue.Valid()
    }

    ghost function Repr(): set<object>
      reads sendQueue
    {
      {this, sendQueue, sendQueue.ptr}
    }

    ghost function LinkModel(): Link
      reads this
    {
      Link(state, sd, resolved, lastError, connectWatcher, readWatcher, writeWatcher, timerActive, sockets, open, fault)
    }

    ghost function Model(): (c: Client)
      requires Valid()
      reads this, sendQueue, sendQueue.ptr
      ensures c.queue.Valid()
    {
      Client(LinkModel(), sendQueue.Model(), failing, sent)
    }

    /** tcpclient_init. */
    constructor (config: ClientConfig)
      ensures Valid() && fresh(Repr()) && this.config == config
      ensures Model() == NewClient()
    {
      state, sd, resolved, lastError, failing := Init, -1, false, 0, false;
      connectWatcher, readWatcher, writeWatcher, timerActive := IDLE, IDLE, IDLE, false;
      this.config := config;
      var queue := new Buffer(INITIAL_BUFFER_SIZE);
      var ok := queue.NewSize(DEFAULT_BUFFER_SIZE, DEFAULT_BUFFER_SIZE);
      sendQueue := queue;
      sockets, open, sent, fault := 0, {}, [], false;
    }

    method CloseSocket()
      modifies `open, `fault
      ensures LinkModel() == Close(old(LinkModel()))
    {
      fault := fault || sd !in open;
      open := open - {sd};
    }

    method BackOffAt(stamp: int)
      modifies `lastError, `state
      ensures LinkModel() == BackOff(old(LinkModel()), stamp)
    {
      lastError := stamp;
      state := Backoff;
    }

    /** tcpclient_connect_timeout. */
    method ConnectTimeout(stamp: int)
      modifies `timerActive, `connectWatcher, `open, `fault, `lastError, `state
      ensures LinkModel() == OnTimeout(old(LinkModel()), stamp)
    {
      timerActive := false;
      if connectWatcher.started {
        connectWatcher := connectWatcher.(active := false);
        connectWatcher := connectWatcher.(started := false);
      }
      CloseSocket();
      BackOffAt(stamp);
    }

    /** tcpclient_connected. */
    method ConnectedEvent(getsockoptOk: bool, soError: bool, stamp: int)
      modifies `timerActive, `connectWatcher, `readWatcher, `writeWatcher, `open, `fault, `lastError, `state
      ensures LinkModel() == OnConnected(old(LinkModel()), getsockoptOk, soError, stamp)
    {
      StopConnectWatchers();
      if !getsockoptOk {
        return;
      }
      if soError {
        CloseSocket();
        BackOffAt(stamp);
        return;
      }
      state := Connected;
      fault := fault || readWatcher.active || writeWatcher.active;
      readWatcher := readWatcher.(started := true);
      readWatcher := readWatcher.(fd := sd, active := true);
      writeWatcher := writeWatcher.(started := true);
      writeWatcher := writeWatcher.(fd := sd, active := true);
    }

    /** tcpclient_read_event; recv returned `len`, and the default callback frees the bytes. */
    method ReadEvent(readable: bool, allocOk: bool, len: int, stamp: int)
      modifies `readWatcher, `writeWatcher, `open, `fault, `lastError, `state
      ensures LinkModel() == OnRead(old(LinkModel()), readable, allocOk, len, stamp)
    {
      if !readable || !allocOk {
        return;
      }
      if len < 0 {
        if readWatcher.started {
          readWatcher := readWatcher.(active := false);
          readWatcher := readWatcher.(started := false);
        }
        if writeWatcher.started {
          writeWatcher := writeWatcher.(active := false);
          writeWatcher := writeWatcher.(started := false);
        }
        CloseSocket();
        BackOffAt(stamp);
        return;
      }
      if len == 0 {
        fault := fault || readWatcher.fd == -1 || writeWatcher.fd == -1;
        readWatcher := readWatcher.(active := false);
        writeWatcher := writeWatcher.(active := false);
        CloseSocket();
        state := Init;
        lastError := stamp;
      }
    }

    method StopWriteWatcher()
      modifies `writeWatcher, `fault
      ensures LinkModel() == StopWriter(old(LinkModel()))
    {
      fault := fault || writeWatcher.fd == -1;
      writeWatcher := writeWatcher.(active := false);
      writeWatcher := writeWatcher.(started := false);
    }

    method SendFailed(stamp: int)
      modifies `readWatcher, `writeWatcher, `open, `fault, `lastError, `state
      ensures LinkModel() == Close(BackOff(StopBoth(old(LinkModel())), stamp))
    {
      fault := fault || readWatcher.fd == -1 || writeWatcher.fd == -1;
      writeWatcher := writeWatcher.(active := false);
      readWatcher := readWatcher.(active := false);
      BackOffAt(stamp);
      CloseSocket();
    }

    /** `len` bytes are gone from the queue. */
    method SendSucceeded(len: nat)
      requires Valid() && len <= |Model().queue.data|
      modifies this, sendQueue
      ensures Valid() && sendQueue.ptr == old(sendQueue.ptr)
      ensures var was := old(Model()); var q := was.queue.Consume(len);
        Model() == Client(if q.data == [] then StopWriter(was.link) else was.link, q,
                          was.failing && |q.data| >= config.maxSendQueue, was.sent + was.queue.data[..len])
    {
      sent := sent + sendQueue.Model().data[..len];
      var ok := sendQueue.Consume(len);
      if !ok {
        return;
      }
      var qsize := sendQueue.DataCount();
      if failing && qsize < config.maxSendQueue {
        failing := false;
      }
      if qsize == 0 {
        StopWriteWatcher();
      }
    }

    /** tcpclient_write_event; send returned `len`, and `transmitted` is what callback_sent is told. */
    method WriteEvent(writable: bool, len: int, stamp: int) returns (transmitted: nat)
      requires Valid() && len <= |Model().queue.data|
      modifies this, sendQueue
      ensures Valid() && sendQueue.ptr == old(sendQueue.ptr)
      ensures Model() == OnWrite(config, old(Model()), writable, len, stamp)
      ensures transmitted == Transmitted(old(Model()), writable, len)
    {
      transmitted := 0;
      if !writable {
        return;
      }
      var bufLen := sendQueue.DataCount();
      if bufLen > 0 {
        if len < 0 {
          SendFailed(stamp);
        } else {
          transmitted := len;
          SendSucceeded(len);
        }
      } else {
        StopWriteWatcher();
      }
    }

    /** Drop the address if it must be looked up again, and look it up if there is none. */
    method ResolveAddress(resolves: bool)
      modifies `resolved
      ensures LinkModel() == Resolve(config, old(LinkModel()), resolves)
    {
      if config.alwaysResolveDns && resolved {
        resolved := false;
      }
      if !resolved {
        resolved := resolves;
      }
    }

    method CreateSocket()
      modifies `sd, `sockets, `open
      ensures LinkModel() == OpenSocket(old(LinkModel()))
    {
      sd, sockets, open := sockets, sockets + 1, open + {sockets};
    }

    method StartConnectWatchers()
      modifies `connectWatcher, `timerActive, `fault
      ensures LinkModel() == AwaitConnect(old(LinkModel()))
    {
      fault := fault || connectWatcher.active || timerActive;
      connectWatcher := connectWatcher.(started := true);
      connectWatcher := connectWatcher.(fd := sd, active := true);
      timerActive := true;
    }

    method StopConnectWatchers()
      modifies `connectWatcher, `timerActive
      ensures LinkModel() == StopAwaiting(old(LinkModel()))
    {
      timerActive := false;
      connectWatcher := connectWatcher.(active := false);
    }

    /** The STATE_INIT part of tcpclient_connect. */
    method ConnectInInit(e: ConnectEnv) returns (rc: nat)
      requires state == Init
      modifies `sd, `resolved, `sockets, `connectWatcher, `timerActive, `open, `fault, `lastError, `state
      ensures (LinkModel(), rc) == ConnectFromInit(config, old(LinkModel()), e)
    {
      ResolveAddress(e.resolves);
      if !resolved {
        BackOffAt(e.stamp);
        return 3;
      }
      if !e.socketOk {
        BackOffAt(e.stamp);
        return 4;
      }
      CreateSocket();
      if !e.nonblockOk {
        BackOffAt(e.stamp);
        CloseSocket();
        return 5;
      }
      StartConnectWatchers();
      if !e.connectOk {
        BackOffAt(e.stamp);
        StopConnectWatchers();
        CloseSocket();
        return 6;
      }
      state := Connecting;
      return 0;
    }

    /** tcpclient_connect; the recursive call after an expired backoff is always in INIT. */
    method TryConnect(e: ConnectEnv) returns (rc: nat)
      modifies `sd, `resolved, `sockets, `connectWatcher, `timerActive, `open, `fault, `lastError, `state
      ensures (LinkModel(), rc) == Connect(config, old(LinkModel()), e)
      decreases state == Backoff
    {
      if state == Connected || state == Connecting {
        return 1;
      }
      if state == Backoff {
        if e.now - lastError > RETRY_TIMEOUT {
          state := Init;
          rc := TryConnect(e);
          return;
        } else {
          return 2;
        }
      }
      if state == Init {
        rc := ConnectInInit(e);
        return;
      }
      return 7;
    }

    method StartWriteWatcher()
      modifies `writeWatcher, `fault
      ensures LinkModel() == WakeWriter(old(LinkModel()))
    {
      if state == Connected {
        fault := fault || writeWatcher.fd == -1;
        writeWatcher := writeWatcher.(started := true);
        writeWatcher := writeWatcher.(active := true);
      }
    }

    /** Realign and expand until `len` bytes fit; false when malloc gives up. */
    method ReserveSpace(len: nat, memLimit: nat) returns (ok: bool)
      requires Valid()
      modifies sendQueue, sendQueue.ptr
      ensures Valid() && (sendQueue.ptr == old(sendQueue.ptr) || fresh(sendQueue.ptr))
      ensures (sendQueue.Model(), ok) == MakeRoom(old(sendQueue.Model()), len, memLimit)
    {
      var space := sendQueue.SpaceCount();
      if space < len {
        sendQueue.Realign();
      }
      ghost var target := ExpandFor(sendQueue.Model(), len, memLimit);
      space := sendQueue.SpaceCount();
      while space < len
        invariant Valid() && (sendQueue.ptr == old(sendQueue.ptr) || fresh(sendQueue.ptr))
        invariant space == sendQueue.Model().Space()
        invariant ExpandFor(sendQueue.Model(), len, memLimit) == target
        decreases len - space
      {
        ok := sendQueue.Expand(memLimit);
        if !ok {
          return;
        }
        space := sendQueue.SpaceCount();
      }
      ok := true;
    }

    /** The memcpy, buffer_produced and wake-up that end tcpclient_sendall. */
    method Append(bytes: Bytes, memLimit: nat) returns (rc: nat)
      requires Valid()
      modifies `writeWatcher, `fault, sendQueue, sendQueue.ptr
      ensures Valid() && (sendQueue.ptr == old(sendQueue.ptr) || fresh(sendQueue.ptr))
      ensures (Model(), rc) == Enqueue(old(Model()), bytes, memLimit)
    {
      hide MakeRoom;
      var ok := ReserveSpace(|bytes|, memLimit);
      if !ok {
        return 4;
      }
      sendQueue.Fill(bytes);
      ok := sendQueue.Produced(|bytes|);
      StartWriteWatcher();
      return 0;
    }

    /** tcpclient_sendall. */
    method Send(bytes: Bytes, e: SendEnv) returns (rc: nat)
      requires Valid()
      modifies this, sendQueue, sendQueue.ptr
      ensures Valid() && (sendQueue.ptr == old(sendQueue.ptr) || fresh(sendQueue.ptr))
      ensures (Model(), rc) == SendAll(config, old(Model()), bytes, e)
    {
      hide Connect, Enqueue;
      if !resolved {
        return 1;
      }
      var connected := TryConnect(e.conn);
      var queued := sendQueue.DataCount();
      if queued >= config.maxSendQueue {
        if !failing {
          failing := true;
        }
        return 2;
      }
      rc := Append(bytes, e.memLimit);
    }
  }
}
