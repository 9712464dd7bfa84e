/** stats.c in place: backends, server and sessions as mutable objects. */
module Stats {
  import opened Bytes
  import opened Buffers
  import opened TcpClients
  import opened ClientRuns
  import opened Validate
  import opened HashRings
  import opened Endpoints
  import opened Relay
  import opened Framing
  import opened Sessions

  class StatsBackend {
    const key: string
    const client: TcpClient
    var bytesQueued: nat
    var bytesSent: nat
    var relayedLines: nat
    var droppedLines: nat
    var failing: bool

    ghost predicate Valid(config: ClientConfig)
      reads client.sendQueue
    {
      client.Valid() && client.config == config
    }

    ghost function Repr(): set<object>
      reads client.sendQueue
    {
      {this, client, client.sendQueue, client.sendQueue.ptr}
    }

    ghost function Model(config: ClientConfig): (b: Backend)
      requires Valid(config)
      reads this, client, client.sendQueue, client.sendQueue.ptr
      ensures b.client.queue.Valid()
    {
      Backend(key, client.Model(), bytesQueued, bytesSent, relayedLines, droppedLines, failing)
    }

    /** The object and its abstract state agree. */
    ghost predicate Agrees(config: ClientConfig, m: Backend)
      reads this, client, client.sendQueue, client.sendQueue.ptr
    {
      Valid(config) && Model(config) == m
    }

    ghost predicate OwnedBy(R: set<object>)
      reads R
    {
      client.sendQueue in R && Repr() <= R
    }

    ghost predicate Apart(other: StatsBackend)
      reads client.sendQueue, other.client.sendQueue
    {
      Repr() !! other.Repr()
    }

    constructor (key: string, client: TcpClient)
      requires client.Valid()
      ensures this.key == key && this.client == client && Valid(client.config)
      ensures Model(client.config) == Backend(key, client.Model(), 0, 0, 0, 0, false)
    {
      this.key, this.client := key, client;
      bytesQueued, bytesSent, relayedLines, droppedLines, failing := 0, 0, 0, 0, false;
    }

    /** The part of stats_relay_line that follows the choice of this backend. */
    method SendLine(line: Bytes, e: SendEnv) returns (rc: nat)
      requires Valid(client.config)
      modifies Repr()
      ensures Valid(client.config) && fresh(Repr() - old(Repr()))
      ensures (Model(client.config), rc) == SendTo(client.config, old(Model(client.config)), line, e)
    {
      hide SendAll;
      var sent := client.Send(line + [NEWLINE], e);
      if sent != 0 {
        droppedLines := droppedLines + 1;
        if !failing {
          failing := true;
        }
        return 2;
      } else {
        failing := false;
      }
      bytesQueued := bytesQueued + |line| + 1;
      relayedLines := relayedLines + 1;
      return 0;
    }

    /** A write event, with stats_sent as the client's callback. */
    method WriteReady(writable: bool, len: int, stamp: int)
      requires Valid(client.config) && len <= |Model(client.config).client.queue.data|
      modifies Repr()
      ensures Valid(client.config) && Repr() == old(Repr())
      ensures Model(client.config) == old(Model(client.config)).(
        client := OnWrite(client.config, old(client.Model()), writable, len, stamp),
        bytesSent := old(bytesSent) + Transmitted(old(client.Model()), writable, len))
    {
      hide OnWrite;
      var transmitted := client.WriteEvent(writable, len, stamp);
      bytesSent := bytesSent + transmitted;
    }
  }

  /** The libev callback of the event. */
  method Deliver(b: StatsBackend, ev: ClientEvent)
    requires b.Valid(b.client.config) && !ev.Send? && Enabled(b.client.Model(), ev)
    modifies b.Repr()
    ensures b.Valid(b.client.config) && b.Repr() == old(b.Repr())
    ensures b.Model(b.client.config) == old(b.Model(b.client.config)).(
      client := Step(b.client.config, old(b.client.Model()), ev),
      bytesSent := old(b.bytesSent) + if ev.WriteReady? then Transmitted(old(b.client.Model()), ev.writable, ev.len) else 0)
  {
    hide OnWrite, OnTimeout, OnConnected, OnRead;
    match ev
    case Timeout(stamp) => b.client.ConnectTimeout(stamp);
    case ConnectDone(ok, soError, stamp) => b.client.ConnectedEvent(ok, soError, stamp);
    case ReadReady(readable, allocOk, len, stamp) => b.client.ReadEvent(readable, allocOk, len, stamp);
    case WriteReady(writable, len, stamp) => b.WriteReady(writable, len, stamp);
  }

  class StatsServer {
    const config: ServerConfig
    var backendList: seq<StatsBackend>
    var ring: seq<StatsBackend>
    var malformedLines: nat
    var bytesRecvTcp: nat
    var bytesRecvUdp: nat
    var totalConnections: nat
    var sends: nat  // picks the outside world's answers to the next tcpclient_sendall
    ghost var model: Server
    ghost var Repr: set<object>

    /** The scalar fields follow the abstract state. */
    ghost predicate Counts()
      reads this
    {
      && model.config == config && model.malformed == malformedLines && model.sends == sends
      && model.bytesTcp == bytesRecvTcp && model.bytesUdp == bytesRecvUdp && model.connections == totalConnections
    }

    ghost predicate Valid()
      reads this, Repr
      ensures Valid() ==> this in Repr && model.WellFormed() && model.config == config
      ensures Valid() ==> |backendList| == |model.backends| && |ring| == |model.ring|
    {
      && this in Repr
      && model.WellFormed() && Counts()
      && |model.backends| == |backendList| && |model.ring| == |ring|
      && (forall k :: 0 <= k < |ring| ==> ring[k] == backendList[model.ring[k]])
      && (forall i :: 0 <= i < |backendList| ==>
            backendList[i].OwnedBy(Repr) && backendList[i].Agrees(config.client, model.backends[i]))
      && (forall i, j :: 0 <= i < j < |backendList| ==> backendList[i].Apart(backendList[j]))
    }

    constructor (config: ServerConfig)
      ensures Valid() && fresh(Repr) && this.config == config
      ensures model == Server(config, [], [], 0, 0, 0, 0, 0, [])
    {
      this.config := config;
      backendList, ring := [], [];
      malformedLines, bytesRecvTcp, bytesRecvUdp, totalConnections, sends := 0, 0, 0, 0, 0;
      model := Server(config, [], [], 0, 0, 0, 0, 0, []);
      Repr := {this};
    }

    method FindBackend(key: string) returns (i: nat)
      requires Valid()
      ensures i == Find(model.backends, key)
    {
      i := 0;
      while i < |backendList|
        invariant i <= |backendList|
        invariant forall j :: 0 <= j < i ==> model.backends[j].key != key
      {
        assert backendList[i].Agrees(config.client, model.backends[i]);
        if backendList[i].key == key {
          break;
        }
        i := i + 1;
      }
      FindUnique(model.backends, key, i);
    }

    /** If there is a validator, it is the method of validate.c that belongs to the protocol. */
    method RunValidator(numeric: Numeric, line: Bytes) returns (ok: bool)
      requires LineDefined(numeric, config, line)
      ensures ok == (!config.validate || Accepts(numeric, config.proto, line))
    {
      if !config.validate {
        return true;
      }
      var rc;
      if config.proto == Statsd {
        StatsdExact(numeric, line);
        rc := ValidateStatsd(numeric, line);
      } else {
        CarbonExact(line);
        rc := ValidateCarbon(line);
      }
      ok := rc == 0;
    }

    /** A line that reaches no backend. */
    method Refuse(malformed: bool, ghost entry: Entry)
      requires Valid()
      modifies this
      ensures Valid() && Repr == old(Repr) && backendList == old(backendList) && ring == old(ring)
      ensures model == old(model).(malformed := old(model).malformed + if malformed then 1 else 0, log := old(model).log + [entry])
    {
      if malformed {
        malformedLines := malformedLines + 1;
      }
      model := model.(malformed := malformedLines, log := model.log + [entry]);
      Unmoved();
    }

    /** A change to the server's own fields moves no backend. */
    twostate lemma Unmoved()
      requires old(Valid()) && Repr == old(Repr) && backendList == old(backendList)
      requires forall o :: o in Repr && o != this ==> unchanged(o)
      ensures forall i :: 0 <= i < |backendList| ==>
        backendList[i].OwnedBy(Repr) && backendList[i].Agrees(config.client, old(model).backends[i])
      ensures forall i, j :: 0 <= i < j < |backendList| ==> backendList[i].Apart(backendList[j])
    {
      forall i | 0 <= i < |backendList|
        ensures backendList[i].OwnedBy(Repr) && backendList[i].Agrees(config.client, old(model).backends[i])
      {
        assert old(backendList[i].OwnedBy(Repr) && backendList[i].Agrees(config.client, model.backends[i]));
      }
      forall i, j | 0 <= i < j < |backendList| ensures backendList[i].Apart(backendList[j]) {
        assert old(backendList[i].Apart(backendList[j]) && backendList[i].OwnedBy(Repr) && backendList[j].OwnedBy(Repr));
      }
    }

    /** Two ring entries are one object exactly when they are one backend. */
    lemma SameObjectIff()
      requires Valid()
      ensures forall i, j :: 0 <= i < |ring| && 0 <= j < |ring| ==> (ring[i] == ring[j] <==> model.ring[i] == model.ring[j])
    {
      forall i, j | 0 <= i < |ring| && 0 <= j < |ring| && model.ring[i] != model.ring[j] ensures ring[i] != ring[j] {
        var a, b := model.ring[i], model.ring[j];
        assert if a < b then backendList[a].Apart(backendList[b]) else backendList[b].Apart(backendList[a]);
      }
    }

    /** What validity says of one backend. */
    lemma BackendFacts(i: nat)
      requires Valid() && i < |backendList|
      ensures Counts() && backendList[i].OwnedBy(Repr) && backendList[i].Agrees(config.client, model.backends[i])
      ensures forall j :: 0 <= j < |backendList| && j != i ==> backendList[j].Apart(backendList[i])
    {
      forall j | 0 <= j < |backendList| && j != i ensures backendList[j].Apart(backendList[i]) {
        assert j > i ==> backendList[i].Apart(backendList[j]);
      }
    }

    lemma RingEntry(k: nat)
      requires Valid() && k < |ring|
      ensures model.ring[k] < |backendList| && ring[k] == backendList[model.ring[k]]
    {}

    /** Hand the line to one backend; the others, being disjoint, do not notice. */
    method SendOn(w: World, b: StatsBackend, ghost i: nat, ghost src: Source, line: Bytes) returns (rc: nat)
      requires Valid() && i < |backendList| && backendList[i] == b
      modifies Repr
      ensures Valid() && fresh(Repr - old(Repr))
      ensures backendList == old(backendList) && ring == old(ring)
      ensures var (b', rc') := SendTo(config.client, old(model).backends[i], line, w.send(old(model).sends));
        rc == rc' && model == old(model).(sends := old(model).sends + 1, backends := old(model).backends[i := b'],
                                          log := old(model).log + [Entry(src, line, To(i), rc == 0)])
    {
      hide SendTo, StatsServer.Valid;
      BackendFacts(i);
      ghost var (after, code) := SendTo(config.client, model.backends[i], line, w.send(sends));
      ghost var m := model.(sends := sends + 1, backends := model.backends[i := after],
        log := model.log + [Entry(src, line, To(i), code == 0)]);
      assert m.WellFormed();
      rc := b.SendLine(line, w.send(sends));
      Repr, sends, model := Repr + b.Repr(), sends + 1, m;
      Settled(i);
    }

    /** A change confined to one backend, and to the server's own fields, moves no other backend. */
    twostate lemma OthersUnmoved(i: nat)
      requires old(Valid()) && i < |backendList| && backendList == old(backendList)
      requires forall j :: 0 <= j < |backendList| && j != i ==> old(backendList[j].Apart(backendList[i]))
      requires forall o :: o in old(Repr) - old(backendList[i].Repr()) - {this} ==> unchanged(o)
      requires fresh(backendList[i].Repr() - old(backendList[i].Repr()))
      requires Repr == old(Repr) + backendList[i].Repr()
      ensures forall j :: 0 <= j < |backendList| && j != i ==>
        backendList[j].OwnedBy(Repr) && backendList[j].Agrees(config.client, old(model).backends[j])
      ensures forall j, k :: 0 <= j < k < |backendList| ==> backendList[j].Apart(backendList[k])
    {
      forall j | 0 <= j < |backendList| && j != i
        ensures backendList[j].OwnedBy(Repr) && backendList[j].Agrees(config.client, old(model).backends[j])
        ensures backendList[j].Repr() == old(backendList[j].Repr())
      {
        var c := backendList[j];
        assert old(c.OwnedBy(Repr) && c.Agrees(config.client, model.backends[j]) && c.Apart(backendList[i]));
        assert forall o :: o in old(c.Repr()) ==> o in old(Repr) - old(backendList[i].Repr()) - {this};
        assert unchanged(c) && unchanged(c.client) && unchanged(c.client.sendQueue) && unchanged(c.client.sendQueue.ptr);
      }
      forall j, k | 0 <= j < k < |backendList| ensures backendList[j].Apart(backendList[k]) {
        assert old(backendList[j].Apart(backendList[k]) && backendList[j].OwnedBy(Repr) && backendList[k].OwnedBy(Repr));
      }
    }

    /** After such a change the server is valid again if the one backend and the fields agree with the model. */
    twostate lemma Settled(i: nat)
      requires old(Valid()) && i < |backendList| && backendList == old(backendList) && ring == old(ring)
      requires forall o :: o in old(Repr) - old(backendList[i].Repr()) - {this} ==> unchanged(o)
      requires fresh(backendList[i].Repr() - old(backendList[i].Repr()))
      requires Repr == old(Repr) + backendList[i].Repr()
      requires model.WellFormed() && Counts() && model.ring == old(model.ring) && |model.backends| == |backendList|
      requires forall j :: 0 <= j < |backendList| && j != i ==> model.backends[j] == old(model).backends[j]
      requires backendList[i].client.sendQueue in Repr && backendList[i].Agrees(config.client, model.backends[i])
      ensures Valid()
    {
      forall j | 0 <= j < |backendList| && j != i ensures old(backendList[j].Apart(backendList[i])) {
        assert j > i ==> old(backendList[i].Apart(backendList[j]));
      }
      OthersUnmoved(i);
    }

    /** stats_relay_line from the parser on. */
    method RelayAccepted(w: World, ghost src: Source, line: Bytes) returns (rc: nat)
      requires Valid() && (config.validate ==> Accepts(w.numeric, config.proto, line))
      modifies Repr
      ensures Valid() && fresh(Repr - old(Repr))
      ensures backendList == old(backendList) && ring == old(ring)
      ensures (model, rc) == Relay.RelayLine(w, old(model), src, line)
    {
      hide Accepts, Choose, SendTo, StatsServer.Valid;
      var keyLen := ParseKey(config.proto, line);
      if keyLen == 0 {
        Refuse(true, Entry(src, line, Malformed, false));
        return 1;
      }
      var choice := Choose(ring, line[..keyLen]);
      SameShard(ring, model.ring, line[..keyLen]);
      if choice.None? {
        Refuse(false, Entry(src, line, Unroutable, false));
        return 1;
      }
      RingEntry(choice.value.0);
      rc := SendOn(w, choice.value.1, model.ring[choice.value.0], src, line);
    }

    /** stats_relay_line. */
    method RelayLine(w: World, ghost src: Source, line: Bytes) returns (rc: nat)
      requires Valid() && LineDefined(w.numeric, config, line)
      modifies Repr
      ensures Valid() && fresh(Repr - old(Repr))
      ensures backendList == old(backendList) && ring == old(ring)
      ensures (model, rc) == Relay.RelayLine(w, old(model), src, line)
    {
      hide Accepts, Choose, SendTo, StatsServer.Valid;
      var ok := RunValidator(w.numeric, line);
      if !ok {
        Refuse(false, Entry(src, line, Rejected, false));
        return 1;
      }
      rc := RelayAccepted(w, src, line);
    }

    /**
     * stats_udp_recv: an empty datagram or a failing read is refused; otherwise a cursor moves
     * over the datagram, whose last line needs no newline.
     */
    method UdpRecv(w: World, ghost src: Source, input: RecvResult) returns (rc: nat)
      requires Valid()
      requires input.Received? ==>
        0 < |input.bytes| <= MAX_UDP_LENGTH &&
        DatagramDefined(w, model.(bytesUdp := model.bytesUdp + |input.bytes|), src, input.bytes)
      modifies Repr
      ensures Valid() && fresh(Repr - old(Repr))
      ensures backendList == old(backendList) && ring == old(ring)
      ensures if !input.Received? then rc == 1 && model == old(model)
        else
          var data := input.bytes;
          var (t, ok) := ProcessDatagram(w, old(model).(bytesUdp := old(model).bytesUdp + |data|), src, data);
          model == t && rc == if ok then 0 else 1
    {
      hide Relay.RelayLine, IndexOf, After, DatagramDefined, LineDefined, StatsServer.Valid;
      if !input.Received? {
        return 1;
      }
      var data := input.bytes;
      CountUdp(|data|);
      ghost var target := ProcessDatagram(w, model, src, data);
      assert After(data, 0) == data by { AfterNothing(data); }
      var offset := 0;
      while offset < |data|
        invariant Valid() && fresh(Repr - old(Repr)) && backendList == old(backendList) && ring == old(ring)
        invariant ProcessDatagram(w, model, src, After(data, offset)) == target
        invariant DatagramDefined(w, model, src, After(data, offset))
        decreases |data| - offset
      {
        AfterWithin(data, offset);
        var lineLen := IndexOf(data[offset..], NEWLINE);
        AfterAfter(data, offset, lineLen + 1);
        DatagramDefinedStep(w, model, src, data[offset..]);
        rc := RelayLine(w, src, data[offset..][..lineLen]);
        if rc != 0 {
          return 1;
        }
        offset := offset + lineLen + 1;
      }
      AfterBeyond(data, offset);
      return 0;
    }

    method CountUdp(n: nat)
      requires Valid()
      modifies this
      ensures Valid() && Repr == old(Repr) && backendList == old(backendList) && ring == old(ring)
      ensures model == old(model).(bytesUdp := old(model).bytesUdp + n)
    {
      bytesRecvUdp := bytesRecvUdp + n;
      model := model.(bytesUdp := bytesRecvUdp);
      Unmoved();
    }

    method CountTcp(n: nat)
      requires Valid()
      modifies this
      ensures Valid() && Repr == old(Repr)
      ensures model == old(model).(bytesTcp := old(model).bytesTcp + n)
    {
      bytesRecvTcp := bytesRecvTcp + n;
      model := model.(bytesTcp := bytesRecvTcp);
      Unmoved();
    }

    method CountConnection()
      requires Valid()
      modifies this
      ensures Valid() && Repr == old(Repr)
      ensures model == old(model).(connections := old(model).connections + 1)
    {
      totalConnections := totalConnections + 1;
      model := model.(connections := totalConnections);
      Unmoved();
    }

    /** libev calls back one backend's client; the rest of the server does not notice. */
    method OnBackendEvent(ghost i: nat, b: StatsBackend, ev: ClientEvent)
      requires Valid() && i < |backendList| && backendList[i] == b
      requires !ev.Send? && Enabled(model.backends[i].client, ev)
      modifies Repr
      ensures Valid() && fresh(Repr - old(Repr)) && backendList == old(backendList) && ring == old(ring)
      ensures model == Callback(old(model), i, ev)
    {
      hide Step, Transmitted, Enabled, StatsServer.Valid;
      BackendFacts(i);
      ghost var after := Callback(model, i, ev);
      Deliver(b, ev);
      model := after;
      Repr := Repr + b.Repr();
      Settled(i);
    }

    // ----- Loading -----

    /** Backends that have not moved stay valid beside a new one that shares nothing with them. */
    twostate lemma Joined(b: StatsBackend)
      requires old(Valid()) && backendList == old(backendList) + [b] && Repr == old(Repr) + b.Repr()
      requires b.Repr() !! old(Repr) && forall o :: o in old(Repr) && o != this ==> unchanged(o)
      ensures forall i :: 0 <= i < |old(backendList)| ==>
        backendList[i].OwnedBy(Repr) && backendList[i].Agrees(config.client, old(model).backends[i])
      ensures forall i, j :: 0 <= i < j < |backendList| ==> backendList[i].Apart(backendList[j])
    {
      forall i | 0 <= i < |old(backendList)|
        ensures backendList[i].OwnedBy(Repr) && backendList[i].Agrees(config.client, old(model).backends[i])
        ensures backendList[i].OwnedBy(old(Repr))
      {
        assert old(backendList[i].OwnedBy(Repr) && backendList[i].Agrees(config.client, model.backends[i]));
      }
      forall i, j | 0 <= i < j < |backendList| ensures backendList[i].Apart(backendList[j]) {
        if j < |old(backendList)| {
          assert old(backendList[i].Apart(backendList[j]) && backendList[i].OwnedBy(Repr) && backendList[j].OwnedBy(Repr));
        }
      }
    }

    /** add_backend: the new backend shares nothing with the old ones. */
    method AddBackend(b: StatsBackend, ghost m: Backend)
      requires Valid() && b.Valid(config.client) && b.Model(config.client) == m && b.Repr() !! Repr
      modifies this
      ensures Valid() && Repr == old(Repr) + b.Repr() && ring == old(ring)
      ensures backendList == old(backendList) + [b]
      ensures model == old(model).(backends := old(model).backends + [m])
    {
      backendList, model, Repr := backendList + [b], model.(backends := model.backends + [m]), Repr + b.Repr();
      assert b.Agrees(config.client, m) && b.OwnedBy(Repr);
      Joined(b);
    }

    /** The part of make_backend for a key not seen before; null if tcpclient_connect fails. */
    method StartBackend(key: string, e: ConnectEnv) returns (b: StatsBackend?)
      requires Valid()
      modifies this
      ensures Valid() && fresh(Repr - old(Repr)) && ring == old(ring)
      ensures var (link, rc) := Connect(config.client, NEW_LINK, e);
        if b == null then rc != 0 && model == old(model) && backendList == old(backendList)
        else rc == 0 && model == old(model).(backends := old(model).backends + [NewBackend(key, link)]) &&
             backendList == old(backendList) + [b]
    {
      hide Connect, StatsServer.Valid;
      var client := new TcpClient(config.client);
      var rc := client.TryConnect(e);
      if rc != 0 {
        return null;
      }
      b := new StatsBackend(key, client);
      AddBackend(b, NewBackend(key, Connect(config.client, NEW_LINK, e).0));
    }

    /** make_backend: the stored backend of this key, or a new one that has begun to connect. */
    method MakeBackend(line: string, e: ConnectEnv) returns (b: StatsBackend?)
      requires Valid()
      modifies this
      ensures Valid() && fresh(Repr - old(Repr)) && ring == old(ring)
      ensures var made := Make(config.client, old(model).backends, line, e);
        if b == null then made.None? && model == old(model)
        else made.Some? && model == old(model).(backends := made.value.0) && backendList[made.value.1] == b
    {
      hide Connect, Find, Parse, StatsServer.Valid, IndexOf;
      var colon1 := IndexOf(line, ':');
      if colon1 == |line| {
        return null;
      }
      var rest := line[colon1 + 1..];
      var colon2 := IndexOf(rest, ':');
      var fullKey := if colon2 == |rest| then line + ":" + "tcp" else line;
      var i := FindBackend(fullKey);
      if i < |backendList| {
        return backendList[i];
      }
      b := StartBackend(fullKey, e);
    }

    /** The store that ends hashring_add; entries may alias. */
    method AddToRing(b: StatsBackend, ghost i: nat)
      requires Valid() && i < |backendList| && backendList[i] == b && |ring| + 1 < MAX_RING
      modifies this
      ensures Valid() && Repr == old(Repr) && ring == old(ring) + [b] && backendList == old(backendList)
      ensures model == old(model).(ring := old(model).ring + [i])
    {
      ring := ring + [b];
      model := model.(ring := model.ring + [i]);
      Unmoved();
    }

    /** Every backend the server has is named once, and nothing else is. */
    ghost predicate AllOnce(released: seq<StatsBackend>)
      reads this
    {
      && (forall i :: 0 <= i < |backendList| ==> backendList[i] in released)
      && (forall k :: 0 <= k < |released| ==> released[k] in backendList)
      && (forall j, k :: 0 <= j < k < |released| ==> released[j] != released[k])
    }

    /** The ring names every backend, so its release reaches them all. */
    method ReleaseRing() returns (released: seq<StatsBackend>)
      requires Valid() && forall i :: 0 <= i < |model.backends| ==> i in model.ring
      ensures AllOnce(released)
    {
      released := Dealloc(ring);
      forall i | 0 <= i < |backendList| ensures backendList[i] in released {
        assert i in model.ring;
        var k :| 0 <= k < |model.ring| && model.ring[k] == i;
        assert ring[k] == backendList[i];
      }
    }

    /**
     * hashring_load_from_config, one hashring_add per line. On the first line refused, the
     * backends made for the lines before it are released, each once.
     */
    method LoadRing(lines: seq<string>, envs: nat -> ConnectEnv) returns (ok: bool, released: seq<StatsBackend>)
      requires Valid() && model.backends == [] && model.ring == [] && |lines| < MAX_RING
      modifies this
      ensures Valid() && fresh(Repr - old(Repr))
      ensures ok <==> Load(config.client, lines, envs).Some?
      ensures ok ==> var (backends, shards) := Load(config.client, lines, envs).value;
        model == old(model).(backends := backends, ring := shards)
      ensures !ok ==> AllOnce(released)
      ensures !ok ==> exists n :: 0 <= n < |lines| && Load(config.client, lines[..n], envs) == Some((model.backends, model.ring))
    {
      hide Make, StatsServer.Valid;
      for n := 0 to |lines|
        invariant Valid() && fresh(Repr - old(Repr))
        invariant Load(config.client, lines[..n], envs) == Some((model.backends, model.ring))
        invariant |ring| == n && model == old(model).(backends := model.backends, ring := model.ring)
      {
        assert lines[..n + 1][..n] == lines[..n];
        ghost var made := Make(config.client, model.backends, lines[n], envs(n));
        var b := MakeBackend(lines[n], envs(n));
        if b == null {
          LoadStops(config.client, lines, envs, n + 1);
          LoadIsLoaded(config.client, lines[..n], envs);
          released := ReleaseRing();
          return false, released;
        }
        AddToRing(b, made.value.1);
      }
      assert lines[..|lines|] == lines;
      ok, released := true, [];
    }
  }

  lemma AfterNothing(data: Bytes)
    ensures After(data, 0) == data
  {}

  lemma AfterWithin(data: Bytes, n: nat)
    requires n < |data|
    ensures After(data, n) == data[n..] && After(data, n) != []
  {}

  lemma AfterBeyond(data: Bytes, n: nat)
    requires n >= |data|
    ensures After(data, n) == []
  {}

  /** A stats_session_t. */
  class StatsSession {
    const server: StatsServer
    const buffer: Buffer
    ghost const id: nat
    ghost var stream: Bytes
    var live: bool

    ghost predicate Valid()
      reads this, buffer, server, server.Repr
    {
      && server.Valid() && buffer.Valid()
      && this !in server.Repr && buffer !in server.Repr && buffer.ptr !in server.Repr
    }

    ghost function Model(): (s: Session)
      requires buffer.Valid()
      reads this, buffer, buffer.ptr
      ensures s.buf.Valid()
    {
      Session(live, buffer.Model(), stream)
    }

    /** stats_connection. */
    constructor (server: StatsServer, ghost id: nat)
      requires server.Valid()
      modifies server
      ensures this.server == server && this.id == id && Valid() && fresh(buffer) && fresh(buffer.ptr)
      ensures server.Repr == old(server.Repr)
      ensures Model() == Session(true, Fresh(INITIAL_BUFFER_SIZE), [])
      ensures server.model == old(server.model).(connections := old(server.model).connections + 1)
    {
      this.server, this.id := server, id;
      buffer := new Buffer(INITIAL_BUFFER_SIZE);
      stream, live := [], true;
      new;
      server.CountConnection();
    }

    /** Relay a line; the session's own buffer is not involved. */
    method RelayHeld(w: World, line: Bytes) returns (rc: nat)
      requires Valid() && LineDefined(w.numeric, server.config, line)
      modifies server.Repr
      ensures Valid() && fresh(server.Repr - old(server.Repr))
      ensures buffer.ptr == old(buffer.ptr) && buffer.Model() == old(buffer.Model())
      ensures (server.model, rc) == Relay.RelayLine(w, old(server.model), Tcp(id), line)
    {
      hide Relay.RelayLine, LineDefined, StatsServer.Valid;
      rc := server.RelayLine(w, Tcp(id), line);
    }

    method Skip(n: nat)
      requires Valid() && n <= |buffer.Model().data|
      modifies buffer
      ensures Valid() && server.Repr == old(server.Repr) && server.model == old(server.model)
      ensures buffer.ptr == old(buffer.ptr) && buffer.Model() == old(buffer.Model()).Consume(n)
    {
      hide StatsServer.Valid;
      var ok := buffer.Consume(n);
    }

    /** stats_process_lines. */
    method ProcessLines(w: World) returns (rc: nat)
      requires Valid() && StreamDefined(w, server.model, Tcp(id), buffer.Model().data)
      modifies server.Repr, buffer
      ensures Valid() && fresh(server.Repr - old(server.Repr)) && buffer.ptr == old(buffer.ptr)
      ensures (server.model, buffer.Model(), rc == 0) == Drain(w, old(server.model), Tcp(id), old(buffer.Model()))
    {
      hide Relay.RelayLine, IndexOf, Drain, StreamDefined, LineDefined, StatsServer.Valid;
      ghost var s, held := server.model, buffer.Model();
      ghost var target := Drain(w, s, Tcp(id), held);
      while true
        invariant Valid() && fresh(server.Repr - old(server.Repr)) && buffer.ptr == old(buffer.ptr)
        invariant server.model == s && buffer.Model() == held && StreamDefined(w, s, Tcp(id), held.data)
        invariant Drain(w, s, Tcp(id), held) == target
        decreases |held.data|
      {
        DrainStep(w, s, Tcp(id), held);
        var found, line := NextLine();
        if !found {
          break;
        }
        StreamDefinedStep(w, s, Tcp(id), held.data);
        if line != STATUS {
          rc := RelayHeld(w, line);
          s := server.model;
          if rc != 0 {
            return;
          }
        }
        Skip(|line| + 1);
        held := held.Consume(|line| + 1);
      }
      rc := 0;
    }

    /** The buffered line up to the first newline, if there is one. */
    method NextLine() returns (found: bool, line: Bytes)
      requires buffer.Valid()
      ensures var data := buffer.Model().data; var i := IndexOf(data, NEWLINE);
        found == (i < |data|) && (found ==> line == data[..i])
    {
      hide IndexOf;
      line := [];
      var dataSize := buffer.DataCount();
      if dataSize == 0 {
        return false, [];
      }
      var data := buffer.ptr[buffer.head..buffer.tail];
      var len := IndexOf(data, NEWLINE);
      if len == dataSize {
        return false, [];
      }
      line := data[..len];
      found := true;
    }

    /** stats_recv; non-zero means that the session has been destroyed. */
    method Recv(w: World, input: RecvResult, memLimit: nat) returns (rc: nat)
      requires Valid() && live
      requires CanReceive(OfferSpace(buffer.Model(), memLimit).0, input)
      requires RecvDefined(w, server.model, id, Model(), input, memLimit)
      modifies this, buffer, buffer.ptr, server.Repr
      ensures Valid() && (rc == 0 <==> live)
      ensures fresh(server.Repr - old(server.Repr)) && (buffer.ptr == old(buffer.ptr) || fresh(buffer.ptr))
      ensures (server.model, Model()) == Sessions.Recv(w, old(server.model), id, old(Model()), input, memLimit)
    {
      hide Drain, StreamDefined, StatsServer.Valid, OfferSpace;
      var ok := MakeSpace(memLimit);
      if !ok || !input.Received? {
        live := false;
        return 1;
      }
      rc := Take(w, input.bytes);
    }

    /** What stats_recv does with the bytes it has received. */
    method Take(w: World, bytes: Bytes) returns (rc: nat)
      requires Valid() && live && |bytes| <= buffer.Model().Space()
      requires StreamDefined(w, server.model.(bytesTcp := server.model.bytesTcp + |bytes|), Tcp(id), buffer.Model().data + bytes)
      modifies this, buffer, buffer.ptr, server.Repr
      ensures Valid() && (rc == 0 <==> live) && fresh(server.Repr - old(server.Repr)) && buffer.ptr == old(buffer.ptr)
      ensures var before := old(server.model).(bytesTcp := old(server.model).bytesTcp + |bytes|);
        var (t, b, ok) := Drain(w, before, Tcp(id), old(buffer.Model()).Produce(bytes));
        server.model == t && Model() == Session(ok, b, old(stream) + bytes)
    {
      hide Drain, StreamDefined, StatsServer.Valid;
      Store(bytes);
      rc := ProcessLines(w);
      if rc != 0 {
        live := false;
      }
    }

    /** Count and produce the bytes that recv left at the tail. */
    method Store(bytes: Bytes)
      requires Valid() && |bytes| <= buffer.Model().Space()
      modifies this, buffer, buffer.ptr, server
      ensures Valid() && server.Repr == old(server.Repr) && live == old(live) && buffer.ptr == old(buffer.ptr)
      ensures stream == old(stream) + bytes && buffer.Model() == old(buffer.Model()).Produce(bytes)
      ensures server.model == old(server.model).(bytesTcp := old(server.model).bytesTcp + |bytes|)
    {
      hide StatsServer.Valid;
      server.CountTcp(|bytes|);
      buffer.Fill(bytes);
      var ok := buffer.Produced(|bytes|);
      stream := stream + bytes;
    }

    /** Realign a full buffer, and double it if that makes no room. */
    method MakeSpace(memLimit: nat) returns (ok: bool)
      requires buffer.Valid()
      modifies buffer, buffer.ptr
      ensures buffer.Valid() && (buffer.ptr == old(buffer.ptr) || fresh(buffer.ptr))
      ensures (buffer.Model(), ok) == OfferSpace(old(buffer.Model()), memLimit)
    {
      var space := buffer.SpaceCount();
      if space == 0 {
        buffer.Realign();
        space := buffer.SpaceCount();
        if space == 0 {
          ok := buffer.Expand(memLimit);
          return;
        }
      }
      ok := true;
    }
  }

  /** stats_server_create: null if the ring cannot be loaded. */
  method CreateServer(config: ServerConfig, lines: seq<string>, envs: nat -> ConnectEnv) returns (server: StatsServer?)
    requires |lines| < MAX_RING
    ensures server == null <==> Load(config.client, lines, envs).None?
    ensures server != null ==> fresh(server.Repr) && server.Valid() && server.config == config && Created(server.model, lines)
    ensures server != null ==> |server.ring| == |lines| && forall i, j :: 0 <= i < |lines| && 0 <= j < |lines| ==>
      (server.ring[i] == server.ring[j] <==> Parse(lines[i]) == Parse(lines[j]))
  {
    hide StatsServer.Valid, Load, Loaded, Parse;
    var s := new StatsServer(config);
    var ok, _ := s.LoadRing(lines, envs);
    if !ok {
      return null;
    }
    LoadIsLoaded(config.client, lines, envs);
    s.SameObjectIff();
    forall i, j | 0 <= i < |lines| && 0 <= j < |lines|
      ensures s.ring[i] == s.ring[j] <==> Parse(lines[i]) == Parse(lines[j])
    {
      SharingExact(config.client, lines, envs, i, j);
    }
    server := s;
  }

  lemma {:induction false} LoadStops(config: ClientConfig, lines: seq<string>, envs: nat -> ConnectEnv, n: nat)
    requires n <= |lines| && Load(config, lines[..n], envs).None?
    ensures Load(config, lines, envs).None?
  {
    if n == |lines| {
      assert lines[..n] == lines;
    } else {
      assert lines[..|lines| - 1][..n] == lines[..n];
      LoadStops(config, lines[..|lines| - 1], envs, n);
    }
  }

  lemma {:induction false} FindUnique(backends: seq<Backend>, key: string, i: nat)
    requires i <= |backends| && forall j :: 0 <= j < i ==> backends[j].key != key
    requires i < |backends| ==> backends[i].key == key
    ensures Find(backends, key) == i
  {
    if i > 0 {
      FindUnique(backends[1..], key, i - 1);
    }
  }

  /** The ring of objects and the ring of indices choose the same shard. */
  lemma SameShard<T, U>(a: seq<T>, b: seq<U>, key: Bytes)
    requires |a| == |b| < MAX_RING
    ensures Choose(a, key).None? <==> Choose(b, key).None?
    ensures Choose(a, key).Some? ==> Choose(a, key).value.0 == Choose(b, key).value.0
  {}
}
