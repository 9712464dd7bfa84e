/** The objects of stats.c together: one server, its sessions, and libev calling back in any order. */
module EventLoops {
  import opened Bytes
  import opened Buffers
  import opened TcpClients
  import opened ClientRuns
  import opened HashRings
  import opened Relay
  import opened Framing
  import opened Sessions
  import opened Stats

  class EventLoop {
    const server: StatsServer
    var sessions: seq<StatsSession>
    ghost var model: System
    ghost var Repr: set<object>

    /** What session s owns beside the server. */
    static ghost function Own(s: StatsSession): set<object>
      reads s.buffer
    {
      {s, s.buffer, s.buffer.ptr}
    }

    /** Session number i of this server, which agrees with its abstract state. */
    ghost predicate Agrees(s: StatsSession, i: nat, m: Session)
      reads this, Own(s), s.buffer, server, server.Repr
    {
      && s.server == server && s.id == i && s.buffer.Valid()
      && Own(s) !! server.Repr && s.Model() == m
    }

    ghost predicate OwnedBy(s: StatsSession, R: set<object>)
      reads R
    {
      s.buffer in R && Own(s) <= R && this !in Own(s)
    }

    static ghost predicate Apart(s: StatsSession, t: StatsSession)
      reads s.buffer, t.buffer
    {
      Own(s) !! Own(t)
    }

    ghost predicate Valid()
      reads this, Repr
      ensures Valid() ==> this in Repr && server.Repr <= Repr && this !in server.Repr && server.Valid() && model.WellFormed()
      ensures Valid() ==> server.model == model.server && |sessions| == |model.sessions|
    {
      && this in Repr && server in Repr && server.Repr <= Repr && this !in server.Repr
      && server.Valid() && server.model == model.server && model.WellFormed()
      && |sessions| == |model.sessions|
      && (forall i :: 0 <= i < |sessions| ==> OwnedBy(sessions[i], Repr) && Agrees(sessions[i], i, model.sessions[i]))
      && (forall i, j :: 0 <= i < j < |sessions| ==> Apart(sessions[i], sessions[j]))
    }

    constructor (server: StatsServer)
      requires server.Valid()
      ensures Valid() && fresh(Repr - server.Repr) && this.server == server
      ensures server.model == old(server.model) && model == System(server.model, [], [])
    {
      this.server, sessions := server, [];
      model, Repr := System(server.model, [], []), {this} + server.Repr;
    }

    ghost function OwnAt(id: int): set<object>
      requires Valid()
      reads this, Repr
    {
      if 0 <= id < |sessions| then Own(sessions[id]) else {}
    }

    /** A change to the server, and to session `id` if there is one, moves no other session. */
    twostate lemma OthersStay(id: int)
      requires old(Valid()) && |old(sessions)| <= |sessions| && sessions[..|old(sessions)|] == old(sessions)
      requires forall o :: o in old(Repr - server.Repr - {this} - OwnAt(id)) ==> unchanged(o)
      requires fresh(server.Repr - old(server.Repr)) && old(Repr) <= Repr
      ensures forall i :: 0 <= i < |old(sessions)| && i != id ==>
        OwnedBy(sessions[i], Repr) && Agrees(sessions[i], i, old(model).sessions[i]) && Own(sessions[i]) == old(Own(sessions[i]))
    {
      hide StatsServer.Valid;
      forall i | 0 <= i < |old(sessions)| && i != id
        ensures OwnedBy(sessions[i], Repr) && Agrees(sessions[i], i, old(model).sessions[i]) && Own(sessions[i]) == old(Own(sessions[i]))
      {
        var s := sessions[i];
        assert s == old(sessions)[i];
        assert old(OwnedBy(s, Repr) && Agrees(s, i, model.sessions[i]));
        if 0 <= id < |old(sessions)| {
          assert old(sessions)[id] == old(sessions[id]);
          assert old(if i < id then Apart(sessions[i], sessions[id]) else Apart(sessions[id], sessions[i]));
        }
        assert forall o :: o in old(Own(s)) ==> o in old(Repr - server.Repr - {this} - OwnAt(id));
        assert unchanged(s) && unchanged(s.buffer) && unchanged(s.buffer.ptr);
      }
    }

    /** ... so the whole is valid again if the server and that session agree with the model. */
    twostate lemma Settled(id: int)
      requires old(Valid()) && sessions == old(sessions)
      requires forall o :: o in old(Repr - server.Repr - {this} - OwnAt(id)) ==> unchanged(o)
      requires fresh(server.Repr - old(server.Repr)) && server.Valid()
      requires model.WellFormed() && model.server == server.model && |model.sessions| == |sessions|
      requires forall i :: 0 <= i < |sessions| && i != id ==> model.sessions[i] == old(model).sessions[i]
      requires 0 <= id < |sessions| ==> Agrees(sessions[id], id, model.sessions[id]) && fresh(Own(sessions[id]) - old(OwnAt(id)))
      requires Repr == old(Repr) + server.Repr + if 0 <= id < |sessions| then Own(sessions[id]) else {}
      ensures Valid()
    {
      hide StatsServer.Valid, Agrees;
      OthersStay(id);
      forall i, j | 0 <= i < j < |sessions| ensures Apart(sessions[i], sessions[j]) {
        assert old(Apart(sessions[i], sessions[j]) && OwnedBy(sessions[i], Repr) && OwnedBy(sessions[j], Repr));
      }
    }

    /** ... and so it is after a new session has been added. */
    twostate lemma Joined(new s: StatsSession)
      requires old(Valid()) && sessions == old(sessions) + [s]
      requires forall o :: o in old(Repr - server.Repr - {this}) ==> unchanged(o)
      requires server.Repr == old(server.Repr) && server.Valid()
      requires model.WellFormed() && model.server == server.model && |model.sessions| == |sessions|
      requires forall i :: 0 <= i < |old(sessions)| ==> model.sessions[i] == old(model).sessions[i]
      requires Agrees(s, |old(sessions)|, model.sessions[|old(sessions)|]) && Own(s) !! old(Repr)
      requires Repr == old(Repr) + Own(s)
      ensures Valid()
    {
      hide StatsServer.Valid, Agrees;
      OthersStay(-1);
      forall i, j | 0 <= i < j < |sessions| ensures Apart(sessions[i], sessions[j]) {
        assert old(OwnedBy(sessions[i], Repr));
        if j < |old(sessions)| {
          assert old(Apart(sessions[i], sessions[j]) && OwnedBy(sessions[i], Repr) && OwnedBy(sessions[j], Repr));
        }
      }
    }

    /** What validity says of one session. */
    lemma SessionFacts(id: nat)
      requires Valid() && id < |sessions|
      ensures OwnedBy(sessions[id], Repr) && Agrees(sessions[id], id, model.sessions[id]) && OwnAt(id) == Own(sessions[id])
    {}

    /** tcpserver.c accepts a connection and calls stats_connection. */
    method AcceptClient(ghost w: World)
      requires Valid()
      modifies this, server
      ensures Valid() && fresh(Repr - old(Repr))
      ensures model == Perform(w, old(model), Accept)
    {
      hide StatsServer.Valid, EventLoop.Valid;
      ghost var after := Perform(w, model, Accept);
      var s := new StatsSession(server, |sessions|);
      sessions, Repr, model := sessions + [s], Repr + Own(s), after;
      Joined(s);
    }

    /** ... and calls stats_recv when a connection is readable. */
    method ReadClient(w: World, id: nat, input: RecvResult, memLimit: nat) returns (rc: nat)
      requires Valid() && CanHappen(model, TcpRead(id, input, memLimit)) && Defined(w, model, TcpRead(id, input, memLimit))
      modifies Repr
      ensures Valid() && fresh(Repr - old(Repr))
      ensures model == Perform(w, old(model), TcpRead(id, input, memLimit))
    {
      hide StatsServer.Valid, Recv, OfferSpace, RecvDefined, EventLoop.Valid;
      SessionFacts(id);
      var s := sessions[id];
      ghost var after := Perform(w, model, TcpRead(id, input, memLimit));
      rc := s.Recv(w, input, memLimit);
      Repr, model := Repr + server.Repr + Own(s), after;
      Settled(id);
    }

    /** udpserver.c calls stats_udp_recv when a datagram has arrived. */
    method ReadDatagram(w: World, data: Bytes) returns (rc: nat)
      requires Valid() && CanHappen(model, UdpRead(data)) && Defined(w, model, UdpRead(data))
      modifies Repr
      ensures Valid() && fresh(Repr - old(Repr))
      ensures model == Perform(w, old(model), UdpRead(data))
    {
      hide StatsServer.Valid, ProcessDatagram, DatagramDefined, EventLoop.Valid;
      ghost var after := Perform(w, model, UdpRead(data));
      rc := server.UdpRecv(w, Udp(|model.datagrams|), Received(data));
      Repr, model := Repr + server.Repr, after;
      Settled(-1);
    }

    /** A callback of the i-th backend's client. */
    method CallBackend(ghost w: World, i: nat, ev: ClientEvent)
      requires Valid() && CanHappen(model, OnBackend(i, ev))
      modifies Repr
      ensures Valid() && fresh(Repr - old(Repr))
      ensures model == Perform(w, old(model), OnBackend(i, ev))
    {
      hide StatsServer.Valid, Callback, Enabled, EventLoop.Valid;
      ghost var after := Perform(w, model, OnBackend(i, ev));
      server.OnBackendEvent(i, server.backendList[i], ev);
      Repr, model := Repr + server.Repr, after;
      Settled(-1);
    }

    /** Whatever happens next, the objects take that step of the system. */
    method Handle(w: World, ev: Event)
      requires Valid() && CanHappen(model, ev) && Defined(w, model, ev)
      modifies Repr
      ensures Valid() && fresh(Repr - old(Repr))
      ensures model == Perform(w, old(model), ev)
    {
      hide EventLoop.Valid, Perform, CanHappen, Defined;
      match ev
      case Accept => AcceptClient(w);
      case TcpRead(id, input, memLimit) => var _ := ReadClient(w, id, input, memLimit);
      case UdpRead(data) => var _ := ReadDatagram(w, data);
      case OnBackend(i, ev) => CallBackend(w, i, ev);
    }

    /**
     * Any run of events leaves the objects as the run of the system says, so from a booted
     * server everything proved of runs holds of the server, sessions and backends in memory.
     */
    method HandleAll(w: World, evs: seq<Event>)
      requires Valid()
      requires forall k :: 0 <= k < |evs| ==>
        var before := Sessions.Run(w, model, evs[..k]);
        CanHappen(before, evs[k]) && Defined(w, before, evs[k])
      modifies Repr
      ensures Valid() && fresh(Repr - old(Repr))
      ensures model == Sessions.Run(w, old(model), evs)
      ensures forall lines :: Booted(old(model), lines) ==> SystemInv(w, model)
    {
      hide EventLoop.Valid, Perform, CanHappen, Defined, Booted, SystemInv;
      ghost var start := model;
      for n := 0 to |evs|
        invariant Valid() && fresh(Repr - old(Repr))
        invariant model == Sessions.Run(w, start, evs[..n])
      {
        Handle(w, evs[n]);
        assert evs[..n + 1][..n] == evs[..n];
      }
      assert evs[..|evs|] == evs;
      forall lines | Booted(start, lines) ensures SystemInv(w, model) {
        RunInv(w, start, lines, evs);
      }
    }
  }

  /** The relay before its first client; null if its ring cannot be loaded. */
  method Boot(config: ServerConfig, lines: seq<string>, envs: nat -> ConnectEnv) returns (loop: EventLoop?)
    requires |lines| < MAX_RING
    ensures loop == null <==> Load(config.client, lines, envs).None?
    ensures loop != null ==> fresh(loop.Repr) && loop.Valid() && loop.server.config == config && Booted(loop.model, lines)
  {
    hide StatsServer.Valid, EventLoop.Valid, Load, Created;
    var server := CreateServer(config, lines, envs);
    if server == null {
      return null;
    }
    loop := new EventLoop(server);
  }
}
