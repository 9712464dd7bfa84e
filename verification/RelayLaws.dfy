/**
 * What becomes of every line of every run, from the line, the configuration and the backend at
 * that moment alone: its verdict, the backend it goes to, whether it is dropped, and what the
 * counters count.
 */
module RelayLaws {
  import opened Bytes
  import opened Buffers
  import opened TcpClients
  import ClientRuns
  import opened ClientLaws
  import opened Validate
  import Murmur3
  import opened HashRings
  import opened Endpoints
  import opened Relay
  import opened Framing
  import opened Sessions

  // ----- The verdict -----

  /** The statsd grammar written out: key ':' value '|' type, and perhaps "|@" rate. */
  ghost predicate StatsdWritten(numeric: Numeric, line: Bytes, key: Bytes, value: Bytes, kind: Bytes, rate: Option<Bytes>) {
    var typed := kind + if rate.Some? then [124, 64] + rate.value else [];
    && line == key + [58] + value + [124] + typed
    && key != [] && 58 !in key && 124 !in value
    && kind in {[99], [109, 115], [107, 118], [103], [104], [115]}
    && numeric(CString(value + [124] + typed))
    && (rate.Some? ==> rate.value != [] && numeric(CString(rate.value)))
  }

  lemma StatsdGrammarIs(numeric: Numeric, line: Bytes)
    ensures StatsdGrammar(numeric, line) <==> exists key, value, kind, rate :: StatsdWritten(numeric, line, key, value, kind, rate)
  {
    hide CString;
    forall key, value, kind, rate
      ensures IsStatsd(numeric, line, key, value, kind, rate) <==> StatsdWritten(numeric, line, key, value, kind, rate)
    {
      StatsdIs(numeric, line, key, value, kind, rate);
    }
    if StatsdGrammar(numeric, line) {
      var key, value, kind, rate :| IsStatsd(numeric, line, key, value, kind, rate);
      assert StatsdWritten(numeric, line, key, value, kind, rate);
    }
  }

  lemma StatsdIs(numeric: Numeric, line: Bytes, key: Bytes, value: Bytes, kind: Bytes, rate: Option<Bytes>)
    ensures IsStatsd(numeric, line, key, value, kind, rate) <==> StatsdWritten(numeric, line, key, value, kind, rate)
  {
    hide CString;
    var typed := kind + if rate.Some? then [124, 64] + rate.value else [];
    assert Typed(kind, rate) == typed by {
      if rate.Some? {
        assert [PIPE] + ([AT] + rate.value) == [124, 64] + rate.value;
      }
    }
    assert Valued(value, kind, rate) == value + [124] + typed;
    assert key + [COLON] + (value + [124] + typed) == key + [58] + value + [124] + typed;
  }

  /** The carbon grammar written out: three space-free fields. */
  ghost predicate CarbonWritten(line: Bytes, a: Bytes, b: Bytes, c: Bytes) {
    line == a + [32] + b + [32] + c && 32 !in a && 32 !in b && 32 !in c
  }

  lemma CarbonGrammarIs(line: Bytes)
    ensures CarbonGrammar(line) <==> exists a, b, c :: CarbonWritten(line, a, b, c)
  {
    forall a, b, c ensures IsCarbon(line, a, b, c) <==> CarbonWritten(line, a, b, c) {
      assert a + [32] + b + [32] + c == a + [SPACE] + (b + [SPACE] + c);
    }
    if CarbonGrammar(line) {
      var a, b, c :| IsCarbon(line, a, b, c);
      assert CarbonWritten(line, a, b, c);
    }
  }

  /** The line belongs to its protocol's grammar. */
  ghost predicate InGrammar(numeric: Numeric, proto: Protocol, line: Bytes) {
    match proto
    case Statsd => exists key, value, kind, rate :: StatsdWritten(numeric, line, key, value, kind, rate)
    case Carbon => exists a, b, c :: CarbonWritten(line, a, b, c)
  }

  /** The key is the non-empty part before the first ':' of a statsd line, or the first ' ' of a carbon line. */
  ghost predicate KeyIs(proto: Protocol, line: Bytes, key: Bytes) {
    var needle: byte := if proto == Statsd then 58 else 32;
    key != [] && needle !in key && key + [needle] <= line
  }

  /** What is to become of a line. */
  ghost predicate Deserves(w: World, config: ServerConfig, ring: Ring, line: Bytes, v: Verdict) {
    var rejected := config.validate && !InGrammar(w.numeric, config.proto, line);
    var hasKey := exists key :: KeyIs(config.proto, line, key);
    && (v == Rejected <==> rejected)
    && (v == Malformed <==> !rejected && !hasKey)
    && (v == Unroutable <==> !rejected && hasKey && ring == [])
    && (v.To? <==> !rejected && hasKey && ring != [])
    && (v.To? ==> forall key :: KeyIs(config.proto, line, key) ==>
          v.backend == ring[Murmur3.StatsHash(CString(key), |ring|)])
  }

  lemma AcceptsIs(numeric: Numeric, proto: Protocol, line: Bytes)
    ensures Accepts(numeric, proto, line) <==> InGrammar(numeric, proto, line)
  {
    hide ValidStatsd, StatsdGrammar, StatsdWritten, CarbonGrammar, CarbonWritten;
    if proto == Statsd {
      StatsdExact(numeric, line);
      StatsdGrammarIs(numeric, line);
    } else {
      CarbonExact(line);
      CarbonGrammarIs(line);
    }
  }

  lemma ParsedKeyIs(proto: Protocol, line: Bytes, key: Bytes)
    ensures KeyIs(proto, line, key) <==> ParseKey(proto, line) > 0 && line[..ParseKey(proto, line)] == key
  {
    hide IndexOf;
    var needle: byte := if proto == Statsd then 58 else 32;
    var n := ParseKey(proto, line);
    if KeyIs(proto, line, key) {
      assert line == key + [needle] + line[|key| + 1..];
      FirstOf(key, needle, line[|key| + 1..]);
      assert line[0] == key[0];
      assert line[|key|] == needle;
    }
    if n > 0 && line[..n] == key {
      assert line[..n] + [line[n]] == line[..n + 1];
    }
  }

  lemma RouteIsDeserved(w: World, config: ServerConfig, ring: Ring, line: Bytes)
    ensures Deserves(w, config, ring, line, Route(w, config, ring, line))
  {
    hide Accepts, InGrammar, KeyIs, ParseKey, Choose, Murmur3.StatsHash, CString;
    var n := ParseKey(config.proto, line);
    AcceptsIs(w.numeric, config.proto, line);
    KeyAt(config.proto, line);
    if n > 0 && ring != [] {
      ChoiceIs(ring, line[..n]);
    }
  }

  lemma KeyAt(proto: Protocol, line: Bytes)
    ensures (exists key :: KeyIs(proto, line, key)) <==> ParseKey(proto, line) > 0
    ensures forall key :: KeyIs(proto, line, key) ==> key == line[..ParseKey(proto, line)]
  {
    hide ParseKey, KeyIs;
    forall key ensures KeyIs(proto, line, key) <==> ParseKey(proto, line) > 0 && line[..ParseKey(proto, line)] == key {
      ParsedKeyIs(proto, line, key);
    }
    if ParseKey(proto, line) > 0 {
      assert KeyIs(proto, line, line[..ParseKey(proto, line)]);
    }
  }

  lemma ChoiceIs(ring: Ring, key: Bytes)
    requires ring != []
    ensures var shard := Murmur3.StatsHash(CString(key), |ring|); Choose(ring, key) == Some((shard, ring[shard]))
  {}

  /** In every run every line gets the verdict it deserves. */
  lemma EndToEndVerdicts(w: World, y: System, lines: seq<string>, evs: seq<Event>, k: nat)
    requires Booted(y, lines) && k < |Run(w, y, evs).server.log|
    ensures var e := Run(w, y, evs).server.log[k];
      Deserves(w, y.server.config, y.server.ring, e.line, e.verdict) && (e.accepted ==> e.verdict.To?)
  {
    hide Run, Route, Deserves, SessionInv, DatagramInv, BackendInv, Booted;
    RunInv(w, y, lines, evs);
    RunKeeps(w, y, lines, evs);
    var z := Run(w, y, evs).server;
    assert EntryOk(w, z, z.log[k]);
    RouteIsDeserved(w, z.config, z.ring, z.log[k].line);
  }

  /** With validation on, only lines of the grammar are ever on a wire. */
  lemma EndToEndGrammar(w: World, y: System, lines: seq<string>, evs: seq<Event>, i: nat, line: Bytes)
    requires Booted(y, lines) && y.server.config.validate
    requires line in AcceptedLines(Run(w, y, evs).server.log, i)
    ensures InGrammar(w.numeric, y.server.config.proto, line)
  {
    hide Run, InGrammar, Booted;
    var log := Run(w, y, evs).server.log;
    var k := AcceptedFrom(log, i, line);
    EndToEndVerdicts(w, y, lines, evs, k);
  }

  lemma {:induction false} AcceptedFrom(log: seq<Entry>, i: nat, line: Bytes) returns (k: nat)
    requires line in AcceptedLines(log, i)
    ensures k < |log| && log[k].line == line && log[k].accepted && log[k].verdict == To(i)
  {
    var n := |log| - 1;
    if log[n].verdict == To(i) && log[n].accepted && log[n].line == line {
      k := n;
    } else {
      k := AcceptedFrom(log[..n], i, line);
    }
  }

  // ----- What a run keeps -----

  lemma PerformKeeps(w: World, y: System, ev: Event)
    requires SystemInv(w, y) && CanHappen(y, ev)
    ensures Grown(y.server, Perform(w, y, ev).server)
  {
    hide ServerInv, SessionInv, DatagramInv, ProcessDatagram, Callback, Recv, OfferSpace, ClientRuns.Enabled;
    match ev
    case Accept =>
    case TcpRead(id, input, memLimit) => RecvPreserves(w, y.server, id, y.sessions[id], input, memLimit);
    case UdpRead(data) => DatagramPreserves(w, y.server, |y.datagrams|, data);
    case OnBackend(i, ev) => CallbackPreserves(w, y.server, i, ev);
  }

  /** The ring, the backends' keys and the configuration are those the server was created with. */
  lemma {:induction false} RunKeeps(w: World, y: System, lines: seq<string>, evs: seq<Event>)
    requires Booted(y, lines)
    ensures var s, z := y.server, Run(w, y, evs).server;
      && z.config == s.config && z.ring == s.ring && |z.backends| == |s.backends|
      && forall i :: 0 <= i < |s.backends| ==> z.backends[i].key == s.backends[i].key
  {
    if evs != [] {
      hide Perform, CanHappen, SystemInv, Booted;
      var before, ev := Run(w, y, evs[..|evs| - 1]), evs[|evs| - 1];
      RunKeeps(w, y, lines, evs[..|evs| - 1]);
      RunInv(w, y, lines, evs[..|evs| - 1]);
      if CanHappen(before, ev) {
        PerformKeeps(w, before, ev);
      }
    }
  }

  /** In every run a routed line goes to the backend of the endpoint on its own shard's line. */
  lemma EndToEndRouting(w: World, y: System, lines: seq<string>, evs: seq<Event>, k: nat, key: Bytes)
    requires Booted(y, lines) && k < |Run(w, y, evs).server.log|
    requires var e := Run(w, y, evs).server.log[k]; e.verdict.To? && KeyIs(y.server.config.proto, e.line, key)
    ensures 0 < |lines| < MAX_RING
    ensures var z := Run(w, y, evs).server;
      z.log[k].verdict.backend < |z.backends| &&
      Some(z.backends[z.log[k].verdict.backend].key) == Normalise(lines[Murmur3.StatsHash(CString(key), |lines|)])
  {
    hide Run, KeyIs, Normalise, ClientRuns.Started;
    EndToEndVerdicts(w, y, lines, evs, k);
    RunKeeps(w, y, lines, evs);
  }

  // ----- The state in which each line was relayed -----

  /** The server before each line up to the first refused one. */
  function LineMoments(w: World, s: Server, src: Source, lines: seq<Bytes>): seq<Server>
    requires s.WellFormed()
    decreases |lines|
  {
    if lines == [] then []
    else
      var (t, rc) := RelayLine(w, s, src, lines[0]);
      [s] + if rc != 0 then [] else LineMoments(w, t, src, lines[1..])
  }

  function EventMoments(w: World, y: System, ev: Event): seq<Server>
    requires y.WellFormed() && CanHappen(y, ev)
  {
    var s := y.server;
    match ev
    case TcpRead(id, Received(bytes), memLimit) =>
      LineMoments(w, s.(bytesTcp := s.bytesTcp + |bytes|), Tcp(id), NonStatus(Split(y.sessions[id].buf.data + bytes).0))
    case UdpRead(data) => LineMoments(w, s.(bytesUdp := s.bytesUdp + |data|), Udp(|y.datagrams|), DatagramLines(data))
    case _ => []
  }

  /** The server before each line of a run. */
  function Moments(w: World, y: System, evs: seq<Event>): seq<Server>
    requires y.WellFormed()
  {
    if evs == [] then []
    else
      var before := Run(w, y, evs[..|evs| - 1]);
      Moments(w, y, evs[..|evs| - 1]) + if CanHappen(before, evs[|evs| - 1]) then EventMoments(w, before, evs[|evs| - 1]) else []
  }

  /** In state `s` the line of this entry was relayed, with the entries before it on record. */
  ghost predicate MomentOf(w: World, s: Server, log: seq<Entry>, k: nat) {
    && k < |log| && ServerInv(w, s) && s.log == log[..k]
    && RelayLine(w, s, log[k].src, log[k].line).0.log == log[..k + 1]
  }

  ghost predicate MomentsOf(w: World, ms: seq<Server>, log: seq<Entry>, from: nat) {
    from + |ms| == |log| && forall k :: 0 <= k < |ms| ==> MomentOf(w, ms[k], log, from + k)
  }

  lemma {:induction false} LineMomentsAre(w: World, s: Server, src: Source, lines: seq<Bytes>)
    requires ServerInv(w, s)
    ensures MomentsOf(w, LineMoments(w, s, src, lines), RelayAll(w, s, src, lines).0.log, |s.log|)
    decreases |lines|
  {
    hide ServerInv, RelayLine, MomentOf;
    RelayLineKeepsWellFormed(w, s);
    if lines != [] {
      var (t, rc) := RelayLine(w, s, src, lines[0]);
      RelayLinePreserves(w, s, src, lines[0]);
      RelayLineOnce(w, s, src, lines[0]);
      var log := RelayAll(w, s, src, lines).0.log;
      if rc == 0 {
        LineMomentsAre(w, t, src, lines[1..]);
        RelayAllLog(w, t, src, lines[1..]);
      }
      assert t.log <= log;
      MomentLater(w, s, t.log, log, |s.log|);
      var ms := LineMoments(w, s, src, lines);
      forall k | 0 <= k < |ms| ensures MomentOf(w, ms[k], log, |s.log| + k) {
        if k > 0 {
          assert ms[k] == LineMoments(w, t, src, lines[1..])[k - 1];
          assert MomentOf(w, ms[k], log, |t.log| + (k - 1));
        }
      }
    }
  }

  lemma RelayLineOnce(w: World, s: Server, src: Source, line: Bytes)
    requires ServerInv(w, s)
    ensures s.WellFormed() && MomentOf(w, s, RelayLine(w, s, src, line).0.log, |s.log|)
  {
    hide BackendInv, RelayLine;
    RelayLinePreserves(w, s, src, line);
    var t := RelayLine(w, s, src, line).0;
    assert t.log[..|s.log|] == s.log && t.log[..|s.log| + 1] == t.log;
  }

  lemma MomentLater(w: World, s: Server, log: seq<Entry>, more: seq<Entry>, k: nat)
    requires MomentOf(w, s, log, k) && log <= more
    ensures MomentOf(w, s, more, k)
  {
    hide ServerInv, RelayLine;
    assert more[..k] == log[..k] && more[..k + 1] == log[..k + 1];
  }

  lemma EventMomentsAre(w: World, y: System, ev: Event)
    requires SystemInv(w, y) && CanHappen(y, ev)
    ensures MomentsOf(w, EventMoments(w, y, ev), Perform(w, y, ev).server.log, |y.server.log|)
  {
    hide ServerInv, SessionInv, DatagramInv, MomentOf, LineMoments, RelayAll, ProcessDatagram, NonStatus, Split, DatagramLines, ClientRuns.Enabled;
    var s := y.server;
    match ev
    case Accept =>
    case TcpRead(id, input, memLimit) => RecvMomentsAre(w, y, id, input, memLimit);
    case UdpRead(data) =>
      var s1 := s.(bytesUdp := s.bytesUdp + |data|);
      CountBytes(w, s, s1);
      DatagramIsRelayAll(w, s1, Udp(|y.datagrams|), data);
      LineMomentsAre(w, s1, Udp(|y.datagrams|), DatagramLines(data));
    case OnBackend(i, ev) => CallbackPreserves(w, s, i, ev);
  }

  lemma RecvMomentsAre(w: World, y: System, id: nat, input: RecvResult, memLimit: nat)
    requires SystemInv(w, y) && CanHappen(y, TcpRead(id, input, memLimit))
    ensures var ev := TcpRead(id, input, memLimit);
      MomentsOf(w, EventMoments(w, y, ev), Perform(w, y, ev).server.log, |y.server.log|)
  {
    hide ServerInv, SessionInv, DatagramInv, MomentOf, LineMoments, RelayAll, Process, NonStatus, Split;
    if input.Received? {
      var s1 := y.server.(bytesTcp := y.server.bytesTcp + |input.bytes|);
      CountBytes(w, y.server, s1);
      RelayLineKeepsWellFormed(w, s1);
      var data := y.sessions[id].buf.data + input.bytes;
      ProcessIsRelayAll(w, s1, Tcp(id), data);
      LineMomentsAre(w, s1, Tcp(id), NonStatus(Split(data).0));
    }
  }

  lemma MomentsConcat(w: World, ms: seq<Server>, log: seq<Entry>, more: seq<Server>, log': seq<Entry>)
    requires MomentsOf(w, ms, log, 0) && MomentsOf(w, more, log', |log|) && log <= log'
    ensures MomentsOf(w, ms + more, log', 0)
  {
    hide MomentOf;
    forall k | 0 <= k < |ms + more| ensures MomentOf(w, (ms + more)[k], log', 0 + k) {
      if k < |ms| {
        assert MomentOf(w, ms[k], log, 0 + k);
        MomentLater(w, ms[k], log, log', k);
      } else {
        assert MomentOf(w, more[k - |ms|], log', |log| + (k - |ms|));
      }
    }
  }

  /** Every line on record has its moment. */
  lemma {:induction false} EveryLineHasItsMoment(w: World, y: System, lines: seq<string>, evs: seq<Event>)
    requires Booted(y, lines)
    ensures MomentsOf(w, Moments(w, y, evs), Run(w, y, evs).server.log, 0)
  {
    if evs != [] {
      hide Perform, CanHappen, SystemInv, EventMoments, MomentsOf, Booted;
      var before, ev := Run(w, y, evs[..|evs| - 1]), evs[|evs| - 1];
      EveryLineHasItsMoment(w, y, lines, evs[..|evs| - 1]);
      RunInv(w, y, lines, evs[..|evs| - 1]);
      if CanHappen(before, ev) {
        EventMomentsAre(w, before, ev);
        PerformGrows(w, before, ev);
        MomentsConcat(w, Moments(w, y, evs[..|evs| - 1]), before.server.log,
                      EventMoments(w, before, ev), Perform(w, before, ev).server.log);
      } else {
        assert Moments(w, y, evs) == Moments(w, y, evs[..|evs| - 1]) + [] == Moments(w, y, evs[..|evs| - 1]);
      }
    } else {
      NothingOnRecord(w, y, lines);
    }
  }

  lemma NothingOnRecord(w: World, y: System, lines: seq<string>)
    requires Booted(y, lines)
    ensures y.server.log == []
  {}

  // ----- When a routed line is dropped -----

  /** How many lines have been handed to a client so far. */
  function Handed(log: seq<Entry>): nat {
    if log == [] then 0 else Handed(log[..|log| - 1]) + if log[|log| - 1].verdict.To? then 1 else 0
  }

  /**
   * At the moment a line is routed to backend i, with the answers of the system to this
   * tcpclient_sendall: it is dropped exactly when the client has no address, or its queue is at
   * the limit, or no doubling of its allocation that malloc allows holds queue, line and newline.
   */
  lemma EndToEndDrops(w: World, y: System, lines: seq<string>, evs: seq<Event>, k: nat)
    requires Booted(y, lines) && k < |Run(w, y, evs).server.log|
    requires Run(w, y, evs).server.log[k].verdict.To?
    ensures |Moments(w, y, evs)| == |Run(w, y, evs).server.log|
    ensures var e, s := Run(w, y, evs).server.log[k], Moments(w, y, evs)[k];
      && s.log == Run(w, y, evs).server.log[..k] && s.config == y.server.config
      && e.verdict.backend < |s.backends|
      && var c, env := s.backends[e.verdict.backend].client, w.send(s.sends);
        (!e.accepted <==>
          || !c.link.resolved
          || |c.queue.data| >= y.server.config.client.maxSendQueue
          || !CanHold(c.queue.size, |c.queue.data| + |e.line| + 1, env.memLimit))
  {
    hide Run, Moments, MomentOf, CanHold, Route, Booted;
    EveryLineHasItsMoment(w, y, lines, evs);
    var z := Run(w, y, evs).server;
    var s, e := Moments(w, y, evs)[k], z.log[k];
    assert MomentOf(w, s, z.log, 0 + k);
    RunKeeps(w, y, lines, evs);
    MomentKeeps(w, y, lines, evs, k);
    MomentDrops(w, s, z.log, k);
  }

  lemma MomentDrops(w: World, s: Server, log: seq<Entry>, k: nat)
    requires MomentOf(w, s, log, k) && log[k].verdict.To?
    ensures s.log == log[..k] && log[k].verdict.backend < |s.backends|
    ensures var c, env := s.backends[log[k].verdict.backend].client, w.send(s.sends);
      !log[k].accepted <==>
        || !c.link.resolved || |c.queue.data| >= s.config.client.maxSendQueue
        || !CanHold(c.queue.size, |c.queue.data| + |log[k].line| + 1, env.memLimit)
  {
    hide SendAll, CanHold, Route, BackendInv;
    var e := log[k];
    RelayLineLog(w, s, e.src, e.line);
    assert log[..k + 1][k] == e;
    assert e == Entry(e.src, e.line, Route(w, s.config, s.ring, e.line), RelayLine(w, s, e.src, e.line).1 == 0);
    var c := s.backends[e.verdict.backend].client;
    SendCode(s.config.client, c, e.line + [NEWLINE], w.send(s.sends));
    assert |e.line + [NEWLINE]| == |e.line| + 1;
  }

  /** A moment has the configuration of the whole run. */
  lemma {:induction false} MomentKeeps(w: World, y: System, lines: seq<string>, evs: seq<Event>, k: nat)
    requires Booted(y, lines) && k < |Moments(w, y, evs)|
    ensures Moments(w, y, evs)[k].config == y.server.config && Moments(w, y, evs)[k].ring == y.server.ring
  {
    hide Perform, CanHappen, SystemInv, EventMoments, Booted;
    var before, ev := Run(w, y, evs[..|evs| - 1]), evs[|evs| - 1];
    var ms := Moments(w, y, evs[..|evs| - 1]);
    if k < |ms| {
      MomentKeeps(w, y, lines, evs[..|evs| - 1], k);
    } else {
      RunInv(w, y, lines, evs[..|evs| - 1]);
      RunKeeps(w, y, lines, evs[..|evs| - 1]);
      EventMomentKeeps(w, before, ev, k - |ms|);
    }
  }

  lemma EventMomentKeeps(w: World, y: System, ev: Event, k: nat)
    requires y.WellFormed() && CanHappen(y, ev) && k < |EventMoments(w, y, ev)|
    ensures EventMoments(w, y, ev)[k].config == y.server.config && EventMoments(w, y, ev)[k].ring == y.server.ring
  {
    hide LineMoments, NonStatus, Split, DatagramLines, OfferSpace;
    var s := y.server;
    match ev
    case TcpRead(id, Received(bytes), memLimit) =>
      LineMomentKeeps(w, s.(bytesTcp := s.bytesTcp + |bytes|), Tcp(id), NonStatus(Split(y.sessions[id].buf.data + bytes).0), k);
    case UdpRead(data) =>
      LineMomentKeeps(w, s.(bytesUdp := s.bytesUdp + |data|), Udp(|y.datagrams|), DatagramLines(data), k);
    case _ =>
  }

  lemma {:induction false} LineMomentKeeps(w: World, s: Server, src: Source, lines: seq<Bytes>, k: nat)
    requires s.WellFormed() && k < |LineMoments(w, s, src, lines)|
    ensures var m := LineMoments(w, s, src, lines)[k]; m.config == s.config && m.ring == s.ring
    decreases |lines|
  {
    hide RelayLine;
    if k > 0 {
      RelayLineLog(w, s, src, lines[0]);
      LineMomentKeeps(w, RelayLine(w, s, src, lines[0]).0, src, lines[1..], k - 1);
    }
  }

  /** stats_relay_line returns 0 for an accepted line, 2 for a dropped one, and otherwise 1. */
  lemma RelayCode(w: World, s: Server, src: Source, line: Bytes)
    requires s.WellFormed()
    ensures var (t, rc) := RelayLine(w, s, src, line);
      && |t.log| == |s.log| + 1
      && var e := t.log[|s.log|];
        rc == if !e.verdict.To? then 1 else if e.accepted then 0 else 2
  {
    hide Route, SendAll;
  }

  /** A backend event is a step of that backend's client; bytes_sent grows by what left, and nothing else changes. */
  lemma BackendEvent(w: World, y: System, i: nat, ev: ClientRuns.ClientEvent)
    requires SystemInv(w, y) && CanHappen(y, OnBackend(i, ev))
    ensures var s, z := y.server, Perform(w, y, OnBackend(i, ev));
      && z.sessions == y.sessions && z.datagrams == y.datagrams && |z.server.backends| == |s.backends|
      && var b, b' := s.backends[i], z.server.backends[i];
        && b'.client == ClientRuns.Step(s.config.client, b.client, ev)
        && b'.bytesSent == b.bytesSent + |b'.client.sent| - |b.client.sent|
        && b' == b.(client := b'.client, bytesSent := b'.bytesSent)
        && z.server == s.(backends := s.backends[i := b'])
  {
    hide ClientRuns.Step, Transmitted, ClientRuns.Enabled, SessionInv, DatagramInv, ClientRuns.ClientInv;
    CallbackPreserves(w, y.server, i, ev);
    assert BackendInv(y.server.config.client, y.server.backends[i], y.server.log, i);
    var t := Callback(y.server, i, ev);
    assert BackendInv(t.config.client, t.backends[i], t.log, i);
  }

  // ----- The counters -----

  function StreamBytes(sessions: seq<Session>): nat {
    if sessions == [] then 0 else StreamBytes(sessions[..|sessions| - 1]) + |sessions[|sessions| - 1].stream|
  }

  function DatagramBytes(datagrams: seq<Bytes>): nat {
    if datagrams == [] then 0 else DatagramBytes(datagrams[..|datagrams| - 1]) + |datagrams[|datagrams| - 1]|
  }

  /** The last line routed to backend i was dropped. */
  predicate LastDropped(log: seq<Entry>, i: nat) {
    log != [] &&
    var e := log[|log| - 1];
    if e.verdict == To(i) then !e.accepted else LastDropped(log[..|log| - 1], i)
  }

  /**
   * bytes_recv_tcp, bytes_recv_udp and total_connections count what arrived, `sends` counts the
   * lines handed to clients, and a backend's failing flag tells whether its last line was dropped.
   */
  ghost predicate Traffic(y: System) {
    var s := y.server;
    && s.bytesTcp == StreamBytes(y.sessions)
    && s.bytesUdp == DatagramBytes(y.datagrams)
    && s.connections == |y.sessions|
    && Flags(s)
  }

  ghost predicate Flags(s: Server) {
    s.sends == Handed(s.log) && forall i :: 0 <= i < |s.backends| ==> (s.backends[i].failing <==> LastDropped(s.log, i))
  }

  lemma RelayLineFlags(w: World, s: Server, src: Source, line: Bytes)
    requires s.WellFormed() && Flags(s)
    ensures var t := RelayLine(w, s, src, line).0;
      Flags(t) && t.bytesTcp == s.bytesTcp && t.bytesUdp == s.bytesUdp && t.connections == s.connections
  {
    hide Route, SendAll;
    var t := RelayLine(w, s, src, line).0;
    RelayLineLog(w, s, src, line);
    assert t.log[..|t.log| - 1] == s.log;
  }

  lemma {:induction false} RelayAllFlags(w: World, s: Server, src: Source, lines: seq<Bytes>)
    requires s.WellFormed() && Flags(s)
    ensures var t := RelayAll(w, s, src, lines).0;
      Flags(t) && t.bytesTcp == s.bytesTcp && t.bytesUdp == s.bytesUdp && t.connections == s.connections
    decreases |lines|
  {
    hide RelayLine, Flags;
    if lines != [] {
      RelayLineFlags(w, s, src, lines[0]);
      RelayAllFlags(w, RelayLine(w, s, src, lines[0]).0, src, lines[1..]);
    }
  }

  lemma {:induction false} StreamBytesUpdate(sessions: seq<Session>, id: nat, sess: Session)
    requires id < |sessions|
    ensures StreamBytes(sessions[id := sess]) == StreamBytes(sessions) - |sessions[id].stream| + |sess.stream|
  {
    var n := |sessions| - 1;
    if id < n {
      StreamBytesUpdate(sessions[..n], id, sess);
      assert sessions[id := sess][..n] == sessions[..n][id := sess];
    } else {
      assert sessions[id := sess][..n] == sessions[..n];
    }
  }

  lemma RecvTraffic(w: World, y: System, id: nat, input: RecvResult, memLimit: nat)
    requires y.WellFormed() && CanHappen(y, TcpRead(id, input, memLimit)) && Traffic(y)
    ensures Traffic(Perform(w, y, TcpRead(id, input, memLimit)))
  {
    hide Flags, Process, RelayAll, NonStatus, Split, StreamBytes, OfferSpace;
    var s := y.server;
    var z := Perform(w, y, TcpRead(id, input, memLimit));
    StreamBytesUpdate(y.sessions, id, z.sessions[id]);
    var (b, ok) := OfferSpace(y.sessions[id].buf, memLimit);
    if ok && input.Received? {
      var s1 := s.(bytesTcp := s.bytesTcp + |input.bytes|);
      var data := b.Produce(input.bytes).data;
      FlagsKept(s, s1);
      ProcessIsRelayAll(w, s1, Tcp(id), data);
      RelayAllFlags(w, s1, Tcp(id), NonStatus(Split(data).0));
    }
  }

  lemma FlagsKept(s: Server, t: Server)
    requires Flags(s) && t.log == s.log && t.sends == s.sends && |t.backends| == |s.backends|
    requires forall i :: 0 <= i < |s.backends| ==> t.backends[i].failing == s.backends[i].failing
    ensures Flags(t)
  {}

  lemma DatagramTraffic(w: World, y: System, data: Bytes)
    requires y.WellFormed() && CanHappen(y, UdpRead(data)) && Traffic(y)
    ensures Traffic(Perform(w, y, UdpRead(data)))
  {
    hide Flags, ProcessDatagram, RelayAll, DatagramLines;
    var s := y.server;
    var s1 := s.(bytesUdp := s.bytesUdp + |data|);
    FlagsKept(s, s1);
    DatagramIsRelayAll(w, s1, Udp(|y.datagrams|), data);
    RelayAllFlags(w, s1, Udp(|y.datagrams|), DatagramLines(data));
    assert (y.datagrams + [data])[..|y.datagrams|] == y.datagrams;
  }

  lemma AcceptTraffic(w: World, y: System)
    requires y.WellFormed() && Traffic(y)
    ensures Traffic(Perform(w, y, Accept))
  {
    hide Flags;
    var z := Perform(w, y, Accept);
    FlagsKept(y.server, z.server);
    assert z.sessions[..|y.sessions|] == y.sessions;
  }

  lemma BackendTraffic(w: World, y: System, i: nat, ev: ClientRuns.ClientEvent)
    requires y.WellFormed() && CanHappen(y, OnBackend(i, ev)) && Traffic(y)
    ensures Traffic(Perform(w, y, OnBackend(i, ev)))
  {
    hide Flags, ClientRuns.Step, Transmitted, ClientRuns.Enabled;
    FlagsKept(y.server, Callback(y.server, i, ev));
  }

  /** The counters over every run. */
  lemma {:induction false} EndToEndTraffic(w: World, y: System, lines: seq<string>, evs: seq<Event>)
    requires Booted(y, lines)
    ensures Traffic(Run(w, y, evs))
  {
    if evs == [] {
      CreatedTraffic(y, lines);
    } else {
      hide Perform, CanHappen, Traffic;
      EndToEndTraffic(w, y, lines, evs[..|evs| - 1]);
      var before, ev := Run(w, y, evs[..|evs| - 1]), evs[|evs| - 1];
      if CanHappen(before, ev) {
        match ev
        case Accept => AcceptTraffic(w, before);
        case TcpRead(id, input, memLimit) => RecvTraffic(w, before, id, input, memLimit);
        case UdpRead(data) => DatagramTraffic(w, before, data);
        case OnBackend(i, ev) => BackendTraffic(w, before, i, ev);
      }
    }
  }

  lemma CreatedTraffic(y: System, lines: seq<string>)
    requires Booted(y, lines)
    ensures Traffic(y)
  {
    hide ClientRuns.Started;
  }

  // ----- "status" -----

  /** Of a TCP session's lines exactly those that are "status" are not relayed. */
  lemma {:induction false} StatusIsSkipped(lines: seq<Bytes>)
    ensures [115, 116, 97, 116, 117, 115] !in NonStatus(lines)
    ensures forall line :: line != [115, 116, 97, 116, 117, 115] ==> multiset(NonStatus(lines))[line] == multiset(lines)[line]
  {
    if lines != [] {
      StatusIsSkipped(lines[1..]);
      assert lines == [lines[0]] + lines[1..];
    }
  }
}
