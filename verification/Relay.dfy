/** Loading the backends, and relaying one line (stats.c). */
module Relay {
  import opened Bytes
  import opened Buffers
  import opened TcpClients
  import opened ClientRuns
  import opened Validate
  import opened HashRings
  import opened Endpoints

  /** A stats_backend_t. */
  datatype Backend = Backend(key: string, client: Client, bytesQueued: nat, bytesSent: nat,
                             relayedLines: nat, droppedLines: nat, failing: bool)

  /** `validate` is enable_validation with a validator present. */
  datatype ServerConfig = ServerConfig(client: ClientConfig, validate: bool, proto: Protocol)

  /** Where a line came from: the n-th TCP session or the n-th datagram. */
  datatype Source = Tcp(session: nat) | Udp(datagram: nat)

  /** What becomes of a line before it is queued. */
  datatype Verdict = Rejected | Malformed | Unroutable | To(backend: nat)

  /** The history of one stats_relay_line; `accepted` is its returning 0. */
  datatype Entry = Entry(src: Source, line: Bytes, verdict: Verdict, accepted: bool)

  /**
   * What lies outside the program: strtod, and the system calls of the n-th tcpclient_sendall.
   * Every answer is possible, so a statement about every world is one about every execution.
   */
  datatype World = World(numeric: Numeric, send: nat -> SendEnv)

  type Ring = r: seq<nat> | |r| < MAX_RING

  /** A stats_server_t; `log` lists the lines it was given and `sends` counts tcpclient_sendall. */
  datatype Server = Server(config: ServerConfig, backends: seq<Backend>, ring: Ring,
                           malformed: nat, bytesTcp: nat, bytesUdp: nat, connections: nat,
                           sends: nat, log: seq<Entry>)
  {
    ghost predicate WellFormed() {
      && (forall k :: 0 <= k < |ring| ==> ring[k] < |backends|)
      && (forall i :: 0 <= i < |backends| ==> backends[i].client.queue.Valid())
    }
  }

  // ----- stats_relay_line -----

  predicate Accepts(numeric: Numeric, proto: Protocol, line: Bytes) {
    if proto == Statsd then ValidStatsd(numeric, line) else ValidCarbon(line)
  }

  /** What C demands of a line handed to the validator. */
  predicate LineDefined(numeric: Numeric, config: ServerConfig, line: Bytes) {
    config.validate && config.proto == Statsd ==> Scannable(numeric, line)
  }

  /** Validate, find the key, and choose its backend. */
  function Route(w: World, config: ServerConfig, ring: Ring, line: Bytes): (v: Verdict)
    ensures v.To? ==> exists k :: 0 <= k < |ring| && v.backend == ring[k]
  {
    if config.validate && !Accepts(w.numeric, config.proto, line) then Rejected
    else if ParseKey(config.proto, line) == 0 then Malformed
    else
      var choice := Choose(ring, line[..ParseKey(config.proto, line)]);
      if choice.None? then Unroutable else To(choice.value.1)
  }

  /** tcpclient_sendall and the backend's counters. */
  function SendTo(config: ClientConfig, b: Backend, line: Bytes, e: SendEnv): (r: (Backend, nat))
    requires b.client.queue.Valid()
    ensures r.0.client.queue.Valid() && r.0.key == b.key
    ensures r.1 == 0 || r.1 == 2
  {
    var (c, rc) := SendAll(config, b.client, line + [NEWLINE], e);
    if rc != 0 then (b.(client := c, droppedLines := b.droppedLines + 1, failing := true), 2)
    else (b.(client := c, failing := false, bytesQueued := b.bytesQueued + |line| + 1, relayedLines := b.relayedLines + 1), 0)
  }

  function RelayLine(w: World, s: Server, src: Source, line: Bytes): (r: (Server, nat))
    requires s.WellFormed()
    ensures r.0.WellFormed()
  {
    var v := Route(w, s.config, s.ring, line);
    match v
    case To(i) =>
      var (b, rc) := SendTo(s.config.client, s.backends[i], line, w.send(s.sends));
      (s.(backends := s.backends[i := b], sends := s.sends + 1, log := s.log + [Entry(src, line, v, rc == 0)]), rc)
    case _ =>
      (s.(malformed := s.malformed + if v == Malformed then 1 else 0, log := s.log + [Entry(src, line, v, false)]), 1)
  }

  /** A libev callback on backend i, with stats_sent called back for the bytes it sent. */
  function Callback(s: Server, i: nat, ev: ClientEvent): (r: Server)
    requires s.WellFormed() && i < |s.backends| && !ev.Send?
    ensures r.WellFormed()
  {
    var b := s.backends[i];
    var sent := if ev.WriteReady? && Enabled(b.client, ev) then Transmitted(b.client, ev.writable, ev.len) else 0;
    s.(backends := s.backends[i := b.(client := Step(s.config.client, b.client, ev), bytesSent := b.bytesSent + sent)])
  }

  // ----- What the log says -----

  /** The bytes owed to backend i: its accepted lines, each whole and followed by one newline. */
  function Wire(log: seq<Entry>, i: nat): Bytes {
    if log == [] then []
    else
      var e := log[|log| - 1];
      Wire(log[..|log| - 1], i) + if e.verdict == To(i) && e.accepted then e.line + [NEWLINE] else []
  }

  /** How many lines met a verdict and an acceptance. */
  function Tally(log: seq<Entry>, v: Verdict, accepted: bool): nat {
    if log == [] then 0
    else
      var e := log[|log| - 1];
      Tally(log[..|log| - 1], v, accepted) + if e.verdict == v && e.accepted == accepted then 1 else 0
  }

  ghost predicate BackendInv(config: ClientConfig, b: Backend, log: seq<Entry>, i: nat) {
    && ClientInv(config, b.client)
    && b.client.sent + b.client.queue.data == Wire(log, i)
    && b.bytesSent == |b.client.sent|
    && b.bytesQueued == |Wire(log, i)|
    && b.relayedLines == Tally(log, To(i), true)
    && b.droppedLines == Tally(log, To(i), false)
  }

  /** Every logged verdict is the one the line deserves, and only a routed line is accepted. */
  ghost predicate EntryOk(w: World, s: Server, e: Entry) {
    e.verdict == Route(w, s.config, s.ring, e.line) && (e.accepted ==> e.verdict.To?)
  }

  ghost predicate ServerInv(w: World, s: Server) {
    && s.WellFormed()
    && (forall i :: 0 <= i < |s.backends| ==> BackendInv(s.config.client, s.backends[i], s.log, i))
    && s.malformed == Tally(s.log, Malformed, false)
    && (forall k :: 0 <= k < |s.log| ==> EntryOk(w, s, s.log[k]))
  }

  /** The server may gain log entries and change backends, but keeps its identity. */
  ghost predicate Grown(s: Server, t: Server) {
    t.config == s.config && t.ring == s.ring && |t.backends| == |s.backends| && s.log <= t.log
    && forall i :: 0 <= i < |s.backends| ==> t.backends[i].key == s.backends[i].key
  }

  lemma SendToPreserves(config: ClientConfig, b: Backend, line: Bytes, e: SendEnv, log: seq<Entry>, i: nat, entry: Entry)
    requires BackendInv(config, b, log, i)
    requires entry.line == line && entry.verdict == To(i) && entry.accepted == (SendTo(config, b, line, e).1 == 0)
    ensures BackendInv(config, SendTo(config, b, line, e).0, log + [entry], i)
  {
    assert b.client.queue.Valid();
    hide SendAll, ClientInv;
    SendEffect(config, b.client, line + [NEWLINE], e);
    SendPreserves(config, b.client, line + [NEWLINE], e);
    assert (log + [entry])[..|log|] == log;
    assert b.client.sent + (b.client.queue.data + (line + [NEWLINE])) == (b.client.sent + b.client.queue.data) + (line + [NEWLINE]);
  }

  lemma OtherBackendPreserved(config: ClientConfig, b: Backend, log: seq<Entry>, i: nat, entry: Entry)
    requires BackendInv(config, b, log, i) && entry.verdict != To(i)
    ensures BackendInv(config, b, log + [entry], i)
  {
    hide ClientInv;
    assert (log + [entry])[..|log|] == log;
  }

  lemma RelayLineBackends(w: World, s: Server, src: Source, line: Bytes, i: nat)
    requires ServerInv(w, s) && i < |s.backends|
    ensures var t := RelayLine(w, s, src, line).0; BackendInv(t.config.client, t.backends[i], t.log, i)
  {
    hide BackendInv, Route, SendTo, EntryOk;
    assert BackendInv(s.config.client, s.backends[i], s.log, i);
    var v := Route(w, s.config, s.ring, line);
    var entry := Entry(src, line, v, RelayLine(w, s, src, line).1 == 0);
    if v == To(i) {
      SendToPreserves(s.config.client, s.backends[i], line, w.send(s.sends), s.log, i, entry);
    } else {
      OtherBackendPreserved(s.config.client, s.backends[i], s.log, i, entry);
    }
  }

  lemma RelayLineLog(w: World, s: Server, src: Source, line: Bytes)
    requires s.WellFormed()
    ensures var (t, rc) := RelayLine(w, s, src, line);
      && Grown(s, t)
      && t.log == s.log + [Entry(src, line, Route(w, s.config, s.ring, line), rc == 0)]
      && (rc == 0 ==> Route(w, s.config, s.ring, line).To?)
      && t.malformed == s.malformed + if Route(w, s.config, s.ring, line) == Malformed then 1 else 0
  {
    hide Route, SendTo;
  }

  /** One line adds exactly one entry to the log and keeps the invariant. */
  lemma RelayLinePreserves(w: World, s: Server, src: Source, line: Bytes)
    requires ServerInv(w, s)
    ensures var (t, rc) := RelayLine(w, s, src, line);
      ServerInv(w, t) && Grown(s, t) && |t.log| == |s.log| + 1 &&
      t.log[|s.log|].src == src && t.log[|s.log|].line == line && (t.log[|s.log|].accepted <==> rc == 0)
  {
    hide BackendInv, Route, RelayLine;
    var t := RelayLine(w, s, src, line).0;
    RelayLineLog(w, s, src, line);
    forall i | 0 <= i < |t.backends|
      ensures BackendInv(t.config.client, t.backends[i], t.log, i)
    {
      RelayLineBackends(w, s, src, line, i);
    }
    assert t.log[..|s.log|] == s.log;
  }

  lemma CallbackPreserves(w: World, s: Server, i: nat, ev: ClientEvent)
    requires ServerInv(w, s) && i < |s.backends| && !ev.Send?
    ensures ServerInv(w, Callback(s, i, ev)) && Grown(s, Callback(s, i, ev)) && Callback(s, i, ev).log == s.log
  {
    hide BackendInv, Route, Step, Transmitted, Enabled;
    assert BackendInv(s.config.client, s.backends[i], s.log, i);
    CallbackBackend(s.config.client, s.backends[i], Callback(s, i, ev).backends[i], s.log, i, ev);
  }

  lemma CallbackBackend(config: ClientConfig, b: Backend, b': Backend, log: seq<Entry>, i: nat, ev: ClientEvent)
    requires BackendInv(config, b, log, i) && !ev.Send?
    requires b' == b.(client := Step(config, b.client, ev), bytesSent := b.bytesSent +
      if ev.WriteReady? && Enabled(b.client, ev) then Transmitted(b.client, ev.writable, ev.len) else 0)
    ensures BackendInv(config, b', log, i)
  {
    StepPreserves(config, b.client, ev);
    CallbackEffect(config, b.client, ev);
    hide ClientInv, Wire, Tally;
  }

  // ----- Conservation -----

  /** Lines routed to backends 0..n. */
  function Routed(backends: seq<Backend>, n: nat): nat
    requires n <= |backends|
  {
    if n == 0 then 0 else Routed(backends, n - 1) + backends[n - 1].relayedLines + backends[n - 1].droppedLines
  }

  function RoutedTally(log: seq<Entry>, n: nat): nat {
    if n == 0 then 0 else RoutedTally(log, n - 1) + Tally(log, To(n - 1), true) + Tally(log, To(n - 1), false)
  }

  lemma {:induction false} RoutedTallyStep(log: seq<Entry>, n: nat)
    requires log != []
    ensures RoutedTally(log, n) == RoutedTally(log[..|log| - 1], n) +
      if log[|log| - 1].verdict.To? && log[|log| - 1].verdict.backend < n then 1 else 0
  {
    if n > 0 {
      RoutedTallyStep(log, n - 1);
    }
  }

  lemma {:induction false} RoutedTallyZero(n: nat)
    ensures RoutedTally([], n) == 0
  {
    if n > 0 {
      RoutedTallyZero(n - 1);
    }
  }

  lemma {:induction false} TallyComplete(log: seq<Entry>, n: nat)
    requires forall k :: 0 <= k < |log| ==>
      (log[k].accepted ==> log[k].verdict.To?) && (log[k].verdict.To? ==> log[k].verdict.backend < n)
    ensures |log| == RoutedTally(log, n) + Tally(log, Malformed, false) + Tally(log, Rejected, false) + Tally(log, Unroutable, false)
  {
    if log == [] {
      RoutedTallyZero(n);
    } else {
      TallyComplete(log[..|log| - 1], n);
      RoutedTallyStep(log, n);
    }
  }

  lemma {:induction false} RoutedIsTally(w: World, s: Server, n: nat)
    requires ServerInv(w, s) && n <= |s.backends|
    ensures Routed(s.backends, n) == RoutedTally(s.log, n)
  {
    hide ClientInv, Wire, Tally, EntryOk;
    if n > 0 {
      RoutedIsTally(w, s, n - 1);
      assert BackendInv(s.config.client, s.backends[n - 1], s.log, n - 1);
    }
  }

  /**
   * Every line given to the relay is counted exactly once: as relayed or dropped by one
   * backend, as malformed, as rejected by the validator, or as unroutable.
   */
  lemma LinesConserved(w: World, s: Server)
    requires ServerInv(w, s)
    ensures |s.log| == Routed(s.backends, |s.backends|) + s.malformed +
      Tally(s.log, Rejected, false) + Tally(s.log, Unroutable, false)
  {
    hide BackendInv, Route;
    assert forall k :: 0 <= k < |s.log| ==> EntryOk(w, s, s.log[k]);
    RoutedIsTally(w, s, |s.backends|);
    TallyComplete(s.log, |s.backends|);
  }

  /** With statsd validation on, no line is ever counted as malformed. */
  lemma {:induction false} ValidatedStatsdNeverMalformed(w: World, s: Server)
    requires ServerInv(w, s) && s.config.validate && s.config.proto == Statsd
    ensures s.malformed == 0
  {
    hide BackendInv;
    NoMalformed(w, s, s.log);
  }

  lemma {:induction false} NoMalformed(w: World, s: Server, log: seq<Entry>)
    requires s.config.validate && s.config.proto == Statsd
    requires forall k :: 0 <= k < |log| ==> EntryOk(w, s, log[k])
    ensures Tally(log, Malformed, false) == 0
  {
    if log != [] {
      NoMalformed(w, s, log[..|log| - 1]);
      var line := log[|log| - 1].line;
      if ValidStatsd(w.numeric, line) {
        StatsdExact(w.numeric, line);
        var key, value, kind, rate :| IsStatsd(w.numeric, line, key, value, kind, rate);
        ValidStatsdHasKey(w.numeric, line, key, value, kind, rate);
      }
    }
  }

  // ----- Loading the ring -----

  /** find_backend: the index of the backend stored under `key`, or the number of backends. */
  function Find(backends: seq<Backend>, key: string): (i: nat)
    ensures i <= |backends|
    ensures i < |backends| ==> backends[i].key == key
    ensures forall j :: 0 <= j < i ==> backends[j].key != key
  {
    if backends == [] then 0
    else if backends[0].key == key then 0
    else 1 + Find(backends[1..], key)
  }

  function NewBackend(key: string, link: Link): Backend {
    Backend(key, NewClient().(link := link), 0, 0, 0, 0, false)
  }

  /** make_backend: None is its NULL. */
  function Make(config: ClientConfig, backends: seq<Backend>, line: string, e: ConnectEnv): (r: Option<(seq<Backend>, nat)>)
    ensures r.Some? ==> r.value.1 < |r.value.0|
  {
    var key := Normalise(line);
    if key.None? then None
    else
      var i := Find(backends, key.value);
      if i < |backends| then Some((backends, i))
      else
        var (link, rc) := Connect(config, NEW_LINK, e);
        if rc != 0 then None else Some((backends + [NewBackend(key.value, link)], |backends|))
  }

  /** hashring_load_from_config; `envs` gives the system calls made for each line. */
  function Load(config: ClientConfig, lines: seq<string>, envs: nat -> ConnectEnv): (r: Option<(seq<Backend>, seq<nat>)>)
    ensures r.Some? ==> |r.value.1| == |lines|
  {
    if lines == [] then Some(([], []))
    else
      var n := |lines| - 1;
      var before := Load(config, lines[..n], envs);
      if before.None? then None
      else
        var made := Make(config, before.value.0, lines[n], envs(n));
        if made.None? then None else Some((made.value.0, before.value.1 + [made.value.1]))
  }

  ghost predicate Loaded(config: ClientConfig, lines: seq<string>, backends: seq<Backend>, ring: seq<nat>) {
    && |ring| == |lines|
    && (forall k :: 0 <= k < |lines| ==> ':' in lines[k])
    && (forall k :: 0 <= k < |ring| ==> ring[k] < |backends| && Some(backends[ring[k]].key) == Normalise(lines[k]))
    && (forall i, j :: 0 <= i < j < |backends| ==> backends[i].key != backends[j].key)
    && (forall i :: 0 <= i < |backends| ==> i in ring)
    && (forall i :: 0 <= i < |backends| ==>
          Started(config, backends[i].client) && backends[i] == NewBackend(backends[i].key, backends[i].client.link))
  }

  lemma FreshBackend(config: ClientConfig, key: string, e: ConnectEnv)
    requires Connect(config, NEW_LINK, e).1 == 0
    ensures Started(config, NewBackend(key, Connect(config, NEW_LINK, e).0).client)
  {
    hide Connect;
  }

  lemma MakeLoads(config: ClientConfig, lines: seq<string>, backends: seq<Backend>, ring: seq<nat>, line: string, e: ConnectEnv)
    requires Loaded(config, lines, backends, ring) && Make(config, backends, line, e).Some?
    ensures var (bs, i) := Make(config, backends, line, e).value; Loaded(config, lines + [line], bs, ring + [i])
  {
    hide Connect, Started, Normalise, Find;
    var (bs, i) := Make(config, backends, line, e).value;
    var r := ring + [i];
    if i == |backends| {
      FreshBackend(config, Normalise(line).value, e);
    }
    forall j | 0 <= j < |bs| ensures j in r {
      if j < |backends| {
        assert j in ring;
      } else {
        assert r[|ring|] == j;
      }
    }
  }

  lemma {:induction false} LoadIsLoaded(config: ClientConfig, lines: seq<string>, envs: nat -> ConnectEnv)
    requires Load(config, lines, envs).Some?
    ensures var (backends, ring) := Load(config, lines, envs).value; Loaded(config, lines, backends, ring)
  {
    hide Make, Loaded, Load;
    LoadSnoc(config, lines, envs);
    if lines == [] {
      NothingLoaded(config);
    } else {
      var n := |lines| - 1;
      LoadIsLoaded(config, lines[..n], envs);
      var (bs, r) := Load(config, lines[..n], envs).value;
      MakeLoads(config, lines[..n], bs, r, lines[n], envs(n));
      assert lines[..n] + [lines[n]] == lines;
    }
  }

  lemma NothingLoaded(config: ClientConfig)
    ensures Loaded(config, [], [], [])
  {}

  lemma LoadSnoc(config: ClientConfig, lines: seq<string>, envs: nat -> ConnectEnv)
    ensures Load(config, lines, envs) ==
      if lines == [] then Some(([], []))
      else
        var n := |lines| - 1;
        var before := Load(config, lines[..n], envs);
        if before.None? then None
        else
          var made := Make(config, before.value.0, lines[n], envs(n));
          if made.None? then None else Some((made.value.0, before.value.1 + [made.value.1]))
  {
    hide Make;
  }

  /** Sharing is exact: two shards have one backend iff their lines name the same endpoint. */
  lemma SharingExact(config: ClientConfig, lines: seq<string>, envs: nat -> ConnectEnv, i: nat, j: nat)
    requires Load(config, lines, envs).Some? && i < |lines| && j < |lines|
    ensures var (backends, ring) := Load(config, lines, envs).value;
      |ring| == |lines| && (ring[i] == ring[j] <==> Parse(lines[i]) == Parse(lines[j]))
  {
    hide Load, Parse, Normalise;
    LoadIsLoaded(config, lines, envs);
    var (backends, ring) := Load(config, lines, envs).value;
    SameKeyIff(lines[i], lines[j]);
    assert ring[i] != ring[j] ==> backends[ring[i]].key != backends[ring[j]].key;
  }

  ghost predicate LineFails(config: ClientConfig, lines: seq<string>, envs: nat -> ConnectEnv, k: nat)
    requires k < |lines|
  {
    ':' !in lines[k] ||
    (Connect(config, NEW_LINK, envs(k)).1 != 0 && forall j :: 0 <= j < k ==> Normalise(lines[j]) != Normalise(lines[k]))
  }

  lemma LineFailsPrefix(config: ClientConfig, lines: seq<string>, envs: nat -> ConnectEnv, n: nat, k: nat)
    requires k < n <= |lines|
    ensures LineFails(config, lines[..n], envs, k) <==> LineFails(config, lines, envs, k)
  {
    hide Normalise, Connect;
    assert forall j :: 0 <= j < n ==> lines[..n][j] == lines[j];
  }

  /** Loading fails exactly when a line has no colon or the first connect to a new endpoint fails. */
  lemma {:induction false} LoadFailsIff(config: ClientConfig, lines: seq<string>, envs: nat -> ConnectEnv)
    ensures Load(config, lines, envs).None? <==>
      exists k :: 0 <= k < |lines| && LineFails(config, lines, envs, k)
  {
    hide LineFails, Load;
    if lines == [] {
      LoadSnoc(config, lines, envs);
    } else {
      var n := |lines| - 1;
      LoadFailsIff(config, lines[..n], envs);
      forall k | 0 <= k < n ensures LineFails(config, lines[..n], envs, k) <==> LineFails(config, lines, envs, k) {
        LineFailsPrefix(config, lines, envs, n, k);
      }
      if Load(config, lines[..n], envs).None? {
        LoadPrefix(config, lines, envs);
      } else {
        LastLineFails(config, lines, envs);
      }
    }
  }

  lemma LoadPrefix(config: ClientConfig, lines: seq<string>, envs: nat -> ConnectEnv)
    requires lines != [] && Load(config, lines[..|lines| - 1], envs).None?
    ensures Load(config, lines, envs).None?
  {
    hide Make;
  }

  lemma LastLineFails(config: ClientConfig, lines: seq<string>, envs: nat -> ConnectEnv)
    requires lines != [] && Load(config, lines[..|lines| - 1], envs).Some?
    ensures Load(config, lines, envs).None? <==> LineFails(config, lines, envs, |lines| - 1)
  {
    hide Normalise, Connect, Find;
    var n := |lines| - 1;
    LoadIsLoaded(config, lines[..n], envs);
    var (bs, r) := Load(config, lines[..n], envs).value;
    if ':' in lines[n] {
      NewKeyIff(config, lines[..n], bs, r, Normalise(lines[n]));
      assert forall j :: 0 <= j < n ==> lines[..n][j] == lines[j];
    }
  }

  lemma NewKeyIff(config: ClientConfig, lines: seq<string>, backends: seq<Backend>, ring: seq<nat>, key: Option<string>)
    requires Loaded(config, lines, backends, ring) && key.Some?
    ensures Find(backends, key.value) == |backends| <==> forall j :: 0 <= j < |lines| ==> Normalise(lines[j]) != key
  {
    hide Find, Normalise;
    var i := Find(backends, key.value);
    if i < |backends| {
      assert i in ring;
      var k :| 0 <= k < |ring| && ring[k] == i;
      assert Normalise(lines[k]) == key;
    }
  }

  /** A server as stats_server_create returns it. */
  ghost predicate Created(s: Server, lines: seq<string>) {
    && Loaded(s.config.client, lines, s.backends, s.ring)
    && s.malformed == s.bytesTcp == s.bytesUdp == s.connections == s.sends == 0 && s.log == []
  }

  lemma CreatedInv(w: World, s: Server, lines: seq<string>)
    requires Created(s, lines)
    ensures ServerInv(w, s)
  {
    hide ClientInv;
    forall i | 0 <= i < |s.backends|
      ensures BackendInv(s.config.client, s.backends[i], s.log, i)
    {
      StartEstablishes(s.config.client, s.backends[i].client);
    }
  }

  /**
   * Stability: between two servers with equally many shards, the endpoint a line is routed
   * to changes exactly when the endpoint named on its shard's own line changes.
   */
  lemma RoutingStable(w: World, s: Server, t: Server, lines: seq<string>, lines': seq<string>, line: Bytes)
    requires Loaded(s.config.client, lines, s.backends, s.ring)
    requires Loaded(t.config.client, lines', t.backends, t.ring)
    requires s.config == t.config && |lines| == |lines'|
    requires Route(w, s.config, s.ring, line).To?
    ensures Route(w, t.config, t.ring, line).To?
    ensures var shard := Choose(s.ring, line[..ParseKey(s.config.proto, line)]).value.0;
      s.backends[Route(w, s.config, s.ring, line).backend].key == t.backends[Route(w, t.config, t.ring, line).backend].key
      <==> Parse(lines[shard]) == Parse(lines'[shard])
  {
    hide Parse, Normalise;
    var key := line[..ParseKey(s.config.proto, line)];
    var shard := Choose(s.ring, key).value.0;
    assert Choose(t.ring, key).value.0 == shard;
    SameKeyIff(lines[shard], lines'[shard]);
  }
}
