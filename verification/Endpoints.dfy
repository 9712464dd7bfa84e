/** Shard-map lines, and the host:port:protocol keys that decide which of them share a backend. */
module Endpoints {
  import opened Bytes

  datatype Endpoint = Endpoint(host: string, port: string, protocol: string) {
    ghost predicate Clean() {
      ':' !in host && ':' !in port
    }

    function Key(): string {
      host + [':'] + (port + [':'] + protocol)
    }
  }

  /** The host, port and protocol that make_backend cuts out of a line; tcp is the default. */
  function Parse(line: string): (e: Option<Endpoint>)
    ensures e.Some? <==> ':' in line
    ensures e.Some? ==> e.value.Clean()
  {
    var colon1 := IndexOf(line, ':');
    if colon1 == |line| then None
    else
      var rest := line[colon1 + 1..];
      var colon2 := IndexOf(rest, ':');
      if colon2 == |rest| then Some(Endpoint(line[..colon1], rest, "tcp"))
      else Some(Endpoint(line[..colon1], rest[..colon2], rest[colon2 + 1..]))
  }

  /** The full_key that make_backend looks up: the line itself, with ":tcp" appended if it has one colon. */
  function Normalise(line: string): (key: Option<string>)
    ensures key.Some? <==> ':' in line
  {
    var colon1 := IndexOf(line, ':');
    if colon1 == |line| then None
    else
      var rest := line[colon1 + 1..];
      if IndexOf(rest, ':') == |rest| then Some(line + ":" + "tcp") else Some(line)
  }

  /** What a line means, by its colons: none, one, or more. */
  lemma LineIs(host: string, port: string, protocol: string)
    requires ':' !in host && ':' !in port
    ensures Parse(host).None? && Normalise(host).None?
    ensures Parse(host + ":" + port) == Some(Endpoint(host, port, "tcp"))
    ensures Normalise(host + ":" + port) == Some(host + ":" + port + ":tcp")
    ensures Parse(host + ":" + port + ":" + protocol) == Some(Endpoint(host, port, protocol))
    ensures Normalise(host + ":" + port + ":" + protocol) == Some(host + ":" + port + ":" + protocol)
  {
    hide IndexOf, Parse, Normalise;
    OneColon(host, port);
    TwoColons(host, port, protocol);
  }

  lemma OneColon(host: string, port: string)
    requires ':' !in host && ':' !in port
    ensures Parse(host + ":" + port) == Some(Endpoint(host, port, "tcp"))
    ensures Normalise(host + ":" + port) == Some(host + ":" + port + ":tcp")
  {
    hide IndexOf;
    FirstOf(host, ':', port);
    assert host + [':'] + port == host + ":" + port;
    assert host + ":" + port + ":tcp" == (host + ":" + port) + ":" + "tcp";
  }

  lemma TwoColons(host: string, port: string, protocol: string)
    requires ':' !in host && ':' !in port
    ensures Parse(host + ":" + port + ":" + protocol) == Some(Endpoint(host, port, protocol))
    ensures Normalise(host + ":" + port + ":" + protocol) == Some(host + ":" + port + ":" + protocol)
    ensures Endpoint(host, port, protocol).Key() == host + ":" + port + ":" + protocol
  {
    hide IndexOf, Parse, Normalise;
    ParseOfKey(Endpoint(host, port, protocol));
    assert host + [':'] + (port + [':'] + protocol) == host + ":" + port + ":" + protocol;
  }

  /** Parsing a key gives back the endpoint it was built from. */
  lemma ParseOfKey(e: Endpoint)
    requires e.Clean()
    ensures Parse(e.Key()) == Some(e)
    ensures Normalise(e.Key()) == Some(e.Key())
  {
    hide IndexOf;
    FirstOf(e.host, ':', e.port + [':'] + e.protocol);
    FirstOf(e.port, ':', e.protocol);
  }

  /** Host, port and protocol rejoin to the key under which the backend is stored, and are parsed from it again. */
  lemma PartsRejoin(line: string)
    requires ':' in line
    ensures Normalise(line).value == Parse(line).value.Key()
    ensures Parse(Normalise(line).value) == Parse(line)
  {
    hide IndexOf, Parse, Normalise, Endpoint.Key;
    var host, port, protocol, two := CutLine(line);
    OneColon(host, port);
    TwoColons(host, port, if two then protocol else "tcp");
    TcpAppended(host, port);
  }

  lemma TcpAppended(host: string, port: string)
    ensures host + ":" + port + ":tcp" == host + ":" + port + ":" + "tcp"
  {}

  /** A line with a colon has two parts or three. */
  lemma CutLine(line: string) returns (host: string, port: string, protocol: string, two: bool)
    requires ':' in line
    ensures ':' !in host && ':' !in port
    ensures line == if two then host + ":" + port + ":" + protocol else host + ":" + port
  {
    hide IndexOf;
    CutAt(line, ':');
    var i := IndexOf(line, ':');
    host, port, protocol, two := line[..i], line[i + 1..], "", false;
    assert line == host + ":" + port;
    if ':' in port {
      CutAt(port, ':');
      var j := IndexOf(port, ':');
      port, protocol, two := port[..j], port[j + 1..], true;
      assert line == host + ":" + (port + ":" + protocol);
      assert host + ":" + (port + ":" + protocol) == host + ":" + port + ":" + protocol;
    }
  }

  /** Normalisation is idempotent. */
  lemma NormaliseIdempotent(line: string)
    requires ':' in line
    ensures Normalise(Normalise(line).value) == Normalise(line)
  {
    PartsRejoin(line);
    ParseOfKey(Parse(line).value);
  }

  /** Two lines have one key exactly when they name the same host, port and protocol. */
  lemma SameKeyIff(a: string, b: string)
    requires ':' in a && ':' in b
    ensures Normalise(a) == Normalise(b) <==> Parse(a) == Parse(b)
  {
    PartsRejoin(a);
    PartsRejoin(b);
    ParseOfKey(Parse(a).value);
    ParseOfKey(Parse(b).value);
  }
}
