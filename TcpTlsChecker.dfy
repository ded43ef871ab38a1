/**
 * worker/TcpTlsServiceChecker.kt: reads a `tcp-tls://host[:port]` target and
 * maps the outcome of a TLS handshake to a status string. The socket and the
 * handshake are an input: this model only decides what host and port are
 * dialled and what the outcome is reported as.
 */
module TcpTlsChecker {
  import opened Wrappers
  import opened Strings
  import opened Decimal

  const Scheme: string := "tcp-tls://"
  const DefaultPort: int := 443

  /** The port text after the first ':' of `stripped`, if it has one. */
  function PortField(stripped: string): (r: Option<string>)
    ensures r.None? <==> ':' !in stripped
    ensures r.Some? ==> ':' !in r.value
  {
    if ':' in stripped then
      var tail := stripped[IndexOf(stripped, ':') + 1..];
      Some(UpTo(tail, ':'))
    else None
  }

  /**
   * `parseTcpTlsUrl` after the scheme is removed: the host is the first
   * ':'-separated piece, the port the second one when it reads as an `Int`,
   * and 443 otherwise.
   */
  function HostPort(stripped: string): (r: (string, int))
    ensures r.0 == UpTo(stripped, ':')
    ensures r.1 == match PortField(stripped)
      case None => DefaultPort
      case Some(field) => ToIntOrNull(field).GetOr(DefaultPort)
  {
    var parts := Split(stripped, ':');
    SplitFirst(stripped, ':');
    var port :=
      if |parts| > 1 then
        SplitAt(stripped, ':');
        SplitFirst(stripped[IndexOf(stripped, ':') + 1..], ':');
        ToIntOrNull(parts[1]).GetOr(DefaultPort)
      else
        assert ':' !in stripped by {
          if ':' in stripped {
            SplitAt(stripped, ':');
          }
        }
        DefaultPort;
    (parts[0], port)
  }

  /** `parseTcpTlsUrl`: drops one leading "tcp-tls://", then splits at ':'. */
  function ParseTcpTlsUrl(url: string): (r: (string, int))
    ensures Scheme <= url ==> r == HostPort(url[|Scheme|..])
    ensures !(Scheme <= url) ==> r == HostPort(url)
  {
    HostPort(RemovePrefix(url, Scheme))
  }

  /** The host never contains ':' and is a prefix of the text after the scheme. */
  lemma HostIsLeadingPiece(url: string)
    ensures ':' !in ParseTcpTlsUrl(url).0
    ensures ParseTcpTlsUrl(url).0 <= RemovePrefix(url, Scheme)
  {
    var stripped := RemovePrefix(url, Scheme);
    if ':' in stripped {
      var i := IndexOf(stripped, ':');
      assert forall k :: 0 <= k < i ==> stripped[..i][k] == stripped[k];
    }
  }

  /** A host and an `Int` port written as `tcp-tls://host:port` read back unchanged. */
  lemma HostPortRoundTrip(host: string, port: int)
    requires ':' !in host && IsInt32(port)
    ensures ParseTcpTlsUrl(Scheme + host + ":" + Show(port)) == (host, port)
  {
    var url := Scheme + host + ":" + Show(port);
    assert Scheme <= url;
    assert url[|Scheme|..] == host + [':'] + Show(port);
    assert ':' !in Show(port);
    PortBetweenColons(host, Show(port), "");
    ToIntOrNullShow(port);
  }

  /** Without a ':' the port is 443. */
  lemma NoColonDefaultPort(url: string)
    requires ':' !in url
    ensures ParseTcpTlsUrl(url).1 == DefaultPort
    ensures ParseTcpTlsUrl(url).0 == RemovePrefix(url, Scheme)
  {
    assert Scheme[7] == ':';
  }

  /** The port is read from the text between the first and the second ':'. */
  lemma PortBetweenColons(host: string, field: string, rest: string)
    requires ':' !in host && ':' !in field
    ensures HostPort(host + [':'] + field + [':'] + rest) == (host, ToIntOrNull(field).GetOr(DefaultPort))
    ensures HostPort(host + [':'] + field) == (host, ToIntOrNull(field).GetOr(DefaultPort))
  {
    var s1 := host + [':'] + field + [':'] + rest;
    assert s1 == host + [':'] + (field + [':'] + rest);
    UpToPrefix(host, ':', field + [':'] + rest);
    assert s1[|host| + 1..] == field + [':'] + rest;
    UpToPrefix(field, ':', rest);
    var s2 := host + [':'] + field;
    UpToPrefix(host, ':', field);
    assert s2[|host| + 1..] == field;
  }

  /** "host:8443/path" dials port 443: "8443/path" is not an integer. */
  lemma PathAfterPortFallsBack()
    ensures ParseTcpTlsUrl("host:8443/path") == ("host", 443)
  {
    var url := "host:8443/path";
    assert url[0] != Scheme[0];
    assert url == "host" + [':'] + "8443/path";
    PortBetweenColons("host", "8443/path", "");
    NotAnInteger("8443/path", 4);
  }

  /** "h:1:2" dials ("h", 1): pieces after the second ':' are ignored. */
  lemma ThirdPieceIgnored()
    ensures ParseTcpTlsUrl("h:1:2") == ("h", 1)
  {
    assert !(Scheme <= "h:1:2");
    assert "h:1:2" == "h" + [':'] + "1" + [':'] + "2";
    PortBetweenColons("h", "1", "2");
    assert Show(1) == "1";
    ToIntOrNullShow(1);
  }

  /** No port range check: a negative port is dialled as written. */
  lemma NegativePortAccepted()
    ensures ParseTcpTlsUrl("h:-5") == ("h", -5)
  {
    var url := "h:-5";
    assert url[0] != Scheme[0];
    assert url == "h" + [':'] + "-5";
    PortBetweenColons("h", "-5", "");
    assert Show(-5) == "-5";
    ToIntOrNullShow(-5);
  }

  /** No port range check: a port above 65535 is dialled as written. */
  lemma LargePortAccepted()
    ensures ParseTcpTlsUrl("h:70000") == ("h", 70000)
  {
    assert "h:70000" == "h" + [':'] + "70000";
    PortBetweenColons("h", "70000", "");
    ShowSeventyThousand();
    ToIntOrNullShow(70000);
  }

  lemma ShowSeventyThousand()
    ensures Show(70000) == "70000"
  {
    assert ShowNat(70000) == ShowNat(7000) + "0";
    assert ShowNat(7000) == ShowNat(700) + "0";
    assert ShowNat(700) == ShowNat(70) + "0";
    assert ShowNat(70) == ShowNat(7) + "0";
  }

  /** What the socket and its handshake did. */
  datatype Handshake = Completed | Threw(message: Option<string>)

  /** `check()`'s result: "ok" after a handshake, else the exception message or "". */
  function Status(outcome: Handshake): (r: string)
    ensures outcome.Completed? ==> r == "ok"
    ensures outcome.Threw? ==> r == OrEmpty(outcome.message)
  {
    match outcome
    case Completed => "ok"
    case Threw(m) => OrEmpty(m)
  }

  /**
   * The result is "ok" exactly when the handshake completed or the exception's
   * own message was "ok"; an exception without a message reports "".
   */
  lemma StatusOk(outcome: Handshake)
    ensures Status(outcome) == "ok" <==> outcome.Completed? || outcome.message == Some("ok")
    ensures outcome == Threw(None) ==> Status(outcome) == ""
  {
  }

  /**
   * `TcpTlsServiceChecker(service).check()`: `handshake` is what connecting to
   * a host and port and running the TLS handshake did.
   */
  function Check(url: string, handshake: (string, int) -> Handshake): (r: string)
    ensures r == Status(handshake(ParseTcpTlsUrl(url).0, ParseTcpTlsUrl(url).1))
  {
    var (host, port) := ParseTcpTlsUrl(url);
    Status(handshake(host, port))
  }
}
