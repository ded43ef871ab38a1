/**
 * worker/HttpServiceChecker.kt: builds one HTTP request for a service and
 * reports what came back as a status string. The platform's side of the
 * connection (opening it, accepting the method, taking the body, and the
 * response or exception of the exchange) is an input, `Network`; the request
 * the checker configures is kept as the state of a `Connection` object.
 */
module HttpChecker {
  import opened Wrappers
  import opened Strings
  import opened Decimal
  import opened Utf8
  import opened Headers
  import opened ServiceModel

  /** Connect and read timeout, in milliseconds. */
  const Timeout: int := 5000

  /** The methods for which a non-empty body is written. */
  const BodyMethods: seq<string> := ["POST", "PUT", "PATCH", "DELETE"]

  /** How one platform call ended: normally, or with an exception and its message. */
  datatype Step = Done | Failed(message: Option<string>)

  /** What `connect()` and the reading of the status line gave. */
  datatype Exchange = Response(code: int, message: Option<string>) | ExchangeFailed(reason: Option<string>)

  /**
   * The platform: `URL(..).openConnection()`, whether that connection is an
   * `HttpsURLConnection`, whether `setRequestProperty` accepts a header (it
   * rejects, for example, an empty name or a control character), whether the
   * `requestMethod` setter accepts a method, writing the body, and the
   * exchange itself.
   */
  datatype Network = Network(
    open: Step,
    isHttps: bool,
    acceptHeader: Header -> Step,
    acceptMethod: string -> Step,
    write: Step,
    exchange: Exchange)

  /**
   * Where `forEach { setRequestProperty(..) }` stops: the index of the first
   * header the platform rejects, or the number of headers when it takes all.
   */
  function FirstRejected(hs: seq<Header>, accept: Header -> Step): (k: nat)
    ensures k <= |hs|
    ensures forall j :: 0 <= j < k ==> accept(hs[j]).Done?
    ensures k < |hs| ==> accept(hs[k]).Failed?
  {
    if |hs| == 0 then 0
    else if accept(hs[0]).Failed? then 0
    else
      var k := 1 + FirstRejected(hs[1..], accept);
      assert forall j :: 1 <= j < k ==> hs[j] == hs[1..][j - 1];
      k
  }

  /** An index with every header before it taken and a rejected header (or the end) at it is where setting stops. */
  lemma FirstRejectedIs(hs: seq<Header>, accept: Header -> Step, i: nat)
    requires i <= |hs|
    requires forall j :: 0 <= j < i ==> accept(hs[j]).Done?
    requires i == |hs| || accept(hs[i]).Failed?
    ensures FirstRejected(hs, accept) == i
  {
  }

  /** Every header is accepted exactly when no header is rejected. */
  lemma AllHeadersAccepted(hs: seq<Header>, accept: Header -> Step)
    ensures FirstRejected(hs, accept) == |hs| <==> forall j :: 0 <= j < |hs| ==> accept(hs[j]).Done?
  {
  }

  /** Whether `setRequestProperty` took every parsed header of the service. */
  predicate HeadersAccepted(s: Service, net: Network) {
    FirstRejected(ParseHeaders(s.headers), net.acceptHeader) == |ParseHeaders(s.headers)|
  }

  /** How setting the service's headers ended: `Done`, or the first rejection. */
  function HeaderStep(s: Service, net: Network): (r: Step)
    ensures r.Done? <==> HeadersAccepted(s, net)
    ensures r.Failed? ==> r == net.acceptHeader(ParseHeaders(s.headers)[FirstRejected(ParseHeaders(s.headers), net.acceptHeader)])
  {
    var hs := ParseHeaders(s.headers);
    var k := FirstRejected(hs, net.acceptHeader);
    if k < |hs| then net.acceptHeader(hs[k]) else Done
  }

  /** A step that threw reports "ok" exactly when its message is "ok". */
  lemma StepOk(step: Step)
    requires step.Failed?
    ensures OrEmpty(step.message) == "ok" <==> step == Failed(Some("ok"))
  {
  }

  /** `service.method.ifEmpty { "GET" }.uppercase()`. */
  function EffectiveMethod(m: string): (r: string)
    ensures m == "" ==> r == "GET"
    ensures m != "" ==> r == Uppercase(m)
    ensures |r| > 0
  {
    Uppercase(if m == "" then "GET" else m)
  }

  /** Normalising a normalised method changes nothing. */
  lemma EffectiveMethodIdempotent(m: string)
    ensures EffectiveMethod(EffectiveMethod(m)) == EffectiveMethod(m)
  {
    assert Uppercase("GET") == "GET";
    UppercaseIdempotent(if m == "" then "GET" else m);
  }

  /** Line 29's test: a body is written for POST, PUT, PATCH and DELETE, and only when there is one. */
  predicate SendsBody(verb: string, body: string) {
    verb in BodyMethods && body != ""
  }

  /** A service without a method is a GET and never sends a body; an empty body is never sent. */
  lemma GetSendsNoBody(body: string, verb: string)
    ensures !SendsBody(EffectiveMethod(""), body)
    ensures !SendsBody(EffectiveMethod("get"), body)
    ensures !SendsBody(verb, "")
  {
    assert Uppercase("GET") == "GET";
    assert Uppercase("get") == "GET";
  }

  /** Upper-casing makes a lower-case "post" send its body. */
  lemma LowerCasePostSendsBody(body: string)
    requires body != ""
    ensures EffectiveMethod("post") == "POST"
    ensures SendsBody(EffectiveMethod("post"), body)
  {
    assert Uppercase("post") == "POST";
  }

  /** Line 18: the trust-all socket factory is installed for HTTPS with a certificate set. */
  predicate NeedsCustomTrust(isHttps: bool, sha1Certificate: string) {
    isHttps && sha1Certificate != ""
  }

  /** `"${code} ${message}"`; a null message is written "null". */
  function StatusLine(code: int, message: Option<string>): (r: string)
    ensures Show(code) <= r && |r| > |Show(code)| && r[|Show(code)|] == ' '
    ensures r[|Show(code)| + 1..] == message.GetOr("null")
  {
    Show(code) + " " + message.GetOr("null")
  }

  /** Line 39: "ok" for a 2xx code, otherwise the code and the message. */
  function Classify(code: int, message: Option<string>): (r: string)
    ensures 200 <= code <= 299 ==> r == "ok"
    ensures !(200 <= code <= 299) ==> r == StatusLine(code, message)
  {
    if 200 <= code <= 299 then "ok" else StatusLine(code, message)
  }

  /** A status line never reads "ok": it starts with a digit or '-'. */
  lemma StatusLineNotOk(code: int, message: Option<string>)
    ensures StatusLine(code, message) != "ok"
  {
    var r := StatusLine(code, message);
    assert r[0] == Show(code)[0];
    assert IsDigit(r[0]) || r[0] == '-';
  }

  /** The classification reads "ok" exactly for the codes 200 to 299. */
  lemma ClassifyOk(code: int, message: Option<string>)
    ensures Classify(code, message) == "ok" <==> 200 <= code <= 299
  {
    StatusLineNotOk(code, message);
  }

  /** The code can be read back from a non-2xx status: it is the text before the first space. */
  lemma ClassifyKeepsCode(code: int, message: Option<string>)
    requires IsInt32(code) && !(200 <= code <= 299)
    ensures ' ' in Classify(code, message)
    ensures ToIntOrNull(UpTo(Classify(code, message), ' ')) == Some(code)
  {
    var shown := Show(code);
    assert ' ' !in shown by {
      if n :| 0 <= n < |shown| && shown[n] == ' ' {
        assert n == 0 || shown[1..][n - 1] == ' ';
      }
    }
    assert Classify(code, message) == shown + [' '] + message.GetOr("null");
    UpToPrefix(shown, ' ', message.GetOr("null"));
    ToIntOrNullShow(code);
  }

  /** Whether every step before the exchange went through. */
  predicate Reached(s: Service, net: Network) {
    var verb := EffectiveMethod(s.requestMethod);
    net.open.Done? && HeadersAccepted(s, net) && net.acceptMethod(verb).Done?
    && !(SendsBody(verb, s.body) && net.write.Failed?)
  }

  /**
   * `check()` as a function of the platform's answers: the message of the
   * first exception (or ""), else the classification of the response.
   */
  function HttpStatus(s: Service, net: Network): (r: string)
    ensures net.open.Failed? ==> r == OrEmpty(net.open.message)
    ensures net.open.Done? && HeaderStep(s, net).Failed? ==> r == OrEmpty(HeaderStep(s, net).message)
    ensures var verb := EffectiveMethod(s.requestMethod);
      net.open.Done? && HeadersAccepted(s, net) && net.acceptMethod(verb).Failed? ==>
        r == OrEmpty(net.acceptMethod(verb).message)
    ensures var verb := EffectiveMethod(s.requestMethod);
      net.open.Done? && HeadersAccepted(s, net) && net.acceptMethod(verb).Done?
      && SendsBody(verb, s.body) && net.write.Failed? ==>
        r == OrEmpty(net.write.message)
    ensures Reached(s, net) && net.exchange.Response? ==>
      r == Classify(net.exchange.code, net.exchange.message)
    ensures Reached(s, net) && net.exchange.ExchangeFailed? ==> r == OrEmpty(net.exchange.reason)
  {
    var verb := EffectiveMethod(s.requestMethod);
    if net.open.Failed? then OrEmpty(net.open.message)
    else if HeaderStep(s, net).Failed? then OrEmpty(HeaderStep(s, net).message)
    else if net.acceptMethod(verb).Failed? then OrEmpty(net.acceptMethod(verb).message)
    else if SendsBody(verb, s.body) && net.write.Failed? then OrEmpty(net.write.message)
    else match net.exchange
      case Response(code, message) => Classify(code, message)
      case ExchangeFailed(reason) => OrEmpty(reason)
  }

  /**
   * The ways `check()` can end in "ok": a 2xx response, or an exception,
   * at whichever step, whose own message is "ok".
   */
  predicate OkPath(s: Service, net: Network) {
    var verb := EffectiveMethod(s.requestMethod);
    || (Reached(s, net) && net.exchange.Response? && 200 <= net.exchange.code <= 299)
    || net.open == Failed(Some("ok"))
    || (net.open.Done? && HeaderStep(s, net) == Failed(Some("ok")))
    || (net.open.Done? && HeadersAccepted(s, net) && net.acceptMethod(verb) == Failed(Some("ok")))
    || (net.open.Done? && HeadersAccepted(s, net) && net.acceptMethod(verb).Done?
        && SendsBody(verb, s.body) && net.write == Failed(Some("ok")))
    || (Reached(s, net) && net.exchange == ExchangeFailed(Some("ok")))
  }

  /**
   * The check reports "ok" exactly when the exchange answered with a 2xx code,
   * or when an exception's own message was "ok".
   */
  lemma HttpStatusOk(s: Service, net: Network)
    ensures HttpStatus(s, net) == "ok" <==> OkPath(s, net)
  {
    var verb := EffectiveMethod(s.requestMethod);
    var status := HttpStatus(s, net);
    if net.open.Failed? {
      StepOk(net.open);
      assert status == OrEmpty(net.open.message);
      assert OkPath(s, net) <==> net.open == Failed(Some("ok"));
    } else if HeaderStep(s, net).Failed? {
      StepOk(HeaderStep(s, net));
      assert status == OrEmpty(HeaderStep(s, net).message);
      assert !Reached(s, net) && !HeadersAccepted(s, net);
      assert OkPath(s, net) <==> HeaderStep(s, net) == Failed(Some("ok"));
    } else if net.acceptMethod(verb).Failed? {
      StepOk(net.acceptMethod(verb));
      assert HeadersAccepted(s, net) && !Reached(s, net);
      assert status == OrEmpty(net.acceptMethod(verb).message);
      assert OkPath(s, net) <==> net.acceptMethod(verb) == Failed(Some("ok"));
    } else if SendsBody(verb, s.body) && net.write.Failed? {
      StepOk(net.write);
      assert HeadersAccepted(s, net) && !Reached(s, net);
      assert status == OrEmpty(net.write.message);
      assert OkPath(s, net) <==> net.write == Failed(Some("ok"));
    } else {
      assert Reached(s, net);
      match net.exchange {
        case Response(code, message) =>
          assert status == Classify(code, message);
          ClassifyOk(code, message);
          assert OkPath(s, net) <==> 200 <= code <= 299;
        case ExchangeFailed(reason) =>
          assert status == OrEmpty(reason);
          assert OkPath(s, net) <==> reason == Some("ok");
      }
    }
  }

  /** An exception without a message is stored as the empty status, which is not "ok". */
  lemma SilentFailureIsEmpty(s: Service, net: Network)
    requires net.open == Failed(None) || (Reached(s, net) && net.exchange == ExchangeFailed(None))
    ensures HttpStatus(s, net) == "" && HttpStatus(s, net) != "ok"
  {
  }

  /** The request as the checker leaves the connection. */
  datatype Request = Request(
    properties: seq<Header>,
    connectTimeout: int,
    readTimeout: int,
    requestMethod: string,
    doOutput: bool,
    output: seq<byte>,
    customTrust: bool)

  /**
   * The connection's state after `check()` on an opened connection. A rejected
   * header ends the configuration: only the headers before it are set, and
   * neither the timeouts nor the method are.
   */
  function Prepared(s: Service, net: Network): Request {
    var hs := ParseHeaders(s.headers);
    var k := FirstRejected(hs, net.acceptHeader);
    var trust := NeedsCustomTrust(net.isHttps, s.sha1Certificate);
    if k < |hs| then Request(hs[..k], 0, 0, "GET", false, [], trust)
    else
      var verb := EffectiveMethod(s.requestMethod);
      var accepted := net.acceptMethod(verb).Done?;
      var doOutput := accepted && SendsBody(verb, s.body);
      Request(
        hs, Timeout, Timeout,
        if accepted then verb else "GET",
        doOutput,
        if doOutput && net.write.Done? then Encode(s.body) else [],
        trust)
  }

  /**
   * What the checker sets on the connection: the headers of `parseHeaders`
   * in order, up to the first one rejected; both timeouts at 5000 ms once
   * every header is set; the trust-all factory exactly for HTTPS with a
   * certificate; and an output stream only for a body method the platform
   * accepted with a non-empty body, carrying that body's bytes.
   */
  lemma PreparedRequest(s: Service, net: Network)
    ensures var r := Prepared(s, net);
      && r.properties <= ParseHeaders(s.headers)
      && (r.properties == ParseHeaders(s.headers) <==> HeadersAccepted(s, net))
      && (HeadersAccepted(s, net) ==> r.connectTimeout == Timeout && r.readTimeout == Timeout)
      && (!HeadersAccepted(s, net) ==> r.connectTimeout == 0 && r.readTimeout == 0 && r.requestMethod == "GET")
      && (r.customTrust <==> NeedsCustomTrust(net.isHttps, s.sha1Certificate))
      && (r.doOutput ==> r.requestMethod in BodyMethods && s.body != "")
      && (r.doOutput <==>
          (HeadersAccepted(s, net) && net.acceptMethod(EffectiveMethod(s.requestMethod)).Done?
           && SendsBody(EffectiveMethod(s.requestMethod), s.body)))
      && (r.output != [] ==> r.doOutput && net.write.Done? && r.output == Encode(s.body))
  {
    var hs := ParseHeaders(s.headers);
    var k := FirstRejected(hs, net.acceptHeader);
    assert hs[..k] <= hs;
    if k < |hs| {
      assert |hs[..k]| < |hs|;
    }
  }

  /**
   * A header the platform rejects ends the check: the status is that
   * rejection's message, only the headers before it are set, the timeouts
   * are never set, and no request goes out.
   */
  lemma RejectedHeaderEndsCheck(s: Service, net: Network, i: nat)
    requires net.open.Done? && i < |ParseHeaders(s.headers)|
    requires forall j :: 0 <= j < i ==> net.acceptHeader(ParseHeaders(s.headers)[j]).Done?
    requires net.acceptHeader(ParseHeaders(s.headers)[i]).Failed?
    ensures HttpStatus(s, net) == OrEmpty(net.acceptHeader(ParseHeaders(s.headers)[i]).message)
    ensures Prepared(s, net).properties == ParseHeaders(s.headers)[..i]
    ensures Prepared(s, net).connectTimeout == 0 && !Prepared(s, net).doOutput
    ensures !Reached(s, net)
  {
    FirstRejectedIs(ParseHeaders(s.headers), net.acceptHeader, i);
  }

  /**
   * The header text ":v" parses to a header with an empty name; when the
   * platform rejects it, the check reports the rejection's message.
   */
  lemma EmptyHeaderNameReported(s: Service, net: Network, m: string)
    requires s.headers == ":v" && net.open.Done?
    requires net.acceptHeader(("", "v")) == Failed(Some(m))
    ensures ParseHeaders(s.headers) == [("", "v")]
    ensures HttpStatus(s, net) == m
  {
    var hs := [("", "v")];
    assert Render(hs[0]) == ":v";
    assert Renders(hs) == [":v"];
    assert Join([":v"], ',') == ":v";
    assert Clean(hs[0]);
    RoundTrip(hs);
    RejectedHeaderEndsCheck(s, net, 0);
  }

  /** A sent body is the UTF-8 encoding of the service's body: at least one byte per character. */
  lemma SentBodyIsEncoded(s: Service, net: Network)
    requires Reached(s, net) && SendsBody(EffectiveMethod(s.requestMethod), s.body)
    ensures Prepared(s, net).output == Encode(s.body)
    ensures |s.body| <= |Prepared(s, net).output| <= 4 * |s.body|
  {
  }

  /** A service without a method sends a GET with no body and no output stream. */
  lemma DefaultRequestIsPlainGet(s: Service, net: Network)
    requires s.requestMethod == "" && net.acceptMethod("GET").Done?
    ensures Prepared(s, net).requestMethod == "GET"
    ensures !Prepared(s, net).doOutput && Prepared(s, net).output == []
  {
    GetSendsNoBody(s.body, "");
  }

  /** An `HttpURLConnection` as far as the checker configures it. */
  class Connection {
    const isHttps: bool
    const acceptHeader: Header -> Step
    var properties: seq<Header>
    var connectTimeout: int
    var readTimeout: int
    var requestMethod: string
    var doOutput: bool
    var output: seq<byte>
    var customTrust: bool

    /** A fresh connection: no properties, no timeouts, method "GET". */
    constructor (isHttps: bool, acceptHeader: Header -> Step)
      ensures this.isHttps == isHttps && this.acceptHeader == acceptHeader
      ensures properties == [] && connectTimeout == 0 && readTimeout == 0
      ensures requestMethod == "GET" && !doOutput && output == [] && !customTrust
    {
      this.isHttps := isHttps;
      this.acceptHeader := acceptHeader;
      properties := [];
      connectTimeout := 0;
      readTimeout := 0;
      requestMethod := "GET";
      doOutput := false;
      output := [];
      customTrust := false;
    }

    function State(): Request
      reads this
    {
      Request(properties, connectTimeout, readTimeout, requestMethod, doOutput, output, customTrust)
    }

    /**
     * `setRequestProperty(key, value)`: recorded after the earlier ones when
     * the platform takes it; a rejected header throws and records nothing.
     */
    method SetRequestProperty(key: string, value: string) returns (thrown: Step)
      modifies this
      ensures thrown == acceptHeader((key, value))
      ensures thrown.Done? ==> properties == old(properties) + [(key, value)]
      ensures thrown.Failed? ==> properties == old(properties)
      ensures State() == old(State()).(properties := properties)
    {
      thrown := acceptHeader((key, value));
      if thrown.Done? {
        properties := properties + [(key, value)];
      }
    }

    /**
     * `headers.forEach { (key, value) -> setRequestProperty(key, value) }`:
     * sets the headers in order and stops at the first one that throws.
     */
    method SetRequestProperties(headers: seq<Header>) returns (thrown: Step)
      modifies this
      ensures var k := FirstRejected(headers, acceptHeader);
        && properties == old(properties) + headers[..k]
        && thrown == (if k < |headers| then acceptHeader(headers[k]) else Done)
      ensures State() == old(State()).(properties := properties)
    {
      var i := 0;
      thrown := Done;
      while i < |headers|
        invariant 0 <= i <= |headers|
        invariant forall j :: 0 <= j < i ==> acceptHeader(headers[j]).Done?
        invariant properties == old(properties) + headers[..i]
        invariant State() == old(State()).(properties := properties)
        invariant thrown == Done
      {
        thrown := SetRequestProperty(headers[i].0, headers[i].1);
        if thrown.Failed? {
          FirstRejectedIs(headers, acceptHeader, i);
          return;
        }
        assert headers[..i + 1] == headers[..i] + [headers[i]];
        i := i + 1;
      }
      FirstRejectedIs(headers, acceptHeader, i);
      assert headers[..i] == headers;
    }
  }

  /** `HttpServiceChecker(service)`. */
  class HttpServiceChecker {
    const service: Service

    constructor (service: Service)
      ensures this.service == service
    {
      this.service := service;
    }

    /**
     * Lines 18-26: the trust manager, the headers in order and both timeouts.
     * A header that throws ends the configuration there, and is returned.
     */
    method ConfigureConnection(conn: Connection) returns (thrown: Step)
      requires conn.State() == Request([], 0, 0, "GET", false, [], false)
      modifies conn
      ensures var hs := ParseHeaders(service.headers);
        var k := FirstRejected(hs, conn.acceptHeader);
        var trust := NeedsCustomTrust(conn.isHttps, service.sha1Certificate);
        && (k < |hs| ==> thrown == conn.acceptHeader(hs[k]) && thrown.Failed?
                         && conn.State() == Request(hs[..k], 0, 0, "GET", false, [], trust))
        && (k == |hs| ==> thrown == Done
                          && conn.State() == Request(hs, Timeout, Timeout, "GET", false, [], trust))
    {
      if conn.isHttps && service.sha1Certificate != "" {
        conn.customTrust := true;
      }
      var headers := ParseHeaders(service.headers);
      thrown := conn.SetRequestProperties(headers);
      assert [] + headers[..FirstRejected(headers, conn.acceptHeader)] == headers[..FirstRejected(headers, conn.acceptHeader)];
      if thrown.Failed? {
        return;
      }
      assert headers[..|headers|] == headers;
      conn.connectTimeout := Timeout;
      conn.readTimeout := Timeout;
    }

    /**
     * Lines 27-34: the method, then the body for a body method. An exception
     * from the method setter or from the write ends them; the step that threw
     * is returned (`Done` when none did).
     */
    method ConfigureRequest(conn: Connection, net: Network) returns (thrown: Step)
      requires conn.isHttps == net.isHttps && HeadersAccepted(service, net)
      requires conn.State() == Request(ParseHeaders(service.headers), Timeout, Timeout, "GET", false, [],
        NeedsCustomTrust(conn.isHttps, service.sha1Certificate))
      modifies conn
      ensures conn.State() == Prepared(service, net)
      ensures thrown == (
        var verb := EffectiveMethod(service.requestMethod);
        if net.acceptMethod(verb).Failed? then net.acceptMethod(verb)
        else if SendsBody(verb, service.body) && net.write.Failed? then net.write
        else Done)
    {
      var verb := EffectiveMethod(service.requestMethod);
      thrown := net.acceptMethod(verb);
      if thrown.Done? {
        conn.requestMethod := verb;
        if SendsBody(conn.requestMethod, service.body) {
          conn.doOutput := true;
          thrown := net.write;
          if thrown.Done? {
            conn.output := Encode(service.body);
          }
        }
      }
    }

    /**
     * `check()`. Also hands back the connection it configured (null when the
     * connection could not be opened), so that its state can be stated.
     */
    method Check(net: Network) returns (status: string, conn: Connection?)
      ensures status == HttpStatus(service, net)
      ensures conn == null <==> net.open.Failed?
      ensures conn != null ==> fresh(conn) && conn.State() == Prepared(service, net)
    {
      if net.open.Failed? {
        return OrEmpty(net.open.message), null;
      }
      conn := new Connection(net.isHttps, net.acceptHeader);
      var thrown := ConfigureConnection(conn);
      if thrown.Failed? {
        return OrEmpty(thrown.message), conn;
      }
      thrown := ConfigureRequest(conn, net);
      if thrown.Failed? {
        return OrEmpty(thrown.message), conn;
      }
      match net.exchange
      case Response(code, message) =>
        status := Classify(code, message);
      case ExchangeFailed(reason) =>
        status := OrEmpty(reason);
    }
  }
}
