/** What every relay variant sees of HTTP: a request method and URL go in,
    and either a response (status, `Content-Type` and a body that arrives in
    timed chunks) or a raised exception comes out. The network is a pure
    function from request to outcome, so every probing loop is a function. */
module Http {
  import opened Text

  datatype Method = Get | Head

  /** The exception classes the relays tell apart. `Cancelled` stands for a
      `BaseException` that is not an `Exception` (asyncio's `CancelledError`,
      `KeyboardInterrupt`): `except Exception` lets it through, a bare
      `except:` does not. */
  datatype Kind = Timeout | Unreachable | Other | Cancelled

  /** An exception: its class and `str(e)`. */
  datatype Failure = Failure(kind: Kind, message: string)

  /** `except Exception` catches the failure. */
  predicate Caught(f: Failure)
  {
    f.kind != Cancelled
  }

  /** A piece of body read from the connection, with the clock reading (in
      microseconds) at which it became available. */
  datatype Chunk = Chunk(data: seq<Byte>, at: int)

  /** A response body: the chunks it delivers, then either a clean end or the
      exception that interrupts the read. */
  datatype Body = Body(chunks: seq<Chunk>, fault: Option<Failure>)

  /** `contentType` is the header value, or "" when the header is missing,
      which is what `headers.get('content-type', '')` yields. */
  datatype Response = Response(status: int, contentType: string, body: Body)

  datatype Outcome = Responded(response: Response) | Raised(failure: Failure)

  /** The phone and everything between it and the relay. */
  type Network = (Method, string) -> Outcome

  /** `f"http://{ip}:{port}{path}"`. */
  function Url(ip: string, port: int, path: string): string
  {
    "http://" + ip + ":" + IntToString(port) + path
  }

  /** The lower-cased `Content-Type` names an MJPEG or single-JPEG stream: the
      test shared by the WebRTC, high-performance and FastAPI viewers. */
  predicate MjpegType(contentType: string)
  {
    var ct := Lower(contentType);
    Contains(ct, "multipart/x-mixed-replace") || Contains(ct, "image/jpeg")
  }

  /** A 200 response whose type passes `MjpegType`. */
  predicate StreamReady(r: Response)
  {
    r.status == 200 && MjpegType(r.contentType)
  }

  /** One endpoint's line in a scan report: `available` and `not_mjpeg`
      carry the lower-cased content type and the status code, `error` the
      exception text. */
  datatype ScanEntry =
    | Available(contentType: string, statusCode: int)
    | NotMjpeg(contentType: string, statusCode: int)
    | Errored(error: string)

  /** The classification both endpoint scanners apply to a response: by
      content type alone, whatever the status. */
  function Classify(r: Response): (e: ScanEntry)
    ensures e.Available? <==> MjpegType(r.contentType)
    ensures !e.Errored? && e.contentType == Lower(r.contentType) && e.statusCode == r.status
  {
    var ct := Lower(r.contentType);
    if Contains(ct, "multipart/x-mixed-replace") || Contains(ct, "image/jpeg") then Available(ct, r.status)
    else NotMjpeg(ct, r.status)
  }

  /** The probe moves past this outcome: a handled exception or a response
      the acceptance test refuses. */
  predicate Passes(o: Outcome, accept: Response -> bool, catches: Failure -> bool)
  {
    match o
    case Responded(r) => !accept(r)
    case Raised(f) => catches(f)
  }

  /** The index of the endpoint that was taken and its response. */
  datatype Found = Found(index: nat, response: Response)

  /** The fallback loop every variant repeats: request the endpoints in order,
      move on past refused responses and handled exceptions, take the first
      accepted response, and let an exception the handler does not catch
      escape. */
  function Probe(net: Network, m: Method, urls: seq<string>,
                 accept: Response -> bool, catches: Failure -> bool): (r: Result<Option<Found>, Failure>)
    ensures r.Ok? && r.value.Some? ==>
      var k := r.value.value.index;
      && k < |urls|
      && net(m, urls[k]) == Responded(r.value.value.response)
      && accept(r.value.value.response)
      && forall j :: 0 <= j < k ==> Passes(net(m, urls[j]), accept, catches)
    ensures r.Ok? && r.value.None? ==>
      forall j :: 0 <= j < |urls| ==> Passes(net(m, urls[j]), accept, catches)
    ensures r.Err? ==>
      exists k :: 0 <= k < |urls| && net(m, urls[k]) == Raised(r.error) && !catches(r.error)
        && forall j :: 0 <= j < k ==> Passes(net(m, urls[j]), accept, catches)
  {
    if |urls| == 0 then Ok(None)
    else
      match net(m, urls[0])
      case Responded(resp) =>
        if accept(resp) then Ok(Some(Found(0, resp)))
        else Shift(Probe(net, m, urls[1..], accept, catches))
      case Raised(f) =>
        if catches(f) then Shift(Probe(net, m, urls[1..], accept, catches))
        else Err(f)
  }

  function Shift(r: Result<Option<Found>, Failure>): Result<Option<Found>, Failure>
  {
    match r
    case Ok(Some(found)) => Ok(Some(Found(found.index + 1, found.response)))
    case _ => r
  }

  /** Whatever it returns, `Probe` decides on the first endpoint that the
      loop does not move past: its result depends on the outcomes up to that
      endpoint only, and is fixed by that endpoint's outcome. */
  lemma {:induction false} ProbeFirstStop(net: Network, m: Method, urls: seq<string>,
                                          accept: Response -> bool, catches: Failure -> bool, k: nat)
    requires k < |urls|
    requires forall j :: 0 <= j < k ==> Passes(net(m, urls[j]), accept, catches)
    requires !Passes(net(m, urls[k]), accept, catches)
    ensures net(m, urls[k]).Responded? ==>
      Probe(net, m, urls, accept, catches) == Ok(Some(Found(k, net(m, urls[k]).response)))
    ensures net(m, urls[k]).Raised? ==>
      Probe(net, m, urls, accept, catches) == Err(net(m, urls[k]).failure)
  {
    if k > 0 {
      assert Passes(net(m, urls[0]), accept, catches);
      forall j | 0 <= j < k - 1
        ensures Passes(net(m, urls[1..][j]), accept, catches)
      {
        assert urls[1..][j] == urls[j + 1];
      }
      ProbeFirstStop(net, m, urls[1..], accept, catches, k - 1);
    }
  }

  /** When the loop moves past every endpoint, `Probe` reports that none was taken. */
  lemma {:induction false} ProbeAllPass(net: Network, m: Method, urls: seq<string>,
                                        accept: Response -> bool, catches: Failure -> bool)
    requires forall j :: 0 <= j < |urls| ==> Passes(net(m, urls[j]), accept, catches)
    ensures Probe(net, m, urls, accept, catches) == Ok(None)
  {
    if |urls| > 0 {
      assert Passes(net(m, urls[0]), accept, catches);
      forall j | 0 <= j < |urls| - 1
        ensures Passes(net(m, urls[1..][j]), accept, catches)
      {
        assert urls[1..][j] == urls[j + 1];
      }
      ProbeAllPass(net, m, urls[1..], accept, catches);
    }
  }
}
