/** `DroidCamStreamer` of fastapi_viewer.py and its direct-proxy `/stream`
    route: the sequential endpoint scan, the rate-limited fallback stream,
    and the proxy that forwards `/video` with a rough per-chunk pause. */
module FastApiViewer {
  import opened Text
  import opened Http
  import opened Sessions
  import opened Governor

  /** The endpoints `scan_endpoints` GETs. */
  function ScanUrls(ip: string, port: int): seq<string>
  {
    [Url(ip, port, "/video"), Url(ip, port, "/mjpegfeed"), Url(ip, port, "/")]
  }

  /** The sequential scan: a classified entry per endpoint, an `error` entry
      for an `Exception`; any other exception ends the scan and escapes. */
  function ScanAll(net: Network, urls: seq<string>): (r: Result<seq<(string, ScanEntry)>, Failure>)
    ensures r.Ok? ==> |r.value| == |urls| && forall k :: 0 <= k < |urls| ==>
      && r.value[k].0 == urls[k]
      && (net(Get, urls[k]).Responded? ==> r.value[k].1 == Classify(net(Get, urls[k]).response))
      && (net(Get, urls[k]).Raised? ==> r.value[k].1 == Errored(net(Get, urls[k]).failure.message))
    ensures r.Ok? <==> forall k :: 0 <= k < |urls| ==> net(Get, urls[k]).Responded? || Caught(net(Get, urls[k]).failure)
    ensures r.Err? ==> !Caught(r.error)
  {
    if |urls| == 0 then Ok([])
    else
      var entry := match net(Get, urls[0])
        case Responded(resp) => Ok(Classify(resp))
        case Raised(f) => if Caught(f) then Ok(Errored(f.message)) else Err(f);
      if entry.Err? then Err(entry.error)
      else
        match ScanAll(net, urls[1..])
        case Err(f) => Err(f)
        case Ok(rest) => Ok([(urls[0], entry.value)] + rest)
  }

  /** `scan_endpoints`: fetches the session, then scans the three endpoints. */
  function ScanEndpoints(s: Slot, net: Network, ip: string, port: int): (r: (Slot, Result<seq<(string, ScanEntry)>, Failure>))
    requires SlotValid(s)
    ensures SlotValid(r.0) && r.0.current.Some? && !r.0.current.value.closed
    ensures r.1.Ok? ==> |r.1.value| == 3
    ensures r.1.Ok? ==> forall k :: 0 <= k < 3 ==>
      (r.1.value[k].0 == ScanUrls(ip, port)[k]
       && (r.1.value[k].1.Available? <==>
             (net(Get, ScanUrls(ip, port)[k]).Responded?
              && MjpegType(net(Get, ScanUrls(ip, port)[k]).response.contentType))))
  {
    var (_, slot) := GetSession(s);
    (slot, ScanAll(net, ScanUrls(ip, port)))
  }

  /** The endpoints `stream_with_fps_limit` GETs, in this order. */
  function FallbackUrls(ip: string, port: int): seq<string>
  {
    [Url(ip, port, "/mjpegfeed"), Url(ip, port, "/video"), Url(ip, port, "/cam/1/stream"),
     Url(ip, port, "/cam/1/mjpeg"), Url(ip, port, "/"), Url(ip, port, "/stream")]
  }

  /** The 503 detail raised when every endpoint failed. */
  function NotFound(ip: string, port: int): string
  {
    "No DroidCam streams found at " + ip + ":" + IntToString(port)
      + ". Check: 1) DroidCam app is running 2) Phone IP is correct 3) Same WiFi network"
  }

  datatype FallbackRun = FallbackRun(sent: seq<Emitted>, end: StreamEnd, slot: Slot, clock: int)

  /** `stream_with_fps_limit`: the same fallback loop and limiter as the
      high-performance viewer, over six endpoints starting with
      `/mjpegfeed`, raising 503 when none worked. */
  function StreamWithFpsLimit(s: Slot, net: Network, ip: string, port: int,
                              fps: Option<int>, strategy: string, clock: int): (r: FallbackRun)
    requires SlotValid(s)
    ensures SlotValid(r.slot)
    ensures r.end.Refused? ==> r.end == Refused(503, NotFound(ip, port))
    ensures r.end.Refused? <==> forall k :: 0 <= k < 6 ==> MovesPast(net(Get, FallbackUrls(ip, port)[k]))
  {
    var (_, slot) := GetSession(s);
    var run := Relay(net, FallbackUrls(ip, port), LimitOf(fps), StrategyOf(strategy), clock);
    RelayExhaustedIff(net, FallbackUrls(ip, port), LimitOf(fps), StrategyOf(strategy), clock);
    FallbackRun(run.sent, EndOf(run.end, NotFound(ip, port)), slot, run.clock)
  }

  /** A payload of the proxy route and the clock reading when it left. */
  datatype Out = Out(payload: Payload, at: int)

  /** `1.0 / fps_limit / 10` seconds in microseconds, truncated toward zero;
      `None` when no limit was asked for. */
  function PauseOf(fps: Option<int>): (p: Option<int>)
    ensures p.None? <==> fps.None? || fps.value == 0
    ensures p.Some? && fps.value > 0 ==> 0 <= p.value && p.value * fps.value <= 100_000 < (p.value + 1) * fps.value
  {
    match fps
    case None => None
    case Some(f) =>
      if f == 0 then None
      else if f > 0 then Some(100_000 / f)
      else Some(-(100_000 / -f))
  }

  /** `asyncio.sleep(d)` from clock `t`: a negative delay returns at once. */
  function Sleep(t: int, d: int): int
  {
    if d > 0 then t + d else t
  }

  /** The proxy's chunk loop over chunks before the first empty one; `count`
      is `chunk_count` before the first of them. */
  function Forward(cs: seq<Chunk>, pause: Option<int>, count: nat, clock: int): (r: (seq<Out>, int))
    ensures |r.0| == |cs|
    ensures forall k :: 0 <= k < |cs| ==> r.0[k].payload == Video(cs[k].data) && r.0[k].at >= cs[k].at
    ensures r.1 >= clock
    decreases |cs|
  {
    if |cs| == 0 then ([], clock)
    else
      var now := Max(clock, cs[0].at);
      var at := if pause.Some? && count + 1 > 1 then Sleep(now, pause.value) else now;
      var rest := Forward(cs[1..], pause, count + 1, at);
      ([Out(Video(cs[0].data), at)] + rest.0, rest.1)
  }

  /** The first forwarded chunk leaves as soon as it is read; every later one
      leaves at least the pause after the one before it, and no earlier than
      the pause after it was read. */
  lemma {:induction false} ForwardPacing(cs: seq<Chunk>, pause: int, count: nat, clock: int)
    requires pause >= 0 && |cs| > 0
    ensures var r := Forward(cs, Some(pause), count, clock);
      && (count == 0 ==> r.0[0].at == Max(clock, cs[0].at))
      && (forall k :: 0 < k < |cs| ==> r.0[k].at >= r.0[k - 1].at + pause)
      && (forall k :: 0 < k < |cs| ==> r.0[k].at >= cs[k].at + pause)
    decreases |cs|
  {
    if |cs| > 1 {
      var r := Forward(cs, Some(pause), count, clock);
      var now := Max(clock, cs[0].at);
      var at := if count + 1 > 1 then Sleep(now, pause) else now;
      ForwardPacing(cs[1..], pause, count + 1, at);
      var rest := Forward(cs[1..], Some(pause), count + 1, at);
      assert r.0 == [Out(Video(cs[0].data), at)] + rest.0;
      forall k | 0 < k < |cs|
        ensures r.0[k].at >= r.0[k - 1].at + pause && r.0[k].at >= cs[k].at + pause
      {
        assert r.0[k] == rest.0[k - 1];
        if k == 1 {
          assert rest.0[0].at == Sleep(Max(at, cs[1].at), pause);
        } else {
          assert r.0[k - 1] == rest.0[k - 2];
        }
      }
    }
  }

  /** Without a limit every chunk leaves as soon as it is read. */
  lemma {:induction false} ForwardUnpaced(cs: seq<Chunk>, count: nat, clock: int)
    ensures Forward(cs, None, count, clock).1 == Latest(clock, cs)
    decreases |cs|
  {
    if |cs| > 0 {
      ForwardUnpaced(cs[1..], count + 1, Max(clock, cs[0].at));
    }
  }

  const HtmlError := "DroidCam Error: Received HTML instead of video stream. Check DroidCam app status."

  /** A 200 answer whose type is HTML. */
  predicate Html(o: Outcome)
  {
    o.Responded? && o.response.status == 200 && Contains(Lower(o.response.contentType), "text/html")
  }

  /** A 200 answer of any other type: forwarded as it comes. */
  predicate Forwarded(o: Outcome)
  {
    o.Responded? && o.response.status == 200 && !Contains(Lower(o.response.contentType), "text/html")
  }

  datatype ProxyRun = ProxyRun(out: seq<Out>, escaped: Option<Failure>, slot: Slot, clock: int)

  /** The ending of the proxy after a read that stopped with `fault`:
      nothing, one `Stream error` message, or the exception escaping. */
  function Trailer(fault: Option<Failure>, clock: int): (r: (seq<Out>, Option<Failure>))
    ensures fault.None? ==> r == ([], None)
    ensures fault.Some? && Caught(fault.value) ==>
      r == ([Out(Message("Stream error: " + fault.value.message), clock)], None)
    ensures fault.Some? && !Caught(fault.value) ==> r == ([], fault)
  {
    match fault
    case None => ([], None)
    case Some(f) => if Caught(f) then ([Out(Message("Stream error: " + f.message), clock)], None) else ([], Some(f))
  }

  /** The direct-proxy `/stream` route: GET `/video` once; a non-200 status
      or an HTML body becomes one message and nothing else; any other type is
      forwarded chunk by chunk, pausing before every chunk but the first when
      a limit was given. An `Exception` becomes one trailing message;
      `CancelledError` is raised again. The drop strategy is not consulted. */
  function DirectProxy(s: Slot, net: Network, ip: string, port: int, fps: Option<int>, clock: int): (r: ProxyRun)
    requires SlotValid(s)
    ensures SlotValid(r.slot)
    ensures r.escaped.Some? ==> !Caught(r.escaped.value)
    ensures net(Get, Url(ip, port, "/video")).Raised? ==>
      var f := net(Get, Url(ip, port, "/video")).failure;
      if Caught(f) then r.out == [Out(Message("Stream error: " + f.message), clock)] && r.escaped.None?
      else r.out == [] && r.escaped == Some(f)
    ensures net(Get, Url(ip, port, "/video")).Responded? && net(Get, Url(ip, port, "/video")).response.status != 200 ==>
      r.out == [Out(Message("DroidCam returned status " + IntToString(net(Get, Url(ip, port, "/video")).response.status)), clock)]
      && r.escaped.None?
    ensures Html(net(Get, Url(ip, port, "/video"))) ==>
      |r.out| <= 1 && (forall k :: 0 <= k < |r.out| ==> r.out[k].payload.Message?)
      && (net(Get, Url(ip, port, "/video")).response.body.fault.None? ==> r.out == [Out(Message(HtmlError), r.clock)])
    ensures Forwarded(net(Get, Url(ip, port, "/video"))) ==>
      var cs := UntilEmpty(net(Get, Url(ip, port, "/video")).response.body.chunks);
      && |cs| <= |r.out| <= |cs| + 1
      && (forall k :: 0 <= k < |cs| ==> r.out[k].payload == Video(cs[k].data))
      && (|r.out| == |cs| + 1 ==> r.out[|cs|].payload.Message?)
    // How the HTML branch ends: the error text after a clean read; a read
    // that raised gives its `Stream error`, or escapes when cancelled.
    ensures Html(net(Get, Url(ip, port, "/video"))) ==>
      var fault := net(Get, Url(ip, port, "/video")).response.body.fault;
      && (fault.None? ==> r.escaped.None?)
      && (fault.Some? && Caught(fault.value) ==>
            r.out == [Out(Message("Stream error: " + fault.value.message), r.clock)] && r.escaped.None?)
      && (fault.Some? && !Caught(fault.value) ==> r.out == [] && r.escaped == fault)
    // How the forwarded branch ends: an empty chunk or a clean end adds
    // nothing; a raise during the read adds one `Stream error`, or escapes
    // when cancelled.
    ensures Forwarded(net(Get, Url(ip, port, "/video"))) ==>
      var body := net(Get, Url(ip, port, "/video")).response.body;
      var cs := UntilEmpty(body.chunks);
      var fault := if |cs| < |body.chunks| then None else body.fault;
      && (fault.None? ==> |r.out| == |cs| && r.escaped.None?)
      && (fault.Some? && Caught(fault.value) ==>
            |r.out| == |cs| + 1 && r.out[|cs|] == Out(Message("Stream error: " + fault.value.message), r.clock)
            && r.escaped.None?)
      && (fault.Some? && !Caught(fault.value) ==> |r.out| == |cs| && r.escaped == fault)
  {
    var (_, slot) := GetSession(s);
    match net(Get, Url(ip, port, "/video"))
    case Raised(f) =>
      var (out, esc) := Trailer(Some(f), clock);
      ProxyRun(out, esc, slot, clock)
    case Responded(resp) =>
      if resp.status != 200 then
        ProxyRun([Out(Message("DroidCam returned status " + IntToString(resp.status)), clock)], None, slot, clock)
      else if Contains(Lower(resp.contentType), "text/html") then
        var done := Latest(clock, resp.body.chunks);
        match resp.body.fault
        case None => ProxyRun([Out(Message(HtmlError), done)], None, slot, done)
        case Some(f) =>
          var (out, esc) := Trailer(Some(f), done);
          ProxyRun(out, esc, slot, done)
      else
        var cs := UntilEmpty(resp.body.chunks);
        var (out, t) := Forward(cs, PauseOf(fps), 0, clock);
        var fault := if |cs| < |resp.body.chunks| then None else resp.body.fault;
        var (tail, esc) := Trailer(fault, t);
        ProxyRun(out + tail, esc, slot, t)
  }

  /** With a positive limit the forwarded chunks are spaced at least the
      pause `1 / fps / 10` apart, and the first is not held back. */
  lemma {:induction false} ProxyPacing(s: Slot, net: Network, ip: string, port: int, fps: int, clock: int)
    requires SlotValid(s) && fps > 0
    requires net(Get, Url(ip, port, "/video")).Responded?
    requires net(Get, Url(ip, port, "/video")).response.status == 200
    requires !Contains(Lower(net(Get, Url(ip, port, "/video")).response.contentType), "text/html")
    requires |UntilEmpty(net(Get, Url(ip, port, "/video")).response.body.chunks)| > 0
    ensures var r := DirectProxy(s, net, ip, port, Some(fps), clock);
      var cs := UntilEmpty(net(Get, Url(ip, port, "/video")).response.body.chunks);
      && r.out[0].at == Max(clock, cs[0].at)
      && forall k :: 0 < k < |cs| ==> r.out[k].at >= r.out[k - 1].at + 100_000 / fps
  {
    var cs := UntilEmpty(net(Get, Url(ip, port, "/video")).response.body.chunks);
    ForwardPacing(cs, 100_000 / fps, 0, clock);
  }
}
