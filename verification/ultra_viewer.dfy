/** `HighPerformanceDroidCamStreamer` of ultra_performance_viewer.py: the
    session pool, the concurrent endpoint scan, the rate-limited stream with
    its global statistics, and the `/stream` route that wraps it. */
module UltraViewer {
  import opened Text
  import opened Http
  import opened Sessions
  import opened Governor

  /** `performance_stats` without the start time. */
  datatype Stats = Stats(totalBytes: int, totalChunks: int, activeConnections: int)

  datatype Streamer = Streamer(pool: Pool, active: set<string>, stats: Stats)

  /** The endpoints `scan_endpoints_fast` HEADs. */
  function ScanUrls(ip: string, port: int): seq<string>
  {
    [Url(ip, port, "/video"), Url(ip, port, "/mjpegfeed"), Url(ip, port, "/cam/1/stream"), Url(ip, port, "/")]
  }

  /** The endpoints `ultra_high_performance_stream` GETs, fastest first. */
  function StreamUrls(ip: string, port: int): seq<string>
  {
    [Url(ip, port, "/video"), Url(ip, port, "/mjpegfeed"), Url(ip, port, "/cam/1/stream")]
  }

  /** `test_endpoint`: the classified response, an `error` entry for an
      `Exception`, and nothing at all for an exception it does not catch,
      which `gather(..., return_exceptions=True)` hands back as a value that
      is not a tuple and the collecting loop skips. */
  function ScanOne(o: Outcome): (r: Option<ScanEntry>)
    ensures r.None? <==> o.Raised? && !Caught(o.failure)
    ensures r.Some? && o.Raised? ==> r.value == Errored(o.failure.message)
    ensures o.Responded? ==> r == Some(Classify(o.response))
  {
    match o
    case Responded(resp) => Some(Classify(resp))
    case Raised(f) => if Caught(f) then Some(Errored(f.message)) else None
  }

  /** The collected results in endpoint order. */
  function Collect(net: Network, urls: seq<string>): (r: seq<(string, ScanEntry)>)
    ensures |r| <= |urls|
    ensures (forall k :: 0 <= k < |urls| ==> ScanOne(net(Head, urls[k])).Some?) ==>
      |r| == |urls| && forall k :: 0 <= k < |urls| ==> r[k] == (urls[k], ScanOne(net(Head, urls[k])).value)
    ensures forall k :: 0 <= k < |r| ==>
      exists j :: 0 <= j < |urls| && r[k].0 == urls[j] && ScanOne(net(Head, urls[j])) == Some(r[k].1)
  {
    if |urls| == 0 then []
    else
      var rest := Collect(net, urls[1..]);
      match ScanOne(net(Head, urls[0]))
      case None => rest
      case Some(e) => [(urls[0], e)] + rest
  }

  /** `scan_endpoints_fast`: the pool after fetching the `scan_{ip}` session,
      and one entry per endpoint whose test did not raise past its handler. */
  function ScanEndpointsFast(st: Streamer, net: Network, ip: string, port: int): (r: (Streamer, seq<(string, ScanEntry)>))
    requires PoolValid(st.pool)
    ensures PoolValid(r.0.pool) && "scan_" + ip in r.0.pool.sessions
    ensures r.0.active == st.active && r.0.stats == st.stats
    ensures |r.1| <= 4
    ensures (forall k :: 0 <= k < 4 ==> ScanOne(net(Head, ScanUrls(ip, port)[k])).Some?) ==>
      |r.1| == 4 && forall k :: 0 <= k < 4 ==>
        r.1[k] == (ScanUrls(ip, port)[k], ScanOne(net(Head, ScanUrls(ip, port)[k])).value)
  {
    var (_, pool) := GetOptimized(st.pool, "scan_" + ip);
    (st.(pool := pool), Collect(net, ScanUrls(ip, port)))
  }

  /** A scan entry is `available` exactly when the endpoint answered with an
      MJPEG or JPEG content type, whatever its status code. */
  lemma {:induction false} ScanAvailableIffMjpeg(o: Outcome)
    requires ScanOne(o).Some?
    ensures ScanOne(o).value.Available? <==> o.Responded? && MjpegType(o.response.contentType)
    ensures ScanOne(o).value.Errored? <==> o.Raised?
  {
    if o.Responded? {
      var e := Classify(o.response);
      assert e.Available? <==> MjpegType(o.response.contentType);
    }
  }

  function SessionKey(ip: string, port: int): string
  {
    "stream_" + ip + "_" + IntToString(port)
  }

  /** `stream_id`. */
  function StreamId(ip: string, port: int): string
  {
    ip + ":" + IntToString(port)
  }

  /** The total size of the chunks received. */
  function TotalBytes(chunks: seq<seq<Byte>>): (n: nat)
    ensures |chunks| > 0 ==> n >= |chunks[0]|
  {
    if |chunks| == 0 then 0 else |chunks[0]| + TotalBytes(chunks[1..])
  }

  /** The detail of the 503 raised when every endpoint failed, before the address. */
  const Unavailable := "No high-performance streams available at "

  datatype UltraRun = UltraRun(sent: seq<Emitted>, end: StreamEnd, streamer: Streamer, clock: int)

  /** `ultra_high_performance_stream`: registers the stream, relays the first
      working endpoint through the frame-rate limiter while counting every
      chunk received, and in `finally` unregisters the stream. */
  function UltraStream(st: Streamer, net: Network, ip: string, port: int,
                       fps: Option<int>, strategy: string, clock: int): (r: UltraRun)
    requires PoolValid(st.pool)
    ensures PoolValid(r.streamer.pool) && SessionKey(ip, port) in r.streamer.pool.sessions
    ensures r.streamer.stats.activeConnections == st.stats.activeConnections
    ensures r.streamer.active == st.active - {StreamId(ip, port)}
    ensures r.streamer.stats.totalChunks - st.stats.totalChunks >= |r.sent|
    ensures r.streamer.stats.totalBytes >= st.stats.totalBytes
    ensures r.end.Refused? ==> r.end == Refused(503, Unavailable + StreamId(ip, port))
  {
    var (_, pool) := GetOptimized(st.pool, SessionKey(ip, port));
    var id := StreamId(ip, port);
    var during := Streamer(pool, st.active + {id},
                           st.stats.(activeConnections := st.stats.activeConnections + 1));
    var run := Relay(net, StreamUrls(ip, port), LimitOf(fps), StrategyOf(strategy), clock);
    var counted := during.stats.(totalChunks := during.stats.totalChunks + |run.received|,
                                 totalBytes := during.stats.totalBytes + TotalBytes(run.received));
    var after := Streamer(pool, during.active - {id},
                          counted.(activeConnections := counted.activeConnections - 1));
    UltraRun(run.sent, EndOf(run.end, Unavailable + id), after, run.clock)
  }

  /** The counters grow by the chunks received, whether the limiter sent
      them or skipped them; with no limit, every counted chunk was sent. */
  lemma {:induction false} UltraCountsEveryChunk(st: Streamer, net: Network, ip: string, port: int,
                                                 fps: Option<int>, strategy: string, clock: int)
    requires PoolValid(st.pool)
    ensures var r := UltraStream(st, net, ip, port, fps, strategy, clock);
      var run := Relay(net, StreamUrls(ip, port), LimitOf(fps), StrategyOf(strategy), clock);
      && r.streamer.stats.totalChunks == st.stats.totalChunks + |run.received|
      && r.streamer.stats.totalBytes == st.stats.totalBytes + TotalBytes(run.received)
      && r.sent == run.sent
    ensures (fps.None? || fps == Some(0)) ==>
      var r := UltraStream(st, net, ip, port, fps, strategy, clock);
      r.streamer.stats.totalChunks == st.stats.totalChunks + |r.sent|
  {
    if fps.None? || fps == Some(0) {
      RelaySendsAll(net, StreamUrls(ip, port), LimitOf(fps), StrategyOf(strategy), clock);
    }
  }

  /** The `/stream` route: every chunk the stream yields, then, if the stream
      raised its 503, one `Stream error: …` message made of `str()` of the
      exception; an exception that is not an `Exception` still escapes. */
  datatype RouteRun = RouteRun(payloads: seq<Payload>, escaped: Option<Failure>, streamer: Streamer)

  /** `f"Stream error: {str(e)}"` for an `HTTPException`, whose `str()` is
      `"{status_code}: {detail}"`. */
  function StreamError(status: int, detail: string): (t: string)
    ensures status == 503 ==> t == "Stream error: 503: " + detail
  {
    assert IntToString(503) == "503" by {
      assert NatToString(5) == "5";
      assert NatToString(50) == "50";
    }
    "Stream error: " + IntToString(status) + ": " + detail
  }

  function StreamRoute(st: Streamer, net: Network, ip: string, port: int,
                       fps: Option<int>, strategy: string, clock: int): (r: RouteRun)
    requires PoolValid(st.pool)
    ensures var run := UltraStream(st, net, ip, port, fps, strategy, clock);
      && |r.payloads| >= |run.sent| && r.payloads[..|run.sent|] == Videos(run.sent)
      && (run.end.Refused? <==> |r.payloads| == |run.sent| + 1)
      && (run.end.Refused? ==>
            r.payloads[|run.sent|] == Message(StreamError(503, Unavailable + StreamId(ip, port))))
      && (r.escaped.Some? <==> run.end.Escaped?)
  {
    var run := UltraStream(st, net, ip, port, fps, strategy, clock);
    match run.end
    case Completed => RouteRun(Videos(run.sent), None, run.streamer)
    case Refused(status, detail) =>
      RouteRun(Videos(run.sent) + [Message(StreamError(status, detail))], None, run.streamer)
    case Escaped(f) => RouteRun(Videos(run.sent), Some(f), run.streamer)
  }
}
