/** The per-chunk frame-rate governor shared by ultra_performance_viewer.py
    and fastapi_viewer.py, and the endpoint fallback loop that feeds it.
    Time is an integer clock in microseconds: a chunk is handled at the later
    of the clock and its arrival, and sleeping `d` advances the clock by
    exactly `d`. */
module Governor {
  import opened Text
  import opened Http

  function Max(a: int, b: int): int
  {
    if a < b then b else a
  }

  /** `1.0 / fps` seconds in microseconds, truncated toward zero. */
  function IntervalOf(fps: int): int
    requires fps != 0
  {
    if fps > 0 then 1_000_000 / fps else -(1_000_000 / -fps)
  }

  /** Whether a frame-rate limit applies, and the minimum spacing it asks for. */
  datatype Limit = NoLimit | Every(interval: int)

  /** `if fps_limit:`: an absent or zero limit means none. */
  function LimitOf(fps: Option<int>): (l: Limit)
    ensures l.NoLimit? <==> fps.None? || fps.value == 0
    ensures l.Every? && fps.value > 0 ==>
      0 <= l.interval && l.interval * fps.value <= 1_000_000 < (l.interval + 1) * fps.value
    ensures l.Every? && fps.value < 0 ==> l.interval <= 0
  {
    match fps
    case None => NoLimit
    case Some(f) => if f == 0 then NoLimit else Every(IntervalOf(f))
  }

  /** What happens to a chunk that comes too early: skipped, or held back. */
  datatype Strategy = Skip | Wait

  /** `drop_strategy`: "latest" and "oldest" both skip; anything else waits. */
  function StrategyOf(s: string): (r: Strategy)
    ensures r == Skip <==> s == "latest" || s == "oldest"
  {
    if s == "latest" then Skip
    else if s == "oldest" then Skip
    else Wait
  }

  /** `last_frame_time` and the clock. */
  datatype Gov = Gov(last: int, clock: int)

  /** A chunk handed to the client and the clock reading when it was. */
  datatype Emitted = Emitted(data: seq<Byte>, at: int)

  datatype Verdict = Send(at: int) | Drop

  /** The clock reading at which a chunk is handled. */
  function Reading(g: Gov, c: Chunk): int
  {
    Max(g.clock, c.at)
  }

  /** One iteration of the limiter for chunk `c`. */
  function Step(limit: Limit, strategy: Strategy, g: Gov, c: Chunk): (r: (Verdict, Gov))
    ensures r.0.Drop? <==> limit.Every? && strategy == Skip && Reading(g, c) - g.last < limit.interval
    ensures r.0.Drop? ==> r.1 == Gov(g.last, Reading(g, c))
    ensures r.0.Send? ==> r.1.clock == r.0.at
    ensures r.0.Send? && limit.NoLimit? ==> r.0.at == Reading(g, c) && r.1.last == g.last
    ensures r.0.Send? && limit.Every? ==>
      r.0.at == Max(Reading(g, c), g.last + limit.interval) && r.1.last == r.0.at
    ensures r.0.Send? && limit.Every? && strategy == Skip ==> r.0.at == Reading(g, c)
  {
    var now := Reading(g, c);
    match limit
    case NoLimit => (Send(now), Gov(g.last, now))
    case Every(interval) =>
      if now - g.last < interval then
        if strategy == Skip then (Drop, Gov(g.last, now))
        else
          var sleep := interval - (now - g.last);
          var after := if sleep > 0 then now + sleep else now;
          (Send(after), Gov(after, after))
      else (Send(now), Gov(now, now))
  }

  /** The limiter over a whole run of chunks: what was sent, the indices of the
      chunks sent, and the final state. */
  datatype GovRun = GovRun(sent: seq<Emitted>, picked: seq<nat>, gov: Gov)

  /** Every chunk sent is a received chunk, in the order received, each at
      most once. */
  ghost predicate InOrderFrom(r: GovRun, chunks: seq<Chunk>)
  {
    && |r.sent| == |r.picked|
    && (forall k :: 0 <= k < |r.picked| ==>
          r.picked[k] < |chunks| && r.sent[k].data == chunks[r.picked[k]].data)
    && (forall k, l :: 0 <= k < l < |r.picked| ==> r.picked[k] < r.picked[l])
  }

  function Bump(p: seq<nat>): (q: seq<nat>)
    ensures |q| == |p|
    ensures forall k :: 0 <= k < |p| ==> q[k] == p[k] + 1
  {
    seq(|p|, k requires 0 <= k < |p| => p[k] + 1)
  }

  function Run(limit: Limit, strategy: Strategy, g: Gov, chunks: seq<Chunk>): (r: GovRun)
    ensures |r.sent| == |r.picked| <= |chunks|
    decreases |chunks|
  {
    if |chunks| == 0 then GovRun([], [], g)
    else
      var (v, g1) := Step(limit, strategy, g, chunks[0]);
      var rest := Run(limit, strategy, g1, chunks[1..]);
      if v.Send? then GovRun([Emitted(chunks[0].data, v.at)] + rest.sent, [0] + Bump(rest.picked), rest.gov)
      else GovRun(rest.sent, Bump(rest.picked), rest.gov)
  }

  /** The limiter only ever passes chunks on: what it sends are received
      chunks, in the order received, each at most once. */
  lemma {:induction false} RunInOrder(limit: Limit, strategy: Strategy, g: Gov, chunks: seq<Chunk>)
    ensures InOrderFrom(Run(limit, strategy, g, chunks), chunks)
    decreases |chunks|
  {
    if |chunks| > 0 {
      var (v, g1) := Step(limit, strategy, g, chunks[0]);
      var rest := Run(limit, strategy, g1, chunks[1..]);
      RunInOrder(limit, strategy, g1, chunks[1..]);
      InOrderShift(rest, chunks);
      if v.Send? {
        InOrderCons(GovRun(rest.sent, Bump(rest.picked), rest.gov), chunks, v.at);
      }
    }
  }

  /** A run over the chunks after the first, renumbered, is a run over all of them. */
  lemma InOrderShift(rest: GovRun, chunks: seq<Chunk>)
    requires |chunks| > 0 && InOrderFrom(rest, chunks[1..])
    ensures InOrderFrom(GovRun(rest.sent, Bump(rest.picked), rest.gov), chunks)
    ensures forall k :: 0 <= k < |rest.picked| ==> Bump(rest.picked)[k] >= 1
  {
    var p := Bump(rest.picked);
    forall k | 0 <= k < |p| ensures p[k] < |chunks| && rest.sent[k].data == chunks[p[k]].data {
      assert chunks[1..][rest.picked[k]] == chunks[p[k]];
    }
  }

  /** Sending the first chunk ahead of a run that skips it keeps the order. */
  lemma InOrderCons(r: GovRun, chunks: seq<Chunk>, at: int)
    requires |chunks| > 0 && InOrderFrom(r, chunks)
    requires forall k :: 0 <= k < |r.picked| ==> r.picked[k] >= 1
    ensures InOrderFrom(GovRun([Emitted(chunks[0].data, at)] + r.sent, [0] + r.picked, r.gov), chunks)
  {
    var sent, p := [Emitted(chunks[0].data, at)] + r.sent, [0] + r.picked;
    forall k | 0 < k < |p| ensures p[k] == r.picked[k - 1] && sent[k] == r.sent[k - 1] {
    }
    forall k, l | 0 <= k < l < |p| ensures p[k] < p[l] {
      assert p[l] == r.picked[l - 1];
    }
  }

  /** One step of `Run`: the first chunk's verdict, then the rest of the run. */
  lemma {:induction false} RunUnfold(limit: Limit, strategy: Strategy, g: Gov, chunks: seq<Chunk>)
    requires |chunks| > 0
    ensures var (v, g1) := Step(limit, strategy, g, chunks[0]);
      var rest := Run(limit, strategy, g1, chunks[1..]);
      var r := Run(limit, strategy, g, chunks);
      && r.gov == rest.gov
      && r.sent == (if v.Send? then [Emitted(chunks[0].data, v.at)] + rest.sent else rest.sent)
  {
  }

  /** Consecutive sends are at least one interval apart, the first one at
      least one interval after the starting `last_frame_time`, and the final
      `last_frame_time` is the time of the last send. */
  lemma {:induction false} RunSpacing(interval: int, strategy: Strategy, g: Gov, chunks: seq<Chunk>)
    ensures var r := Run(Every(interval), strategy, g, chunks);
      && (|r.sent| > 0 ==> r.sent[0].at - g.last >= interval)
      && (forall k :: 0 < k < |r.sent| ==> r.sent[k].at - r.sent[k - 1].at >= interval)
      && r.gov.last == (if |r.sent| == 0 then g.last else r.sent[|r.sent| - 1].at)
    decreases |chunks|
  {
    if |chunks| > 0 {
      var (v, g1) := Step(Every(interval), strategy, g, chunks[0]);
      RunSpacing(interval, strategy, g1, chunks[1..]);
      RunUnfold(Every(interval), strategy, g, chunks);
    }
  }

  /** The clock after reading every chunk without sleeping. */
  function Latest(clock: int, chunks: seq<Chunk>): (t: int)
    ensures t >= clock
    ensures forall k :: 0 <= k < |chunks| ==> t >= chunks[k].at
    decreases |chunks|
  {
    if |chunks| == 0 then clock else Latest(Max(clock, chunks[0].at), chunks[1..])
  }

  /** Without a limit, or when early chunks are skipped, the governor never
      sleeps: the clock ends where reading the chunks alone leaves it. */
  lemma {:induction false} RunNeverSleeps(limit: Limit, strategy: Strategy, g: Gov, chunks: seq<Chunk>)
    requires limit.NoLimit? || strategy == Skip
    ensures Run(limit, strategy, g, chunks).gov.clock == Latest(g.clock, chunks)
    decreases |chunks|
  {
    if |chunks| > 0 {
      var (v, g1) := Step(limit, strategy, g, chunks[0]);
      RunNeverSleeps(limit, strategy, g1, chunks[1..]);
      RunUnfold(limit, strategy, g, chunks);
    }
  }

  /** Without a limit, or with the waiting strategy, every chunk is sent:
      the output is the input. */
  lemma {:induction false} RunSendsAll(limit: Limit, strategy: Strategy, g: Gov, chunks: seq<Chunk>)
    requires limit.NoLimit? || strategy == Wait
    ensures var r := Run(limit, strategy, g, chunks);
      |r.sent| == |chunks| && forall k :: 0 <= k < |chunks| ==> r.sent[k].data == chunks[k].data
    decreases |chunks|
  {
    if |chunks| > 0 {
      var (v, g1) := Step(limit, strategy, g, chunks[0]);
      RunSendsAll(limit, strategy, g1, chunks[1..]);
      RunUnfold(limit, strategy, g, chunks);
      var r := Run(limit, strategy, g, chunks);
      var rest := Run(limit, strategy, g1, chunks[1..]);
      assert r.sent == [Emitted(chunks[0].data, v.at)] + rest.sent;
      forall k | 0 <= k < |chunks|
        ensures r.sent[k].data == chunks[k].data
      {
        if k > 0 {
          assert r.sent[k] == rest.sent[k - 1];
        }
      }
    }
  }

  /** The chunks before the first empty one: `if not chunk: break`. */
  function UntilEmpty(cs: seq<Chunk>): (r: seq<Chunk>)
    ensures |r| <= |cs| && r == cs[..|r|]
    ensures forall k :: 0 <= k < |r| ==> r[k].data != []
    ensures |r| < |cs| ==> cs[|r|].data == []
  {
    if |cs| == 0 || cs[0].data == [] then []
    else [cs[0]] + UntilEmpty(cs[1..])
  }

  /** The data of each chunk. */
  function Datas(cs: seq<Chunk>): (r: seq<seq<Byte>>)
    ensures |r| == |cs| && forall k :: 0 <= k < |cs| ==> r[k] == cs[k].data
  {
    seq(|cs|, k requires 0 <= k < |cs| => cs[k].data)
  }

  /** One accepted response streamed through a fresh limiter
      (`last_frame_time = 0`): what was sent, every chunk received, the
      exception that ended the read if any, and the clock afterwards. */
  datatype Streamed = Streamed(sent: seq<Emitted>, received: seq<seq<Byte>>, fault: Option<Failure>, clock: int)

  function StreamBody(limit: Limit, strategy: Strategy, clock: int, body: Body): (s: Streamed)
    ensures |s.sent| <= |s.received|
    ensures s.fault.Some? ==> body.fault == s.fault
  {
    var cs := UntilEmpty(body.chunks);
    var run := Run(limit, strategy, Gov(0, clock), cs);
    Streamed(run.sent, Datas(cs), if |cs| < |body.chunks| then None else body.fault, run.gov.clock)
  }

  /** The clock is epoch time, so it is always at least one interval past
      the initial `last_frame_time = 0`; from such a clock the first chunk of
      a stream goes out at once, at its own reading, whatever the strategy. */
  lemma {:induction false} StreamFirstAtOnce(limit: Limit, strategy: Strategy, clock: int, body: Body)
    requires limit.Every? ==> clock >= limit.interval
    requires |body.chunks| > 0 && body.chunks[0].data != []
    ensures var s := StreamBody(limit, strategy, clock, body);
      |s.sent| > 0 && s.sent[0] == Emitted(body.chunks[0].data, Max(clock, body.chunks[0].at))
  {
    var cs := UntilEmpty(body.chunks);
    var c := body.chunks[0];
    assert cs[0] == c;
    var (v, g1) := Step(limit, strategy, Gov(0, clock), c);
    assert v == Send(Max(clock, c.at));
    var run := Run(limit, strategy, Gov(0, clock), cs);
    assert run.sent[0] == Emitted(c.data, Max(clock, c.at));
  }

  /** How the fallback loop ended: it returned after streaming the endpoint
      at `index`, ran out of endpoints, or let an exception escape. */
  datatype Ending = Finished(index: nat) | Exhausted | Aborted(failure: Failure)

  datatype RelayRun = RelayRun(sent: seq<Emitted>, received: seq<seq<Byte>>, end: Ending, clock: int)

  function ShiftEnding(e: Ending): Ending
  {
    if e.Finished? then Finished(e.index + 1) else e
  }

  /** The streaming loop of `ultra_high_performance_stream` and
      `stream_with_fps_limit`: GET each endpoint in turn; an `Exception` or a
      response that is not a 200 MJPEG stream moves on to the next one; the
      first good one is streamed through the limiter, and the loop returns
      when its body ends. An `Exception` raised while reading the body is
      caught by the same handler, so the loop moves on to the next endpoint
      even after chunks have been sent. */
  function Relay(net: Network, urls: seq<string>, limit: Limit, strategy: Strategy, clock: int): (r: RelayRun)
    ensures |r.sent| <= |r.received|
    ensures r.end.Finished? ==>
      r.end.index < |urls| && net(Get, urls[r.end.index]).Responded?
      && StreamReady(net(Get, urls[r.end.index]).response)
    ensures r.end.Aborted? ==> !Caught(r.end.failure)
    decreases |urls|
  {
    if |urls| == 0 then RelayRun([], [], Exhausted, clock)
    else
      match net(Get, urls[0])
      case Raised(f) =>
        if Caught(f) then Later(net, urls, limit, strategy, [], [], clock)
        else RelayRun([], [], Aborted(f), clock)
      case Responded(resp) =>
        if !StreamReady(resp) then Later(net, urls, limit, strategy, [], [], clock)
        else
          var s := StreamBody(limit, strategy, clock, resp.body);
          match s.fault
          case None => RelayRun(s.sent, s.received, Finished(0), s.clock)
          case Some(f) =>
            if Caught(f) then Later(net, urls, limit, strategy, s.sent, s.received, s.clock)
            else RelayRun(s.sent, s.received, Aborted(f), s.clock)
  }

  /** The rest of the loop after the first endpoint, behind what it already sent. */
  function Later(net: Network, urls: seq<string>, limit: Limit, strategy: Strategy,
                 sent: seq<Emitted>, received: seq<seq<Byte>>, clock: int): (r: RelayRun)
    requires |urls| > 0
    requires |sent| <= |received|
    ensures |r.sent| <= |r.received|
    ensures r.end.Finished? ==>
      0 < r.end.index < |urls| && net(Get, urls[r.end.index]).Responded?
      && StreamReady(net(Get, urls[r.end.index]).response)
    ensures r.end.Aborted? ==> !Caught(r.end.failure)
    decreases |urls|, 0
  {
    var rest := Relay(net, urls[1..], limit, strategy, clock);
    RelayRun(sent + rest.sent, received + rest.received, ShiftEnding(rest.end), rest.clock)
  }

  /** The body of an accepted endpoint makes the loop move on: an `Exception`
      interrupts it before any empty chunk. */
  predicate Resumes(body: Body)
  {
    |UntilEmpty(body.chunks)| == |body.chunks| && body.fault.Some? && Caught(body.fault.value)
  }

  /** The loop goes on past this endpoint: it was passed over, or it was
      accepted and its body broke off with a handled exception. */
  predicate MovesPast(o: Outcome)
  {
    Passes(o, StreamReady, Caught) || (o.Responded? && Resumes(o.response.body))
  }

  /** The loop runs out of endpoints exactly when it moves past every one. */
  lemma {:induction false} RelayExhaustedIff(net: Network, urls: seq<string>, limit: Limit,
                                             strategy: Strategy, clock: int)
    ensures Relay(net, urls, limit, strategy, clock).end.Exhausted?
      <==> forall k :: 0 <= k < |urls| ==> MovesPast(net(Get, urls[k]))
    decreases |urls|
  {
    if |urls| > 0 {
      assert forall k :: 0 < k < |urls| ==> urls[k] == urls[1..][k - 1];
      var o := net(Get, urls[0]);
      if MovesPast(o) {
        var c := clock;
        if o.Responded? && StreamReady(o.response) {
          c := StreamBody(limit, strategy, clock, o.response.body).clock;
        }
        RelayExhaustedIff(net, urls[1..], limit, strategy, c);
      }
    }
  }

  /** The rest of the loop once the first endpoint has been passed over. */
  lemma {:induction false} RelayPassesFirst(net: Network, urls: seq<string>, limit: Limit,
                                            strategy: Strategy, clock: int)
    requires |urls| > 0
    requires Passes(net(Get, urls[0]), StreamReady, Caught)
    ensures Probe(net, Get, urls, StreamReady, Caught) == Shift(Probe(net, Get, urls[1..], StreamReady, Caught))
    ensures var rest := Relay(net, urls[1..], limit, strategy, clock);
      Relay(net, urls, limit, strategy, clock)
        == RelayRun(rest.sent, rest.received, ShiftEnding(rest.end), rest.clock)
  {
    assert [] + Relay(net, urls[1..], limit, strategy, clock).sent == Relay(net, urls[1..], limit, strategy, clock).sent;
    assert [] + Relay(net, urls[1..], limit, strategy, clock).received == Relay(net, urls[1..], limit, strategy, clock).received;
  }

  /** With no endpoint accepted, nothing is sent and the loop runs out of endpoints. */
  lemma {:induction false} RelayNoneAccepted(net: Network, urls: seq<string>, limit: Limit,
                                             strategy: Strategy, clock: int)
    requires Probe(net, Get, urls, StreamReady, Caught) == Ok(None)
    ensures Relay(net, urls, limit, strategy, clock) == RelayRun([], [], Exhausted, clock)
    decreases |urls|
  {
    if |urls| > 0 {
      assert Passes(net(Get, urls[0]), StreamReady, Caught);
      RelayPassesFirst(net, urls, limit, strategy, clock);
      RelayNoneAccepted(net, urls[1..], limit, strategy, clock);
    }
  }

  /** An exception that escapes the probing ends the loop with nothing sent. */
  lemma {:induction false} RelayAbortsWithProbe(net: Network, urls: seq<string>, limit: Limit,
                                                strategy: Strategy, clock: int)
    requires Probe(net, Get, urls, StreamReady, Caught).Err?
    ensures Relay(net, urls, limit, strategy, clock)
      == RelayRun([], [], Aborted(Probe(net, Get, urls, StreamReady, Caught).error), clock)
    decreases |urls|
  {
    if Passes(net(Get, urls[0]), StreamReady, Caught) {
      RelayPassesFirst(net, urls, limit, strategy, clock);
      RelayAbortsWithProbe(net, urls[1..], limit, strategy, clock);
    }
  }

  /** The first accepted endpoint, when its body does not fail part-way with a
      handled exception, is the only one streamed: the loop sends exactly what
      streaming that body sends and stops there. */
  lemma {:induction false} RelayStreamsFirstAccepted(net: Network, urls: seq<string>, limit: Limit,
                                                     strategy: Strategy, clock: int)
    requires Probe(net, Get, urls, StreamReady, Caught).Ok?
    requires Probe(net, Get, urls, StreamReady, Caught).value.Some?
    requires !Resumes(Probe(net, Get, urls, StreamReady, Caught).value.value.response.body)
    ensures var found := Probe(net, Get, urls, StreamReady, Caught).value.value;
      var s := StreamBody(limit, strategy, clock, found.response.body);
      var r := Relay(net, urls, limit, strategy, clock);
      && r.sent == s.sent && r.received == s.received
      && r.end == (if s.fault.None? then Finished(found.index) else Aborted(s.fault.value))
    decreases |urls|
  {
    if Passes(net(Get, urls[0]), StreamReady, Caught) {
      RelayPassesFirst(net, urls, limit, strategy, clock);
      RelayStreamsFirstAccepted(net, urls[1..], limit, strategy, clock);
    }
  }

  /** Without a limit, or with the waiting strategy, the loop sends every
      chunk it receives, in order. */
  lemma {:induction false} RelaySendsAll(net: Network, urls: seq<string>, limit: Limit,
                                         strategy: Strategy, clock: int)
    requires limit.NoLimit? || strategy == Wait
    ensures var r := Relay(net, urls, limit, strategy, clock);
      |r.sent| == |r.received| && forall k :: 0 <= k < |r.sent| ==> r.sent[k].data == r.received[k]
    decreases |urls|, 1
  {
    if |urls| > 0 {
      match net(Get, urls[0])
      case Raised(f) =>
        if Caught(f) {
          LaterSendsAll(net, urls, limit, strategy, [], [], clock);
        }
      case Responded(resp) =>
        if !StreamReady(resp) {
          LaterSendsAll(net, urls, limit, strategy, [], [], clock);
        } else {
          var st := StreamBody(limit, strategy, clock, resp.body);
          StreamSendsAll(limit, strategy, clock, resp.body);
          if st.fault.Some? && Caught(st.fault.value) {
            LaterSendsAll(net, urls, limit, strategy, st.sent, st.received, st.clock);
          }
        }
    }
  }

  /** The rest of the loop keeps what was sent matched with what was received. */
  lemma {:induction false} LaterSendsAll(net: Network, urls: seq<string>, limit: Limit, strategy: Strategy,
                                         sent: seq<Emitted>, received: seq<seq<Byte>>, clock: int)
    requires limit.NoLimit? || strategy == Wait
    requires |urls| > 0
    requires |sent| == |received| && forall k :: 0 <= k < |sent| ==> sent[k].data == received[k]
    ensures var r := Later(net, urls, limit, strategy, sent, received, clock);
      |r.sent| == |r.received| && forall k :: 0 <= k < |r.sent| ==> r.sent[k].data == r.received[k]
    decreases |urls|, 0
  {
    var rest := Relay(net, urls[1..], limit, strategy, clock);
    RelaySendsAll(net, urls[1..], limit, strategy, clock);
    SendsMatchConcat(sent, received, rest.sent, rest.received);
  }

  /** What a body sends, under no limit or the waiting strategy, is exactly what it delivers. */
  lemma {:induction false} StreamSendsAll(limit: Limit, strategy: Strategy, clock: int, body: Body)
    requires limit.NoLimit? || strategy == Wait
    ensures var s := StreamBody(limit, strategy, clock, body);
      |s.sent| == |s.received| && forall k :: 0 <= k < |s.sent| ==> s.sent[k].data == s.received[k]
  {
    RunSendsAll(limit, strategy, Gov(0, clock), UntilEmpty(body.chunks));
  }

  /** Sends that match what was received, followed by more sends that match
      what was received next, match everything received. */
  lemma SendsMatchConcat(a: seq<Emitted>, b: seq<seq<Byte>>, c: seq<Emitted>, d: seq<seq<Byte>>)
    requires |a| == |b| && forall k :: 0 <= k < |a| ==> a[k].data == b[k]
    requires |c| == |d| && forall k :: 0 <= k < |c| ==> c[k].data == d[k]
    ensures |a + c| == |b + d| && forall k :: 0 <= k < |a + c| ==> (a + c)[k].data == (b + d)[k]
  {
  }

  /** How a streaming generator ends for its caller: it returned, it raised
      `HTTPException(status, detail)` after trying every endpoint, or an
      exception the loop does not catch escaped. */
  datatype StreamEnd = Completed | Refused(status: int, detail: string) | Escaped(failure: Failure)

  /** The generator's ending for a loop ending, with the 503 detail it raises
      when every endpoint failed. */
  function EndOf(e: Ending, detail: string): (r: StreamEnd)
    ensures r.Completed? <==> e.Finished?
    ensures r.Refused? <==> e.Exhausted?
    ensures r.Refused? ==> r == Refused(503, detail)
    ensures r.Escaped? ==> e == Aborted(r.failure)
  {
    match e
    case Finished(_) => Completed
    case Exhausted => Refused(503, detail)
    case Aborted(f) => Escaped(f)
  }

  /** What a route hands to the client: upstream bytes, or an encoded message. */
  datatype Payload = Video(data: seq<Byte>) | Message(text: string)

  function Videos(sent: seq<Emitted>): (r: seq<Payload>)
    ensures |r| == |sent| && forall k :: 0 <= k < |sent| ==> r[k] == Video(sent[k].data)
  {
    seq(|sent|, k requires 0 <= k < |sent| => Video(sent[k].data))
  }
}
