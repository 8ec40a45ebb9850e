/** The generator and routes of cv.py on top of its presets: the jitter
    buffer of the smoothing generator, the `/stream` endpoint loop with its
    502 reply, and the `/api/scan` report.

    Which chunks the generator holds back is decided by float arithmetic on
    clock readings (rolling intervals, an adaptive delay, a tolerance
    factor); the model takes that decision, and whether the measured jitter
    is high, as an input per non-empty chunk. */
module CvStream {
  import opened Text
  import opened Http
  import opened CvViewer

  /** For one non-empty chunk: whether it arrived too early and is held back
      (`time_since_last < predicted_next_frame * frame_tolerance`), and
      whether `jitter > 0.02`. */
  datatype Decision = Decision(hold: bool, highJitter: bool)

  /** The generator's state after some non-empty chunks, by their position
      among the non-empty chunks: what it has yielded, what the jitter
      buffer holds, how many held chunks were pushed out, and whether the
      body raised `UnboundLocalError` on `jitter`. */
  datatype Jitter = Jitter(out: seq<nat>, held: seq<nat>, dropped: nat, crashed: bool)

  /** `jitter` is bound from the third non-empty chunk on, when
      `frame_timestamps` first holds three readings. */
  predicate JitterBound(i: nat)
  {
    i >= 2
  }

  /** `dynamic_max_buffer` for chunk `i`. */
  function Capacity(maxBuffer: nat, d: Decision, i: nat): nat
  {
    maxBuffer + (if JitterBound(i) && d.highJitter then 2 else 0)
  }

  /** The generator's handling of the non-empty chunk `i`. A held chunk is
      appended to the buffer and, past the capacity, the oldest entry is
      popped; any other chunk flushes the buffer in arrival order and then
      goes out itself. As written, holding a chunk before `jitter` is bound
      raises; `asWritten == false` is the intended reading, in which an
      unmeasured jitter counts as low. */
  function Step(st: Jitter, i: nat, d: Decision, maxBuffer: nat, asWritten: bool): (r: Jitter)
    requires !st.crashed
    ensures r.crashed <==> asWritten && d.hold && !JitterBound(i)
    ensures r.crashed ==> r == st.(crashed := true)
    ensures !d.hold ==> r == Jitter(st.out + st.held + [i], [], st.dropped, false)
    ensures d.hold && !r.crashed ==>
      && r.out == st.out
      && ((r.held == st.held + [i] && r.dropped == st.dropped && |r.held| <= Capacity(maxBuffer, d, i))
          || (r.held == (st.held + [i])[1..] && r.dropped == st.dropped + 1 && |st.held| >= Capacity(maxBuffer, d, i)))
  {
    if d.hold then
      if asWritten && !JitterBound(i) then st.(crashed := true)
      else
        var h := st.held + [i];
        if |h| > Capacity(maxBuffer, d, i) then st.(held := h[1..], dropped := st.dropped + 1)
        else st.(held := h)
    else Jitter(st.out + st.held + [i], [], st.dropped, false)
  }

  /** The state after the first `n` non-empty chunks; nothing runs after
      the crash. */
  function Run(decide: nat -> Decision, n: nat, maxBuffer: nat, asWritten: bool): Jitter
  {
    if n == 0 then Jitter([], [], 0, false)
    else
      var st := Run(decide, n - 1, maxBuffer, asWritten);
      if st.crashed then st else Step(st, n - 1, decide(n - 1), maxBuffer, asWritten)
  }

  predicate Increasing(s: seq<nat>)
  {
    forall a, b :: 0 <= a < b < |s| ==> s[a] < s[b]
  }

  /** What the intended generator keeps true after every chunk: yielded
      and held chunks together are in arrival order and come from the chunks
      seen, every chunk is yielded, held or counted as pushed out, and the
      buffer stays within its base capacity plus two. */
  ghost predicate Sound(st: Jitter, n: nat, maxBuffer: nat)
  {
    && !st.crashed
    && Increasing(st.out + st.held)
    && (forall k :: 0 <= k < |st.out + st.held| ==> (st.out + st.held)[k] < n)
    && |st.out| + |st.held| + st.dropped == n
    && |st.held| <= maxBuffer + 2
  }

  /** A chunk index above every held or yielded one keeps them increasing
      when appended. */
  lemma IncreasingAppend(s: seq<nat>, i: nat)
    requires Increasing(s) && forall k :: 0 <= k < |s| ==> s[k] < i
    ensures Increasing(s + [i])
  {
  }

  lemma {:induction false} StepSound(st: Jitter, n: nat, d: Decision, maxBuffer: nat)
    requires Sound(st, n, maxBuffer)
    ensures Sound(Step(st, n, d, maxBuffer, false), n + 1, maxBuffer)
  {
    var all := st.out + st.held;
    IncreasingAppend(all, n);
    var r := Step(st, n, d, maxBuffer, false);
    if d.hold {
      assert all + [n] == st.out + (st.held + [n]);
      if r.held != st.held + [n] {
        var h := st.held + [n];
        assert r.out + r.held == st.out + h[1..];
        forall a, b | 0 <= a < b < |r.out + r.held|
          ensures (r.out + r.held)[a] < (r.out + r.held)[b]
        {
          var a', b' := if a < |st.out| then a else a + 1, if b < |st.out| then b else b + 1;
          assert (r.out + r.held)[a] == (all + [n])[a'];
          assert (r.out + r.held)[b] == (all + [n])[b'];
        }
        forall k | 0 <= k < |r.out + r.held| ensures (r.out + r.held)[k] < n + 1 {
          var k' := if k < |st.out| then k else k + 1;
          assert (r.out + r.held)[k] == (all + [n])[k'];
        }
      }
    } else {
      assert r.out + r.held == all + [n];
    }
  }

  /** The intended generator is sound after any number of chunks. */
  lemma {:induction false} RunSound(decide: nat -> Decision, n: nat, maxBuffer: nat)
    ensures Sound(Run(decide, n, maxBuffer, false), n, maxBuffer)
  {
    if n > 0 {
      RunSound(decide, n - 1, maxBuffer);
      StepSound(Run(decide, n - 1, maxBuffer, false), n - 1, decide(n - 1), maxBuffer);
    }
  }

  /** The intended generator's latest chunk is never pushed out: it is the
      last one yielded or the newest one held. */
  lemma {:induction false} RunKeepsLatest(decide: nat -> Decision, n: nat, maxBuffer: nat)
    ensures n > 0 && maxBuffer >= 1 ==>
      var st := Run(decide, n, maxBuffer, false);
      |st.out + st.held| > 0 && (st.out + st.held)[|st.out + st.held| - 1] == n - 1
  {
    if n == 0 || maxBuffer == 0 {
      return;
    }
    var st := Run(decide, n - 1, maxBuffer, false);
    RunSound(decide, n - 1, maxBuffer);
    var r := Step(st, n - 1, decide(n - 1), maxBuffer, false);
    if decide(n - 1).hold {
      var h := st.held + [n - 1];
      assert r.held[|r.held| - 1] == n - 1;
      assert (r.out + r.held)[|r.out + r.held| - 1] == r.held[|r.held| - 1];
    } else {
      assert r.out + r.held == st.out + st.held + [n - 1];
    }
  }

  /** A chunk that is not held goes out at once, behind everything held
      before it. */
  lemma {:induction false} RunYieldsUnheld(decide: nat -> Decision, n: nat, maxBuffer: nat, i: nat, asWritten: bool)
    requires i < n && !decide(i).hold
    requires !Run(decide, n, maxBuffer, asWritten).crashed
    ensures i in Run(decide, n, maxBuffer, asWritten).out
  {
    var st := Run(decide, n - 1, maxBuffer, asWritten);
    assert !st.crashed;
    if i < n - 1 {
      RunYieldsUnheld(decide, n - 1, maxBuffer, i, asWritten);
    }
  }

  /** As written, the generator crashes exactly when a chunk is held among
      the first two non-empty chunks. */
  lemma {:induction false} RunCrashes(decide: nat -> Decision, n: nat, maxBuffer: nat)
    ensures Run(decide, n, maxBuffer, true).crashed <==> exists i :: 0 <= i < n && i < 2 && decide(i).hold
  {
    if n > 0 {
      RunCrashes(decide, n - 1, maxBuffer);
      if decide(n - 1).hold && n - 1 < 2 {
        assert exists i :: 0 <= i < n && i < 2 && decide(i).hold;
      }
    }
  }

  /** Short of that crash, the generator as written behaves exactly like the
      intended one. */
  lemma {:induction false} RunAgrees(decide: nat -> Decision, n: nat, maxBuffer: nat)
    requires !Run(decide, n, maxBuffer, true).crashed
    ensures Run(decide, n, maxBuffer, true) == Run(decide, n, maxBuffer, false)
  {
    if n > 0 {
      var st := Run(decide, n - 1, maxBuffer, true);
      assert !st.crashed;
      RunAgrees(decide, n - 1, maxBuffer);
    }
  }

  /** The crash as written: a first chunk that comes in early is held, the
      body raises before anything is yielded, and the generator ends with
      nothing sent, whatever follows. */
  lemma {:induction false} EarlyFirstChunkSendsNothing(decide: nat -> Decision, n: nat, maxBuffer: nat)
    requires n > 0 && decide(0).hold
    ensures Run(decide, n, maxBuffer, true).crashed
    ensures Run(decide, n, maxBuffer, true).out == []
  {
    if n > 1 {
      EarlyFirstChunkSendsNothing(decide, n - 1, maxBuffer);
    }
  }

  /** The non-empty chunks of a body: `if chunk:` skips the rest. */
  function NonEmpty(cs: seq<Chunk>): (r: seq<seq<Byte>>)
    ensures forall k :: 0 <= k < |r| ==> r[k] != []
    ensures |r| <= |cs|
    ensures (forall k :: 0 <= k < |cs| ==> cs[k].data != []) ==>
      |r| == |cs| && forall k :: 0 <= k < |cs| ==> r[k] == cs[k].data
  {
    if |cs| == 0 then []
    else if cs[0].data == [] then NonEmpty(cs[1..])
    else [cs[0].data] + NonEmpty(cs[1..])
  }

  /** The chunks at the given positions. */
  function Pick(cs: seq<seq<Byte>>, idx: seq<nat>): (r: seq<seq<Byte>>)
    requires forall k :: 0 <= k < |idx| ==> idx[k] < |cs|
    ensures |r| == |idx| && forall k :: 0 <= k < |idx| ==> r[k] == cs[idx[k]]
  {
    seq(|idx|, k requires 0 <= k < |idx| => cs[idx[k]])
  }

  /** What the generator yields, and the exception that leaves it. */
  datatype Generated = Generated(payloads: seq<seq<Byte>>, escaped: Option<Failure>)

  /** The smoothing generator over an accepted body. An `Exception` raised
      by the read ends it at once, without flushing the buffer; after a
      clean end the buffer is flushed in arrival order. */
  function Generate(body: Body, decide: nat -> Decision, maxBuffer: nat): (g: Generated)
    ensures g.escaped.Some? ==> body.fault == g.escaped && !Caught(g.escaped.value)
    ensures |g.payloads| <= |NonEmpty(body.chunks)|
    ensures body.fault.None? && maxBuffer >= 1 && |NonEmpty(body.chunks)| > 0 ==>
      |g.payloads| > 0 && g.payloads[|g.payloads| - 1] == NonEmpty(body.chunks)[|NonEmpty(body.chunks)| - 1]
  {
    var cs := NonEmpty(body.chunks);
    var st := Run(decide, |cs|, maxBuffer, false);
    RunSound(decide, |cs|, maxBuffer);
    RunKeepsLatest(decide, |cs|, maxBuffer);
    match body.fault
    case None => Generated(Pick(cs, st.out + st.held), None)
    case Some(f) =>
      assert forall k :: 0 <= k < |st.out| ==> st.out[k] == (st.out + st.held)[k];
      Generated(Pick(cs, st.out), if Caught(f) then None else Some(f))
  }

  /** The generator yields chunks in the order they arrived, each at most
      once. */
  lemma {:induction false} GenerateInOrder(body: Body, decide: nat -> Decision, maxBuffer: nat)
    ensures var cs := NonEmpty(body.chunks);
      var st := Run(decide, |cs|, maxBuffer, false);
      var idx := if body.fault.None? then st.out + st.held else st.out;
      && Increasing(idx)
      && (forall k :: 0 <= k < |idx| ==> idx[k] < |cs|)
      && Generate(body, decide, maxBuffer).payloads == Pick(cs, idx)
  {
    var cs := NonEmpty(body.chunks);
    var st := Run(decide, |cs|, maxBuffer, false);
    RunSound(decide, |cs|, maxBuffer);
    assert forall k :: 0 <= k < |st.out| ==> st.out[k] == (st.out + st.held)[k];
  }

  /** Every position yielded or held is below `n`. */
  ghost predicate Within(st: Jitter, n: nat)
  {
    forall k :: 0 <= k < |st.out + st.held| ==> (st.out + st.held)[k] < n
  }

  /** Positions held or yielded, as written or not, are of chunks seen. */
  lemma {:induction false} RunWithin(decide: nat -> Decision, n: nat, maxBuffer: nat, asWritten: bool)
    ensures Within(Run(decide, n, maxBuffer, asWritten), n)
  {
    if n > 0 {
      RunWithin(decide, n - 1, maxBuffer, asWritten);
      var st := Run(decide, n - 1, maxBuffer, asWritten);
      assert Within(st, n - 1);
      if !st.crashed {
        var r := Step(st, n - 1, decide(n - 1), maxBuffer, asWritten);
        assert Run(decide, n, maxBuffer, asWritten) == r;
        var grown := st.out + st.held + [n - 1];
        forall j | 0 <= j < |grown| ensures grown[j] < n {
          if j < |st.out + st.held| {
            assert grown[j] == (st.out + st.held)[j];
          }
        }
        forall k | 0 <= k < |r.out + r.held| ensures (r.out + r.held)[k] < n {
          if r.crashed {
            assert r.out + r.held == st.out + st.held;
          } else if decide(n - 1).hold && r.held != st.held + [n - 1] {
            var k' := if k < |st.out| then k else k + 1;
            assert (r.out + r.held)[k] == grown[k'];
          } else {
            assert r.out + r.held == grown;
          }
        }
      }
    }
  }

  /** The generator as cv.py has it: when holding a chunk before `jitter` is
      bound raises `UnboundLocalError`, the `except Exception` handler logs
      it and the generator ends without flushing; short of that it is the
      intended generator. */
  function GenerateAsWritten(body: Body, decide: nat -> Decision, maxBuffer: nat): (g: Generated)
    ensures !Run(decide, |NonEmpty(body.chunks)|, maxBuffer, true).crashed ==> g == Generate(body, decide, maxBuffer)
    ensures Run(decide, |NonEmpty(body.chunks)|, maxBuffer, true).crashed ==>
      g.escaped.None? && |g.payloads| <= 1
  {
    var cs := NonEmpty(body.chunks);
    var st := Run(decide, |cs|, maxBuffer, true);
    RunWithin(decide, |cs|, maxBuffer, true);
    assert forall k :: 0 <= k < |st.out| ==> st.out[k] == (st.out + st.held)[k];
    CrashedEarly(decide, |cs|, maxBuffer);
    if st.crashed then Generated(Pick(cs, st.out), None)
    else
      RunAgrees(decide, |cs|, maxBuffer);
      match body.fault
      case None => Generated(Pick(cs, st.out + st.held), None)
      case Some(f) => Generated(Pick(cs, st.out), if Caught(f) then None else Some(f))
  }

  /** The crash comes at the first or second non-empty chunk, so at most the
      first one has gone out by then. */
  lemma {:induction false} CrashedEarly(decide: nat -> Decision, n: nat, maxBuffer: nat)
    ensures Run(decide, n, maxBuffer, true).crashed ==> |Run(decide, n, maxBuffer, true).out| <= 1
  {
    if n > 0 {
      CrashedEarly(decide, n - 1, maxBuffer);
      var st := Run(decide, n - 1, maxBuffer, true);
      if !st.crashed && decide(n - 1).hold && n - 1 < 2 && n - 1 == 1 {
        var st0 := Run(decide, 0, maxBuffer, true);
        assert st == Step(st0, 0, decide(0), maxBuffer, true);
      }
    }
  }

  /** A one-chunk stream whose chunk arrives early: as written nothing is
      sent, while the intended generator flushes the chunk at the end. */
  lemma AsWrittenSendsNothing()
    ensures var body := Body([Chunk([0xFF, 0xD8, 0xFF, 0xD9], 0)], None);
      var early := (i: nat) => Decision(true, false);
      && GenerateAsWritten(body, early, 5).payloads == []
      && Generate(body, early, 5).payloads == [[0xFF, 0xD8, 0xFF, 0xD9]]
  {
    var body := Body([Chunk([0xFF, 0xD8, 0xFF, 0xD9], 0)], None);
    var early := (i: nat) => Decision(true, false);
    assert NonEmpty(body.chunks) == [[0xFF, 0xD8, 0xFF, 0xD9]];
    var st0 := Run(early, 0, 5, true);
    assert Run(early, 1, 5, true) == Step(st0, 0, early(0), 5, true);
    assert Run(early, 1, 5, false) == Step(Run(early, 0, 5, false), 0, early(0), 5, false);
  }

  /** What `/stream` answers: the streamed generator behind the endpoint at
      `index`, read `chunkSize` bytes at a time, or the 502 text reply. */
  datatype Reply =
    | Streaming(index: nat, chunkSize: int, run: Generated)
    | NoStream(status: int, contentType: string, text: string)

  const NoStreamPrefix := "No MJPEG stream found. Tried: "

  /** `/stream`: try the five candidate URLs in order; an `Exception` or a
      refused response moves on; the first accepted one is streamed. If
      none is, the reply is a 502 naming every URL tried. */
  function StreamVideo(net: Network, ip: string, port: string, quality: string, fps: string,
                       buffer: int, smoothing: string, gpu: bool, decide: nat -> Decision): (r: Result<Reply, Failure>)
    ensures var urls := StreamUrls(ip, port, Params(quality, fps, gpu));
      && (r.Err? <==> Probe(net, Get, urls, Accepts, Caught).Err?)
      && (r.Ok? && r.value.NoStream? <==> Probe(net, Get, urls, Accepts, Caught) == Ok(None))
      && (r.Ok? && r.value.Streaming? ==>
            && Probe(net, Get, urls, Accepts, Caught).Ok? && Probe(net, Get, urls, Accepts, Caught).value.Some?
            && Probe(net, Get, urls, Accepts, Caught).value.value.index == r.value.index
            && r.value.chunkSize == ChunkSize(buffer, gpu)
            && r.value.run == Generate(Probe(net, Get, urls, Accepts, Caught).value.value.response.body,
                                       decide, SmoothingOf(smoothing).maxBuffer))
    ensures r.Ok? && r.value.NoStream? ==>
      var urls := StreamUrls(ip, port, Params(quality, fps, gpu));
      && r.value.status == 502 && r.value.contentType == "text/plain"
      && NoStreamPrefix <= r.value.text
      && forall k :: 0 <= k < |urls| ==> Contains(r.value.text, urls[k])
  {
    var urls := StreamUrls(ip, port, Params(quality, fps, gpu));
    match Probe(net, Get, urls, Accepts, Caught)
    case Err(f) => Err(f)
    case Ok(None) =>
      var text := NoStreamPrefix + Join(urls, ", ");
      ListsEvery(urls, ", ", NoStreamPrefix);
      Ok(NoStream(502, "text/plain", text))
    case Ok(Some(found)) =>
      var run := Generate(found.response.body, decide, SmoothingOf(smoothing).maxBuffer);
      Ok(Streaming(found.index, ChunkSize(buffer, gpu), run))
  }

  /** `/stream` as cv.py runs it: the same candidates, reply and chunk
      size, but the stream found goes through the generator as written,
      which can end early and skip its flush. */
  function StreamVideoAsWritten(net: Network, ip: string, port: string, quality: string, fps: string,
                                buffer: int, smoothing: string, gpu: bool, decide: nat -> Decision): (r: Result<Reply, Failure>)
    ensures var intended := StreamVideo(net, ip, port, quality, fps, buffer, smoothing, gpu, decide);
      && (r.Ok? && r.value.Streaming? <==> intended.Ok? && intended.value.Streaming?)
      && (!(r.Ok? && r.value.Streaming?) ==> r == intended)
    ensures r.Ok? && r.value.Streaming? ==>
      var p := Probe(net, Get, StreamUrls(ip, port, Params(quality, fps, gpu)), Accepts, Caught);
      && p.Ok? && p.value.Some?
      && r.value.index == p.value.value.index
      && r.value.chunkSize == ChunkSize(buffer, gpu)
      && r.value.run == GenerateAsWritten(p.value.value.response.body, decide, SmoothingOf(smoothing).maxBuffer)
  {
    var urls := StreamUrls(ip, port, Params(quality, fps, gpu));
    match Probe(net, Get, urls, Accepts, Caught)
    case Ok(Some(found)) =>
      var run := GenerateAsWritten(found.response.body, decide, SmoothingOf(smoothing).maxBuffer);
      Ok(Streaming(found.index, ChunkSize(buffer, gpu), run))
    case _ => StreamVideo(net, ip, port, quality, fps, buffer, smoothing, gpu, decide)
  }

  /** The route as written and the intended one differ only when the
      stream found makes the generator as written crash. */
  lemma {:induction false} StreamVideoAgrees(net: Network, ip: string, port: string, quality: string, fps: string,
                                             buffer: int, smoothing: string, gpu: bool, decide: nat -> Decision)
    ensures var p := Probe(net, Get, StreamUrls(ip, port, Params(quality, fps, gpu)), Accepts, Caught);
      var w := StreamVideoAsWritten(net, ip, port, quality, fps, buffer, smoothing, gpu, decide);
      var i := StreamVideo(net, ip, port, quality, fps, buffer, smoothing, gpu, decide);
      w != i ==>
        && p.Ok? && p.value.Some?
        && Run(decide, |NonEmpty(p.value.value.response.body.chunks)|, SmoothingOf(smoothing).maxBuffer, true).crashed
  {
  }

  /** Every part of a joined list occurs in any text that ends with it. */
  lemma ListsEvery(parts: seq<string>, sep: string, prefix: string)
    ensures forall k :: 0 <= k < |parts| ==> Contains(prefix + Join(parts, sep), parts[k])
  {
    forall k | 0 <= k < |parts| ensures Contains(prefix + Join(parts, sep), parts[k]) {
      JoinContains(parts, sep, k);
      var i :| 0 <= i <= |Join(parts, sep)| - |parts[k]| && HasAt(Join(parts, sep), parts[k], i);
      assert (prefix + Join(parts, sep))[|prefix| + i..|prefix| + i + |parts[k]|] == Join(parts, sep)[i..i + |parts[k]|];
      assert HasAt(prefix + Join(parts, sep), parts[k], |prefix| + i);
    }
  }

  /** One line of the `/api/scan` report: the final status, the
      `Content-Type` header as sent, `available`, and a text preview; or the
      exception text, with `available` false. */
  datatype Report =
    | Report(url: string, status: int, contentType: string, available: bool, preview: string)
    | Failed(url: string, error: string)

  /** `decode(errors="ignore")` on bytes read as ASCII: every byte below
      128 becomes its character, the others are dropped. */
  function Ascii(bs: seq<Byte>): (s: string)
    ensures |s| <= |bs|
  {
    if |bs| == 0 then ""
    else (if bs[0] < 128 then [bs[0] as char] else []) + Ascii(bs[1..])
  }

  /** `next(resp.iter_content(1024))[:200].decode(...)`, and "" when there is
      no chunk or reading it raises (the bare `except` takes everything). */
  function Preview(b: Body): (s: string)
    ensures |s| <= 200
    ensures |b.chunks| == 0 ==> s == ""
  {
    if |b.chunks| == 0 then ""
    else
      var first := b.chunks[0].data;
      var head := if |first| > 1024 then first[..1024] else first;
      Ascii(if |head| > 200 then head[..200] else head)
  }

  /** One endpoint of `/api/scan`: HEAD, and only when that status is 400 or
      more, GET and take a preview; `available` is whether the status
      reported is 200. */
  function ScanOne(net: Network, url: string): (r: Result<Report, Failure>)
    ensures r.Err? ==> !Caught(r.error)
    ensures r.Ok? ==> r.value.url == url
    ensures r.Ok? && r.value.Report? ==> (r.value.available <==> r.value.status == 200) && |r.value.preview| <= 200
    ensures net(Head, url).Responded? && net(Head, url).response.status < 400 ==>
      r == Ok(Report(url, net(Head, url).response.status, net(Head, url).response.contentType,
                     net(Head, url).response.status == 200, ""))
    ensures net(Head, url).Responded? && net(Head, url).response.status >= 400 && net(Get, url).Responded? ==>
      r.Ok? && r.value.Report? && r.value.status == net(Get, url).response.status
      && r.value.contentType == net(Get, url).response.contentType
    ensures r.Ok? && r.value.Failed? ==>
      (net(Head, url).Raised? && r.value.error == net(Head, url).failure.message)
      || (net(Get, url).Raised? && r.value.error == net(Get, url).failure.message)
    ensures net(Head, url).Raised? ==>
      var f := net(Head, url).failure;
      r == if Caught(f) then Ok(Failed(url, f.message)) else Err(f)
    ensures net(Head, url).Responded? && net(Head, url).response.status >= 400 && net(Get, url).Raised? ==>
      var f := net(Get, url).failure;
      r == if Caught(f) then Ok(Failed(url, f.message)) else Err(f)
    ensures net(Head, url).Responded? && net(Head, url).response.status >= 400 && net(Get, url).Responded? ==>
      r.Ok? && r.value.Report? && r.value.preview == Preview(net(Get, url).response.body)
  {
    match net(Head, url)
    case Raised(f) => if Caught(f) then Ok(Failed(url, f.message)) else Err(f)
    case Responded(h) =>
      if h.status >= 400 then
        match net(Get, url)
        case Raised(f) => if Caught(f) then Ok(Failed(url, f.message)) else Err(f)
        case Responded(g) => Ok(Report(url, g.status, g.contentType, g.status == 200, Preview(g.body)))
      else Ok(Report(url, h.status, h.contentType, h.status == 200, ""))
  }

  /** A line is available exactly when the HEAD answered 200, or answered
      400 or more and the GET that followed answered 200. */
  lemma ScanOneAvailable(net: Network, url: string)
    ensures (ScanOne(net, url).Ok? && ScanOne(net, url).value.Report? && ScanOne(net, url).value.available)
      <==> net(Head, url).Responded?
           && (net(Head, url).response.status == 200
               || (net(Head, url).response.status >= 400 && net(Get, url).Responded? && net(Get, url).response.status == 200))
  {
  }

  /** A line is missing from the report only when a request raised an
      exception that is not an `Exception`; the GET is only sent after a HEAD
      status of 400 or more. */
  lemma ScanOneOkIff(net: Network, url: string)
    ensures ScanOne(net, url).Err? <==>
      (net(Head, url).Raised? && !Caught(net(Head, url).failure))
      || (net(Head, url).Responded? && net(Head, url).response.status >= 400
          && net(Get, url).Raised? && !Caught(net(Get, url).failure))
  {
  }

  /** The endpoints `/api/scan` reports on, in order. */
  function ScanUrls(ip: string, port: string): seq<string>
  {
    var base := Base(ip, port);
    [base + "/video", base + "/mjpegfeed", base, base + "/jpg", base + "/h264"]
  }

  function ScanEach(net: Network, urls: seq<string>): (r: Result<seq<Report>, Failure>)
    ensures r.Ok? ==> |r.value| == |urls| && forall k :: 0 <= k < |urls| ==> Ok(r.value[k]) == ScanOne(net, urls[k])
    ensures r.Err? ==> exists k :: 0 <= k < |urls| && ScanOne(net, urls[k]) == Err(r.error)
  {
    if |urls| == 0 then Ok([])
    else
      match ScanOne(net, urls[0])
      case Err(f) => Err(f)
      case Ok(e) =>
        match ScanEach(net, urls[1..])
        case Err(f) => Err(f)
        case Ok(rest) => Ok([e] + rest)
  }

  /** `/api/scan`: one report per endpoint, in order; only an exception
      that is not an `Exception` cuts it short. */
  function ScanEndpoints(net: Network, ip: string, port: string): (r: Result<seq<Report>, Failure>)
    ensures r.Ok? ==> |r.value| == 5 && forall k :: 0 <= k < 5 ==> r.value[k].url == ScanUrls(ip, port)[k]
    ensures r.Ok? <==> forall k :: 0 <= k < 5 ==> ScanOne(net, ScanUrls(ip, port)[k]).Ok?
    ensures r.Err? ==> !Caught(r.error)
  {
    ScanEach(net, ScanUrls(ip, port))
  }
}
