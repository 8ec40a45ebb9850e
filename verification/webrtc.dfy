/** The WebRTC viewer of webrtc_viewer.py: a video track that connects to the
    phone's MJPEG stream, cuts JPEG frames out of it and paces them to the
    requested frame rate, and the registry of peer connections keyed by
    session id. Decoding a JPEG (OpenCV) is a predicate passed in. */
module WebRtc {
  import opened Text
  import opened Http
  import opened JpegFrames
  import opened Governor

  /** The endpoints `connect_to_stream` tries, in order. */
  const ConnectPaths: seq<string> := ["/video", "/mjpegfeed", "/"]

  function ConnectUrls(ip: string, port: int): (urls: seq<string>)
    ensures |urls| == |ConnectPaths|
    ensures forall k :: 0 <= k < |urls| ==> urls[k] == Url(ip, port, ConnectPaths[k])
  {
    [Url(ip, port, "/video"), Url(ip, port, "/mjpegfeed"), Url(ip, port, "/")]
  }

  /** `connect_to_stream`: GET the three endpoints in order, skipping any
      `Exception`, and take the first 200 response with an MJPEG or JPEG type;
      `Ok(None)` is the `False` return. */
  function ConnectToStream(net: Network, ip: string, port: int): (r: Result<Option<Found>, Failure>)
    ensures r.Ok? && r.value.Some? ==>
      var k := r.value.value.index;
      && k < 3
      && net(Get, Url(ip, port, ConnectPaths[k])) == Responded(r.value.value.response)
      && r.value.value.response.status == 200 && MjpegType(r.value.value.response.contentType)
      && forall j :: 0 <= j < k ==> Passes(net(Get, Url(ip, port, ConnectPaths[j])), StreamReady, Caught)
    ensures r.Ok? && r.value.None? ==>
      forall j :: 0 <= j < 3 ==> Passes(net(Get, Url(ip, port, ConnectPaths[j])), StreamReady, Caught)
    ensures r.Err? ==> r.error.kind == Cancelled
  {
    Probe(net, Get, ConnectUrls(ip, port), StreamReady, Caught)
  }

  /** `frame_interval = 1.0 / target_fps` in microseconds; a target of zero
      makes the track's constructor raise `ZeroDivisionError`. */
  function FrameInterval(fps: int): (r: Option<int>)
    ensures r.None? <==> fps == 0
    ensures fps > 0 ==> r.value > 0 || fps > 1_000_000
  {
    if fps == 0 then None else Some(IntervalOf(fps))
  }

  /** The timing block of `recv`: how long it sleeps, and the new
      `last_frame_time`, for a frame decoded at clock reading `now`. */
  function Pace(last: int, interval: int, now: int): (r: (int, int))
    ensures r.0 >= 0 && r.1 == now + r.0
    ensures last <= 0 ==> r == (0, now)
    ensures last > 0 ==> r.1 == Max(now, last + interval)
  {
    if last > 0 then
      var elapsed := now - last;
      if elapsed < interval then (interval - elapsed, now + (interval - elapsed)) else (0, now)
    else (0, now)
  }

  /** Frames handed out through `Pace` one after another are spaced at least
      one interval apart: the first is never delayed, and each later one
      leaves at the earliest moment that keeps the spacing. */
  lemma {:induction false} PaceSpacing(last: int, interval: int, now: int)
    requires last > 0
    ensures Pace(last, interval, now).1 - last >= interval
    ensures Pace(last, interval, now).0 > 0 <==> now - last < interval
  {
  }

  /** What the track holds between calls to `recv`. */
  datatype Track = Track(
    interval: int,
    buffer: seq<Byte>,
    last: int,
    stream: Option<Body>,
    running: bool)

  /** A fresh `DroidCamVideoTrack`. */
  function NewTrack(fps: int): (r: Result<Track, Failure>)
    ensures r.Ok? <==> fps != 0
    ensures r.Ok? ==> r.value.buffer == [] && r.value.last == 0 && r.value.stream.None? && r.value.running
  {
    match FrameInterval(fps)
    case None => Err(Failure(Other, "float division by zero"))
    case Some(i) => Ok(Track(i, [], 0, None, true))
  }

  /** `stop`: the read loop does not run again. */
  function Stop(t: Track): (r: Track)
    ensures !r.running && r.buffer == t.buffer && r.stream == t.stream
  {
    t.(running := false)
  }

  /** A video frame: a decoded JPEG and when it left, or the black frame. */
  datatype Picture = Frame(jpeg: seq<Byte>, at: int) | Black

  datatype Received = Received(picture: Picture, track: Track, clock: int)

  /** The data of a body's chunks laid end to end. */
  function Bytes(cs: seq<Chunk>): seq<Byte>
  {
    if |cs| == 0 then [] else cs[0].data + Bytes(cs[1..])
  }

  /** `self.frame_buffer += chunk` followed by `extract_jpeg_frame(b"")`:
      any frame cut is well formed, and what stays buffered is a suffix of the
      buffer with the chunk appended. */
  function TakeChunk(buffer: seq<Byte>, data: seq<Byte>): (e: Extraction)
    ensures e.frame.Some? ==> WellFormed(e.frame.value)
    ensures SuffixOf(e.buffer, buffer + data)
  {
    var e := ExtractFrame(buffer + data, []);
    ExtractFrameSpec(buffer + data, []);
    assert buffer + data + [] == buffer + data;
    if e.frame.Some? then
      AnchoredWellFormed(buffer + data, e.frame.value, e.buffer);
      e
    else e
  }

  /** `recv`: connects when there is no stream yet (black frame if that
      fails), then reads chunks until one completes a frame that decodes. */
  function Recv(t: Track, net: Network, ip: string, port: int,
                decodes: seq<Byte> -> bool, clock: int): (r: Result<Received, Failure>)
    ensures r.Ok? && r.value.picture.Frame? ==> WellFormed(r.value.picture.jpeg) && decodes(r.value.picture.jpeg)
    ensures r.Ok? && r.value.picture.Frame? ==>
      r.value.track.last == r.value.picture.at && (t.last > 0 ==> r.value.picture.at - t.last >= t.interval)
    ensures r.Ok? ==> r.value.clock >= clock
    ensures r.Err? ==> r.error.kind == Cancelled
  {
    if t.stream.None? then
      match ConnectToStream(net, ip, port)
      case Err(f) => Err(f)
      case Ok(None) => Ok(Received(Black, t, clock))
      case Ok(Some(found)) => ReadLoop(t.(stream := Some(found.response.body)), decodes, clock)
    else ReadLoop(t, decodes, clock)
  }

  /** The `while self.running` loop: one chunk at a time, one extraction
      attempt per chunk. */
  function ReadLoop(t: Track, decodes: seq<Byte> -> bool, clock: int): (r: Result<Received, Failure>)
    requires t.stream.Some?
    ensures r.Ok? && r.value.picture.Frame? ==> WellFormed(r.value.picture.jpeg) && decodes(r.value.picture.jpeg)
    ensures r.Ok? && r.value.picture.Frame? ==>
      r.value.track.last == r.value.picture.at && (t.last > 0 ==> r.value.picture.at - t.last >= t.interval)
    ensures r.Ok? ==> r.value.clock >= clock && r.value.track.stream.Some?
    ensures r.Ok? ==> r.value.track.last == t.last || r.value.picture.Frame?
    ensures r.Ok? ==> |r.value.track.stream.value.chunks| <= |t.stream.value.chunks|
    ensures r.Err? ==> r.error.kind == Cancelled
    decreases |t.stream.value.chunks|
  {
    var body := t.stream.value;
    if !t.running then Ok(Received(Black, t, clock))
    else if |body.chunks| == 0 then
      match body.fault
      case None => Ok(Received(Black, t, clock))
      case Some(f) => if Caught(f) then Ok(Received(Black, t, clock)) else Err(f)
    else
      var c := body.chunks[0];
      var now := Max(clock, c.at);
      var rest := Body(body.chunks[1..], body.fault);
      if c.data == [] then Ok(Received(Black, t.(stream := Some(rest)), now))
      else
        var e := TakeChunk(t.buffer, c.data);
        var t1 := t.(buffer := e.buffer, stream := Some(rest));
        if e.frame.Some? && decodes(e.frame.value) then
          var (sleep, after) := Pace(t.last, t.interval, now);
          Ok(Received(Frame(e.frame.value, after), t1.(last := after), after))
        else ReadLoop(t1, decodes, now)
  }

  /** What the read loop leaves buffered is a suffix of the old buffer
      followed by the bytes of the chunks it consumed. */
  lemma {:induction false} ReadLoopKeeps(t: Track, decodes: seq<Byte> -> bool, clock: int)
    requires t.stream.Some?
    ensures var r := ReadLoop(t, decodes, clock);
      r.Ok? ==>
        var used := t.stream.value.chunks[..|t.stream.value.chunks| - |r.value.track.stream.value.chunks|];
        SuffixOf(r.value.track.buffer, t.buffer + Bytes(used))
    decreases |t.stream.value.chunks|
  {
    var body := t.stream.value;
    var r := ReadLoop(t, decodes, clock);
    if t.running && |body.chunks| > 0 && r.Ok? {
      var c := body.chunks[0];
      var now := Max(clock, c.at);
      var rest := Body(body.chunks[1..], body.fault);
      if c.data == [] {
        assert body.chunks[..1] == [c];
        assert Bytes([c]) == [];
        assert t.buffer + Bytes(body.chunks[..1]) == t.buffer;
      } else {
        var e := TakeChunk(t.buffer, c.data);
        var t1 := t.(buffer := e.buffer, stream := Some(rest));
        if e.frame.Some? && decodes(e.frame.value) {
          assert body.chunks[..1] == [c];
          assert Bytes([c]) == c.data;
        } else {
          ReadLoopKeeps(t1, decodes, now);
          var m := |rest.chunks| - |r.value.track.stream.value.chunks|;
          ReadLoopBytes(t.buffer, body.chunks, e.buffer, r.value.track.buffer, m);
        }
      }
    } else if r.Ok? {
      assert t.buffer + Bytes([]) == t.buffer;
    }
  }

  /** The bytes that stay buffered across one more chunk of the read loop. */
  lemma {:induction false} ReadLoopBytes(buffer: seq<Byte>, chunks: seq<Chunk>, mid: seq<Byte>,
                                         kept: seq<Byte>, m: nat)
    requires |chunks| > 0 && m < |chunks|
    requires SuffixOf(mid, buffer + chunks[0].data)
    requires SuffixOf(kept, mid + Bytes(chunks[1..][..m]))
    ensures SuffixOf(kept, buffer + Bytes(chunks[..m + 1]))
  {
    var used := chunks[..m + 1];
    assert used[0] == chunks[0] && used[1..] == chunks[1..][..m];
    assert Bytes(used) == chunks[0].data + Bytes(chunks[1..][..m]);
    SuffixExtend(mid, buffer + chunks[0].data, Bytes(chunks[1..][..m]));
    assert buffer + chunks[0].data + Bytes(chunks[1..][..m]) == buffer + Bytes(used);
    SuffixTrans(kept, mid + Bytes(chunks[1..][..m]), buffer + Bytes(used));
  }

  /** The stream the read loop leaves is the one it was given, less the
      chunks it consumed. */
  lemma {:induction false} ReadLoopRest(t: Track, decodes: seq<Byte> -> bool, clock: int)
    requires t.stream.Some?
    ensures var r := ReadLoop(t, decodes, clock);
      r.Ok? ==>
        var cs := t.stream.value.chunks;
        r.value.track.stream.value.chunks == cs[|cs| - |r.value.track.stream.value.chunks|..]
    decreases |t.stream.value.chunks|
  {
    var body := t.stream.value;
    if t.running && |body.chunks| > 0 && body.chunks[0].data != [] {
      var c := body.chunks[0];
      var e := TakeChunk(t.buffer, c.data);
      var t1 := t.(buffer := e.buffer, stream := Some(Body(body.chunks[1..], body.fault)));
      if !(e.frame.Some? && decodes(e.frame.value)) {
        ReadLoopRest(t1, decodes, Max(clock, c.at));
      }
    }
  }

  /** The bytes of the first `m + 1` chunks: the first chunk's, then those of
      the next `m`. */
  lemma {:induction false} BytesFirst(chunks: seq<Chunk>, m: nat)
    requires m < |chunks|
    ensures Bytes(chunks[..m + 1]) == chunks[0].data + Bytes(chunks[1..][..m])
  {
    var used := chunks[..m + 1];
    assert used[0] == chunks[0] && used[1..] == chunks[1..][..m];
  }

  /** The bytes of two runs of chunks laid one after the other. */
  lemma {:induction false} BytesAppend(a: seq<Chunk>, b: seq<Chunk>)
    ensures Bytes(a + b) == Bytes(a) + Bytes(b)
    decreases |a|
  {
    if |a| > 0 {
      assert (a + b)[0] == a[0] && (a + b)[1..] == a[1..] + b;
      BytesAppend(a[1..], b);
    } else {
      assert a + b == b;
    }
  }

  /** The frames of `fs` that decode, in order. */
  function Decodable(fs: seq<seq<Byte>>, decodes: seq<Byte> -> bool): seq<seq<Byte>>
    decreases |fs|
  {
    if |fs| == 0 then [] else (if decodes(fs[0]) then [fs[0]] else []) + Decodable(fs[1..], decodes)
  }

  /** When every frame decodes, none is left out. */
  lemma {:induction false} DecodableAll(fs: seq<seq<Byte>>, decodes: seq<Byte> -> bool)
    requires forall f :: decodes(f)
    ensures Decodable(fs, decodes) == fs
    decreases |fs|
  {
    if |fs| > 0 {
      DecodableAll(fs[1..], decodes);
    }
  }

  /** The frame a picture carries, if any. */
  function Shown(p: Picture): seq<seq<Byte>>
  {
    if p.Frame? then [p.jpeg] else []
  }

  /** The frames that draining `b` would cut and that decode, in order. */
  ghost function Yield(b: seq<Byte>, decodes: seq<Byte> -> bool): seq<seq<Byte>>
  {
    Decodable(Drain(b).frames, decodes)
  }

  /** Past a frame `f` cut from `s`, draining `s` with more bytes behind it
      is `f` followed by draining what the cut left with those bytes. */
  lemma {:induction false} DrainPastFrame(s: seq<Byte>, f: seq<Byte>, b: seq<Byte>, y: seq<Byte>,
                                          decodes: seq<Byte> -> bool)
    requires Extract(s) == Extraction(Some(f), b)
    ensures Yield(s + y, decodes) == (if decodes(f) then [f] else []) + Yield(b + y, decodes)
  {
    ExtractAppend(s, y);
    DrainStep(s + y, f, b + y);
    assert ([f] + Drain(b + y).frames)[1..] == Drain(b + y).frames;
  }

  /** The chunks of `t`'s stream that are gone from `later`'s. */
  function Consumed(t: Track, later: Track): seq<Chunk>
    requires t.stream.Some? && later.stream.Some?
    requires |later.stream.value.chunks| <= |t.stream.value.chunks|
  {
    t.stream.value.chunks[..|t.stream.value.chunks| - |later.stream.value.chunks|]
  }

  /** `got`, read from track `t`, against draining all it read: of the
      frames that the bytes it read, followed by any later bytes `x`, drain
      to, the ones that decode are the frame it returns, then those that the
      buffer it leaves, followed by `x`, drains to. */
  ghost predicate DrainsAcross(t: Track, got: Received, x: seq<Byte>, decodes: seq<Byte> -> bool)
  {
    && t.stream.Some? && got.track.stream.Some?
    && |got.track.stream.value.chunks| <= |t.stream.value.chunks|
    && Yield(t.buffer + (Bytes(Consumed(t, got.track)) + x), decodes)
         == Shown(got.picture) + Yield(got.track.buffer + x, decodes)
  }

  /** One read loop hands frames on in the order draining would cut them,
      skipping only those that do not decode. Extraction happens once per
      chunk, so a chunk holding two frames leaves the second buffered for
      the next call. */
  lemma {:induction false} ReadLoopDrains(t: Track, decodes: seq<Byte> -> bool, clock: int, x: seq<Byte>)
    requires t.stream.Some?
    ensures ReadLoop(t, decodes, clock).Ok? ==> DrainsAcross(t, ReadLoop(t, decodes, clock).value, x, decodes)
    decreases |t.stream.value.chunks|, 1
  {
    var body := t.stream.value;
    var r := ReadLoop(t, decodes, clock);
    if !t.running || |body.chunks| == 0 {
      if r.Ok? {
        assert r.value == Received(Black, t, clock);
        DrainsIdle(t, clock, x, decodes);
      }
    } else {
      var c := body.chunks[0];
      var now := Max(clock, c.at);
      var rest := Body(body.chunks[1..], body.fault);
      if c.data == [] {
        DrainsEmptyChunk(t, now, x, decodes);
      } else {
        var e := TakeChunk(t.buffer, c.data);
        var t1 := t.(buffer := e.buffer, stream := Some(rest));
        if e.frame.Some? && decodes(e.frame.value) {
          var after := Pace(t.last, t.interval, now).1;
          assert r == Ok(Received(Frame(e.frame.value, after), t1.(last := after), after));
          DrainsFrame(t, e, after, x, decodes);
        } else {
          assert r == ReadLoop(t1, decodes, now);
          DrainsSkip(t, e, decodes, now, x);
        }
      }
    }
  }

  /** A loop that reads nothing leaves the buffer as it was. */
  lemma {:induction false} DrainsIdle(t: Track, clock: int, x: seq<Byte>, decodes: seq<Byte> -> bool)
    requires t.stream.Some?
    ensures DrainsAcross(t, Received(Black, t, clock), x, decodes)
  {
    assert Consumed(t, t) == [];
    assert Bytes([]) + x == x;
  }

  /** An empty chunk is read and the black frame returned, the buffer unchanged. */
  lemma {:induction false} DrainsEmptyChunk(t: Track, now: int, x: seq<Byte>, decodes: seq<Byte> -> bool)
    requires t.stream.Some? && |t.stream.value.chunks| > 0 && t.stream.value.chunks[0].data == []
    ensures var body := t.stream.value;
      DrainsAcross(t, Received(Black, t.(stream := Some(Body(body.chunks[1..], body.fault))), now), x, decodes)
  {
    var cs := t.stream.value.chunks;
    ChunkBytes(t.buffer, cs, 0, x);
    assert Consumed(t, t.(stream := Some(Body(cs[1..], t.stream.value.fault)))) == cs[..1];
    assert t.buffer + cs[0].data == t.buffer;
  }

  /** A chunk completes a frame that decodes: it is returned, and the rest
      of the buffer is what the cut left. */
  lemma {:induction false} DrainsFrame(t: Track, e: Extraction, after: int, x: seq<Byte>, decodes: seq<Byte> -> bool)
    requires t.stream.Some? && |t.stream.value.chunks| > 0
    requires e == TakeChunk(t.buffer, t.stream.value.chunks[0].data)
    requires e.frame.Some? && decodes(e.frame.value)
    ensures var body := t.stream.value;
      var t1 := t.(buffer := e.buffer, stream := Some(Body(body.chunks[1..], body.fault)));
      DrainsAcross(t, Received(Frame(e.frame.value, after), t1.(last := after), after), x, decodes)
  {
    var cs := t.stream.value.chunks;
    var s := t.buffer + cs[0].data;
    assert s + [] == s;
    assert e == Extract(s);
    ChunkBytes(t.buffer, cs, 0, x);
    var t1 := t.(buffer := e.buffer, stream := Some(Body(cs[1..], t.stream.value.fault)));
    assert Consumed(t, t1.(last := after)) == cs[..1];
    DrainPastFrame(s, e.frame.value, e.buffer, x, decodes);
  }

  /** A chunk that hands nothing on: the loop goes on with the next chunk
      and the buffer the extraction left. */
  lemma {:induction false} DrainsSkip(t: Track, e: Extraction, decodes: seq<Byte> -> bool, now: int, x: seq<Byte>)
    requires t.stream.Some? && |t.stream.value.chunks| > 0
    requires e == TakeChunk(t.buffer, t.stream.value.chunks[0].data)
    requires !(e.frame.Some? && decodes(e.frame.value))
    ensures var body := t.stream.value;
      var t1 := t.(buffer := e.buffer, stream := Some(Body(body.chunks[1..], body.fault)));
      var r := ReadLoop(t1, decodes, now);
      r.Ok? ==> DrainsAcross(t, r.value, x, decodes)
    decreases |t.stream.value.chunks|, 0
  {
    var body := t.stream.value;
    var cs := body.chunks;
    var t1 := t.(buffer := e.buffer, stream := Some(Body(cs[1..], body.fault)));
    var r := ReadLoop(t1, decodes, now);
    if r.Ok? {
      ReadLoopDrains(t1, decodes, now, x);
      var m := |cs[1..]| - |r.value.track.stream.value.chunks|;
      var s := t.buffer + cs[0].data;
      assert s + [] == s;
      SkipChunk(t.buffer, cs, Extract(s), m, x, decodes);
      assert Consumed(t1, r.value.track) == cs[1..][..m];
      assert Consumed(t, r.value.track) == cs[..m + 1];
    }
  }

  /** The bytes read up to chunk `m`, followed by `x`: the first chunk's
      bytes after the buffer, then the next `m` chunks' and `x`. */
  lemma {:induction false} ChunkBytes(buffer: seq<Byte>, chunks: seq<Chunk>, m: nat, x: seq<Byte>)
    requires m < |chunks|
    ensures buffer + (Bytes(chunks[..m + 1]) + x) == (buffer + chunks[0].data) + (Bytes(chunks[1..][..m]) + x)
    ensures m == 0 ==> buffer + (Bytes(chunks[..1]) + x) == (buffer + chunks[0].data) + x
  {
    BytesFirst(chunks, m);
    assert chunks[1..][..0] == [];
  }

  /** A chunk whose extraction hands nothing on: either no frame was cut,
      and the buffer keeps the chunk, or the frame cut does not decode. */
  lemma {:induction false} SkipChunk(buffer: seq<Byte>, chunks: seq<Chunk>, e: Extraction, m: nat,
                                     x: seq<Byte>, decodes: seq<Byte> -> bool)
    requires m + 1 <= |chunks|
    requires e == Extract(buffer + chunks[0].data)
    requires !(e.frame.Some? && decodes(e.frame.value))
    ensures Yield(buffer + (Bytes(chunks[..m + 1]) + x), decodes)
      == Yield(e.buffer + (Bytes(chunks[1..][..m]) + x), decodes)
  {
    var y := Bytes(chunks[1..][..m]) + x;
    ChunkBytes(buffer, chunks, m, x);
    ExtractSpec(buffer + chunks[0].data);
    if e.frame.Some? {
      DrainPastFrame(buffer + chunks[0].data, e.frame.value, e.buffer, y, decodes);
    }
  }

  /** `recv` called up to `n` times on a connected track: the frames handed
      out, and the track and clock afterwards. A call that raises ends the
      sequence before its reads. */
  datatype Calls = Calls(frames: seq<seq<Byte>>, track: Track, clock: int)

  function RecvCalls(t: Track, decodes: seq<Byte> -> bool, clock: int, n: nat): (r: Calls)
    requires t.stream.Some?
    ensures r.track.stream.Some?
    ensures |r.track.stream.value.chunks| <= |t.stream.value.chunks|
    ensures forall k :: 0 <= k < |r.frames| ==> WellFormed(r.frames[k]) && decodes(r.frames[k])
    decreases n
  {
    if n == 0 then Calls([], t, clock)
    else
      match ReadLoop(t, decodes, clock)
      case Err(_) => Calls([], t, clock)
      case Ok(got) =>
        var more := RecvCalls(got.track, decodes, got.clock, n - 1);
        Calls(Shown(got.picture) + more.frames, more.track, more.clock)
  }

  /** The calls `r`, made on track `t`, against draining all they read: of
      the frames that the bytes read, followed by any later bytes `x`, drain
      to, the ones that decode are the frames handed out, then those that the
      buffer left, followed by `x`, drains to. */
  ghost predicate CallsAcross(t: Track, r: Calls, x: seq<Byte>, decodes: seq<Byte> -> bool)
  {
    && t.stream.Some? && r.track.stream.Some?
    && |r.track.stream.value.chunks| <= |t.stream.value.chunks|
    && Yield(t.buffer + (Bytes(Consumed(t, r.track)) + x), decodes)
         == r.frames + Yield(r.track.buffer + x, decodes)
  }

  /** The invariant holds over any number of calls. */
  lemma {:induction false} RecvCallsDrain(t: Track, decodes: seq<Byte> -> bool, clock: int, n: nat, x: seq<Byte>)
    requires t.stream.Some?
    ensures CallsAcross(t, RecvCalls(t, decodes, clock, n), x, decodes)
    decreases n
  {
    if n == 0 || ReadLoop(t, decodes, clock).Err? {
      assert RecvCalls(t, decodes, clock, n) == Calls([], t, clock);
      CallsIdle(t, clock, x, decodes);
    } else {
      var got := ReadLoop(t, decodes, clock).value;
      RecvCallsDrain(got.track, decodes, got.clock, n - 1, x);
      CallsStep(t, decodes, clock, n, x);
    }
  }

  /** No call, or one that raised: nothing read and nothing handed out. */
  lemma {:induction false} CallsIdle(t: Track, clock: int, x: seq<Byte>, decodes: seq<Byte> -> bool)
    requires t.stream.Some?
    ensures CallsAcross(t, Calls([], t, clock), x, decodes)
  {
    assert Consumed(t, t) == [];
    assert Bytes([]) + x == x;
  }

  /** The first of `n` calls returned: the invariant of the later calls
      carries over to all of them. */
  lemma {:induction false} CallsStep(t: Track, decodes: seq<Byte> -> bool, clock: int, n: nat, x: seq<Byte>)
    requires t.stream.Some? && n > 0 && ReadLoop(t, decodes, clock).Ok?
    requires var got := ReadLoop(t, decodes, clock).value;
      CallsAcross(got.track, RecvCalls(got.track, decodes, got.clock, n - 1), x, decodes)
    ensures CallsAcross(t, RecvCalls(t, decodes, clock, n), x, decodes)
  {
    var got := ReadLoop(t, decodes, clock).value;
    var more := RecvCalls(got.track, decodes, got.clock, n - 1);
    assert RecvCalls(t, decodes, clock, n) == Calls(Shown(got.picture) + more.frames, more.track, more.clock);
    ReadLoopRest(t, decodes, clock);
    ReadLoopDrains(t, decodes, clock, Bytes(Consumed(got.track, more.track)) + x);
    DrainsCompose(t, got, more, x, decodes);
  }

  /** One call followed by more calls. */
  lemma {:induction false} DrainsCompose(t: Track, got: Received, more: Calls, x: seq<Byte>, decodes: seq<Byte> -> bool)
    requires t.stream.Some? && got.track.stream.Some?
    requires var cs, gs := t.stream.value.chunks, got.track.stream.value.chunks;
      |gs| <= |cs| && gs == cs[|cs| - |gs|..]
    requires CallsAcross(got.track, more, x, decodes)
    requires DrainsAcross(t, got, Bytes(Consumed(got.track, more.track)) + x, decodes)
    ensures CallsAcross(t, Calls(Shown(got.picture) + more.frames, more.track, more.clock), x, decodes)
  {
    var a, b := Consumed(t, got.track), Consumed(got.track, more.track);
    ConsumedSplit(t, got.track, more.track);
    BytesAppend(a, b);
    assert Bytes(Consumed(t, more.track)) + x == Bytes(a) + (Bytes(b) + x);
  }

  /** What two reads consume together is what the first consumed, then
      what the second did. */
  lemma {:induction false} ConsumedSplit(t: Track, mid: Track, later: Track)
    requires t.stream.Some? && mid.stream.Some? && later.stream.Some?
    requires var cs, gs := t.stream.value.chunks, mid.stream.value.chunks;
      |gs| <= |cs| && gs == cs[|cs| - |gs|..]
    requires |later.stream.value.chunks| <= |mid.stream.value.chunks|
    ensures Consumed(t, later) == Consumed(t, mid) + Consumed(mid, later)
  {
    var cs, gs := t.stream.value.chunks, mid.stream.value.chunks;
    var m1, m2 := |cs| - |gs|, |gs| - |later.stream.value.chunks|;
    assert cs[..m1 + m2] == cs[..m1] + gs[..m2];
  }

  /** Frames are handed out in stream order and none is skipped: over any
      number of calls, the frames returned are the first decodable frames
      that draining all the bytes read would cut, and exactly the first
      frames when every frame decodes. */
  lemma {:induction false} RecvCallsArePrefix(t: Track, decodes: seq<Byte> -> bool, clock: int, n: nat)
    requires t.stream.Some?
    ensures var r := RecvCalls(t, decodes, clock, n);
      var all := t.buffer + Bytes(Consumed(t, r.track));
      && r.frames <= Decodable(Drain(all).frames, decodes)
      && ((forall f :: decodes(f)) ==> r.frames <= Drain(all).frames)
  {
    var r := RecvCalls(t, decodes, clock, n);
    var all := t.buffer + Bytes(Consumed(t, r.track));
    RecvCallsDrain(t, decodes, clock, n, []);
    assert t.buffer + (Bytes(Consumed(t, r.track)) + []) == all;
    assert r.track.buffer + [] == r.track.buffer;
    if forall f :: decodes(f) {
      DecodableAll(Drain(all).frames, decodes);
    }
  }

  /** `read` after `stop`: the loop does not run and the black frame comes back. */
  lemma {:induction false} StoppedTrackIsBlack(t: Track, net: Network, ip: string, port: int,
                                               decodes: seq<Byte> -> bool, clock: int)
    requires t.stream.Some?
    ensures Recv(Stop(t), net, ip, port, decodes, clock) == Ok(Received(Black, Stop(t), clock))
  {
  }

  /** A registered peer connection and its video track. */
  datatype Peer = Peer(ip: string, port: int, track: Track)

  /** `WebRTCManager.connections`. */
  type Registry = map<string, Peer>

  /** `create_peer_connection`: builds the track (which raises for a zero
      frame rate before the registry is touched) and stores it under the
      session id, replacing whatever was there. */
  function CreatePeer(reg: Registry, sid: string, ip: string, port: int, fps: int): (r: Result<Registry, Failure>)
    ensures r.Err? <==> fps == 0
    ensures r.Ok? ==>
      && sid in r.value && r.value[sid].ip == ip && r.value[sid].port == port
      && r.value[sid].track.running && r.value[sid].track.buffer == []
      && r.value.Keys == reg.Keys + {sid}
      && forall k :: k in reg && k != sid ==> r.value[k] == reg[k]
  {
    match NewTrack(fps)
    case Err(f) => Err(f)
    case Ok(track) => Ok(reg[sid := Peer(ip, port, track)])
  }

  /** `close_connection`: stops and forgets the given session only; an
      unknown id changes nothing. */
  function ClosePeer(reg: Registry, sid: string): (r: Registry)
    ensures sid !in r
    ensures r.Keys == reg.Keys - {sid}
    ensures forall k :: k in r ==> r[k] == reg[k]
    ensures sid !in reg ==> r == reg
  {
    if sid in reg then reg - {sid} else reg
  }

  /** The `connectionstatechange` handler: a peer that reaches "closed" is
      forgotten like an explicit close; any other state changes nothing. */
  function OnStateChange(reg: Registry, sid: string, state: string): (r: Registry)
    ensures state == "closed" ==> sid !in r && r.Keys == reg.Keys - {sid}
    ensures state != "closed" ==> r == reg
    ensures forall k :: k in r ==> r[k] == reg[k]
  {
    if state == "closed" then ClosePeer(reg, sid) else reg
  }

  /** Creating and then closing a session leaves the registry as closing it
      alone would have: the other sessions are untouched. */
  lemma {:induction false} CloseAfterCreate(reg: Registry, sid: string, ip: string, port: int, fps: int)
    requires fps != 0
    ensures CreatePeer(reg, sid, ip, port, fps).Ok?
    ensures ClosePeer(CreatePeer(reg, sid, ip, port, fps).value, sid) == reg - {sid}
  {
    var r := CreatePeer(reg, sid, ip, port, fps).value;
    assert ClosePeer(r, sid).Keys == (reg - {sid}).Keys;
  }
}
