/** `DroidCamVideoTrack.extract_jpeg_frame` of webrtc_viewer.py: the marker
    scanner that cuts one JPEG image out of an MJPEG byte stream, together with
    the draining and chunk-feeding patterns built on it. */
module JpegFrames {
  import opened Text

  /** A two-byte JPEG marker. */
  datatype Marker = Marker(hi: Byte, lo: Byte)

  /** Start-of-image `FF D8` and end-of-image `FF D9`. */
  const SOI := Marker(0xFF, 0xD8)
  const EOI := Marker(0xFF, 0xD9)

  /** Marker `m` starts at index `i` of `s`. */
  predicate MarkerAt(s: seq<Byte>, m: Marker, i: int)
  {
    0 <= i && i + 1 < |s| && s[i] == m.hi && s[i + 1] == m.lo
  }

  /** Python's `bytes.find(marker, from)`: the lowest index at or after `from`
      where the marker starts, if there is one. */
  function Find(s: seq<Byte>, m: Marker, from: nat): (r: Option<nat>)
    ensures r.Some? ==> from <= r.value && MarkerAt(s, m, r.value)
    ensures r.Some? ==> forall j :: from <= j < r.value ==> !MarkerAt(s, m, j)
    ensures r.None? ==> forall j :: from <= j ==> !MarkerAt(s, m, j)
    decreases |s| - from
  {
    if from + 1 >= |s| then None
    else if MarkerAt(s, m, from) then Some(from)
    else Find(s, m, from + 1)
  }

  /** A frame as the extractor cuts it: it opens with SOI, closes with EOI,
      and no EOI starts between the two markers. */
  ghost predicate WellFormed(f: seq<Byte>)
  {
    && |f| >= 4
    && MarkerAt(f, SOI, 0)
    && MarkerAt(f, EOI, |f| - 2)
    && forall j :: 2 <= j < |f| - 2 ==> !MarkerAt(f, EOI, j)
  }

  /** Some SOI is followed, at least two bytes later, by an EOI. */
  ghost predicate HasFrame(buf: seq<Byte>)
  {
    exists i, j :: MarkerAt(buf, SOI, i) && i + 2 <= j && MarkerAt(buf, EOI, j)
  }

  /** `g` is the first SOI of `buf` and `e` the first EOI starting at or after `g + 2`. */
  ghost predicate IsCut(buf: seq<Byte>, g: int, e: int)
  {
    && MarkerAt(buf, SOI, g)
    && g + 2 <= e
    && MarkerAt(buf, EOI, e)
    && (forall j :: 0 <= j < g ==> !MarkerAt(buf, SOI, j))
    && (forall j :: g + 2 <= j < e ==> !MarkerAt(buf, EOI, j))
  }

  /** `buf` is some garbage, then `frame`, then `rest`, where the frame runs
      from the first SOI of the buffer to the first EOI after it. */
  ghost predicate Anchored(buf: seq<Byte>, frame: seq<Byte>, rest: seq<Byte>)
  {
    && |frame| + |rest| <= |buf|
    && frame == buf[|buf| - |frame| - |rest|..|buf| - |rest|]
    && rest == buf[|buf| - |rest|..]
    && IsCut(buf, |buf| - |frame| - |rest|, |buf| - |rest| - 2)
  }

  /** Conservation: the buffer is the garbage, then the frame, then the rest,
      and no SOI starts inside the garbage. */
  lemma {:induction false} AnchoredConserves(buf: seq<Byte>, frame: seq<Byte>, rest: seq<Byte>)
    requires Anchored(buf, frame, rest)
    ensures buf == buf[..|buf| - |frame| - |rest|] + frame + rest
    ensures forall j :: 0 <= j < |buf| - |frame| - |rest| ==> !MarkerAt(buf, SOI, j)
  {
    var g := |buf| - |frame| - |rest|;
    assert buf == buf[..g] + buf[g..|buf| - |rest|] + buf[|buf| - |rest|..];
  }

  /** An anchored frame opens with SOI, closes with EOI and holds no EOI in between. */
  lemma {:induction false} AnchoredWellFormed(buf: seq<Byte>, frame: seq<Byte>, rest: seq<Byte>)
    requires Anchored(buf, frame, rest)
    ensures WellFormed(frame)
  {
    var g := |buf| - |frame| - |rest|;
    forall j | 2 <= j < |frame| - 2
      ensures !MarkerAt(frame, EOI, j)
    {
      assert !MarkerAt(buf, EOI, g + j);
    }
  }

  /** The extractor's result: the frame cut out, if any, and the new buffer. */
  datatype Extraction = Extraction(frame: Option<seq<Byte>>, buffer: seq<Byte>)

  /** `extract_jpeg_frame`: appends `data` to the buffer, then extracts. */
  function ExtractFrame(buffer: seq<Byte>, data: seq<Byte>): Extraction
  {
    Extract(buffer + data)
  }

  /** The extraction proper, on the buffer with the new data already appended:
      cuts out the span from the first SOI to the first EOI starting at least
      two bytes after it; everything up to and including that EOI leaves the
      buffer. */
  function Extract(buf: seq<Byte>): Extraction
  {
    match Find(buf, SOI, 0)
    case None => Extraction(None, buf)
    case Some(start) =>
      match Find(buf, EOI, start + 2)
      case None => Extraction(None, buf)
      case Some(end) => Extraction(Some(buf[start..end + 2]), buf[end + 2..])
  }

  /** Without an SOI followed by an EOI the extractor returns nothing and the
      buffer keeps every byte of the old buffer and the new data; otherwise it
      returns the frame anchored on the first SOI, and the buffer shrinks by at
      least the frame's four marker bytes. */
  lemma {:induction false} ExtractFrameSpec(buffer: seq<Byte>, data: seq<Byte>)
    ensures var r := ExtractFrame(buffer, data);
      && (r.frame.None? <==> !HasFrame(buffer + data))
      && (r.frame.None? ==> r.buffer == buffer + data)
      && (r.frame.Some? ==> Anchored(buffer + data, r.frame.value, r.buffer))
      && (r.frame.Some? ==> |r.frame.value| >= 4 && |r.buffer| + 4 <= |buffer + data|)
  {
    ExtractSpec(buffer + data);
  }

  /** `ExtractFrameSpec` on the already-extended buffer. */
  lemma {:induction false} ExtractSpec(buf: seq<Byte>)
    ensures var r := Extract(buf);
      && (r.frame.None? <==> !HasFrame(buf))
      && (r.frame.None? ==> r.buffer == buf)
      && (r.frame.Some? ==> Anchored(buf, r.frame.value, r.buffer))
      && (r.frame.Some? ==> |r.frame.value| >= 4 && |r.buffer| + 4 <= |buf|)
  {
    if Extract(buf).frame.None? {
      ExtractNoFrame(buf);
    } else {
      ExtractCut(buf);
    }
  }

  /** No SOI, or no EOI two bytes past the first SOI: the buffer holds no frame. */
  lemma {:induction false} ExtractNoFrame(buf: seq<Byte>)
    requires Extract(buf).frame.None?
    ensures !HasFrame(buf) && Extract(buf).buffer == buf
  {
    var first := Find(buf, SOI, 0);
    if first.Some? {
      var start := first.value;
      assert Find(buf, EOI, start + 2).None?;
      forall i, j | MarkerAt(buf, SOI, i) && i + 2 <= j
        ensures !MarkerAt(buf, EOI, j)
      {
        assert start <= i;
      }
    }
  }

  /** A frame was cut: it is anchored on the first SOI and the first EOI after it. */
  lemma {:induction false} ExtractCut(buf: seq<Byte>)
    requires Extract(buf).frame.Some?
    ensures Anchored(buf, Extract(buf).frame.value, Extract(buf).buffer)
    ensures |Extract(buf).frame.value| >= 4 && |Extract(buf).buffer| + 4 <= |buf|
  {
    var start := Find(buf, SOI, 0).value;
    var end := Find(buf, EOI, start + 2).value;
    var frame, rest := buf[start..end + 2], buf[end + 2..];
    assert Extract(buf) == Extraction(Some(frame), rest);
    assert |buf| - |frame| - |rest| == start && |buf| - |rest| - 2 == end;
    assert IsCut(buf, start, end);
  }

  /** Completeness: any anchored split of a buffer is exactly what the
      extractor returns, so the split is unique. */
  lemma {:induction false} AnchoredIsExtracted(buf: seq<Byte>, frame: seq<Byte>, rest: seq<Byte>)
    requires Anchored(buf, frame, rest)
    ensures Extract(buf) == Extraction(Some(frame), rest)
  {
    assert buf + [] == buf;
    var g := |buf| - |frame| - |rest|;
    var e := |buf| - |rest| - 2;
    assert HasFrame(buf) by {
      assert MarkerAt(buf, SOI, g) && g + 2 <= e && MarkerAt(buf, EOI, e);
    }
    ExtractSpec(buf);
    var r := Extract(buf);
    var g' := |buf| - |r.frame.value| - |r.buffer|;
    var e' := |buf| - |r.buffer| - 2;
    assert IsCut(buf, g', e');
    assert g' <= g && g <= g';
    assert e' <= e && e <= e';
  }

  /** Frames cut out by repeated extraction with empty data, and what remains. */
  datatype Drained = Drained(frames: seq<seq<Byte>>, rest: seq<Byte>)

  /** Calls `extract_jpeg_frame(b"")` until it returns None. */
  function Drain(buf: seq<Byte>): Drained
    decreases |buf|
  {
    var e := Extract(buf);
    match e.frame
    case None => Drained([], buf)
    case Some(f) =>
      ExtractSpec(buf);
      var d := Drain(e.buffer);
      Drained([f] + d.frames, d.rest)
  }

  /** Draining yields only well-formed frames, in stream order, and leaves a
      suffix of the buffer that holds no complete frame; nothing comes out
      exactly when the buffer holds no complete frame. */
  lemma {:induction false} DrainSpec(buf: seq<Byte>)
    ensures var r := Drain(buf);
      && !HasFrame(r.rest)
      && (forall k :: 0 <= k < |r.frames| ==> WellFormed(r.frames[k]))
      && |r.rest| <= |buf| && r.rest == buf[|buf| - |r.rest|..]
      && (r.frames == [] <==> !HasFrame(buf))
    decreases |buf|
  {
    var e := Extract(buf);
    ExtractSpec(buf);
    match e.frame
    case None =>
    case Some(f) =>
      AnchoredWellFormed(buf, f, e.buffer);
      DrainSpec(e.buffer);
      var d := Drain(e.buffer);
      assert d.rest == buf[|buf| - |d.rest|..];
  }

  /** `Find` gives the same answer on a longer buffer once it has found the marker. */
  lemma {:induction false} FindAppend(s: seq<Byte>, t: seq<Byte>, m: Marker, from: nat)
    requires Find(s, m, from).Some?
    ensures Find(s + t, m, from) == Find(s, m, from)
    decreases |s| - from
  {
    if !MarkerAt(s, m, from) {
      FindAppend(s, t, m, from + 1);
    }
  }

  /** Once the buffer holds a complete frame, later data does not change which
      frame is cut; the new data simply stays behind it. */
  lemma {:induction false} ExtractAppend(s: seq<Byte>, t: seq<Byte>)
    requires Extract(s).frame.Some?
    ensures Extract(s + t) == Extraction(Extract(s).frame, Extract(s).buffer + t)
  {
    var start := Find(s, SOI, 0).value;
    FindAppend(s, t, SOI, 0);
    FindAppend(s, t, EOI, start + 2);
    var end := Find(s, EOI, start + 2).value;
    assert (s + t)[start..end + 2] == s[start..end + 2];
    assert (s + t)[end + 2..] == s[end + 2..] + t;
  }

  /** Draining a longer buffer is draining its prefix, then draining what the
      prefix left together with the extra bytes. */
  lemma {:induction false} DrainAppend(s: seq<Byte>, t: seq<Byte>)
    ensures Drain(s + t).frames == Drain(s).frames + Drain(Drain(s).rest + t).frames
    ensures Drain(s + t).rest == Drain(Drain(s).rest + t).rest
    decreases |s|
  {
    var e := Extract(s);
    if e.frame.None? {
      DrainUnfold(s);
    } else {
      var f, b := e.frame.value, e.buffer;
      DrainAppend(b, t);
      DrainAppendStep(s, t, f, b);
    }
  }

  /** The inductive step of `DrainAppend`, kept apart to keep its proof small. */
  lemma {:induction false} DrainAppendStep(s: seq<Byte>, t: seq<Byte>, f: seq<Byte>, b: seq<Byte>)
    requires Extract(s) == Extraction(Some(f), b)
    requires Drain(b + t).frames == Drain(b).frames + Drain(Drain(b).rest + t).frames
    requires Drain(b + t).rest == Drain(Drain(b).rest + t).rest
    ensures Drain(s + t).frames == Drain(s).frames + Drain(Drain(s).rest + t).frames
    ensures Drain(s + t).rest == Drain(Drain(s).rest + t).rest
  {
    DrainStep(s, f, b);
    DrainStepAppend(s, t, f, b);
    DrainAssoc(f, Drain(b), Drain(b + t), Drain(Drain(b).rest + t));
  }

  /** The step of `DrainAppendStep` on values: a frame cut first, then the
      prefix's frames, then the later ones. */
  lemma {:induction false} DrainAssoc(f: seq<Byte>, db: Drained, du: Drained, later: Drained)
    requires du.frames == db.frames + later.frames
    ensures [f] + du.frames == ([f] + db.frames) + later.frames
  {
  }

  /** Draining a buffer whose extraction cut `f` and left `b`. */
  lemma {:induction false} DrainStep(s: seq<Byte>, f: seq<Byte>, b: seq<Byte>)
    requires Extract(s) == Extraction(Some(f), b)
    ensures Drain(s) == Drained([f] + Drain(b).frames, Drain(b).rest)
  {
    DrainUnfold(s);
  }

  /** Draining the same buffer with extra bytes appended. */
  lemma {:induction false} DrainStepAppend(s: seq<Byte>, t: seq<Byte>, f: seq<Byte>, b: seq<Byte>)
    requires Extract(s) == Extraction(Some(f), b)
    ensures Drain(s + t) == Drained([f] + Drain(b + t).frames, Drain(b + t).rest)
  {
    ExtractAppend(s, t);
    DrainStep(s + t, f, b + t);
  }

  /** One step of `Drain`. */
  lemma {:induction false} DrainUnfold(s: seq<Byte>)
    ensures Extract(s).frame.None? ==> Drain(s) == Drained([], s)
    ensures Extract(s).frame.Some? ==>
      var e := Extract(s);
      Drain(s) == Drained([e.frame.value] + Drain(e.buffer).frames, Drain(e.buffer).rest)
  {
  }

  /** `b"".join(chunks)`. */
  function Concat(chunks: seq<seq<Byte>>): seq<Byte>
  {
    if |chunks| == 0 then [] else chunks[0] + Concat(chunks[1..])
  }

  /** Feeds the chunks one at a time, draining every frame after each chunk. */
  function FeedChunks(buf: seq<Byte>, chunks: seq<seq<Byte>>): Drained
    decreases |chunks|
  {
    if |chunks| == 0 then Drained([], buf)
    else
      var d := Drain(buf + chunks[0]);
      var later := FeedChunks(d.rest, chunks[1..]);
      Drained(d.frames + later.frames, later.rest)
  }

  /** Chunk-boundary independence: feeding a drained buffer chunk by chunk gives
      the same frames, and leaves the same bytes, as draining the whole
      concatenation at once. */
  lemma {:induction false} FeedChunksIsDrain(buf: seq<Byte>, chunks: seq<seq<Byte>>)
    requires !HasFrame(buf)
    ensures FeedChunks(buf, chunks) == Drain(buf + Concat(chunks))
    decreases |chunks|
  {
    if |chunks| == 0 {
      assert buf + [] == buf;
      DrainNoFrame(buf);
    } else {
      var d := Drain(buf + chunks[0]);
      DrainSpec(buf + chunks[0]);
      FeedChunksIsDrain(d.rest, chunks[1..]);
      FeedChunksStep(buf, chunks);
    }
  }

  /** The inductive step of `FeedChunksIsDrain`. */
  lemma {:induction false} FeedChunksStep(buf: seq<Byte>, chunks: seq<seq<Byte>>)
    requires |chunks| > 0
    requires var d := Drain(buf + chunks[0]);
      FeedChunks(d.rest, chunks[1..]) == Drain(d.rest + Concat(chunks[1..]))
    ensures FeedChunks(buf, chunks) == Drain(buf + Concat(chunks))
  {
    var c, more := chunks[0], chunks[1..];
    var d := Drain(buf + c);
    var later := FeedChunks(d.rest, more);
    assert FeedChunks(buf, chunks) == Drained(d.frames + later.frames, later.rest);
    var whole := ConcatAfter(buf, chunks);
    DrainAppend(buf + c, Concat(more));
    FeedChunksStepFrames(d, later, Drain(d.rest + Concat(more)), Drain(whole));
  }

  /** The buffer followed by all chunks is the buffer with the first chunk,
      followed by the others. */
  lemma {:induction false} ConcatAfter(buf: seq<Byte>, chunks: seq<seq<Byte>>) returns (whole: seq<Byte>)
    requires |chunks| > 0
    ensures whole == buf + Concat(chunks) == (buf + chunks[0]) + Concat(chunks[1..])
  {
    whole := buf + Concat(chunks);
  }

  /** A buffer with no complete frame drains to nothing. */
  lemma {:induction false} DrainNoFrame(buf: seq<Byte>)
    requires !HasFrame(buf)
    ensures Drain(buf) == Drained([], buf)
  {
    ExtractSpec(buf);
    DrainUnfold(buf);
  }

  /** The step of `FeedChunksStep` on values: the first chunk's frames, then
      the later chunks' frames, are the frames of the whole. */
  lemma {:induction false} FeedChunksStepFrames(d: Drained, later: Drained, tail: Drained, whole: Drained)
    requires later == tail
    requires whole.frames == d.frames + tail.frames && whole.rest == tail.rest
    ensures Drained(d.frames + later.frames, later.rest) == whole
  {
  }
}
