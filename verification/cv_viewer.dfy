/** The Flask viewer of cv.py: the quality presets and the candidate URLs
    built from them, the acceptance test and chunk size of `/stream`, the
    smoothing generator's bounded windows and jitter buffer, the 502 reply
    when nothing is accepted, and the `/api/scan` report. The float
    heuristics that decide whether a chunk is held back are an input. */
module CvViewer {
  import opened Text
  import opened Http

  /** One row of `quality_params`; `fps` is text because a request value
      replaces it unparsed. */
  datatype Preset = Preset(res: string, q: string, fps: string, codec: string)

  function Codec(gpu: bool): string
  {
    if gpu then "h264_amf" else "mjpeg"
  }

  /** The four named presets. */
  function Presets(gpu: bool): (m: map<string, Preset>)
    ensures m.Keys == {"low", "medium", "high", "ultra"}
    ensures forall k :: k in m ==> m[k].codec == Codec(gpu)
  {
    map[
      "low" := Preset("320x240", "50", "15", Codec(gpu)),
      "medium" := Preset("640x480", "75", "24", Codec(gpu)),
      "high" := Preset("1280x720", "85", "30", Codec(gpu)),
      "ultra" := Preset("1920x1080", "95", "60", Codec(gpu))]
  }

  /** `quality_params.get(quality, quality_params["medium"])`, with the
      request's `fps` put in unless it is `auto`. */
  function Params(quality: string, fps: string, gpu: bool): (p: Preset)
    ensures quality in Presets(gpu) ==>
      p.res == Presets(gpu)[quality].res && p.q == Presets(gpu)[quality].q
    ensures quality !in Presets(gpu) ==> p.res == "640x480" && p.q == "75"
    ensures p.fps == (if fps != "auto" then fps
                      else if quality in Presets(gpu) then Presets(gpu)[quality].fps else "24")
    ensures p.codec == Codec(gpu)
  {
    var table := Presets(gpu);
    var base := if quality in table then table[quality] else table["medium"];
    if fps != "auto" then base.(fps := fps) else base
  }

  /** Any quality outside the table is served exactly as `medium`. */
  lemma UnknownQualityIsMedium(quality: string, fps: string, gpu: bool)
    requires quality !in {"low", "medium", "high", "ultra"}
    ensures Params(quality, fps, gpu) == Params("medium", fps, gpu)
  {
    assert quality !in Presets(gpu);
  }

  /** `f"http://{ip}:{port}"`, with the port as the request gave it. */
  function Base(ip: string, port: string): string
  {
    "http://" + ip + ":" + port
  }

  /** The candidate URLs of `/stream`, in the order they are tried. */
  function StreamUrls(ip: string, port: string, p: Preset): (urls: seq<string>)
    ensures |urls| == 5
    ensures forall k :: 0 <= k < 5 ==> Base(ip, port) <= urls[k]
    ensures urls[0] == Base(ip, port) + "/video?res=" + p.res + "&quality=" + p.q + "&fps=" + p.fps
    ensures urls[4] == Base(ip, port)
  {
    var base := Base(ip, port);
    [base + "/video?res=" + p.res + "&quality=" + p.q + "&fps=" + p.fps,
     base + "/video?quality=" + p.q + "&fps=" + p.fps,
     base + "/video",
     base + "/mjpegfeed",
     base]
  }

  /** This viewer's own acceptance test: a 200 whose lower-cased type
      mentions `multipart` or `mjpeg`. */
  predicate Accepts(r: Response)
  {
    r.status == 200 && (Contains(Lower(r.contentType), "multipart") || Contains(Lower(r.contentType), "mjpeg"))
  }

  /** A 200 multipart stream, which the other viewers accept, is accepted
      here too. */
  lemma AcceptsMultipart(r: Response)
    requires r.status == 200 && Contains(Lower(r.contentType), "multipart/x-mixed-replace")
    ensures Accepts(r)
  {
    var ct := Lower(r.contentType);
    var i :| 0 <= i <= |ct| - 25 && HasAt(ct, "multipart/x-mixed-replace", i);
    assert ct[i..i + 9] == ct[i..i + 25][..9];
    assert HasAt(ct, "multipart", i);
  }

  /** A single-JPEG answer, which the other viewers accept, is refused here:
      `image/jpeg` mentions neither word. */
  lemma RefusesPlainJpeg(b: Body)
    ensures StreamReady(Response(200, "image/jpeg", b))
    ensures !Accepts(Response(200, "image/jpeg", b))
  {
    var ct := Lower("image/jpeg");
    assert ct == "image/jpeg";
    assert HasAt(ct, "image/jpeg", 0);
    assert !Contains(ct, "multipart") by {
      forall i | 0 <= i <= |ct| - 9 ensures !HasAt(ct, "multipart", i) {
        assert ct[i] != 'm' || ct[i + 1] != 'u';
      }
    }
    assert !Contains(ct, "mjpeg") by {
      forall i | 0 <= i <= |ct| - 5 ensures !HasAt(ct, "mjpeg", i) {
        assert ct[i] != 'm' || ct[i + 1] != 'j';
      }
    }
  }

  /** The read size of the generator: the requested buffer, doubled and
      capped at 128 KiB when the GPU path is on. */
  function ChunkSize(buffer: int, gpu: bool): (n: int)
    ensures !gpu ==> n == buffer
    ensures gpu ==> n <= 131072 && n <= 2 * buffer && (n == 2 * buffer || n == 131072)
  {
    if gpu then (if buffer * 2 < 131072 then buffer * 2 else 131072) else buffer
  }

  /** The `smoothing_params` entries the model keeps: the window length of
      the two histories and the base capacity of the jitter buffer. */
  datatype Smoothing = Smoothing(window: nat, maxBuffer: nat)

  function SmoothingOf(name: string): (c: Smoothing)
    ensures name == "basic" ==> c == Smoothing(5, 2)
    ensures name == "enhanced" ==> c == Smoothing(8, 3)
    ensures name == "cinema" ==> c == Smoothing(15, 8)
    ensures name !in {"basic", "enhanced", "cinema"} ==> c == Smoothing(10, 5)
    ensures 5 <= c.window && 2 <= c.maxBuffer < c.window
  {
    match name
    case "basic" => Smoothing(5, 2)
    case "enhanced" => Smoothing(8, 3)
    case "cinema" => Smoothing(15, 8)
    case _ => Smoothing(10, 5)
  }

  /** One `append` followed by at most one `pop(0)`: the bounded histories
      `frame_size_history` and `frame_timestamps`. */
  function Slide<T>(w: seq<T>, x: T, window: nat): (r: seq<T>)
    requires window >= 1
    ensures |w| <= window ==> |r| <= window
    ensures r == w + [x] || (|w| >= 1 && r == w[1..] + [x])
    ensures |w| < window ==> r == w + [x]
  {
    var a := w + [x];
    if |a| > window then a[1..] else a
  }

  /** The history after `xs` went through `Slide`, starting empty. */
  function Window<T>(xs: seq<T>, window: nat): (r: seq<T>)
    requires window >= 1
    ensures |r| <= window
    decreases |xs|
  {
    if |xs| == 0 then [] else Slide(Window(xs[..|xs| - 1], window), xs[|xs| - 1], window)
  }

  /** A history holds exactly the latest `window` values, oldest first. */
  lemma {:induction false} WindowKeepsLatest<T>(xs: seq<T>, window: nat)
    requires window >= 1
    ensures |xs| <= window ==> Window(xs, window) == xs
    ensures |xs| > window ==> Window(xs, window) == xs[|xs| - window..]
    decreases |xs|
  {
    if |xs| > 0 {
      var init, x := xs[..|xs| - 1], xs[|xs| - 1];
      assert xs == init + [x];
      WindowKeepsLatest(init, window);
      var w := Window(init, window);
      assert Window(xs, window) == Slide(w, x, window);
      if |xs| > window {
        var keep := if |init| <= window then init else init[|init| - window..];
        assert w == keep && |keep| == window;
        assert (keep + [x])[1..] == xs[|xs| - window..];
      }
    }
  }
}
