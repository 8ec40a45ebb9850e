# DroidCam MJPEG relay — a Dafny model

The repository is a set of small viewers and scanners for DroidCam, the
Android app that serves a phone camera as an MJPEG stream over HTTP on port
4747. The viewers find an endpoint of the phone that answers with a
`multipart/x-mixed-replace` (or single `image/jpeg`) body and relay it to a
browser. Some limit the frame rate on the way, and one cuts JPEG frames out
of the byte stream for WebRTC. The scanners walk a /24 network looking for a
phone.

This project models the core of that behaviour as pure Dafny functions over
immutable data, and proves what each piece promises:

- `Text` — `Option`/`Result`, bytes, substring search, lower-casing, decimal
  rendering of numbers, and `split`/`join` on one character.
- `Http` — the network as a function from (method, URL) to either a
  response or a raised exception. It also holds the content-type tests and
  the "first endpoint that is accepted" search that every viewer repeats.
- `JpegFrames` — `extract_jpeg_frame`: cutting a frame between the first
  start-of-image marker and the next end-of-image marker. Also the fact that
  chunk boundaries do not change which frames come out.
- `Governor` — the per-chunk frame-rate limiter and the endpoint fallback
  loop. ultra_performance_viewer.py and fastapi_viewer.py share both.
- `Sessions` — the single lazily created HTTP session and the keyed session
  pool.
- `WebRtc` — the WebRTC video track: how it connects, reads, extracts and
  paces frames, and the peer registry.
- `UltraViewer`, `FastApiViewer` — the two FastAPI servers: their endpoint
  scans, the streams, the statistics and the `/stream` routes.
- `CvViewer`, `CvStream` — the Flask server of cv.py:
  - quality presets and candidate URLs
  - acceptance test and chunk size
  - bounded histories and jitter buffer
  - the 502 reply and the `/api/scan` report
- `Hosts`, `QuickScan`, `AdvancedScan` — the two network scanners.

Time is an integer clock in microseconds. Reading a chunk happens at the
later of the clock and the chunk's arrival time. Sleeping `d` advances the
clock by exactly `d`. Exceptions are `Failure`s of kind `Timeout`,
`Unreachable` (a refused connection), `Other` or `Cancelled`. `Cancelled`
stands for what `except Exception` does not catch: `asyncio.CancelledError`
and the other `BaseException`s. A bare `except:` catches all four.

The candidate-endpoint loops of ultra_performance_viewer.py (lines 148-216)
and fastapi_viewer.py (lines 82-132) put the whole `async with` inside
`try`. So an exception raised while a stream is already being relayed is
caught, and the loop moves on to the next endpoint. The relay does not end
with the first accepted endpoint. The model follows the code: `Governor.Relay`
continues after such a fault. `Governor.RelayExhaustedIff` states exactly
when the 503 is reached.

## Model

| member | source | states |
|---|---|---|
| JpegFrames.Find | webrtc_viewer.py:80-86 | `bytes.find`: the leftmost occurrence of a two-byte marker at or after the start position, and none when there is no occurrence |
| JpegFrames.ExtractFrameSpec | webrtc_viewer.py:72-94 | a frame comes back exactly when buffer plus data holds a start marker followed by an end marker; it then runs from the first start marker to the first end marker after it, is at least 4 bytes, and only what follows it stays buffered; otherwise everything stays buffered |
| JpegFrames.ExtractSpec | webrtc_viewer.py:80-92 | the same for a buffer that already holds the data |
| JpegFrames.ExtractNoFrame | webrtc_viewer.py:80-86 | when nothing is cut, no SOI in the buffer is followed by an EOI two bytes on, and the buffer is kept whole |
| JpegFrames.ExtractCut | webrtc_viewer.py:80-94 | when a frame is cut, it runs from the first SOI to the first EOI after it, and the buffer keeps only what follows |
| JpegFrames.AnchoredWellFormed | webrtc_viewer.py:84-89 | a cut frame starts with FF D8 and ends with FF D9 |
| JpegFrames.AnchoredConserves | webrtc_viewer.py:89-92 | the buffer is the skipped bytes, the frame and the rest, and no start marker lies in the skipped bytes |
| JpegFrames.AnchoredIsExtracted | webrtc_viewer.py:80-92 | conversely, any split of the buffer into skipped bytes, a first-start-to-next-end frame and the rest is the one extraction returns |
| JpegFrames.DrainSpec | webrtc_viewer.py:72-94 | extracting repeatedly yields well-formed frames only and leaves a suffix of the input that holds no complete frame; no frame comes out exactly when the input holds none |
| JpegFrames.DrainAppend | webrtc_viewer.py:106-115 | draining `s + t` equals draining `s`, then draining its remainder followed by `t` |
| JpegFrames.FeedChunksIsDrain | webrtc_viewer.py:72-94 | draining every frame after each chunk yields the same frames and remainder as draining all the bytes at once: which frames a byte stream holds does not depend on how it is chunked |
| Http.Classify | ultra_performance_viewer.py:95-107 | a scan entry is `available` exactly when the lower-cased type mentions `multipart/x-mixed-replace` or `image/jpeg`; the lower-cased type and the status are recorded |
| Http.Probe | webrtc_viewer.py:53-70 | the endpoint chosen is accepted, and every one before it was refused or raised a caught exception; "none" means every endpoint was passed over; an error is an uncaught exception at an endpoint reached after passing all earlier ones |
| Http.ProbeFirstStop | webrtc_viewer.py:53-67 | conversely, the first endpoint that is not passed over decides the result: its response, or its exception |
| Http.ProbeAllPass | webrtc_viewer.py:53-70 | when every endpoint is passed over the result is "none" |
| Governor.LimitOf | ultra_performance_viewer.py:169 | no limit exactly when `fps_limit` is absent or zero; otherwise the interval is `1/fps` seconds in microseconds, truncated |
| Governor.StrategyOf | ultra_performance_viewer.py:189-196 | early chunks are skipped exactly for `latest` and `oldest`; any other strategy sleeps |
| Governor.Step | ultra_performance_viewer.py:186-199 | a chunk is dropped exactly when a limit applies, the strategy skips and it comes less than one interval after the last send; a waiting send happens at the later of the reading and `last + interval`; a send updates `last_frame_time` to its time, a drop only advances the clock |
| Governor.Run | ultra_performance_viewer.py:173-209 | the loop sends at most one chunk per chunk it receives, and records for each send which chunk it came from |
| Governor.RunInOrder | ultra_performance_viewer.py:173-209 | every chunk sent is a received chunk, in the order received, each at most once |
| Governor.RunSpacing | ultra_performance_viewer.py:186-199 | under a limit, consecutive sends are at least one interval apart, and the first is at least one interval after the starting `last_frame_time` |
| Governor.RunSendsAll | ultra_performance_viewer.py:186-197 | with no limit, or the waiting strategy, every chunk is sent, in order |
| Governor.RunNeverSleeps | ultra_performance_viewer.py:186-192 | with no limit, or the skipping strategy, the clock ends where reading the chunks alone leaves it |
| Governor.UntilEmpty | ultra_performance_viewer.py:173-175 | the chunks relayed are the prefix before the first empty chunk |
| Governor.Relay | ultra_performance_viewer.py:148-216 | a stream that finishes does so at an endpoint that answered 200 with an MJPEG type; an abort carries an exception that `except Exception` lets through; never more is sent than received |
| Governor.StreamFirstAtOnce | ultra_performance_viewer.py:170-199 | from an epoch clock, at least one interval past the initial `last_frame_time = 0`, the first chunk of a stream is sent at once at its own reading, whatever the strategy |
| Governor.RelayExhaustedIff | fastapi_viewer.py:82-137 | the loop falls through to the 503 exactly when every endpoint is passed over or, if accepted, raised a caught exception after its whole body |
| Governor.RelayPassesFirst | ultra_performance_viewer.py:148-158 | a first endpoint that is passed over adds nothing: the loop continues with the rest |
| Governor.RelayNoneAccepted | ultra_performance_viewer.py:148-219 | when no endpoint is accepted nothing is sent and the 503 is reached |
| Governor.RelayAbortsWithProbe | ultra_performance_viewer.py:148-216 | an uncaught exception met while probing aborts the loop with that exception, before anything is sent |
| Governor.RelayStreamsFirstAccepted | ultra_performance_viewer.py:152-212 | the first accepted endpoint is streamed, and its output is the stream of that body; a clean end finishes at that endpoint |
| Governor.RelaySendsAll | fastapi_viewer.py:101-124 | with no limit, or the waiting strategy, the loop relays every chunk it reads |
| Governor.EndOf | ultra_performance_viewer.py:212-219 | a finished loop completes, an exhausted one is refused with status 503 and its detail, an aborted one lets its exception escape |
| Sessions.GetSession | fastapi_viewer.py:16-20 | the session returned is open and stored; the slot is unchanged exactly when it already held an open session; otherwise a fresh session replaces it |
| Sessions.GetSessionIdempotent | fastapi_viewer.py:16-20 | asking twice gives the same session and the same state |
| Sessions.GetOptimized | ultra_performance_viewer.py:34-69 | the session returned is open and stored under its key; the pool is unchanged exactly when the key held an open session; a new session is new to the pool; no other key changes |
| Sessions.GetOptimizedIdempotent | ultra_performance_viewer.py:34-69 | asking twice for one key gives the same session and the same pool |
| Sessions.CloseAll | ultra_performance_viewer.py:71-77 | exactly the open sessions are closed and the pool is emptied |
| Sessions.CloseAllThenGet | ultra_performance_viewer.py:34-77 | after closing all, asking for a key creates a fresh open session |
| WebRtc.ConnectUrls | webrtc_viewer.py:45-49 | the three URLs `/video`, `/mjpegfeed`, `/`, in that order |
| WebRtc.ConnectToStream | webrtc_viewer.py:43-70 | the stream kept is the first endpoint that answers 200 with an MJPEG type, all earlier ones passed over; with none the result is failure; only a cancellation escapes |
| WebRtc.FrameInterval | webrtc_viewer.py:30 | a zero frame rate has no interval (the division raises); a positive rate up to 1,000,000 gives a positive interval |
| WebRtc.Pace | webrtc_viewer.py:124-131 | no sleep before the first frame; after that a frame leaves at the later of now and `last + interval`; the sleep is never negative |
| WebRtc.PaceSpacing | webrtc_viewer.py:124-131 | frames are at least one interval apart, and the track sleeps exactly when the frame came early |
| WebRtc.NewTrack | webrtc_viewer.py:25-35 | a track exists exactly when the frame rate is not zero; it starts running with an empty buffer, no stream and no last frame |
| WebRtc.Stop | webrtc_viewer.py:144-148 | stopping clears `running` and leaves the buffer and stream alone |
| WebRtc.TakeChunk | webrtc_viewer.py:111-115 | a frame cut after appending a chunk is well formed; what stays buffered is a suffix of the buffer plus the chunk |
| WebRtc.Recv | webrtc_viewer.py:96-142 | a frame returned was cut well formed, decodes, and leaves at least one interval after the previous one; otherwise the black frame; only a cancellation escapes |
| WebRtc.ReadLoop | webrtc_viewer.py:104-139 | the same for the read loop; the loop only consumes chunks of the stream, never adds any |
| WebRtc.ReadLoopKeeps | webrtc_viewer.py:111-115 | the chunks used are a prefix of the stream, and the buffer left is a suffix of the old buffer plus their bytes |
| WebRtc.ReadLoopRest | webrtc_viewer.py:104-116 | the stream the loop leaves is the one it was given less the chunks it read |
| WebRtc.ReadLoopDrains | webrtc_viewer.py:104-139 | one read loop, extracting once per chunk, returns the first decodable frame that draining the bytes it read would cut; the frames after it stay buffered |
| WebRtc.RecvCalls | webrtc_viewer.py:96-142 | successive `recv` calls on a connected track hand out only well-formed frames that decode |
| WebRtc.RecvCallsDrain | webrtc_viewer.py:96-142 | over any number of calls, the frames handed out followed by what the buffer left would drain to are the decodable frames of all the bytes read |
| WebRtc.RecvCallsArePrefix | webrtc_viewer.py:96-142 | the frames handed out over successive calls are, in order, the first decodable frames of all the bytes read, and exactly the first frames when every frame decodes |
| WebRtc.StoppedTrackIsBlack | webrtc_viewer.py:104-142 | a stopped track reads nothing and returns the black frame |
| WebRtc.CreatePeer | webrtc_viewer.py:154-175 | creating fails exactly when the frame rate is zero; otherwise the session id maps to a running track for that address, and no other entry changes |
| WebRtc.ClosePeer | webrtc_viewer.py:177-183 | closing removes exactly that session id and keeps every other entry |
| WebRtc.OnStateChange | webrtc_viewer.py:162-168 | the state `closed` removes the session id; any other state changes nothing |
| WebRtc.CloseAfterCreate | webrtc_viewer.py:154-183 | closing a connection just created restores the registry without that id |
| UltraViewer.ScanOne | ultra_performance_viewer.py:92-112 | a response is classified; a caught exception becomes an `error` entry with its text; only an uncaught exception gives no entry |
| UltraViewer.ScanAvailableIffMjpeg | ultra_performance_viewer.py:92-112 | an entry is `available` exactly when the endpoint answered with an MJPEG type, whatever the status, and `error` exactly when it raised |
| UltraViewer.Collect | ultra_performance_viewer.py:114-121 | every result kept is the entry of one of the endpoints; when no test raises uncaught, each endpoint has its entry, in order |
| UltraViewer.ScanEndpointsFast | ultra_performance_viewer.py:79-123 | the four endpoints are reported, each with its own entry; the scan's pooled session is stored; the streams and statistics are untouched |
| UltraViewer.UltraStream | ultra_performance_viewer.py:125-223 | the stream's session is pooled; the stream id is discarded and the connection count restored however it ends; the chunk count grows by at least what was sent; the refusal is the 503 naming `ip:port` |
| UltraViewer.UltraCountsEveryChunk | ultra_performance_viewer.py:173-183 | the global counters grow by every chunk read and its bytes, including the skipped ones; the chunks sent are those of the relay loop |
| UltraViewer.StreamError | ultra_performance_viewer.py:575-577 | the text of a caught 503 is `Stream error: 503: ` and its detail |
| UltraViewer.StreamRoute | ultra_performance_viewer.py:568-577 | the route yields the stream's chunks, then exactly one `Stream error` message when the stream was refused; a cancellation escapes |
| FastApiViewer.ScanAll | fastapi_viewer.py:37-57 | each endpoint gets its entry in order: classified response or the exception text; the scan fails only on an exception `except Exception` lets through |
| FastApiViewer.ScanEndpoints | fastapi_viewer.py:26-59 | three entries for `/video`, `/mjpegfeed`, `/`, each `available` exactly when it answered with an MJPEG type; the shared session is left open |
| FastApiViewer.StreamWithFpsLimit | fastapi_viewer.py:61-137 | the refusal is the 503 with the "No DroidCam streams found" text, and it happens exactly when all six endpoints are passed over or fail after their whole body |
| FastApiViewer.PauseOf | fastapi_viewer.py:443-444 | no pause exactly when `fps_limit` is absent or zero; otherwise `1/fps/10` seconds in microseconds, truncated |
| FastApiViewer.Forward | fastapi_viewer.py:434-449 | every chunk is forwarded, in order, never before it arrived |
| FastApiViewer.ForwardPacing | fastapi_viewer.py:439-449 | with a pause, the first chunk is not held back and every later one leaves at least one pause after the previous one and after its own arrival |
| FastApiViewer.ForwardUnpaced | fastapi_viewer.py:434-449 | without a pause the proxy never sleeps |
| FastApiViewer.Trailer | fastapi_viewer.py:453-459 | a caught exception becomes one `Stream error` message; `CancelledError` is raised again |
| FastApiViewer.DirectProxy | fastapi_viewer.py:374-459 | a raise gives one `Stream error` message or escapes; a non-200 status gives exactly one `DroidCam returned status N` message; an HTML body gives the HTML error after a clean read, and after a read that raised it gives that `Stream error` or lets a cancellation escape; any other type forwards every chunk before the first empty one, then adds nothing after an empty chunk or a clean end, one `Stream error` after a caught raise, and nothing, with the exception escaping, after a cancellation |
| FastApiViewer.ProxyPacing | fastapi_viewer.py:442-444 | with a positive limit, forwarded chunks are at least `100000 / fps` microseconds apart and the first leaves as soon as it is read |
| CvViewer.Presets | cv.py:58-63 | the four qualities `low`, `medium`, `high`, `ultra`, all with the codec the GPU flag selects |
| CvViewer.Params | cv.py:58-67 | a known quality gives its resolution and JPEG quality, any other the `medium` ones; the requested `fps` replaces the preset's unless it is `auto` |
| CvViewer.UnknownQualityIsMedium | cv.py:65 | any quality outside the table is served exactly as `medium` |
| CvViewer.StreamUrls | cv.py:70-77 | five candidates on `http://ip:port`, the first with resolution, quality and fps, the last the bare base |
| CvViewer.AcceptsMultipart | cv.py:84-89 | a 200 multipart stream is accepted |
| CvViewer.RefusesPlainJpeg | cv.py:84-89 | a 200 `image/jpeg` answer, which the other viewers accept, is refused here |
| CvViewer.ChunkSize | cv.py:91-94 | the read size is the buffer size, or with the GPU path on twice it capped at 128 KiB |
| CvViewer.SmoothingOf | cv.py:109-119 | the window and buffer capacity of `basic`, `enhanced`, `cinema`, and of `ultra` for any other name |
| CvViewer.Slide | cv.py:133-140 | one append and at most one pop of the oldest value keeps a history within its window |
| CvViewer.WindowKeepsLatest | cv.py:133-140 | a history holds exactly the latest `window` values, oldest first |
| CvStream.Step | cv.py:161-184 | a held chunk joins the jitter buffer, pushing out the oldest past the capacity; any other chunk flushes the buffer in arrival order and goes out itself; as written, holding before `jitter` is bound raises |
| CvStream.RunSound | cv.py:161-184 | chunks sent and held are in arrival order; each chunk is sent, held or counted as pushed out; the buffer never exceeds its capacity plus two |
| CvStream.RunKeepsLatest | cv.py:161-184 | the latest chunk is always sent or still held: the buffer pushes out only older ones |
| CvStream.RunYieldsUnheld | cv.py:172-184 | a chunk that is not held back is sent |
| CvStream.RunCrashes | cv.py:143-166 | as written the generator raises exactly when the first or second non-empty chunk is held back |
| CvStream.RunAgrees | cv.py:143-184 | short of that raise, the generator as written and the intended one agree |
| CvStream.NonEmpty | cv.py:126-127 | the chunks handled are the non-empty ones, in order |
| CvStream.Generate | cv.py:96-225 | the intended generator: an exception that leaves it is the read's uncaught one; after a clean read the last chunk is the last thing sent |
| CvStream.GenerateInOrder | cv.py:172-223 | the generator sends chunks in arrival order, each at most once: what was flushed, and after a clean read what was still held |
| CvStream.GenerateAsWritten | cv.py:143-225 | the generator as written equals the intended one unless it raises on `jitter`; then the handler ends it with at most one chunk sent |
| CvStream.EarlyFirstChunkSendsNothing | cv.py:143-166 | as written, a first non-empty chunk that is held back ends the generator with nothing sent |
| CvStream.AsWrittenSendsNothing | cv.py:161-166 | a one-frame stream whose frame arrives early: as written nothing is sent, the intended generator sends the frame |
| CvStream.StreamVideo | cv.py:79-256 | the corrected route: the five candidates are tried in order; the first one accepted is streamed through the intended generator with the preset's chunk size and smoothing; none accepted gives the 502 `text/plain` reply naming every URL tried |
| CvStream.StreamVideoAsWritten | cv.py:79-256 | the route as cv.py runs it: the same search, reply and chunk size, with the found stream going through the generator as written |
| CvStream.StreamVideoAgrees | cv.py:143-166 | the route as written and the corrected route differ only when the stream found makes the generator as written crash |
| CvStream.Preview | cv.py:279-281 | a preview is at most 200 characters, and empty when the body has no chunk |
| CvStream.ScanOne | cv.py:273-298 | HEAD first; a status of 400 or more is replaced by a GET's status, type and the preview of its first chunk; `available` exactly when the reported status is 200; an `Exception` from the HEAD or the GET becomes an `error` line with its text, and any other exception escapes |
| CvStream.ScanOneAvailable | cv.py:273-298 | a line is available exactly when the HEAD answered 200, or answered 400 or more and the GET answered 200 |
| CvStream.ScanOneOkIff | cv.py:273-298 | a line is missing only when the HEAD, or the GET after a HEAD of 400 or more, raised an exception that is not an `Exception` |
| CvStream.ScanEndpoints | cv.py:258-300 | five reports, one per endpoint in order, unless an uncaught exception escapes |
| Hosts.IpInjective | find_droidcam.py:34-35 | two host numbers give the same address only when they are equal |
| QuickScan.TestIp | find_droidcam.py:11-25 | HEAD `/video` on 4747: `SUCCESS` for 200, `HTTP n` for other statuses, `Timeout`, `No connection`, or `Error:` and the text; only a non-`Exception` escapes |
| QuickScan.SuccessIffOk | find_droidcam.py:11-19 | an address that answers is kept exactly when the answer is 200 |
| QuickScan.UnreachableNotKept | find_droidcam.py:20-23 | timeouts and refused connections are never kept |
| QuickScan.PriorityIps | find_droidcam.py:34 | the eleven priority addresses, in their order |
| QuickScan.PriorityByNumber | find_droidcam.py:35 | an address is among the priority ones exactly when its host number is |
| QuickScan.RegularIpsSpec | find_droidcam.py:35 | the regular addresses are the hosts `.1` to `.254` outside the priority list, each once |
| QuickScan.AllIpsCovers | find_droidcam.py:34-37 | every host `.1` to `.254` is scanned |
| QuickScan.AllIpsOnly | find_droidcam.py:34-37 | nothing but hosts `.1` to `.254` is scanned |
| QuickScan.AllIpsDistinct | find_droidcam.py:34-37 | no host is scanned twice |
| QuickScan.Collect | find_droidcam.py:41-50 | exactly the addresses whose status mentions `SUCCESS` are kept, in scan order |
| QuickScan.CollectAppend | find_droidcam.py:41-50 | scanning two runs of addresses keeps the first run's addresses before the second's; an exception in the first run escapes before the second run is tested |
| QuickScan.CollectSingle | find_droidcam.py:41-50 | one address is kept exactly when its status mentions `SUCCESS`; an exception its test lets through escapes |
| QuickScan.ScanNetwork | find_droidcam.py:41-63 | the result is the first kept address in `all_ips` order, or none when no address is kept |
| AdvancedScan.LocalNetwork | find_droidcam_advanced.py:7-20 | the network base followed by `.` and the last part rebuilds the local address; with no local address the fallback pair |
| AdvancedScan.NetworkBaseSpec | find_droidcam_advanced.py:17 | joining all parts but the last, then adding `.` and the last, gives back the address |
| AdvancedScan.ProbeUrls | find_droidcam_advanced.py:24-28 | the four endpoint URLs in order |
| AdvancedScan.Label | find_droidcam_advanced.py:38-65 | `MJPEG_READY` exactly for a multipart type, `HTML_RESPONSE` exactly for an HTML type that is not multipart |
| AdvancedScan.TestDroidcamIp | find_droidcam_advanced.py:22-69 | no device exactly when no endpoint answers 200; otherwise the first endpoint that does, labelled by its type |
| AdvancedScan.HostsFromSpec | find_droidcam_advanced.py:91-95 | the hosts scanned on one port are those of the network except the local address, each once |
| AdvancedScan.HostsFromMember | find_droidcam_advanced.py:91-95 | a host is scanned exactly when its number is in range and its address is not the local one |
| AdvancedScan.HostsFromDistinct | find_droidcam_advanced.py:91-95 | no host is scanned twice on one port |
| AdvancedScan.CandidatesSpec | find_droidcam_advanced.py:85-95 | the candidates are every (host, port) of the network on the four ports except the local address, each once |
| AdvancedScan.Scan | find_droidcam_advanced.py:87-106 | every device found is the result of testing one candidate, and every candidate whose test finds a device has that device in the result |
| AdvancedScan.ScanAppend | find_droidcam_advanced.py:87-106 | scanning two runs of candidates finds the first run's devices, then the second's, so devices come out in candidate order |
| AdvancedScan.ScanSingle | find_droidcam_advanced.py:87-106 | one candidate contributes its device when its test finds one and nothing otherwise |
| AdvancedScan.FirstWith | find_droidcam_advanced.py:141-150 | the first device with a status, and none exactly when no device has it |
| AdvancedScan.Recommend | find_droidcam_advanced.py:139-152 | the first MJPEG-ready device is recommended when there is one; otherwise the first HTML one is reported as not streaming; otherwise no advice |

## Left out

- Floating point: frame rates are whole numbers, and intervals and pauses are whole microseconds truncated toward zero. A fractional `fps_limit` is not modelled.
- Governor.LimitOf: a negative `fps_limit` gives a non-positive interval, which never holds a chunk back. The source's float division is only approximated there.
- Concurrency: `asyncio.gather`, `ThreadPoolExecutor` and `as_completed` are modelled as sequential loops. For find_droidcam_advanced.py the order of `found_devices` follows the candidate order. The real order is completion order, so `AdvancedScan.Recommend` picks the first device in whatever order it is given.
- The HTML pages, JavaScript, `/api/stats`, `/api/system-stats` and the other HTML and status routes are left out; they are presentation only.
- Logging and `print` are left out, and so are the statistics that only feed a log line: the chunks-per-100 log and `fps_frame_count`.
- `cv2.imdecode`, the colour conversion and `VideoFrame` are left out. Whether a JPEG decodes is a parameter of `WebRtc.Recv`.
- In cv.py, whether a chunk is held back and whether the jitter is high are computed from float clock readings. These two facts are an input (`CvStream.Decision`). The model keeps the buffer, window and capacity logic.
- The sleeps of cv.py's generator (micro-delays and complexity delays) are left out. They pace delivery but never change what is sent.
- cv.py's `frame_buffer` is never appended to, so its flush loop (lines 215-217) is dead and has no counterpart.
- GPU detection and psutil readings are left out. The GPU flag is a parameter.
- Request parsing is left out: the `int(buffer)` and `float(fps)` conversions that can raise, and query defaults. Parameters arrive already parsed.
- `iter_chunked`/`iter_content` re-chunking and the 8192/65536 read sizes are left out. A body is the sequence of chunks the server delivers, and the read size only appears as `CvViewer.ChunkSize`.
- CvStream.Preview takes the first delivered chunk, cut to 1024 and then to 200 bytes. Bytes of 128 and above are dropped rather than decoded as UTF-8 multibyte sequences.
- A client that disconnects mid-stream (`GeneratorExit`) is left out, and so is the `finally` cleanup it would trigger. Only an exception carried by the body is modelled.
- WebRtc.CreatePeer: the old track under a reused session id is replaced without being stopped. The model records the replacement only.
- Session contents are left out: headers, timeouts and connector settings. A session is an id and a closed flag.
- The process entry points (`__main__`, `uvicorn.run`, Flask `app.run`) and the follow-up `test_droidcam` call are left out.
- Governor.Relay: the clock is a parameter of any value, while the source reads epoch time, which always lies more than one interval past the initial `last_frame_time = 0`. For a clock below one interval the model drops or delays the first chunk, which the source never does; Governor.StreamFirstAtOnce shows that from a realistic clock the first chunk goes out at once.
- UltraViewer.UltraStream: the same clock assumption as Governor.Relay.
- FastApiViewer.StreamWithFpsLimit: the same clock assumption as Governor.Relay.
- Text.Lower: folds ASCII letters only. Python's `str.lower()` also folds letters beyond ASCII, such as `À` in a latin-1 decoded header.
- Http.Classify: the content type it records is lower-cased by Text.Lower, so it can differ from the source's for a header with non-ASCII capitals. Whether a type counts as MJPEG can differ only for a header that spells the marker with such a capital.
- AdvancedScan.TestDroidcamIp: the recorded content type is lower-cased by Text.Lower, as for Http.Classify.
- WebRtc.FrameInterval: the interval is whole microseconds, so a rate above 1,000,000 fps truncates it to 0, while the source's `1.0 / target_fps` (webrtc_viewer.py:30) stays positive.
- FastApiViewer.DirectProxy: the strict text decode of an HTML body by `response.text()` (fastapi_viewer.py:421) is left out. A body that does not decode raises `UnicodeDecodeError`, and the source then sends one `Stream error: …` message (lines 456-459) instead of the HTML error. The model always sends the HTML error after a clean read.
- AdvancedScan.LocalNetwork: the UDP socket trick that finds the local address is left out. The address, or its absence after an exception, is the input.

## Findings

| source | as written | input that shows it | evidently intended | confidence | as-written member | corrected member |
|---|---|---|---|---|---|---|
| cv.py:143-166 | `jitter` is assigned only once `frame_timestamps` holds three readings, but line 166 reads it whenever a chunk is held back. Holding the first or second non-empty chunk raises `UnboundLocalError`. The `except Exception` at lines 224-225 swallows it, and the generator ends with the buffer never flushed. | a stream whose first frame arrives within `frame_interval * tolerance` of the generator's start, e.g. one JPEG body `FF D8 FF D9` held on arrival | an unmeasured jitter counts as low, so the chunk is buffered and later flushed | not executed | CvStream.GenerateAsWritten, CvStream.AsWrittenSendsNothing, CvStream.StreamVideoAsWritten | CvStream.Generate, CvStream.StreamVideo |
