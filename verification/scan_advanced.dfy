/** find_droidcam_advanced.py: work out the local /24 network, probe every
    other host on four ports, classify what answers, and recommend a
    device. The thread pool only changes the order in which results come
    back, which the model leaves open: the scan is a sequential loop over
    the candidates and the recommendation holds for any order of results. */
module AdvancedScan {
  import opened Text
  import opened Http
  import opened Hosts

  const FallbackBase := "192.168.1"
  const FallbackIp := "192.168.1.100"

  function Last(parts: seq<string>): string
    requires |parts| >= 1
  {
    parts[|parts| - 1]
  }

  /** `get_local_network`: the network part of the local address, which is
      `None` when finding it raised anything at all (the handler is a bare
      `except`), and the address itself. */
  function LocalNetwork(local: Option<string>): (r: (string, string))
    ensures local.None? ==> r == (FallbackBase, FallbackIp)
    ensures local.Some? ==> r.1 == local.value
    ensures local.Some? && '.' in local.value ==> r.0 + "." + Last(Split(local.value, '.')) == local.value
    ensures local.Some? && '.' !in local.value ==> r.0 == ""
  {
    match local
    case None => (FallbackBase, FallbackIp)
    case Some(ip) =>
      var parts := Split(ip, '.');
      NetworkBaseSpec(ip);
      (Join(parts[..|parts| - 1], "."), ip)
  }

  /** Dropping the last dot-separated piece and joining the rest leaves the
      text before the last dot; with no dot, nothing is left. */
  lemma NetworkBaseSpec(ip: string)
    ensures var parts := Split(ip, '.');
      && ('.' in ip ==> Join(parts[..|parts| - 1], ".") + "." + Last(parts) == ip)
      && ('.' !in ip ==> Join(parts[..|parts| - 1], ".") == "")
  {
    if '.' in ip {
      BaseWithDot(ip);
    } else {
      SplitNoSeparator(ip, '.');
      assert Split(ip, '.')[..0] == [];
    }
  }

  /** A text that splits into one piece has no dot. */
  lemma OnePieceNoDot(ip: string)
    ensures |Split(ip, '.')| == 1 ==> '.' !in ip
  {
    var parts := Split(ip, '.');
    JoinSplit(ip, '.');
    if |parts| == 1 {
      assert Join(parts, ".") == parts[0];
      assert '.' !in parts[0];
    }
  }

  lemma BaseWithDot(ip: string)
    requires '.' in ip
    ensures var parts := Split(ip, '.');
      Join(parts[..|parts| - 1], ".") + "." + Last(parts) == ip
  {
    var parts := Split(ip, '.');
    OnePieceNoDot(ip);
    JoinSplit(ip, '.');
    JoinDropLast(parts, ".");
  }

  /** The paths `test_droidcam_ip` tries, in order. */
  const Paths: seq<string> := ["/video", "/mjpegfeed", "/", "/cam/1/stream"]

  function ProbeUrls(ip: string, port: int): (urls: seq<string>)
    ensures |urls| == |Paths| && forall k :: 0 <= k < |Paths| ==> urls[k] == Url(ip, port, Paths[k])
  {
    seq(|Paths|, k requires 0 <= k < |Paths| => Url(ip, port, Paths[k]))
  }

  predicate StatusOk(r: Response)
  {
    r.status == 200
  }

  /** The bare `except: continue` moves past every exception. */
  predicate Anything(f: Failure)
  {
    true
  }

  datatype DeviceStatus = MjpegReady | HtmlResponse | UnknownContent

  datatype Device = Device(ip: string, port: int, endpoint: string, status: DeviceStatus, contentType: string, url: string)

  /** The label of the first 200 answer, from its lower-cased type. */
  function Label(contentType: string): (s: DeviceStatus)
    ensures s == MjpegReady <==> Contains(Lower(contentType), "multipart/x-mixed-replace")
    ensures s == HtmlResponse <==>
      !Contains(Lower(contentType), "multipart/x-mixed-replace") && Contains(Lower(contentType), "text/html")
  {
    var ct := Lower(contentType);
    if Contains(ct, "multipart/x-mixed-replace") then MjpegReady
    else if Contains(ct, "text/html") then HtmlResponse
    else UnknownContent
  }

  /** `test_droidcam_ip`: HEAD the paths in order, move past any exception
      and any status but 200, and describe the first 200 answer. */
  function TestDroidcamIp(net: Network, ip: string, port: int): (r: Option<Device>)
    ensures r.None? <==> forall k :: 0 <= k < |Paths| ==>
      net(Head, Url(ip, port, Paths[k])).Raised? || net(Head, Url(ip, port, Paths[k])).response.status != 200
    ensures r.Some? ==> exists k :: (0 <= k < |Paths|
      && r.value.endpoint == Paths[k] && r.value.url == Url(ip, port, Paths[k])
      && net(Head, Url(ip, port, Paths[k])).Responded?
      && net(Head, Url(ip, port, Paths[k])).response.status == 200
      && r.value.status == Label(net(Head, Url(ip, port, Paths[k])).response.contentType)
      && r.value.contentType == Lower(net(Head, Url(ip, port, Paths[k])).response.contentType)
      && forall j :: 0 <= j < k ==>
           net(Head, Url(ip, port, Paths[j])).Raised? || net(Head, Url(ip, port, Paths[j])).response.status != 200)
    ensures r.Some? ==> r.value.ip == ip && r.value.port == port
  {
    var urls := ProbeUrls(ip, port);
    match Probe(net, Head, urls, StatusOk, Anything)
    case Ok(Some(found)) =>
      var ct := Lower(found.response.contentType);
      Some(Device(ip, port, Paths[found.index], Label(found.response.contentType), ct, urls[found.index]))
    case _ => None
  }

  const Ports: seq<int> := [4747, 4748, 8080, 8081]

  /** The candidates on one port from host `from` on, skipping our own
      address. */
  function HostsFrom(base: string, localIp: string, port: int, from: nat): seq<(string, int)>
    decreases 255 - from
  {
    if from > 254 then []
    else (if Ip(base, from) == localIp then [] else [(Ip(base, from), port)]) + HostsFrom(base, localIp, port, from + 1)
  }

  /** Every port in turn, every host `.1` to `.254` but ours. */
  function CandidatesOver(base: string, localIp: string, ports: seq<int>): seq<(string, int)>
  {
    if |ports| == 0 then [] else HostsFrom(base, localIp, ports[0], 1) + CandidatesOver(base, localIp, ports[1..])
  }

  function Candidates(base: string, localIp: string): seq<(string, int)>
  {
    CandidatesOver(base, localIp, Ports)
  }

  lemma HostsFromSpec(base: string, localIp: string, port: int, from: nat)
    ensures forall c :: c in HostsFrom(base, localIp, port, from) <==>
      c.1 == port && c.0 != localIp && exists i :: from <= i <= 254 && c.0 == Ip(base, i)
    ensures Distinct(HostsFrom(base, localIp, port, from))
  {
    HostsFromMember(base, localIp, port, from);
    HostsFromDistinct(base, localIp, port, from);
  }

  /** The pairs on one port from host `from` on: the other hosts, on that port. */
  lemma {:induction false} HostsFromMember(base: string, localIp: string, port: int, from: nat)
    ensures forall c :: c in HostsFrom(base, localIp, port, from) <==>
      c.1 == port && c.0 != localIp && exists i :: from <= i <= 254 && c.0 == Ip(base, i)
    decreases 255 - from
  {
    if from <= 254 {
      HostsFromMember(base, localIp, port, from + 1);
      var rest := HostsFrom(base, localIp, port, from + 1);
      var head := if Ip(base, from) == localIp then [] else [(Ip(base, from), port)];
      assert HostsFrom(base, localIp, port, from) == head + rest;
      forall c: (string, int) ensures c in head + rest <==>
        c.1 == port && c.0 != localIp && exists i :: from <= i <= 254 && c.0 == Ip(base, i)
      {
        if c.1 == port && c.0 != localIp && exists i :: from <= i <= 254 && c.0 == Ip(base, i) {
          var i :| from <= i <= 254 && c.0 == Ip(base, i);
          if i > from {
            assert c in rest;
          }
        }
      }
    }
  }

  /** No pair comes twice on one port. */
  lemma {:induction false} HostsFromDistinct(base: string, localIp: string, port: int, from: nat)
    ensures Distinct(HostsFrom(base, localIp, port, from))
    decreases 255 - from
  {
    if from <= 254 {
      HostsFromDistinct(base, localIp, port, from + 1);
      HostsFromMember(base, localIp, port, from + 1);
      var rest := HostsFrom(base, localIp, port, from + 1);
      var head := if Ip(base, from) == localIp then [] else [(Ip(base, from), port)];
      assert HostsFrom(base, localIp, port, from) == head + rest;
      forall c | c in head ensures c !in rest {
        if c in rest {
          var i :| from + 1 <= i <= 254 && c.0 == Ip(base, i);
          IpInjective(base, i, from);
        }
      }
      DistinctConcat(head, rest);
    }
  }

  /** A pair is in the runs over `ports` exactly when its port is one of
      them and its address is another host of the network. */
  lemma {:induction false} CandidatesOverMember(base: string, localIp: string, ports: seq<int>)
    ensures forall c :: c in CandidatesOver(base, localIp, ports) <==>
      c.1 in ports && c.0 != localIp && exists i :: 1 <= i <= 254 && c.0 == Ip(base, i)
  {
    if |ports| > 0 {
      HostsFromSpec(base, localIp, ports[0], 1);
      CandidatesOverMember(base, localIp, ports[1..]);
      assert forall q :: q in ports <==> q == ports[0] || q in ports[1..];
    }
  }

  /** Over distinct ports, no pair comes twice. */
  lemma {:induction false} CandidatesOverDistinct(base: string, localIp: string, ports: seq<int>)
    requires forall a, b :: 0 <= a < b < |ports| ==> ports[a] != ports[b]
    ensures Distinct(CandidatesOver(base, localIp, ports))
  {
    if |ports| > 0 {
      var head, rest := HostsFrom(base, localIp, ports[0], 1), CandidatesOver(base, localIp, ports[1..]);
      HostsFromSpec(base, localIp, ports[0], 1);
      CandidatesOverMember(base, localIp, ports[1..]);
      CandidatesOverDistinct(base, localIp, ports[1..]);
      assert ports[0] !in ports[1..];
      assert forall c :: c in rest ==> c.1 != ports[0];
      DistinctConcat(head, rest);
    }
  }

  predicate Distinct<T(==)>(s: seq<T>)
  {
    forall a, b :: 0 <= a < b < |s| ==> s[a] != s[b]
  }

  lemma DistinctConcat<T>(x: seq<T>, y: seq<T>)
    requires Distinct(x) && Distinct(y)
    requires forall c :: c in x ==> c !in y
    ensures Distinct(x + y)
  {
    forall a, b | 0 <= a < b < |x + y| ensures (x + y)[a] != (x + y)[b] {
      if a < |x| && b >= |x| {
        assert (x + y)[a] in x;
        assert (x + y)[b] == y[b - |x|];
      } else if b < |x| {
        assert (x + y)[a] == x[a] && (x + y)[b] == x[b];
      } else {
        assert (x + y)[a] == y[a - |x|] && (x + y)[b] == y[b - |x|];
      }
    }
  }

  /** The scanned pairs: the four ports times every other host, each once. */
  lemma CandidatesSpec(base: string, localIp: string)
    ensures forall c :: c in Candidates(base, localIp) <==>
      c.1 in Ports && c.0 != localIp && exists i :: 1 <= i <= 254 && c.0 == Ip(base, i)
    ensures Distinct(Candidates(base, localIp))
  {
    CandidatesOverMember(base, localIp, Ports);
    CandidatesOverDistinct(base, localIp, Ports);
  }

  /** The devices found, in candidate order. */
  function Scan(net: Network, cands: seq<(string, int)>): (r: seq<Device>)
    ensures |r| <= |cands|
    ensures forall d :: d in r ==> exists k :: 0 <= k < |cands| && TestDroidcamIp(net, cands[k].0, cands[k].1) == Some(d)
    ensures forall k :: 0 <= k < |cands| && TestDroidcamIp(net, cands[k].0, cands[k].1).Some? ==>
      TestDroidcamIp(net, cands[k].0, cands[k].1).value in r
  {
    if |cands| == 0 then []
    else
      var rest := Scan(net, cands[1..]);
      assert forall k :: 1 <= k < |cands| ==> cands[k] == cands[1..][k - 1];
      match TestDroidcamIp(net, cands[0].0, cands[0].1)
      case Some(d) => [d] + rest
      case None => rest
  }

  /** Scanning two runs of candidates one after the other finds the devices
      of the first run, then those of the second: the devices come out in
      candidate order. */
  lemma {:induction false} ScanAppend(net: Network, a: seq<(string, int)>, b: seq<(string, int)>)
    ensures Scan(net, a + b) == Scan(net, a) + Scan(net, b)
    decreases |a|
  {
    if |a| == 0 {
      assert a + b == b;
    } else {
      assert (a + b)[0] == a[0] && (a + b)[1..] == a[1..] + b;
      ScanAppend(net, a[1..], b);
    }
  }

  /** A single candidate yields its device, if its test finds one, and
      nothing otherwise. */
  lemma ScanSingle(net: Network, c: (string, int))
    ensures Scan(net, [c]) == (match TestDroidcamIp(net, c.0, c.1) case Some(d) => [d] case None => [])
  {
    assert [c][1..] == [];
  }

  /** What the script prints after the scan. */
  datatype Advice = Use(device: Device) | NotStreaming(device: Device) | NoAdvice

  /** The position of the first device with the given status. */
  function FirstWith(found: seq<Device>, s: DeviceStatus): (r: Option<nat>)
    ensures r.None? <==> forall k :: 0 <= k < |found| ==> found[k].status != s
    ensures r.Some? ==> r.value < |found| && found[r.value].status == s
    ensures r.Some? ==> forall k :: 0 <= k < r.value ==> found[k].status != s
  {
    if |found| == 0 then None
    else if found[0].status == s then Some(0)
    else match FirstWith(found[1..], s)
      case None => None
      case Some(k) => Some(k + 1)
  }

  /** The recommendation: the first device ready to stream; failing that,
      the first answering with HTML; failing that, nothing. */
  function Recommend(found: seq<Device>): (r: Advice)
    ensures r.Use? <==> exists k :: 0 <= k < |found| && found[k].status == MjpegReady
    ensures r.Use? ==> r.device.status == MjpegReady
    ensures r.Use? ==> exists k :: 0 <= k < |found| && found[k] == r.device && forall j :: 0 <= j < k ==> found[j].status != MjpegReady
    ensures r.NotStreaming? <==> (forall k :: 0 <= k < |found| ==> found[k].status != MjpegReady)
                                 && exists k :: 0 <= k < |found| && found[k].status == HtmlResponse
    ensures r.NotStreaming? ==> r.device.status == HtmlResponse
    ensures r.NotStreaming? ==> exists k :: 0 <= k < |found| && found[k] == r.device && forall j :: 0 <= j < k ==> found[j].status != HtmlResponse
  {
    match FirstWith(found, MjpegReady)
    case Some(k) => Use(found[k])
    case None =>
      match FirstWith(found, HtmlResponse)
      case Some(k) => NotStreaming(found[k])
      case None => NoAdvice
  }
}
