/** find_droidcam.py: HEAD `/video` on port 4747 of every host of a /24
    network, the common phone addresses first, and report the first host
    that answered 200. `executor.map` hands results back in the order of
    its input, so the scan is modelled as the sequential loop it is
    equivalent to. */
module QuickScan {
  import opened Text
  import opened Http
  import opened Hosts

  const SuccessText := "SUCCESS - DroidCam found!"

  /** `test_ip`: the status line for one address. `requests`' `Timeout` and
      `ConnectionError` have their own lines, any other `Exception` its
      text; an exception that is not an `Exception` escapes. */
  function TestIp(net: Network, ip: string): (r: Result<string, Failure>)
    ensures r.Err? <==> net(Head, "http://" + ip + ":4747/video").Raised?
                        && !Caught(net(Head, "http://" + ip + ":4747/video").failure)
    ensures net(Head, "http://" + ip + ":4747/video").Responded? ==>
      var status := net(Head, "http://" + ip + ":4747/video").response.status;
      r == Ok(if status == 200 then SuccessText else "HTTP " + IntToString(status))
    ensures net(Head, "http://" + ip + ":4747/video").Raised? && r.Ok? ==>
      var f := net(Head, "http://" + ip + ":4747/video").failure;
      r.value == (match f.kind
                  case Timeout => "Timeout"
                  case Unreachable => "No connection"
                  case _ => "Error: " + f.message)
  {
    match net(Head, "http://" + ip + ":4747/video")
    case Responded(resp) =>
      if resp.status == 200 then Ok(SuccessText) else Ok("HTTP " + IntToString(resp.status))
    case Raised(f) =>
      match f.kind
      case Timeout => Ok("Timeout")
      case Unreachable => Ok("No connection")
      case Other => Ok("Error: " + f.message)
      case Cancelled => Err(f)
  }

  /** The scan keeps an address when its status line mentions `SUCCESS`. */
  predicate Success(net: Network, ip: string)
  {
    TestIp(net, ip).Ok? && Contains(TestIp(net, ip).value, "SUCCESS")
  }

  /** A text without the letter `S` does not contain `SUCCESS`. */
  lemma NoSuccessWithoutS(s: string)
    requires forall k :: 0 <= k < |s| ==> s[k] != 'S'
    ensures !Contains(s, "SUCCESS")
  {
    forall i | 0 <= i <= |s| - 7 ensures !HasAt(s, "SUCCESS", i) {
      assert s[i] != 'S';
    }
  }

  /** For an address that answers at all, it is kept exactly when the answer
      is 200: `HTTP {code}` never mentions `SUCCESS`. */
  lemma SuccessIffOk(net: Network, ip: string)
    requires net(Head, "http://" + ip + ":4747/video").Responded?
    ensures Success(net, ip) <==> net(Head, "http://" + ip + ":4747/video").response.status == 200
  {
    var status := net(Head, "http://" + ip + ":4747/video").response.status;
    if status == 200 {
      ContainsPrefix(SuccessText, "SUCCESS", " - DroidCam found!");
    } else {
      var n := IntToString(status);
      assert forall k :: 0 <= k < |n| ==> n[k] != 'S';
      NoSuccessWithoutS("HTTP " + n);
    }
  }

  /** Timeouts and refused connections are never kept. */
  lemma UnreachableNotKept(net: Network, ip: string)
    requires net(Head, "http://" + ip + ":4747/video").Raised?
    requires net(Head, "http://" + ip + ":4747/video").failure.kind in {Timeout, Unreachable}
    ensures !Success(net, ip)
  {
    NoSuccessWithoutS("Timeout");
    NoSuccessWithoutS("No connection");
  }

  const PriorityHosts: seq<nat> := [100, 101, 102, 103, 104, 105, 150, 200, 10, 20, 50]

  function PriorityIps(base: string): (r: seq<string>)
    ensures |r| == |PriorityHosts| && forall k :: 0 <= k < |r| ==> r[k] == Ip(base, PriorityHosts[k])
  {
    seq(|PriorityHosts|, k requires 0 <= k < |PriorityHosts| => Ip(base, PriorityHosts[k]))
  }

  /** `regular_ips` from host `from` on: the addresses up to `.254` that are
      not already among the priority addresses, compared as text. */
  function RegularIps(base: string, from: nat): seq<string>
    decreases 255 - from
  {
    if from > 254 then []
    else (if Ip(base, from) in PriorityIps(base) then [] else [Ip(base, from)]) + RegularIps(base, from + 1)
  }

  /** `all_ips`. */
  function AllIps(base: string): seq<string>
  {
    PriorityIps(base) + RegularIps(base, 1)
  }

  /** An address is a priority one exactly when its host number is. */
  lemma PriorityByNumber(base: string, i: nat)
    ensures Ip(base, i) in PriorityIps(base) <==> i in PriorityHosts
  {
    if Ip(base, i) in PriorityIps(base) {
      var k :| 0 <= k < |PriorityHosts| && PriorityIps(base)[k] == Ip(base, i);
      IpInjective(base, i, PriorityHosts[k]);
    }
  }

  /** The regular addresses from `from` on are those of the hosts
      `from..254` outside the priority list, each once. */
  lemma {:induction false} RegularIpsSpec(base: string, from: nat)
    ensures forall ip :: ip in RegularIps(base, from) <==>
      exists i :: from <= i <= 254 && i !in PriorityHosts && ip == Ip(base, i)
    ensures forall a, b :: 0 <= a < b < |RegularIps(base, from)| ==> RegularIps(base, from)[a] != RegularIps(base, from)[b]
    decreases 255 - from
  {
    if from <= 254 {
      RegularIpsSpec(base, from + 1);
      PriorityByNumber(base, from);
      var rest := RegularIps(base, from + 1);
      var head := if Ip(base, from) in PriorityIps(base) then [] else [Ip(base, from)];
      assert RegularIps(base, from) == head + rest;
      forall ip | ip in rest ensures ip != Ip(base, from) {
        var i :| from + 1 <= i <= 254 && i !in PriorityHosts && ip == Ip(base, i);
        if ip == Ip(base, from) {
          IpInjective(base, i, from);
        }
      }
      forall ip ensures ip in RegularIps(base, from) <==>
        exists i :: from <= i <= 254 && i !in PriorityHosts && ip == Ip(base, i)
      {
        if exists i :: from <= i <= 254 && i !in PriorityHosts && ip == Ip(base, i) {
          var i :| from <= i <= 254 && i !in PriorityHosts && ip == Ip(base, i);
          if i > from {
            assert ip in rest;
          }
        }
      }
      forall a, b | 0 <= a < b < |head + rest| ensures (head + rest)[a] != (head + rest)[b] {
        if a < |head| {
          assert (head + rest)[b] in rest;
        }
      }
    }
  }

  /** Every host `.1` to `.254` is scanned. */
  lemma AllIpsCovers(base: string)
    ensures forall i :: 1 <= i <= 254 ==> Ip(base, i) in AllIps(base)
  {
    RegularIpsSpec(base, 1);
    var p, q := PriorityIps(base), RegularIps(base, 1);
    forall i | 1 <= i <= 254 ensures Ip(base, i) in p + q {
      if i in PriorityHosts {
        var k :| 0 <= k < |PriorityHosts| && PriorityHosts[k] == i;
        assert p[k] == Ip(base, i);
      } else {
        assert Ip(base, i) in q;
      }
    }
  }

  /** Nothing but hosts `.1` to `.254` is scanned. */
  lemma AllIpsOnly(base: string)
    ensures forall ip :: ip in AllIps(base) ==> exists i :: 1 <= i <= 254 && ip == Ip(base, i)
  {
    RegularIpsSpec(base, 1);
    var p, q := PriorityIps(base), RegularIps(base, 1);
    forall ip | ip in p + q ensures exists i :: 1 <= i <= 254 && ip == Ip(base, i) {
      if ip in p {
        var k :| 0 <= k < |p| && p[k] == ip;
        assert 1 <= PriorityHosts[k] <= 254;
      }
    }
  }

  /** No host is scanned twice. */
  lemma AllIpsDistinct(base: string)
    ensures forall a, b :: 0 <= a < b < |AllIps(base)| ==> AllIps(base)[a] != AllIps(base)[b]
  {
    RegularIpsSpec(base, 1);
    var p, q := PriorityIps(base), RegularIps(base, 1);
    forall a, b | 0 <= a < b < |p + q| ensures (p + q)[a] != (p + q)[b] {
      if b < |p| {
        PriorityDistinct(base, a, b);
      } else if a < |p| {
        var ip := (p + q)[b];
        assert ip in q;
        var i :| 1 <= i <= 254 && i !in PriorityHosts && ip == Ip(base, i);
        PriorityByNumber(base, i);
      } else {
        assert (p + q)[a] == q[a - |p|] && (p + q)[b] == q[b - |p|];
      }
    }
  }

  lemma PriorityDistinct(base: string, a: nat, b: nat)
    requires a < b < |PriorityHosts|
    ensures PriorityIps(base)[a] != PriorityIps(base)[b]
  {
    if PriorityIps(base)[a] == PriorityIps(base)[b] {
      IpInjective(base, PriorityHosts[a], PriorityHosts[b]);
    }
  }

  /** The addresses kept, in scan order; an exception that escapes one test
      escapes the scan. */
  function Collect(net: Network, ips: seq<string>): (r: Result<seq<string>, Failure>)
    ensures r.Ok? ==> forall k :: 0 <= k < |ips| ==> TestIp(net, ips[k]).Ok?
    ensures r.Ok? ==> forall ip :: ip in r.value <==> ip in ips && Success(net, ip)
    ensures r.Ok? && |r.value| > 0 ==> exists k :: 0 <= k < |ips| && ips[k] == r.value[0] && forall j :: 0 <= j < k ==> !Success(net, ips[j])
    ensures r.Err? ==> exists k :: 0 <= k < |ips| && TestIp(net, ips[k]) == Err(r.error)
  {
    if |ips| == 0 then Ok([])
    else
      match TestIp(net, ips[0])
      case Err(f) => Err(f)
      case Ok(status) =>
        match Collect(net, ips[1..])
        case Err(f) => Err(f)
        case Ok(rest) =>
          assert forall k :: 1 <= k < |ips| ==> ips[k] == ips[1..][k - 1];
          if Contains(status, "SUCCESS") then Ok([ips[0]] + rest) else Ok(rest)
  }

  /** One step of `Collect`: the first address's status line and the result
      for the rest of the addresses. */
  function KeepStep(t: Result<string, Failure>, ip: string, rest: Result<seq<string>, Failure>): Result<seq<string>, Failure>
  {
    match t
    case Err(f) => Err(f)
    case Ok(status) =>
      match rest
      case Err(f) => Err(f)
      case Ok(kept) => if Contains(status, "SUCCESS") then Ok([ip] + kept) else Ok(kept)
  }

  /** The results of two runs scanned one after the other. */
  function Then(x: Result<seq<string>, Failure>, y: Result<seq<string>, Failure>): Result<seq<string>, Failure>
  {
    match x
    case Err(f) => Err(f)
    case Ok(first) =>
      match y
      case Err(f) => Err(f)
      case Ok(second) => Ok(first + second)
  }

  lemma CollectStep(net: Network, ips: seq<string>)
    requires |ips| > 0
    ensures Collect(net, ips) == KeepStep(TestIp(net, ips[0]), ips[0], Collect(net, ips[1..]))
  {
  }

  lemma KeepStepThen(t: Result<string, Failure>, ip: string, x: Result<seq<string>, Failure>, y: Result<seq<string>, Failure>)
    ensures KeepStep(t, ip, Then(x, y)) == Then(KeepStep(t, ip, x), y)
  {
    if t.Ok? && x.Ok? && y.Ok? && Contains(t.value, "SUCCESS") {
      assert [ip] + (x.value + y.value) == ([ip] + x.value) + y.value;
    }
  }

  /** Collecting over two runs of addresses: the first run's kept addresses,
      then the second's, in scan order; an exception in the first run is the
      one that escapes, and the second run is only tested when the first
      raised nothing. */
  lemma {:induction false} CollectAppend(net: Network, a: seq<string>, b: seq<string>)
    ensures Collect(net, a + b) == Then(Collect(net, a), Collect(net, b))
    decreases |a|
  {
    if |a| == 0 {
      assert a + b == b;
      assert Collect(net, a) == Ok([]);
      match Collect(net, b) {
        case Err(_) =>
        case Ok(y) => assert [] + y == y;
      }
    } else {
      var ab := a + b;
      assert ab[0] == a[0] && ab[1..] == a[1..] + b;
      CollectAppend(net, a[1..], b);
      CollectStep(net, ab);
      CollectStep(net, a);
      KeepStepThen(TestIp(net, a[0]), a[0], Collect(net, a[1..]), Collect(net, b));
    }
  }

  /** A single address is kept exactly when it succeeds. */
  lemma CollectSingle(net: Network, ip: string)
    ensures TestIp(net, ip).Ok? ==> Collect(net, [ip]) == Ok(if Success(net, ip) then [ip] else [])
    ensures TestIp(net, ip).Err? ==> Collect(net, [ip]) == Err(TestIp(net, ip).error)
  {
    assert [ip][1..] == [];
    assert Collect(net, []) == Ok([]);
    CollectStep(net, [ip]);
    assert [ip] + [] == [ip];
  }

  /** `scan_network`: the first address kept in `all_ips` order, if any. */
  function ScanNetwork(net: Network, base: string): (r: Result<Option<string>, Failure>)
    ensures r.Ok? && r.value.Some? ==>
      exists k :: 0 <= k < |AllIps(base)| && AllIps(base)[k] == r.value.value && Success(net, r.value.value)
        && forall j :: 0 <= j < k ==> !Success(net, AllIps(base)[j])
    ensures r.Ok? && r.value.None? ==> forall ip :: ip in AllIps(base) ==> !Success(net, ip)
    ensures r.Err? ==> !Caught(r.error)
  {
    match Collect(net, AllIps(base))
    case Err(f) => Err(f)
    case Ok(found) => if |found| > 0 then Ok(Some(found[0])) else Ok(None)
  }
}
