/** Addresses on a /24 network as both scanners write them:
    `f"{base}.{i}"` for a host number `i`. */
module Hosts {
  import opened Text

  function Ip(base: string, i: nat): string
  {
    base + "." + NatToString(i)
  }

  /** Two host numbers give the same address only if they are equal. */
  lemma IpInjective(base: string, i: nat, j: nat)
    requires Ip(base, i) == Ip(base, j)
    ensures i == j
  {
    var n := |base| + 1;
    assert Ip(base, i)[n..] == NatToString(i);
    assert Ip(base, j)[n..] == NatToString(j);
    NatToStringInjective(i, j);
  }
}
