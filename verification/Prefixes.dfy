/** Addresses and prefixes as bit strings, and the order theory the trie rests on. */
module Prefixes {

  type Bits = seq<bool>

  /** `q` is a strictly longer prefix than `p`, on side `b` of it. */
  predicate Below(p: Bits, b: bool, q: Bits) {
    |p| < |q| && p <= q && q[|p|] == b
  }

  /** Length of the longest common prefix: the leading zeros of the exclusive or. */
  function CommonBits(a: Bits, b: Bits): (c: nat)
    ensures c <= |a| && c <= |b|
    ensures a[..c] == b[..c]
    ensures c < |a| && c < |b| ==> a[c] != b[c]
  {
    if a == [] || b == [] || a[0] != b[0] then 0 else
      var c := CommonBits(a[1..], b[1..]);
      assert a[..c + 1] == [a[0]] + a[1..][..c];
      assert b[..c + 1] == [b[0]] + b[1..][..c];
      c + 1
  }

  /** No bit is set from `n` on. */
  predicate TailClear(b: Bits, n: nat) {
    forall j :: n <= j < |b| ==> !b[j]
  }

  /** The address with everything after its first `cidr` bits cleared. */
  function Mask(ip: Bits, cidr: nat): (m: Bits)
    requires cidr <= |ip|
    ensures |m| == |ip| && m[..cidr] == ip[..cidr]
    ensures forall i :: cidr <= i < |m| ==> !m[i]
  {
    ip[..cidr] + seq(|ip| - cidr, _ => false)
  }

  /** Of two prefixes of one string, the second is within the first or on the string's side of it. */
  lemma StepDown(p: Bits, q: Bits, k: Bits)
    requires p <= k && q <= k && |p| < |k|
    ensures q <= p || Below(p, k[|p|], q)
  {
    assert |q| <= |p| ==> q == k[..|q|] == p[..|q|];
    assert |p| <= |q| ==> p == k[..|p|] == q[..|p|];
  }

  /** Comparing common bits with the prefix length decides coverage. */
  lemma CommonBitsDecideCover(bits: Bits, ip: Bits, n: nat)
    requires n <= |bits| && n <= |ip|
    ensures CommonBits(bits, ip) >= n <==> bits[..n] <= ip
  {
    var c := CommonBits(bits, ip);
    if bits[..n] <= ip {
      assert forall i :: 0 <= i < n ==> bits[i] == bits[..n][i] == ip[i];
    }
    if c >= n {
      assert bits[..n] == bits[..c][..n] == ip[..c][..n] == ip[..n];
    }
  }

  /** Where two prefixes part, neither of which is meant to cover the other. */
  lemma ForkPoint(d: Bits, dn: nat, k: Bits, kn: nat)
    requires |d| == |k| && dn <= |d| && kn <= |k| && !(d[..dn] <= k[..kn])
    ensures var c := CommonBits(d, k);
            if c >= kn then k[..kn] <= d[..dn]
            else c < dn && k[..c] <= d[..dn] && k[..c] <= k[..kn] && k[..kn][c] != d[..dn][c]
  {
    var c := CommonBits(d, k);
    assert forall i :: 0 <= i < c ==> d[i] == d[..c][i] == k[..c][i] == k[i];
    assert forall j :: 0 <= j <= c ==> d[..j] == k[..j];
    assert kn >= dn ==> k[..dn] <= k[..kn];
  }
}
