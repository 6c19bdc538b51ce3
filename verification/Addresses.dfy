/** The part of `net/netip` the gateway uses: address prefixes and membership. */
module Addresses {
  import opened Common

  /** An address of 32 or 128 bits; `zoned` marks an IPv6 address that carries a zone. */
  datatype Addr = Addr(bits: seq<bool>, zoned: bool)

  datatype Prefix = Prefix(addr: Addr, length: nat)

  /**
   A configured CIDR text, reduced to what the parsers see of it: whether white space
   surrounds it, and what `netip.ParsePrefix` makes of the text inside.
   */
  datatype CidrText = CidrText(padded: bool, inner: Option<Prefix>)

  /** `netip.ParsePrefix` accepts no surrounding white space. */
  function ParsePrefix(c: CidrText): Option<Prefix> {
    if c.padded then None else c.inner
  }

  /** `Prefix.Contains`: same family, no zone, and the same leading bits. */
  predicate InPrefix(p: Prefix, ip: Addr) {
    && p.length <= |p.addr.bits| && !ip.zoned && |ip.bits| == |p.addr.bits|
    && p.addr.bits[..p.length] == ip.bits[..p.length]
  }

  /** The address is of the prefix's family, has no zone, and agrees with the prefix in each of its bits. */
  ghost predicate Covers(p: Prefix, ip: Addr) {
    && p.length <= |p.addr.bits| && |ip.bits| == |p.addr.bits| && !ip.zoned
    && forall i :: 0 <= i < p.length ==> ip.bits[i] == p.addr.bits[i]
  }

  lemma InPrefixIff(p: Prefix, ip: Addr)
    ensures InPrefix(p, ip) <==> Covers(p, ip)
  {
    if Covers(p, ip) {
      assert p.addr.bits[..p.length] == ip.bits[..p.length];
    }
    if InPrefix(p, ip) {
      forall i | 0 <= i < p.length ensures ip.bits[i] == p.addr.bits[i] {
        assert p.addr.bits[..p.length][i] == ip.bits[..p.length][i];
      }
    }
  }

  /** `Prefix.Masked`: clear the bits after the prefix length. */
  function Masked(p: Prefix): Prefix {
    if p.length > |p.addr.bits| then p
    else
      var cleared := seq(|p.addr.bits| - p.length, i => false);
      p.(addr := p.addr.(bits := p.addr.bits[..p.length] + cleared))
  }

  /** A masked prefix holds exactly the addresses that agree with the configured one in its bits. */
  lemma MaskedKeepsMembers(p: Prefix, ip: Addr)
    ensures InPrefix(Masked(p), ip) <==> Covers(p, ip)
  {
    InPrefixIff(p, ip);
    if p.length <= |p.addr.bits| {
      assert Masked(p).addr.bits[..p.length] == p.addr.bits[..p.length];
    }
  }

  predicate InAny(prefixes: seq<Prefix>, ip: Addr) {
    exists p | p in prefixes :: InPrefix(p, ip)
  }
}
