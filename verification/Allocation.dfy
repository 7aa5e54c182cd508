/** Address allocation on a gateway: `allocateHost` of connections.go. */
module Allocation {
  import opened Options
  import opened Words

  type uint32 = x: int | 0 <= x < 0x1_0000_0000

  /** A parsed IPv4 prefix: the address is already masked to `ones` bits. */
  datatype Net4 = Net4(base: uint32, ones: nat) {
    ghost predicate Valid() {
      ones <= 32 && base % Pow2(32 - ones) == 0
    }

    // the number of addresses, unbounded
    function Count(): int
      requires ones <= 32
    {
      Pow2(32 - ones)
    }

    // neither the network address, nor the gateway's .1, nor the broadcast address
    predicate IsHost(ip: int)
      requires ones <= 32
    {
      base as int + 2 <= ip <= base as int + Count() - 2
    }
  }

  /** A parsed IPv6 prefix as a 128-bit number, masked to `ones` bits. */
  datatype Net6 = Net6(base: nat, ones: nat) {
    ghost predicate Valid() {
      ones <= 128 && base < Pow2(128) && base % Pow2(128 - ones) == 0
    }

    predicate Contains(ip: int)
      requires ones <= 128
    {
      base <= ip < base + Pow2(128 - ones)
    }
  }

  datatype Host = Host(v4: uint32, v6: Option<nat>)

  ghost predicate IsLowestFree(n: Net4, used: set<uint32>, ip: int)
    requires n.ones <= 32
  {
    && n.IsHost(ip)
    && ip !in used
    && forall x :: n.IsHost(x) && x < ip ==> x in used
  }

  // c6[12:16] is replaced by its own value plus h, as a 32-bit number
  function Address6(n: Net6, h: uint32): nat {
    n.base - n.base % 0x1_0000_0000 + (n.base % 0x1_0000_0000 + h) % 0x1_0000_0000
  }

  function Companion(n4: Net4, n6: Option<Net6>, ip: uint32): Option<nat>
    requires n4.ones <= 32 && n4.IsHost(ip)
  {
    match n6
    case None => None
    case Some(n) => Some(Address6(n, ip as int - n4.base as int))
  }

  lemma CountFits(n: Net4)
    requires n.Valid()
    ensures Pow2(32) == 0x1_0000_0000
    ensures 1 <= n.Count() <= 0x1_0000_0000
    ensures n.base as int + n.Count() <= 0x1_0000_0000
  {
    Pow2Of16();
    Pow2Add(16, 16);
    Pow2Monotone(32 - n.ones, 32);
    Pow2Add(32 - n.ones, n.ones);
    MultipleBelow(n.base as int, n.Count(), Pow2(n.ones));
  }

  /** The last multiple of c below k * c leaves room for c. */
  lemma MultipleBelow(x: int, c: int, k: int)
    requires c > 0 && x % c == 0 && x < c * k
    ensures x + c <= c * k
  {
    var q := x / c;
    assert x == c * q;
    assert c * (k - q) == c * k - c * q;
    if k - q <= 0 {
      ProductNonPositive(c, k - q);
    }
    MulAtLeast(c, k - q);
  }

  lemma ProductNonPositive(c: int, d: int)
    requires c > 0 && d <= 0
    ensures c * d <= 0
  {
  }

  /** The lowest free host address, its IPv6 companion when there is a subnet for it, and no
      address exactly when every host address is in use. The bound wraps to 2^32 - 1 for a
      prefix of length 0, where the 32-bit size wraps to 0. */
  method AllocateHost(n4: Net4, n6: Option<Net6>, used: set<uint32>) returns (host: Option<Host>)
    requires n4.Valid()
    ensures host.Some? ==> IsLowestFree(n4, used, host.value.v4)
    ensures host.Some? ==> host.value.v6 == Companion(n4, n6, host.value.v4)
    ensures host.None? ==> forall x :: n4.IsHost(x) ==> x in used
  {
    hide Pow2, Address6;
    CountFits(n4);
    var size: uint32 := Pow2(32 - n4.ones) % 0x1_0000_0000;
    var last: uint32 := (size as int - 1) % 0x1_0000_0000;
    assert last as int == n4.Count() - 1;
    var h: uint32 := 2;
    while h < last
      invariant 2 <= h as int && (h as int <= last as int || h == 2)
      invariant forall x :: n4.IsHost(x) && x < n4.base as int + h as int ==> x in used
    {
      var cand: uint32 := n4.base as int + h as int;
      if cand in used {
        h := h + 1;
      } else {
        return Some(Host(cand, if n6.Some? then Some(Address6(n6.value, h)) else None));
      }
    }
    return None;
  }

  /** The IPv6 address stays in its subnet exactly when the host number fits in the host
      bits, which it does whenever the IPv6 subnet has at least as many as the IPv4 one. */
  lemma Address6InSubnet(n: Net6, h: uint32)
    requires n.Valid()
    ensures n.Contains(Address6(n, h)) <==> h as int < Pow2(128 - n.ones)
  {
    hide Pow2;
    var k := 128 - n.ones;
    Pow2Of16();
    Pow2Add(16, 16);
    if k >= 32 {
      Pow2Monotone(32, k);
      Pow2Add(32, k - 32);
      MultipleOfWord(n.base, Pow2(k - 32));
    } else {
      Pow2Monotone(k, 31);
      Pow2Add(k, 32 - k);
      WordRoom(n.base, Pow2(k), Pow2(32 - k));
      var low := n.base % 0x1_0000_0000;
      if low + h < 0x1_0000_0000 {
        assert Address6(n, h) == n.base + h;
      } else {
        assert Address6(n, h) == n.base + h - 0x1_0000_0000;
      }
    }
  }

  lemma MultipleOfWord(x: nat, k: int)
    requires k > 0 && x % (0x1_0000_0000 * k) == 0
    ensures x % 0x1_0000_0000 == 0
  {
    var q := x / (0x1_0000_0000 * k);
    assert x == 0x1_0000_0000 * k * q;
    var m := k * q;
    assert x == 0x1_0000_0000 * m;
  }

  lemma WordRoom(x: nat, c: int, d: int)
    requires c > 0 && d > 0 && c * d == 0x1_0000_0000 && x % c == 0
    ensures x % 0x1_0000_0000 + c <= 0x1_0000_0000
  {
    var q, low := x / 0x1_0000_0000, x % 0x1_0000_0000;
    assert x == 0x1_0000_0000 * q + low;
    assert low % c == 0 by {
      var m := x / c;
      assert x == c * m;
      Associativity(c, d, q);
      assert low == c * m - c * (d * q);
      assert low == c * (m - d * q);
      DivModUnique(low, c, m - d * q, 0);
    }
    MultipleBelow(low, c, d);
  }

  lemma Associativity(x: int, y: int, z: int)
    ensures (x * y) * z == x * (y * z)
  {
  }

  lemma EnoughHostBits(n4: Net4, n6: Net6, ip: uint32)
    requires n4.Valid() && n6.Valid() && n4.IsHost(ip)
    requires 128 - n6.ones >= 32 - n4.ones
    ensures n6.Contains(Address6(n6, ip as int - n4.base as int))
  {
    CountFits(n4);
    Pow2Monotone(32 - n4.ones, 128 - n6.ones);
    Address6InSubnet(n6, ip as int - n4.base as int);
  }

  /** Different IPv4 hosts get different IPv6 addresses, whatever the subnets. */
  lemma Address6Injective(n: Net6, h: uint32, h': uint32)
    requires Address6(n, h) == Address6(n, h')
    ensures h == h'
  {
    var low := n.base % 0x1_0000_0000;
    assert (low + h) % 0x1_0000_0000 == (low + h') % 0x1_0000_0000;
  }
}
