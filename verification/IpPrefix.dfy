/** Membership of an IP address in a prefix given by an address and a mask. */
module IpPrefix {
  import opened SaiTypes
  import opened Bits

  const HAL_INET6_LEN: nat := 16

  datatype Family = Ipv4 | Ipv6 | OtherFamily

  predicate IsBytes(bytes: seq<nat>) {
    forall i | 0 <= i < |bytes| :: bytes[i] < 256
  }

  /** `ip4` is the 32-bit address, `ip6` its 16 bytes in network order; only the member selected
      by a family is meaningful. */
  datatype IpAddress = IpAddress(family: Family, ip4: nat, ip6: seq<nat>) {
    predicate Valid() {
      ip4 < TWO_TO_THE_32 && |ip6| == HAL_INET6_LEN && IsBytes(ip6)
    }
  }

  /** The number written by a sequence of bytes, most significant byte first. */
  function Value(bytes: seq<nat>): nat {
    if bytes == [] then 0 else Value(bytes[..|bytes| - 1]) * 256 + bytes[|bytes| - 1]
  }

  /** The number an address stands for in a family, and the width of that number. */
  function Number(a: IpAddress, f: Family): nat {
    if f == Ipv6 then Value(a.ip6) else a.ip4
  }

  function Width(f: Family): nat {
    if f == Ipv6 then 128 else 32
  }

  /** The prefix relation on whole numbers: equality of the masked addresses. Only the family
      of the prefix is looked at. */
  predicate Matches(prefix: IpAddress, mask: IpAddress, address: IpAddress) {
    prefix.family != OtherFamily
    && And(Number(prefix, prefix.family), Number(mask, prefix.family))
       == And(Number(address, prefix.family), Number(mask, prefix.family))
  }

  /** The first `k` bytes of two addresses agree under the mask. */
  predicate BytesAgree(p: seq<nat>, m: seq<nat>, a: seq<nat>, k: nat)
    requires k <= |p| && |p| == |m| == |a|
  {
    forall i | 0 <= i < k :: And(p[i], m[i]) == And(a[i], m[i])
  }

  /** Whether two addresses agree under the mask as far as their first `k` bytes go. */
  predicate ValuesAgree(p: seq<nat>, m: seq<nat>, a: seq<nat>, k: nat)
    requires k <= |p| && |p| == |m| == |a|
  {
    And(Value(p[..k]), Value(m[..k])) == And(Value(a[..k]), Value(m[..k]))
  }

  lemma ValueOfPrefix(b: seq<nat>, k: nat)
    requires 0 < k <= |b|
    ensures Value(b[..k]) == Value(b[..k - 1]) * 256 + b[k - 1]
  {
    assert b[..k][..k - 1] == b[..k - 1];
  }

  lemma MaskedPrefix(a: seq<nat>, m: seq<nat>, k: nat)
    requires k < |a| == |m| && IsBytes(a) && IsBytes(m)
    ensures And(Value(a[..k + 1]), Value(m[..k + 1])) == And(Value(a[..k]), Value(m[..k])) * 256 + And(a[k], m[k])
  {
    ValueOfPrefix(a, k + 1);
    ValueOfPrefix(m, k + 1);
    AndByte(Value(a[..k]), a[k], Value(m[..k]), m[k]);
  }

  lemma SameDigits(x: nat, a: nat, y: nat, b: nat)
    requires a < 256 && b < 256
    ensures x * 256 + a == y * 256 + b <==> x == y && a == b
  {
  }

  lemma ValuesAgreeStep(p: seq<nat>, m: seq<nat>, a: seq<nat>, k: nat)
    requires k < |p| && |p| == |m| == |a| && IsBytes(p) && IsBytes(m) && IsBytes(a)
    ensures ValuesAgree(p, m, a, k + 1)
       <==> ValuesAgree(p, m, a, k) && And(p[k], m[k]) == And(a[k], m[k])
  {
    MaskedPrefix(p, m, k);
    MaskedPrefix(a, m, k);
    SameDigits(And(Value(p[..k]), Value(m[..k])), And(p[k], m[k]), And(Value(a[..k]), Value(m[..k])), And(a[k], m[k]));
  }

  lemma {:induction false} MaskedBytes(p: seq<nat>, m: seq<nat>, a: seq<nat>, k: nat)
    requires k <= |p| && |p| == |m| == |a| && IsBytes(p) && IsBytes(m) && IsBytes(a)
    ensures ValuesAgree(p, m, a, k) <==> BytesAgree(p, m, a, k)
  {
    if k == 0 {
    } else {
      MaskedBytes(p, m, a, k - 1);
      ValuesAgreeStep(p, m, a, k - 1);
    }
  }

  method IsIpAddrInPrefix(prefix: IpAddress, mask: IpAddress, address: IpAddress) returns (r: bool)
    requires prefix.Valid() && mask.Valid() && address.Valid()
    ensures r == Matches(prefix, mask, address)
  {
    if prefix.family == Ipv4 {
      return And(prefix.ip4, mask.ip4) == And(address.ip4, mask.ip4);
    } else if prefix.family == Ipv6 {
      MaskedBytes(prefix.ip6, mask.ip6, address.ip6, HAL_INET6_LEN);
      assert prefix.ip6[..HAL_INET6_LEN] == prefix.ip6;
      assert mask.ip6[..HAL_INET6_LEN] == mask.ip6;
      assert address.ip6[..HAL_INET6_LEN] == address.ip6;
      for byte := 0 to HAL_INET6_LEN
        invariant BytesAgree(prefix.ip6, mask.ip6, address.ip6, byte)
      {
        if And(prefix.ip6[byte], mask.ip6[byte]) != And(address.ip6[byte], mask.ip6[byte]) {
          return false;
        }
      }
      return true;
    } else {
      return false;
    }
  }

  /** A mask of `n` one bits followed by zero bits. */
  predicate Contiguous(mask: IpAddress, f: Family, n: nat) {
    n <= Width(f) && Number(mask, f) == LeadingOnes(Width(f), n)
  }

  /** The first `n` bits of an address. */
  function LeadingBits(a: IpAddress, f: Family, n: nat): nat
    requires n <= Width(f)
  {
    Quotient(Number(a, f), Pow2(Width(f) - n))
  }

  lemma {:induction false} ValueBound(bytes: seq<nat>)
    requires IsBytes(bytes)
    ensures Value(bytes) < Pow2(8 * |bytes|)
  {
    if bytes == [] {
    } else {
      var n := |bytes| - 1;
      ValueBound(bytes[..n]);
      Pow2Byte(8 * n);
    }
  }

  lemma NumberBound(a: IpAddress, f: Family)
    requires a.Valid()
    ensures Number(a, f) < Pow2(Width(f))
  {
    if f == Ipv6 {
      ValueBound(a.ip6);
    } else {
      Pow2Byte(0);
      Pow2Byte(8);
      Pow2Byte(16);
      Pow2Byte(24);
    }
  }

  lemma SameQuotient(x: nat, y: nat, d: nat)
    requires d >= 1
    ensures x - Mod(x, d) == y - Mod(y, d) <==> Quotient(x, d) == Quotient(y, d)
  {
    assert x == (x / d) * d + x % d;
    assert y == (y / d) * d + y % d;
    if x - x % d == y - y % d {
      DivModUnique(x, y / d, x % d, d);
    }
  }

  lemma MaskedByContiguous(a: IpAddress, mask: IpAddress, f: Family, n: nat)
    requires a.Valid() && Contiguous(mask, f, n)
    ensures And(Number(a, f), Number(mask, f)) == Number(a, f) - Mod(Number(a, f), Pow2(Width(f) - n))
  {
    NumberBound(a, f);
    AndLeadingOnes(Number(a, f), Width(f), n);
  }

  /** Under a mask of `n` leading ones, an address is in the prefix exactly when the two agree
      on their first `n` bits. */
  lemma ContiguousMatch(prefix: IpAddress, mask: IpAddress, address: IpAddress, n: nat)
    requires prefix.Valid() && mask.Valid() && address.Valid() && prefix.family != OtherFamily
    requires Contiguous(mask, prefix.family, n)
    ensures Matches(prefix, mask, address)
       <==> LeadingBits(prefix, prefix.family, n) == LeadingBits(address, prefix.family, n)
  {
    var f := prefix.family;
    MaskedByContiguous(prefix, mask, f, n);
    MaskedByContiguous(address, mask, f, n);
    SameQuotient(Number(prefix, f), Number(address, f), Pow2(Width(f) - n));
  }

  lemma QuotientOfQuotient(x: nat, d: nat, e: nat)
    requires d >= 1 && e >= 1
    ensures d * e >= 1 && Quotient(x, d * e) == Quotient(Quotient(x, d), e)
  {
    var q, r := (x / d) / e, (x / d) % e;
    assert x == (x / d) * d + x % d;
    assert x / d == q * e + r;
    assert (q * e + r) * d == q * (d * e) + r * d;
    MulMonotone(r, e - 1, d);
    assert (e - 1) * d == d * e - d;
    DivModUnique(x, q, r * d + x % d, d * e);
  }

  /** Fewer leading bits are a function of more leading bits. */
  lemma FewerBits(a: IpAddress, f: Family, n1: nat, n2: nat)
    requires n1 <= n2 <= Width(f)
    ensures LeadingBits(a, f, n1) == Quotient(LeadingBits(a, f, n2), Pow2(n2 - n1))
  {
    Pow2Add(Width(f) - n2, n2 - n1);
    QuotientOfQuotient(Number(a, f), Pow2(Width(f) - n2), Pow2(n2 - n1));
  }

  lemma SameFate(p1: IpAddress, m1: IpAddress, n1: nat, p2: IpAddress, m2: IpAddress, n2: nat, a: IpAddress)
    requires p1.Valid() && m1.Valid() && p2.Valid() && m2.Valid() && a.Valid()
    requires p1.family == p2.family != OtherFamily && n1 <= n2
    requires Contiguous(m1, p1.family, n1) && Contiguous(m2, p2.family, n2)
    requires Matches(p2, m2, a)
    ensures Matches(p1, m1, a) <==> Matches(p1, m1, p2)
  {
    ContiguousMatch(p2, m2, a, n2);
    ContiguousMatch(p1, m1, a, n1);
    ContiguousMatch(p1, m1, p2, n1);
    FewerBits(a, p1.family, n1, n2);
    FewerBits(p2, p1.family, n1, n2);
  }

  /** Two prefixes of one family are nested or disjoint: the longer one lies wholly inside the
      shorter one, or no address is in both. */
  lemma NestedOrDisjoint(p1: IpAddress, m1: IpAddress, n1: nat, p2: IpAddress, m2: IpAddress, n2: nat)
    requires p1.Valid() && m1.Valid() && p2.Valid() && m2.Valid()
    requires p1.family == p2.family != OtherFamily && n1 <= n2
    requires Contiguous(m1, p1.family, n1) && Contiguous(m2, p2.family, n2)
    ensures (forall a: IpAddress | a.Valid() && Matches(p2, m2, a) :: Matches(p1, m1, a))
         || (forall a: IpAddress | a.Valid() && Matches(p2, m2, a) :: !Matches(p1, m1, a))
  {
    forall a: IpAddress | a.Valid() && Matches(p2, m2, a)
      ensures Matches(p1, m1, a) <==> Matches(p1, m1, p2)
    {
      SameFate(p1, m1, n1, p2, m2, n2, a);
    }
  }

  /** A prefix of neither family has no members. */
  lemma OtherFamilyMatchesNone(prefix: IpAddress, mask: IpAddress, address: IpAddress)
    requires prefix.family == OtherFamily
    ensures !Matches(prefix, mask, address)
  {
  }

  // ---------------------------------------------------------------- prefixes byte by byte

  /** The byte of a mask of `n` leading ones at a position. */
  function MaskByte(n: nat, i: nat): nat {
    if 8 * i + 8 <= n then 255 else if n <= 8 * i then 0 else LeadingOnes(8, n - 8 * i)
  }

  /** An IPv6 mask whose bytes are those of a mask of `n` leading ones. */
  predicate MaskOfLength(mask: IpAddress, n: nat) {
    n <= 128 && |mask.ip6| == HAL_INET6_LEN && forall i | 0 <= i < HAL_INET6_LEN :: mask.ip6[i] == MaskByte(n, i)
  }

  /** The first `k` bits of two bytes agree. */
  predicate LeadAgrees(a: nat, b: nat, k: nat)
    requires k <= 8
  {
    Quotient(a, Pow2(8 - k)) == Quotient(b, Pow2(8 - k))
  }

  lemma MaskedWordAgrees(a: nat, b: nat, w: nat, n: nat)
    requires n <= w && a < Pow2(w) && b < Pow2(w)
    ensures And(a, LeadingOnes(w, n)) == And(b, LeadingOnes(w, n))
       <==> Quotient(a, Pow2(w - n)) == Quotient(b, Pow2(w - n))
  {
    AndLeadingOnes(a, w, n);
    AndLeadingOnes(b, w, n);
    SameQuotient(a, b, Pow2(w - n));
  }

  lemma MaskedByteAgrees(a: nat, b: nat, k: nat)
    requires a < 256 && b < 256 && k <= 8
    ensures And(a, LeadingOnes(8, k)) == And(b, LeadingOnes(8, k)) <==> LeadAgrees(a, b, k)
  {
    ShlByte(0);
    MaskedWordAgrees(a, b, 8, k);
  }

  lemma WholeByteAgrees(a: nat, b: nat)
    requires a < 256 && b < 256
    ensures And(a, 255) == And(b, 255) <==> a == b
    ensures And(a, 0) == And(b, 0)
  {
    ShlByte(0);
    AndAllOnes(a, 8);
    AndAllOnes(b, 8);
  }

  /** Membership in an IPv6 prefix of length `n`, byte by byte and without any mask: the whole bytes
      of the prefix agree, and of the next byte the bits that are left. */
  lemma PrefixByBytes(prefix: IpAddress, mask: IpAddress, address: IpAddress, n: nat)
    requires prefix.Valid() && mask.Valid() && address.Valid() && prefix.family == Ipv6 && MaskOfLength(mask, n)
    ensures Matches(prefix, mask, address)
       <==> && (forall i | 0 <= i < n / 8 :: prefix.ip6[i] == address.ip6[i])
            && (n % 8 > 0 ==> LeadAgrees(prefix.ip6[n / 8], address.ip6[n / 8], n % 8))
  {
    var p, m, a := prefix.ip6, mask.ip6, address.ip6;
    MaskedBytes(p, m, a, HAL_INET6_LEN);
    assert p[..HAL_INET6_LEN] == p && m[..HAL_INET6_LEN] == m && a[..HAL_INET6_LEN] == a;
    forall i | 0 <= i < HAL_INET6_LEN
      ensures And(p[i], m[i]) == And(a[i], m[i])
         <==> (if i < n / 8 then p[i] == a[i] else i == n / 8 && n % 8 > 0 ==> LeadAgrees(p[i], a[i], n % 8))
    {
      WholeByteAgrees(p[i], a[i]);
      if i == n / 8 && n % 8 > 0 {
        MaskedByteAgrees(p[i], a[i], n % 8);
      }
    }
  }

  lemma MaskByteStep(n: nat, k: nat, before: nat)
    requires before == LeadingOnes(8 * k, if n < 8 * k then n else 8 * k)
    ensures before * 256 + MaskByte(n, k) == LeadingOnes(8 * k + 8, if n < 8 * k + 8 then n else 8 * k + 8)
  {
    Pow2Byte(8 * k);
    ShlByte(0);
    if n <= 8 * k {
      Pow2Byte(8 * k - n);
    } else {
      assert Pow2(0) == 1;
    }
  }

  lemma {:induction false} MaskPrefixValue(mask: IpAddress, n: nat, k: nat)
    requires MaskOfLength(mask, n) && k <= HAL_INET6_LEN
    ensures Value(mask.ip6[..k]) == LeadingOnes(8 * k, if n < 8 * k then n else 8 * k)
  {
    if k == 0 {
    } else {
      MaskPrefixValue(mask, n, k - 1);
      ValueOfPrefix(mask.ip6, k);
      MaskByteStep(n, k - 1, Value(mask.ip6[..k - 1]));
    }
  }

  /** The mask of `n` leading ones written byte by byte is, as a 128-bit number, `n` ones followed by
      zeros. */
  lemma MaskIsContiguous(mask: IpAddress, n: nat)
    requires MaskOfLength(mask, n)
    ensures Contiguous(mask, Ipv6, n)
  {
    MaskPrefixValue(mask, n, HAL_INET6_LEN);
    assert mask.ip6[..HAL_INET6_LEN] == mask.ip6;
  }
}
