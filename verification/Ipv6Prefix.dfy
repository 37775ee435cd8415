/** Byte-and-mask prefix matching of 128-bit addresses, related to their numeric values. */
module Ipv6Prefix {
  import opened Base
  import opened Addresses
  import opened ByteBits

  // ----- The comparison as the sender performs it -----

  predicate PrefixMatches(destination: Ipv6Addr, prefix: Ipv6Addr, prefixLen: nat)
    requires prefixLen <= 128
  {
    var whole, remaining := prefixLen / 8, prefixLen % 8;
    && destination[..whole] == prefix[..whole]
    && (remaining == 0 || MaskedEqual(destination[whole], prefix[whole], remaining))
  }

  // ----- Numeric view -----

  /** Big-endian value of an octet sequence. */
  function Value(s: seq<byte>): nat {
    if s == [] then 0 else Value(s[..|s| - 1]) * 0x100 + s[|s| - 1]
  }

  /** The first `n` of the 128 address bits, as a number. */
  function TopBits(a: Ipv6Addr, n: nat): nat
    requires n <= 128
  {
    Shr(Value(a), 128 - n)
  }

  lemma {:induction false} ShrShr(x: nat, a: nat, b: nat)
    ensures Shr(Shr(x, a), b) == Shr(x, a + b)
  {
    if b > 0 {
      ShrShr(x, a, b - 1);
    }
  }

  /** Shifting a value out of its low byte: the high part moves down, the byte follows. */
  lemma {:induction false} ShrByteSplit(high: nat, low: byte, k: nat)
    requires k <= 8
    ensures Shr(high * 0x100 + low, k) == high * Pow2(8 - k) + Shr(low, k)
    ensures Shr(low, k) < Pow2(8 - k)
  {
    if k > 0 {
      ShrByteSplit(high, low, k - 1);
      HalveSplit(high, Pow2(8 - k), Pow2(9 - k), Shr(low, k - 1), Shr(high * 0x100 + low, k - 1));
    } else {
      EightBits();
    }
  }

  lemma EightBits()
    ensures Pow2(8) == 0x100
  {
    assert Pow2(2) == 4 && Pow2(4) == 4 * Pow2(2) && Pow2(6) == 4 * Pow2(4);
  }

  lemma HalveSplit(high: nat, half: nat, whole: nat, low: nat, sum: nat)
    requires whole == 2 * half && sum == high * whole + low && low < whole
    ensures sum / 2 == high * half + low / 2 && low / 2 < half
  {
    var h := high * half;
    assert high * whole == 2 * h;
  }

  function Pow2(n: nat): nat {
    if n == 0 then 1 else 2 * Pow2(n - 1)
  }

  lemma SplitUnique(p: nat, a: nat, b: nat, c: nat, d: nat)
    requires b < p && d < p
    ensures a * p + b == c * p + d <==> a == c && b == d
  {
    if a < c {
      assert c * p >= (a + 1) * p;
    } else if c < a {
      assert a * p >= (c + 1) * p;
    }
  }

  /** Dropping whole trailing bytes. */
  lemma {:induction false} DropBytes(s: seq<byte>, m: nat)
    requires m <= |s|
    ensures Shr(Value(s), 8 * m) == Value(s[..|s| - m])
  {
    if m == 0 {
      assert s[..|s|] == s;
    } else {
      var init := s[..|s| - 1];
      DropBytes(init, m - 1);
      assert init[..|init| - (m - 1)] == s[..|s| - m];
      ShrByteSplit(Value(init), s[|s| - 1], 8);
      assert Shr(Value(s), 8) == Value(init);
      ShrShr(Value(s), 8, 8 * (m - 1));
    }
  }

  lemma {:induction false} ValueInjective(a: seq<byte>, b: seq<byte>)
    requires |a| == |b|
    ensures Value(a) == Value(b) <==> a == b
  {
    if |a| > 0 && Value(a) == Value(b) {
      var n := |a| - 1;
      ValueInjective(a[..n], b[..n]);
      assert a == a[..n] + [a[n]] && b == b[..n] + [b[n]];
    }
  }

  // ----- Main results -----

  /** The top `n` bits of an address are its whole bytes followed by the top bits of the next one. */
  lemma TopBitsOfPartialByte(a: Ipv6Addr, n: nat)
    requires n <= 128 && n % 8 != 0
    ensures var whole, k := n / 8, 8 - n % 8;
            && TopBits(a, n) == Value(a[..whole]) * Pow2(8 - k) + Shr(a[whole], k)
            && Shr(a[whole], k) < Pow2(8 - k)
  {
    var whole, k := n / 8, 8 - n % 8;
    DropBytes(a, 15 - whole);
    ShrShr(Value(a), 8 * (15 - whole), k);
    assert 8 * (15 - whole) + k == 128 - n;
    assert a[..whole + 1][..whole] == a[..whole];
    ShrByteSplit(Value(a[..whole]), a[whole], k);
  }

  /** Byte-and-mask matching holds exactly when the top bits of the two 128-bit numbers agree. */
  lemma PrefixMatchIsNumeric(destination: Ipv6Addr, prefix: Ipv6Addr, prefixLen: nat)
    requires prefixLen <= 128
    ensures PrefixMatches(destination, prefix, prefixLen) <==>
            TopBits(destination, prefixLen) == TopBits(prefix, prefixLen)
  {
    var whole, remaining := prefixLen / 8, prefixLen % 8;
    ValueInjective(destination[..whole], prefix[..whole]);
    if remaining == 0 {
      DropBytes(destination, 16 - whole);
      DropBytes(prefix, 16 - whole);
    } else {
      TopBitsOfPartialByte(destination, prefixLen);
      TopBitsOfPartialByte(prefix, prefixLen);
      MaskedByte(destination[whole], prefix[whole], remaining);
      SplitUnique(Pow2(remaining), Value(destination[..whole]), Shr(destination[whole], 8 - remaining),
                  Value(prefix[..whole]), Shr(prefix[whole], 8 - remaining));
    }
  }

  /** A longer match implies every shorter one. */
  lemma ShorterPrefixMatches(destination: Ipv6Addr, prefix: Ipv6Addr, p: nat, q: nat)
    requires q <= p <= 128 && PrefixMatches(destination, prefix, p)
    ensures PrefixMatches(destination, prefix, q)
  {
    PrefixMatchIsNumeric(destination, prefix, p);
    PrefixMatchIsNumeric(destination, prefix, q);
    ShrShr(Value(destination), 128 - p, p - q);
    ShrShr(Value(prefix), 128 - p, p - q);
  }

  /** Routes of one length that match one destination cover the same block of addresses. */
  lemma EqualLengthMatchesShareBlock(destination: Ipv6Addr, first: Ipv6Addr, second: Ipv6Addr, p: nat)
    requires p <= 128
    requires PrefixMatches(destination, first, p) && PrefixMatches(destination, second, p)
    ensures TopBits(first, p) == TopBits(second, p)
    ensures forall other: Ipv6Addr :: PrefixMatches(other, first, p) <==> PrefixMatches(other, second, p)
  {
    PrefixMatchIsNumeric(destination, first, p);
    PrefixMatchIsNumeric(destination, second, p);
    forall other: Ipv6Addr
      ensures PrefixMatches(other, first, p) <==> PrefixMatches(other, second, p)
    {
      PrefixMatchIsNumeric(other, first, p);
      PrefixMatchIsNumeric(other, second, p);
    }
  }
}
