/** The Internet checksum: the folding loops and what they compute (section 1 of RFC 1071). */
module InternetChecksum {
  import opened Base

  /** Sum of the big-endian 16-bit words; an odd last byte is padded with zero on the right. */
  function WordSum(b: seq<byte>): nat
    decreases |b|
  {
    if |b| == 0 then 0
    else if |b| == 1 then b[0] * 0x100
    else FromBe16(b[0], b[1]) + WordSum(b[2..])
  }

  /** The words seen by a loop over whole pairs only, which ignores an odd last byte. */
  function PairSum(b: seq<byte>): nat {
    WordSum(b[..|b| - |b| % 2])
  }

  /** The representative of `s` modulo 65535 that one's-complement addition keeps: 0 only for 0. */
  function OnesRep(s: nat): (r: u16)
  {
    if s == 0 then 0 else (s - 1) % 0xffff + 1
  }

  function Checksum(b: seq<byte>): u16 {
    0xffff - OnesRep(WordSum(b))
  }

  function PairChecksum(b: seq<byte>): u16 {
    0xffff - OnesRep(PairSum(b))
  }

  // ----- Arithmetic of the representative -----

  lemma OnesRepCongruent(s: nat)
    ensures OnesRep(s) % 0xffff == s % 0xffff
    ensures OnesRep(s) == 0 <==> s == 0
  {
    if s > 0 {
      var q := (s - 1) / 0xffff;
      assert s - OnesRep(s) == 0xffff * q;
    }
  }

  lemma OnesRepUnique(s: nat, r: u16)
    requires r % 0xffff == s % 0xffff
    requires r == 0 <==> s == 0
    ensures OnesRep(s) == r
  {
    OnesRepCongruent(s);
  }

  /** One end-around carry step keeps the representative. */
  lemma FoldStep(sum: nat)
    requires sum >= 0x1_0000
    ensures sum % 0x1_0000 + sum / 0x1_0000 < sum
    ensures OnesRep(sum % 0x1_0000 + sum / 0x1_0000) == OnesRep(sum)
  {
    var folded := sum % 0x1_0000 + sum / 0x1_0000;
    assert sum == folded + 0xffff * (sum / 0x1_0000);
    assert folded % 0xffff == sum % 0xffff;
    OnesRepCongruent(folded);
    OnesRepUnique(sum, OnesRep(folded));
  }

  // ----- The loops -----

  /** One word at `k`, then the rest. */
  lemma NextWord(d: seq<byte>, k: nat)
    requires k + 2 <= |d|
    ensures WordSum(d[k..]) == FromBe16(d[k], d[k + 1]) + WordSum(d[k + 2..])
  {
    assert d[k..][2..] == d[k + 2..];
  }

  /** Behind the last whole word lies an odd byte or nothing. */
  lemma LastByte(d: seq<byte>, k: nat)
    requires k <= |d| < k + 2
    ensures WordSum(d[k..]) == if k < |d| then d[k] as int * 0x100 else 0
  {
  }

  method FoldCarries(start: u32) returns (folded: u16)
    ensures folded == OnesRep(start)
  {
    var sum: u32 := start;
    while sum / 0x1_0000 != 0
      invariant OnesRep(sum) == OnesRep(start)
      decreases sum
    {
      FoldStep(sum);
      sum := sum % 0x1_0000 + sum / 0x1_0000;
    }
    folded := sum;
  }

  method OnesComplementChecksum(bytes: seq<byte>) returns (checksum: u16)
    requires WordSum(bytes) < 0x1_0000_0000
    ensures checksum == Checksum(bytes)
  {
    var sum: u32 := 0;
    var whole := |bytes| / 2;
    assert bytes[0..] == bytes;
    for n := 0 to whole
      invariant sum + WordSum(bytes[2 * n..]) == WordSum(bytes)
    {
      NextWord(bytes, 2 * n);
      sum := sum + FromBe16(bytes[2 * n], bytes[2 * n + 1]);
    }
    LastByte(bytes, 2 * whole);
    if |bytes| % 2 != 0 {
      assert 2 * whole == |bytes| - 1;
      sum := sum + bytes[|bytes| - 1] as int * 0x100;
    }
    assert sum == WordSum(bytes);
    var folded := FoldCarries(sum);
    checksum := 0xffff - folded;
  }

  method PairOnlyChecksum(header: seq<byte>) returns (checksum: u16)
    requires PairSum(header) < 0x1_0000_0000
    ensures checksum == PairChecksum(header)
  {
    ghost var pairs := header[..|header| - |header| % 2];
    var sum: u32 := 0;
    var whole := |header| / 2;
    assert |pairs| == 2 * whole && pairs[0..] == pairs;
    for n := 0 to whole
      invariant sum + WordSum(pairs[2 * n..]) == WordSum(pairs)
    {
      NextWord(pairs, 2 * n);
      sum := sum + FromBe16(header[2 * n], header[2 * n + 1]);
    }
    LastByte(pairs, 2 * whole);
    var folded := FoldCarries(sum);
    checksum := 0xffff - folded;
  }

  // ----- What a checksum means -----

  lemma ModShift(q: nat, x: nat)
    ensures (0xffff * q + x) % 0xffff == x % 0xffff
  {
  }

  /** The complement of the representative is the one value that completes `s`. */
  lemma CompletesIff(s: nat, c: u16)
    ensures c == 0xffff - OnesRep(s) <==> (s + c) % 0xffff == 0 && (c == 0xffff <==> s == 0)
  {
    if s > 0 {
      var q, r := (s - 1) / 0xffff, OnesRep(s);
      assert s == 0xffff * q + r;
      ModShift(q, r as int + c as int);
      if (r as int + c as int) % 0xffff == 0 {
        var m := (r as int + c as int) / 0xffff;
        assert r as int + c as int == 0xffff * m && 1 <= m <= 2;
      }
    }
  }

  /** The checksum is the one 16-bit value that completes the sum to a multiple of 65535. */
  lemma ChecksumCompletesSum(b: seq<byte>, c: u16)
    ensures c == Checksum(b) <==>
            (WordSum(b) + c) % 0xffff == 0 && (c == 0xffff <==> WordSum(b) == 0)
  {
    CompletesIff(WordSum(b), c);
  }

  lemma VerifiesIff(b: seq<byte>)
    ensures Checksum(b) == 0 <==> WordSum(b) > 0 && WordSum(b) % 0xffff == 0
  {
    ChecksumCompletesSum(b, 0);
  }

  lemma {:induction false} WordSumBound(b: seq<byte>)
    ensures WordSum(b) <= 0xffff * ((|b| + 1) / 2)
    decreases |b|
  {
    if |b| >= 2 {
      WordSumBound(b[2..]);
    }
  }

  lemma {:induction false} WordSumConcat(a: seq<byte>, b: seq<byte>)
    requires |a| % 2 == 0
    ensures WordSum(a + b) == WordSum(a) + WordSum(b)
    decreases |a|
  {
    if |a| == 0 {
      assert a + b == b;
    } else {
      assert (a + b)[2..] == a[2..] + b;
      WordSumConcat(a[2..], b);
    }
  }

  /** Replacing the word at an even offset changes the sum by the difference of the two words. */
  lemma WordSumReplace(b: seq<byte>, k: nat, hi: byte, lo: byte)
    requires k % 2 == 0 && k + 2 <= |b|
    ensures WordSum(b[k := hi][k + 1 := lo]) == WordSum(b) - FromBe16(b[k], b[k + 1]) + FromBe16(hi, lo)
  {
    var head, tail := b[..k], b[k + 2..];
    assert b == head + ([b[k], b[k + 1]] + tail);
    assert b[k := hi][k + 1 := lo] == head + ([hi, lo] + tail);
    WordSumConcat(head, [b[k], b[k + 1]] + tail);
    WordSumConcat(head, [hi, lo] + tail);
    WordSumConcat([b[k], b[k + 1]], tail);
    WordSumConcat([hi, lo], tail);
    WordOf(b[k], b[k + 1]);
    WordOf(hi, lo);
  }

  lemma WordOf(hi: byte, lo: byte)
    ensures WordSum([hi, lo]) == FromBe16(hi, lo)
  {
    assert [hi, lo][2..] == [];
  }

  function WithChecksum(b: seq<byte>, k: nat, c: u16): (r: seq<byte>)
    requires k + 2 <= |b|
    ensures |r| == |b|
  {
    b[k := c / 0x100][k + 1 := c % 0x100]
  }

  /** Storing the checksum in a zeroed field at an even offset makes the whole buffer verify, and so
      does 0xffff in place of a computed zero. */
  lemma StoredChecksumVerifies(b: seq<byte>, k: nat, c: u16)
    requires k % 2 == 0 && k + 2 <= |b| && b[k] == 0 && b[k + 1] == 0
    requires c == Checksum(b) || (Checksum(b) == 0 && c == 0xffff)
    ensures Checksum(WithChecksum(b, k, c)) == 0
  {
    WordSumReplace(b, k, c / 0x100, c % 0x100);
    ChecksumCompletesSum(b, Checksum(b));
    VerifiesIff(WithChecksum(b, k, c));
  }

  /** The pair-only loop agrees with the padding loops exactly when there is no nonzero odd byte. */
  lemma ImplementationsAgreeIff(b: seq<byte>)
    ensures PairChecksum(b) == Checksum(b) <==> |b| % 2 == 0 || b[|b| - 1] == 0
  {
    if |b| % 2 == 0 {
      assert b[..|b|] == b;
    } else {
      var pairs, last: int := b[..|b| - 1], b[|b| - 1];
      assert b == pairs + [last];
      WordSumConcat(pairs, [last]);
      assert WordSum(b) == WordSum(pairs) + last * 0x100;
      OnesRepCongruent(WordSum(b));
      OnesRepCongruent(WordSum(pairs));
      if last != 0 {
        SmallShiftMoves(WordSum(pairs), last * 0x100);
      }
    }
  }

  lemma SmallShiftMoves(s: nat, d: nat)
    requires 0 < d < 0xffff
    ensures (s + d) % 0xffff != s % 0xffff
  {
    var r := s % 0xffff;
    assert s + d == 0xffff * (s / 0xffff) + (r + d);
    assert (s + d) % 0xffff == (r + d) % 0xffff;
  }
}
