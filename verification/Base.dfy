/** Machine integers, byte sequences and the two failure-carrying datatypes. */
module Base {
  type byte = b: int | 0 <= b < 0x100
  type u16 = n: int | 0 <= n < 0x1_0000
  type u32 = n: int | 0 <= n < 0x1_0000_0000
  type i32 = n: int | -0x8000_0000 <= n < 0x8000_0000
  type u64 = n: int | 0 <= n < U64_MODULUS

  const U64_MODULUS: int := 0x1_0000_0000_0000_0000

  datatype Option<+T> = None | Some(value: T) {
    function GetOr(default: T): T {
      if Some? then value else default
    }
  }

  datatype Result<+T, +E> = Ok(value: T) | Err(error: E)

  // ----- Big-endian fields (IP and UDP headers) -----

  function Be16(n: u16): (s: seq<byte>)
    ensures |s| == 2
  {
    [n / 0x100, n % 0x100]
  }

  function FromBe16(hi: byte, lo: byte): u16 {
    hi as int * 0x100 + lo as int
  }

  // ----- Native fields of netlink structures, on a little-endian host -----

  function Le16(n: u16): (s: seq<byte>)
    ensures |s| == 2
  {
    [n % 0x100, n / 0x100]
  }

  function Le32(n: u32): (s: seq<byte>)
    ensures |s| == 4
  {
    [n % 0x100, n / 0x100 % 0x100, n / 0x1_0000 % 0x100, n / 0x100_0000]
  }

  function FromLe16(b: seq<byte>, at: nat): u16
    requires at + 2 <= |b|
  {
    b[at] as int + b[at + 1] as int * 0x100
  }

  function FromLe32(b: seq<byte>, at: nat): u32
    requires at + 4 <= |b|
  {
    b[at] as int + b[at + 1] as int * 0x100 + b[at + 2] as int * 0x1_0000 + b[at + 3] as int * 0x100_0000
  }

  /** Two's complement reading of a 32-bit field. */
  function AsI32(n: u32): i32 {
    if n < 0x8000_0000 then n else n - 0x1_0000_0000
  }

  function AsU32(n: i32): (r: u32)
    ensures AsI32(r) == n
  {
    if n >= 0 then n else n + 0x1_0000_0000
  }

  lemma Le32RoundTrip(b: seq<byte>, at: nat, n: u32)
    requires at + 4 <= |b| && b[at..at + 4] == Le32(n)
    ensures FromLe32(b, at) == n
  {
    var s := b[at..at + 4];
    assert s[0] == b[at] && s[1] == b[at + 1] && s[2] == b[at + 2] && s[3] == b[at + 3];
    FourDigits(n);
  }

  lemma FourDigits(n: u32)
    ensures n % 0x100 + n / 0x100 % 0x100 * 0x100 + n / 0x1_0000 % 0x100 * 0x1_0000 + n / 0x100_0000 * 0x100_0000 == n
  {
    var second: int := n / 0x100;
    var third: int := n / 0x1_0000;
    var fourth: int := n / 0x100_0000;
    assert third == second / 0x100 && fourth == third / 0x100;
    assert n == second * 0x100 + n % 0x100;
    assert second == third * 0x100 + second % 0x100;
    assert third == fourth * 0x100 + third % 0x100;
  }

  lemma Le16RoundTrip(b: seq<byte>, at: nat, n: u16)
    requires at + 2 <= |b| && b[at..at + 2] == Le16(n)
    ensures FromLe16(b, at) == n
  {
    var s := b[at..at + 2];
    assert s[0] == b[at] && s[1] == b[at + 1];
  }

  // ----- Wrapping 64-bit counters -----

  function Wrap(n: nat): u64 {
    n % U64_MODULUS
  }

  lemma WrapAdd(a: nat, b: nat)
    ensures Wrap(Wrap(a) + b) == Wrap(a + b)
  {
    assert a == U64_MODULUS * (a / U64_MODULUS) + Wrap(a);
    WrapShift(Wrap(a) + b, a / U64_MODULUS);
  }

  lemma {:induction false} WrapShift(x: nat, k: nat)
    ensures Wrap(U64_MODULUS * k + x) == Wrap(x)
  {
    if k > 0 {
      WrapShift(x, k - 1);
      assert U64_MODULUS * k + x == U64_MODULUS + (U64_MODULUS * (k - 1) + x);
    }
  }
}
