/**
  Bytes, errors, fixed-width integers and the bit arithmetic every codec shares.

  Machine words are modelled by their value: a left shift multiplies by a power of
  two (and drops what leaves the word), a right shift divides, a low-bit mask is a
  remainder.  Bitwise or is a function of its own, so that "the bits do not overlap"
  is proved where the source relies on it.
 */
module Bytes {
  type byte = x: int | 0 <= x < 256
  type u16 = x: int | 0 <= x < 0x1_0000
  type i32 = x: int | -0x8000_0000 <= x < 0x8000_0000
  type i64 = x: int | -0x8000_0000_0000_0000 <= x < 0x8000_0000_0000_0000

  const TWO16: nat := 0x1_0000
  const TWO32: nat := 0x1_0000_0000
  const TWO64: nat := 0x1_0000_0000_0000_0000

  datatype Option<+T> = None | Some(value: T)

  datatype Error =
    | Eof
    | VarTooLong
    | BadUtf8
    | TooLarge(len: nat, max: nat)
    | Trailing(n: nat)
    | Unexpected

  datatype Result<+T> = Ok(value: T) | Err(error: Error) {
    predicate IsFailure() { Err? }

    function PropagateFailure<U>(): Result<U>
      requires Err?
    {
      Err(error)
    }

    function Extract(): T
      requires Ok?
    {
      value
    }
  }

  /** The bytes of a string of ASCII characters. */
  function Ascii(s: string): seq<byte> {
    seq(|s|, i requires 0 <= i < |s| => if s[i] as int < 128 then s[i] as int else 0)
  }

  /** What a read yields: the value and the position after it. */
  datatype Parsed<+T> = Parsed(value: T, end: nat)

  /** `data` holds exactly `bs` at `pos`. */
  predicate At(data: seq<byte>, pos: nat, bs: seq<byte>) {
    pos + |bs| <= |data| && data[pos..pos + |bs|] == bs
  }

  lemma AtBytes(data: seq<byte>, pos: nat, bs: seq<byte>)
    requires At(data, pos, bs)
    ensures pos + |bs| <= |data| && data[pos..pos + |bs|] == bs
  {
  }

  lemma AtConcat(data: seq<byte>, pos: nat, a: seq<byte>, b: seq<byte>)
    ensures At(data, pos, a + b) <==> At(data, pos, a) && At(data, pos + |a|, b)
  {
    if At(data, pos, a + b) {
      var whole := data[pos..pos + |a + b|];
      assert whole[..|a|] == a && whole[|a|..] == b;
      assert data[pos..pos + |a|] == whole[..|a|];
      assert data[pos + |a|..pos + |a| + |b|] == whole[|a|..];
    }
    if At(data, pos, a) && At(data, pos + |a|, b) {
      assert data[pos..pos + |a + b|] == data[pos..pos + |a|] + data[pos + |a|..pos + |a| + |b|];
    }
  }

  // ----- powers of two and bitwise or -----

  function Pow2(k: nat): (p: nat)
    ensures p > 0
  {
    if k == 0 then 1 else 2 * Pow2(k - 1)
  }

  lemma {:induction false} Pow2Add(a: nat, b: nat)
    ensures Pow2(a + b) == Pow2(a) * Pow2(b)
  {
    if a > 0 {
      Pow2Add(a - 1, b);
      calc {
        Pow2(a + b);
        2 * Pow2(a - 1 + b);
        2 * (Pow2(a - 1) * Pow2(b));
        (2 * Pow2(a - 1)) * Pow2(b);
      }
    }
  }

  lemma Pow2Monotone(a: nat, b: nat)
    requires a <= b
    ensures Pow2(a) <= Pow2(b)
  {
    Pow2Add(a, b - a);
    assert Pow2(a) * Pow2(b - a) >= Pow2(a) * 1;
  }

  const HALF_BITS: nat := 32
  const WORD_BITS: nat := 64

  lemma Pow2Bytes()
    ensures Pow2(0) == 1 && Pow2(3) == 8 && Pow2(7) == 128 && Pow2(8) == 256 && Pow2(16) == TWO16
  {
    assert Pow2(8) == 256;
    Pow2Add(8, 8);
  }

  lemma Pow2Word()
    ensures Pow2(HALF_BITS) == TWO32 && Pow2(WORD_BITS) == TWO64
  {
    hide Pow2;
    Pow2Bytes();
    PowDoubles(16);
    PowDoubles(HALF_BITS);
  }

  lemma PowDoubles(a: nat)
    ensures Pow2(2 * a) == Pow2(a) * Pow2(a)
  {
    hide Pow2;
    Pow2Add(a, a);
  }

  function BitOr(a: nat, b: nat): nat
    decreases a + b
  {
    if a == 0 && b == 0 then 0
    else (if a % 2 == 1 || b % 2 == 1 then 1 else 0) + 2 * BitOr(a / 2, b / 2)
  }

  lemma {:induction false} OrZero(b: nat)
    ensures BitOr(0, b) == b
  {
    if b > 0 { OrZero(b / 2); }
  }

  /** Or-ing a value into bits that are all above another's adds them. */
  lemma {:induction false} OrDisjoint(a: nat, b: nat, k: nat)
    requires a < Pow2(k)
    ensures BitOr(a, b * Pow2(k)) == a + b * Pow2(k)
  {
    if k == 0 {
      OrZero(b);
    } else {
      var high := b * Pow2(k - 1);
      assert b * Pow2(k) == 2 * high;
      OrDisjoint(a / 2, b, k - 1);
      assert (2 * high) / 2 == high && (2 * high) % 2 == 0;
    }
  }

  lemma {:induction false} OrCommutes(a: nat, b: nat)
    ensures BitOr(a, b) == BitOr(b, a)
    decreases a + b
  {
    if a > 0 || b > 0 { OrCommutes(a / 2, b / 2); }
  }

  // ----- two's complement -----

  function Signed32(n: nat): i32
    requires n < TWO32
  {
    if n < 0x8000_0000 then n else n - TWO32
  }

  function Unsigned32(v: i32): nat {
    v % TWO32
  }

  function Signed64(n: nat): i64
    requires n < TWO64
  {
    if n < 0x8000_0000_0000_0000 then n else n - TWO64
  }

  function Unsigned64(v: i64): nat {
    v % TWO64
  }

  lemma Unsigned64Inverse(n: nat)
    requires n < TWO64
    ensures Unsigned64(Signed64(n)) == n
  {
  }

  lemma Signed64Inverse(v: i64)
    ensures Signed64(Unsigned64(v)) == v
  {
  }

  // ----- byte order -----

  function Pow256(k: nat): (p: nat)
    ensures p > 0
  {
    if k == 0 then 1 else 256 * Pow256(k - 1)
  }

  lemma Pow256Words()
    ensures Pow256(2) == TWO16 && Pow256(3) == 0x100_0000 && Pow256(4) == TWO32 && Pow256(8) == TWO64
  {
    assert Pow256(4) == TWO32;
    assert Pow256(5) == 256 * TWO32;
    assert Pow256(6) == TWO16 * TWO32;
    assert Pow256(7) == TWO16 * TWO32 * 256;
  }

  /** The low `k` bytes of `v`, most significant first. */
  function BigEndian(k: nat, v: nat): (bs: seq<byte>)
    ensures |bs| == k
  {
    if k == 0 then [] else BigEndian(k - 1, v / 256) + [v % 256]
  }

  function FromBigEndian(bs: seq<byte>): nat {
    if bs == [] then 0 else FromBigEndian(bs[..|bs| - 1]) * 256 + bs[|bs| - 1]
  }

  lemma {:induction false} BigEndianInverse(k: nat, v: nat)
    requires v < Pow256(k)
    ensures FromBigEndian(BigEndian(k, v)) == v
  {
    if k > 0 {
      BigEndianInverse(k - 1, v / 256);
      assert BigEndian(k, v)[..k - 1] == BigEndian(k - 1, v / 256);
    }
  }

  lemma {:induction false} FromBigEndianBound(bs: seq<byte>)
    ensures FromBigEndian(bs) < Pow256(|bs|)
  {
    if bs != [] { FromBigEndianBound(bs[..|bs| - 1]); }
  }

  lemma {:induction false} FromBigEndianInverse(bs: seq<byte>)
    ensures BigEndian(|bs|, FromBigEndian(bs)) == bs
  {
    if bs != [] {
      FromBigEndianInverse(bs[..|bs| - 1]);
      assert bs == bs[..|bs| - 1] + [bs[|bs| - 1]];
    }
  }

  /** The low `k` bytes of `v`, least significant first. */
  function LittleEndian(k: nat, v: nat): (bs: seq<byte>)
    ensures |bs| == k
  {
    if k == 0 then [] else [v % 256] + LittleEndian(k - 1, v / 256)
  }

  function FromLittleEndian(bs: seq<byte>): nat {
    if bs == [] then 0 else bs[0] + 256 * FromLittleEndian(bs[1..])
  }

  lemma {:induction false} LittleEndianInverse(k: nat, v: nat)
    requires v < Pow256(k)
    ensures FromLittleEndian(LittleEndian(k, v)) == v
  {
    if k > 0 {
      LittleEndianInverse(k - 1, v / 256);
      assert LittleEndian(k, v)[1..] == LittleEndian(k - 1, v / 256);
    }
  }
}
