/**
  Wire primitives: what each read yields at a position (`...At`), the reader and
  writer objects that move through a buffer, and the encoders they invert.
 */
module Buf {
  import opened Bytes

  const MAX_STRING_BYTES: nat := 32767 * 3

  // ----- reads, as functions of the data and a position -----

  function TakeAt(data: seq<byte>, pos: nat, n: nat): (r: Result<Parsed<seq<byte>>>)
    requires pos <= |data|
    ensures r.Ok? ==> r.value.end == pos + n <= |data| && At(data, pos, r.value.value) && |r.value.value| == n
    ensures r.Err? <==> pos + n > |data|
  {
    if pos + n <= |data| then Ok(Parsed(data[pos..pos + n], pos + n)) else Err(Eof)
  }

  /** Where the data goes on after `n` bytes that nobody looks at. */
  function Advance(data: seq<byte>, pos: nat, n: nat): (r: Result<nat>)
    requires pos <= |data|
    ensures r.Ok? ==> r.value == pos + n <= |data|
  {
    if pos + n <= |data| then Ok(pos + n) else Err(Eof)
  }

  function U8At(data: seq<byte>, pos: nat): (r: Result<Parsed<byte>>)
    requires pos <= |data|
    ensures r.Ok? ==> r.value.end == pos + 1 <= |data|
  {
    if pos < |data| then Ok(Parsed(data[pos], pos + 1)) else Err(Eof)
  }

  function U16At(data: seq<byte>, pos: nat): (r: Result<Parsed<u16>>)
    requires pos <= |data|
    ensures r.Ok? ==> r.value.end == pos + 2 <= |data|
  {
    var b :- TakeAt(data, pos, 2);
    FromBigEndianBound(b.value); Pow256Words();
    Ok(Parsed(FromBigEndian(b.value), b.end))
  }

  function I32At(data: seq<byte>, pos: nat): (r: Result<Parsed<i32>>)
    requires pos <= |data|
    ensures r.Ok? ==> r.value.end == pos + 4 <= |data|
  {
    var b :- TakeAt(data, pos, 4);
    FromBigEndianBound(b.value); Pow256Words();
    Ok(Parsed(Signed32(FromBigEndian(b.value)), b.end))
  }

  function I64At(data: seq<byte>, pos: nat): (r: Result<Parsed<i64>>)
    requires pos <= |data|
    ensures r.Ok? ==> r.value.end == pos + 8 <= |data|
  {
    var b :- TakeAt(data, pos, 8);
    FromBigEndianBound(b.value); Pow256Words();
    Ok(Parsed(Signed64(FromBigEndian(b.value)), b.end))
  }

  /** `v << (shift * 7)`, before what leaves the word is dropped. */
  function Shifted(v: nat, shift: nat): nat {
    v * Pow2(7 * shift)
  }

  /** Seven bits a byte, low first; `shift` bytes went into `value` already and at
      most `limit` may be used.  Bits shifted past `width` are lost. */
  function VarFrom(data: seq<byte>, pos: nat, shift: nat, value: nat, limit: nat, width: nat): (r: Result<Parsed<nat>>)
    requires pos <= |data| && shift <= limit
    ensures r.Ok? ==> pos < r.value.end <= |data| && r.value.end <= pos + (limit - shift)
    decreases |data| - pos
  {
    if shift == limit then Err(VarTooLong)
    else
      var b :- U8At(data, pos);
      var next := BitOr(value, Shifted(b.value % 128, shift) % Pow2(width));
      if b.value < 128 then Ok(Parsed(next, b.end))
      else VarFrom(data, b.end, shift + 1, next, limit, width)
  }

  function VarI32At(data: seq<byte>, pos: nat): (r: Result<Parsed<i32>>)
    requires pos <= |data|
    ensures r.Ok? ==> pos < r.value.end <= |data|
  {
    var v :- VarFrom(data, pos, 0, 0, 5, HALF_BITS);
    Ok(Parsed(Signed32(v.value % TWO32), v.end))
  }

  function VarI64At(data: seq<byte>, pos: nat): (r: Result<Parsed<i64>>)
    requires pos <= |data|
    ensures r.Ok? ==> pos < r.value.end <= |data|
  {
    var v :- VarFrom(data, pos, 0, 0, 10, WORD_BITS);
    Ok(Parsed(Signed64(v.value % TWO64), v.end))
  }

  function VarLenAt(data: seq<byte>, pos: nat, max: nat): (r: Result<Parsed<nat>>)
    requires pos <= |data|
    ensures r.Ok? ==> pos < r.value.end <= |data| && r.value.value <= max
  {
    var raw :- VarI32At(data, pos);
    if raw.value < 0 then Err(TooLarge(0, max))
    else if raw.value > max then Err(TooLarge(raw.value, max))
    else Ok(Parsed(raw.value, raw.end))
  }

  function ByteArrayAt(data: seq<byte>, pos: nat, max: nat): (r: Result<Parsed<seq<byte>>>)
    requires pos <= |data|
    ensures r.Ok? ==> pos < r.value.end <= |data| && |r.value.value| <= max
  {
    var len :- VarLenAt(data, pos, max);
    TakeAt(data, len.end, len.value)
  }

  function StringAt(data: seq<byte>, pos: nat): (r: Result<Parsed<seq<byte>>>)
    requires pos <= |data|
    ensures r.Ok? ==> pos < r.value.end <= |data| && ValidUtf8(r.value.value)
  {
    var s :- ByteArrayAt(data, pos, MAX_STRING_BYTES);
    if ValidUtf8(s.value) then Ok(s) else Err(BadUtf8)
  }

  datatype Uuid = Uuid(high: nat, low: nat)

  function UuidAt(data: seq<byte>, pos: nat): (r: Result<Parsed<Uuid>>)
    requires pos <= |data|
    ensures r.Ok? ==> r.value.end == pos + 16 <= |data|
  {
    var high :- I64At(data, pos);
    var low :- I64At(data, high.end);
    Ok(Parsed(Uuid(Unsigned64(high.value), Unsigned64(low.value)), low.end))
  }

  function ExpectFullyRead(data: seq<byte>, pos: nat): Result<()>
    requires pos <= |data|
  {
    if pos == |data| then Ok(()) else Err(Trailing(|data| - pos))
  }

  predicate Continuation(b: byte) { 0x80 <= b < 0xC0 }

  /** Well-formed UTF-8, as Table 3-7 of the Unicode Standard lists it. */
  predicate ValidUtf8(s: seq<byte>) {
    if s == [] then true
    else if s[0] < 0x80 then ValidUtf8(s[1..])
    else if 0xC2 <= s[0] < 0xE0 then |s| >= 2 && Continuation(s[1]) && ValidUtf8(s[2..])
    else if 0xE0 <= s[0] < 0xF0 then
      |s| >= 3 && Continuation(s[1]) && Continuation(s[2])
      && (s[0] == 0xE0 ==> s[1] >= 0xA0) && (s[0] == 0xED ==> s[1] < 0xA0) && ValidUtf8(s[3..])
    else if 0xF0 <= s[0] < 0xF5 then
      |s| >= 4 && Continuation(s[1]) && Continuation(s[2]) && Continuation(s[3])
      && (s[0] == 0xF0 ==> s[1] >= 0x90) && (s[0] == 0xF4 ==> s[1] < 0x90) && ValidUtf8(s[4..])
    else false
  }

  // ----- encoders -----

  function VarBytes(v: nat): (bs: seq<byte>)
    ensures |bs| > 0
  {
    if v < 128 then [v] else [v % 128 + 128] + VarBytes(v / 128)
  }

  function VarI32Bytes(v: i32): seq<byte> { VarBytes(Unsigned32(v)) }

  function VarI64Bytes(v: i64): seq<byte> { VarBytes(Unsigned64(v)) }

  function I32Bytes(v: i32): (bs: seq<byte>)
    ensures |bs| == 4
  {
    BigEndian(4, Unsigned32(v))
  }

  function I64Bytes(v: i64): (bs: seq<byte>)
    ensures |bs| == 8
  {
    BigEndian(8, Unsigned64(v))
  }

  /** A length as the writer casts it, `len as i32`, then the bytes. */
  function ByteArrayBytes(v: seq<byte>): seq<byte> {
    VarI32Bytes(Signed32(|v| % TWO32)) + v
  }

  function UuidBytes(u: Uuid): seq<byte> {
    I64Bytes(Signed64(u.high % TWO64)) + I64Bytes(Signed64(u.low % TWO64))
  }

  // ----- every encoder is inverted, wherever its bytes stand -----

  lemma U16Inverse(data: seq<byte>, pos: nat, v: u16)
    requires At(data, pos, BigEndian(2, v))
    ensures U16At(data, pos) == Ok(Parsed(v, pos + 2))
  {
    Pow256Words();
    BigEndianInverse(2, v);
  }

  lemma I32Inverse(data: seq<byte>, pos: nat, v: i32)
    requires At(data, pos, I32Bytes(v))
    ensures I32At(data, pos) == Ok(Parsed(v, pos + 4))
  {
    Pow256Words();
    BigEndianInverse(4, Unsigned32(v));
  }

  lemma I64Inverse(data: seq<byte>, pos: nat, v: i64)
    requires At(data, pos, I64Bytes(v))
    ensures I64At(data, pos) == Ok(Parsed(v, pos + 8))
  {
    Pow256Words();
    BigEndianInverse(8, Unsigned64(v));
  }

  lemma UuidInverse(data: seq<byte>, pos: nat, u: Uuid)
    requires u.high < TWO64 && u.low < TWO64
    requires At(data, pos, UuidBytes(u))
    ensures UuidAt(data, pos) == Ok(Parsed(u, pos + 16))
  {
    hide BigEndian, FromBigEndian;
    var high, low := Signed64(u.high), Signed64(u.low);
    assert UuidBytes(u) == I64Bytes(high) + I64Bytes(low);
    AtConcat(data, pos, I64Bytes(high), I64Bytes(low));
    I64Inverse(data, pos, high);
    I64Inverse(data, pos + 8, low);
    Unsigned64Inverse(u.high);
    Unsigned64Inverse(u.low);
  }

  /** Continuing a read after `shift` bytes adds the rest of the number in place. */
  lemma {:induction false} VarContinues(
    data: seq<byte>, pos: nat, v: nat, shift: nat, value: nat, limit: nat, width: nat)
    requires At(data, pos, VarBytes(v))
    requires shift < limit && width <= 7 * limit
    requires value < Pow2(7 * shift) && Shifted(v, shift) < Pow2(width)
    ensures |VarBytes(v)| <= limit - shift
    ensures VarFrom(data, pos, shift, value, limit, width)
         == Ok(Parsed(value + Shifted(v, shift), pos + |VarBytes(v)|))
    decreases limit - shift
  {
    hide BitOr, Pow2, VarFrom, At, VarBytes, Shifted;
    VarStep(v, shift, value, limit, width);
    var next := value + Shifted(v % 128, shift);
    FirstByte(data, pos, v);
    VarFromStep(data, pos, shift, value, limit, width);
    if v >= 128 {
      VarContinues(data, pos + 1, v / 128, shift + 1, next, limit, width);
    }
  }

  lemma FirstByte(data: seq<byte>, pos: nat, v: nat)
    requires At(data, pos, VarBytes(v))
    ensures pos < |data| && data[pos] % 128 == v % 128 && (data[pos] < 128 <==> v < 128)
    ensures |VarBytes(v)| == if v < 128 then 1 else 1 + |VarBytes(v / 128)|
    ensures v >= 128 ==> At(data, pos + 1, VarBytes(v / 128))
  {
    if v < 128 {
      assert data[pos] == data[pos..pos + 1][0] == v;
    } else {
      AtConcat(data, pos, [v % 128 + 128], VarBytes(v / 128));
      assert data[pos] == data[pos..pos + 1][0] == v % 128 + 128;
    }
  }

  lemma VarFromStep(data: seq<byte>, pos: nat, shift: nat, value: nat, limit: nat, width: nat)
    requires pos < |data| && shift < limit
    ensures var next := BitOr(value, Shifted(data[pos] % 128, shift) % Pow2(width));
      VarFrom(data, pos, shift, value, limit, width)
        == if data[pos] < 128 then Ok(Parsed(next, pos + 1)) else VarFrom(data, pos + 1, shift + 1, next, limit, width)
  {
    hide BitOr, Pow2;
  }

  /** One byte of a varint read: the low seven bits land above what is there. */
  lemma VarStep(v: nat, shift: nat, value: nat, limit: nat, width: nat)
    requires shift < limit && width <= 7 * limit
    requires value < Pow2(7 * shift) && Shifted(v, shift) < Pow2(width)
    ensures BitOr(value, Shifted(v % 128, shift) % Pow2(width)) == value + Shifted(v % 128, shift)
    ensures Shifted(v % 128, shift) + Shifted(v / 128, shift + 1) == Shifted(v, shift)
    ensures value + Shifted(v % 128, shift) < Pow2(7 * (shift + 1))
    ensures v >= 128 ==> shift + 1 < limit && Shifted(v / 128, shift + 1) < Pow2(width)
  {
    var p, q := Pow2(7 * shift), Pow2(7 * (shift + 1));
    var low, high := v % 128, v / 128;
    assert q == 128 * p by { Pow2Bytes(); Pow2Add(7, 7 * shift); }
    assert v == 128 * high + low;
    MulSplit(high, low, p);
    assert low * p % Pow2(width) == low * p by { assert 0 <= low * p; SmallMod(low * p, Pow2(width)); }
    OrDisjoint(value, low, 7 * shift);
    MulUpTo(low, 127, p);
    if v >= 128 {
      MulUpTo(1, high, q);
      if shift + 1 == limit {
        Pow2Monotone(width, 7 * limit);
        assert false;
      }
    }
  }

  lemma SmallMod(n: nat, m: nat)
    requires n < m
    ensures n % m == n
  {
  }

  lemma MulSplit(high: nat, low: nat, p: nat)
    ensures (128 * high + low) * p == high * (128 * p) + low * p
    ensures low * p <= (128 * high + low) * p
  {
    assert 0 <= high * (128 * p);
  }

  lemma MulUpTo(a: int, b: int, p: nat)
    requires a <= b
    ensures a * p <= b * p
  {
  }

  lemma DivideUnique(n: int, p: nat, q: int, r: nat)
    requires 0 < p && r < p && n == q * p + r
    ensures n / p == q && n % p == r
  {
    var a := n / p;
    assert n == a * p + n % p;
    assert (a + 1) * p == a * p + p && (q + 1) * p == q * p + p;
    if a < q {
      MulUpTo(a + 1, q, p);
    } else if a > q {
      MulUpTo(q + 1, a, p);
    }
  }

  lemma VarI32Inverse(data: seq<byte>, pos: nat, v: i32)
    requires At(data, pos, VarI32Bytes(v))
    ensures |VarI32Bytes(v)| <= 5
    ensures VarI32At(data, pos) == Ok(Parsed(v, pos + |VarI32Bytes(v)|))
  {
    hide VarFrom, VarBytes, Pow2;
    var u := Unsigned32(v);
    Pow2Bytes();
    Pow2Word();
    VarContinues(data, pos, u, 0, 0, 5, HALF_BITS);
  }

  lemma VarI64Inverse(data: seq<byte>, pos: nat, v: i64)
    requires At(data, pos, VarI64Bytes(v))
    ensures |VarI64Bytes(v)| <= 10
    ensures VarI64At(data, pos) == Ok(Parsed(v, pos + |VarI64Bytes(v)|))
  {
    hide VarFrom, VarBytes, Pow2;
    var u := Unsigned64(v);
    Pow2Bytes();
    Pow2Word();
    VarContinues(data, pos, u, 0, 0, 10, WORD_BITS);
  }

  /** A byte array reads back exactly if it is within the limit. */
  lemma ByteArrayInverse(data: seq<byte>, pos: nat, v: seq<byte>, max: nat)
    requires |v| < 0x8000_0000 && At(data, pos, ByteArrayBytes(v))
    ensures ByteArrayAt(data, pos, max).Ok? <==> |v| <= max
    ensures |v| <= max ==> ByteArrayAt(data, pos, max) == Ok(Parsed(v, pos + |ByteArrayBytes(v)|))
  {
    hide VarI32Bytes, VarI32At;
    AtConcat(data, pos, VarI32Bytes(|v|), v);
    VarI32Inverse(data, pos, |v|);
  }

  /** A text reads back exactly if it is within the limit and well formed. */
  lemma StringInverse(data: seq<byte>, pos: nat, v: seq<byte>)
    requires |v| < 0x8000_0000 && At(data, pos, ByteArrayBytes(v))
    ensures StringAt(data, pos).Ok? <==> |v| <= 32767 * 3 && ValidUtf8(v)
    ensures StringAt(data, pos).Ok? ==> StringAt(data, pos).value == Parsed(v, pos + |ByteArrayBytes(v)|)
  {
    hide VarI32Bytes, VarI32At, ValidUtf8;
    AtConcat(data, pos, VarI32Bytes(|v|), v);
    VarI32Inverse(data, pos, |v|);
  }

  // ----- where a number of variable length ends -----

  /** `k` bytes in a row that each say another follows. */
  predicate Continues(data: seq<byte>, pos: nat, k: nat) {
    pos + k <= |data| && forall j :: pos <= j < pos + k ==> data[j] >= 128
  }

  lemma {:induction false} VarEnds(data: seq<byte>, pos: nat, k: nat, shift: nat, value: nat, limit: nat, width: nat)
    requires Continues(data, pos, k) && shift + k <= limit
    ensures var read := VarFrom(data, pos, shift, value, limit, width);
      if shift + k == limit then read == Err(VarTooLong)
      else if pos + k == |data| then read == Err(Eof)
      else data[pos + k] < 128 ==> read.Ok? && read.value.end == pos + k + 1
    decreases k
  {
    hide BitOr, Pow2, Shifted;
    if k > 0 {
      var next := BitOr(value, Shifted(data[pos] % 128, shift) % Pow2(width));
      VarEnds(data, pos + 1, k - 1, shift + 1, next, limit, width);
    }
  }

  /** A 32-bit number ends with its first byte below 128, and may have five bytes, one of 64
      bits ten; a longer one is refused as too long, and one that is cut off as cut off. */
  lemma NumbersEnd(data: seq<byte>, pos: nat, k: nat)
    requires Continues(data, pos, k)
    ensures k == 5 ==> VarI32At(data, pos) == Err(VarTooLong)
    ensures k == 10 ==> VarI64At(data, pos) == Err(VarTooLong)
    ensures k < 5 && pos + k == |data| ==> VarI32At(data, pos) == Err(Eof)
    ensures k < 10 && pos + k == |data| ==> VarI64At(data, pos) == Err(Eof)
    ensures k < 5 && pos + k < |data| && data[pos + k] < 128 ==>
      VarI32At(data, pos).Ok? && VarI32At(data, pos).value.end == pos + k + 1
    ensures k < 10 && pos + k < |data| && data[pos + k] < 128 ==>
      VarI64At(data, pos).Ok? && VarI64At(data, pos).value.end == pos + k + 1
  {
    hide VarFrom;
    if k <= 5 { VarEnds(data, pos, k, 0, 0, 5, HALF_BITS); }
    if k <= 10 { VarEnds(data, pos, k, 0, 0, 10, WORD_BITS); }
  }

  // ----- the order of digits -----

  lemma DivideTwice(v: nat, a: nat, b: nat)
    requires a > 0 && b > 0
    ensures a * b > 0 && v / a / b == v / (a * b)
  {
    var q, r := v / a, v % a;
    var s, t := q / b, q % b;
    assert v == q * a + r && q == s * b + t;
    Distribute(s * b, t, a);
    assert (s * b) * a == s * (a * b);
    Distribute(t, 1, a);
    MulUpTo(t + 1, b, a);
    assert b * a == a * b;
    DivideUnique(v, a * b, s, t * a + r);
  }

  /** Big-endian: the byte at the front counts most. */
  lemma {:induction false} BigEndianDigit(k: nat, v: nat, i: nat)
    requires i < k
    ensures BigEndian(k, v)[i] == v / Pow256(k - 1 - i) % 256
    decreases k
  {
    hide Pow256;
    PowSteps(k - 1 - i);
    if i < k - 1 {
      BigEndianDigit(k - 1, v / 256, i);
      DivideTwice(v, 256, Pow256(k - 2 - i));
    }
  }

  /** Little-endian: the byte at the front counts least. */
  lemma {:induction false} LittleEndianDigit(k: nat, v: nat, i: nat)
    requires i < k
    ensures LittleEndian(k, v)[i] == v / Pow256(i) % 256
    decreases k
  {
    hide Pow256;
    PowSteps(i);
    if i > 0 {
      LittleEndianDigit(k - 1, v / 256, i - 1);
      DivideTwice(v, 256, Pow256(i - 1));
    }
  }

  lemma PowSteps(k: nat)
    ensures Pow256(k) == if k == 0 then 1 else 256 * Pow256(k - 1)
    ensures Pow2(7 * k) == if k == 0 then 1 else 128 * Pow2(7 * (k - 1))
  {
    if k > 0 {
      Pow2Add(7, 7 * (k - 1));
      Pow2Bytes();
      assert 7 + 7 * (k - 1) == 7 * k;
    }
  }

  /** Numbers of variable length: seven bits a byte, the least first, and the top bit on
      every byte that another follows. */
  lemma {:induction false} VarDigit(v: nat, i: nat)
    requires i < |VarBytes(v)|
    ensures VarBytes(v)[i] == v / Pow2(7 * i) % 128 + if i < |VarBytes(v)| - 1 then 128 else 0
    decreases i
  {
    hide Pow2;
    PowSteps(i);
    if i > 0 {
      VarDigit(v / 128, i - 1);
      DivideTwice(v, 128, Pow2(7 * (i - 1)));
    }
  }

  // ----- a read that succeeds depends only on the bytes it consumed -----

  /** The `n` bytes of `a` at `i` are those of `b` at `j`. */
  predicate Same(a: seq<byte>, i: nat, b: seq<byte>, j: nat, n: nat) {
    i + n <= |a| && j + n <= |b| && a[i..i + n] == b[j..j + n]
  }

  lemma Slice(s: seq<byte>, lo: nat, hi: nat, from: nat, to: nat)
    requires lo <= hi <= |s| && from <= to <= hi - lo
    ensures s[lo..hi][from..to] == s[lo + from..lo + to]
  {
    var inner := s[lo..hi];
    forall i | 0 <= i < to - from
      ensures inner[from..to][i] == s[lo + from..lo + to][i]
    {
      assert inner[from..to][i] == inner[from + i] == s[lo + (from + i)];
    }
  }

  lemma SamePart(a: seq<byte>, i: nat, b: seq<byte>, j: nat, n: nat, from: nat, len: nat)
    requires Same(a, i, b, j, n) && from + len <= n
    ensures Same(a, i + from, b, j + from, len)
  {
    Slice(a, i, i + n, from, from + len);
    Slice(b, j, j + n, from, from + len);
  }

  lemma {:induction false} VarLocal(
    a: seq<byte>, i: nat, b: seq<byte>, j: nat, shift: nat, value: nat, limit: nat, width: nat)
    requires i <= |a| && j <= |b| && shift <= limit
    requires VarFrom(a, i, shift, value, limit, width).Ok?
    requires Same(a, i, b, j, VarFrom(a, i, shift, value, limit, width).value.end - i)
    ensures VarFrom(b, j, shift, value, limit, width).Ok?
    ensures VarFrom(b, j, shift, value, limit, width).value.value == VarFrom(a, i, shift, value, limit, width).value.value
    ensures VarFrom(b, j, shift, value, limit, width).value.end - j == VarFrom(a, i, shift, value, limit, width).value.end - i
    decreases limit - shift
  {
    var n := VarFrom(a, i, shift, value, limit, width).value.end - i;
    assert a[i] == a[i..i + n][0] == b[j..j + n][0] == b[j];
    if a[i] >= 128 {
      SamePart(a, i, b, j, n, 1, n - 1);
      var next := BitOr(value, Shifted(a[i] % 128, shift) % Pow2(width));
      VarLocal(a, i + 1, b, j + 1, shift + 1, next, limit, width);
    }
  }

  // ----- block positions -----

  datatype BlockPos = BlockPos(x: int, y: int, z: int)

  const X_UNIT: nat := 0x40_0000_0000
  const Z_UNIT: nat := 0x1000
  const FIELD26: nat := 0x400_0000
  const FIELD12: nat := 0x1000

  /** The bits of a packed long: 26 of x, 26 of z, 12 of y. */
  function PackedBits(x: nat, y: nat, z: nat): (u: nat)
    requires x < FIELD26 && z < FIELD26 && y < FIELD12
    ensures u == x * X_UNIT + z * Z_UNIT + y < TWO64
  {
    hide BitOr, Pow2;
    PackedBitsAdd(x, y, z);
    BitOr(BitOr(x * Pow2(38), z * Pow2(12)), y)
  }

  lemma PackedBitsAdd(x: nat, y: nat, z: nat)
    requires x < FIELD26 && z < FIELD26 && y < FIELD12
    ensures BitOr(BitOr(x * Pow2(38), z * Pow2(12)), y) == x * X_UNIT + z * Z_UNIT + y
  {
    hide BitOr, Pow2;
    FieldUnits();
    OrDisjoint(z * Z_UNIT, x, 38);
    OrCommutes(x * X_UNIT, z * Z_UNIT);
    var high := x * FIELD26 + z;
    assert high * Z_UNIT == x * X_UNIT + z * Z_UNIT;
    OrDisjoint(y, high, 12);
    OrCommutes(high * Z_UNIT, y);
  }

  lemma FieldUnits()
    ensures Pow2(12) == Z_UNIT && Pow2(26) == FIELD26 && Pow2(38) == X_UNIT
  {
    Pow2Bytes();
    assert Pow2(4) == 16 && Pow2(2) == 4;
    Pow2Add(8, 4);
    Pow2Add(16, 8);
    Pow2Add(24, 2);
    Pow2Add(12, 26);
  }

  function PackBlockPos(x: i32, y: i32, z: i32): i64 {
    Signed64(PackedBits(x % FIELD26, y % FIELD12, z % FIELD26))
  }

  /** Arithmetic shifts of the long: `v >> 38`, `(v << 52) >> 52`, `(v << 26) >> 38`. */
  function UnpackBlockPos(v: i64): BlockPos {
    BlockPos(v / X_UNIT,
             Signed64(v * 0x10_0000_0000_0000 % TWO64) / 0x10_0000_0000_0000,
             Signed64(v * FIELD26 % TWO64) / X_UNIT)
  }

  /** The least packed position: a key that ends a list instead of naming a section. */
  const MIN_POSITION_LONG: i64 := PackBlockPos(-33_554_432, -2048, -33_554_432)

  predicate InPackedRange(p: BlockPos) {
    -0x200_0000 <= p.x < 0x200_0000 && -0x800 <= p.y < 0x800 && -0x200_0000 <= p.z < 0x200_0000
  }

  function SignedField(n: nat, size: nat): int {
    if n < size / 2 then n else n - size
  }

  lemma Remainder(n: int, low: nat, k: int)
    requires low < TWO64 && n == low + TWO64 * k
    ensures n % TWO64 == low
  {
  }

  lemma Distribute(a: int, b: int, p: int)
    ensures (a + b) * p == a * p + b * p
  {
  }

  /** Shifting a word down to its top field carries the field's sign along. */
  lemma TopField(field: nat, low: nat, unit: nat, half: nat)
    requires field < 2 * half && low < unit && half * unit == TWO64 / 2
    ensures 0 <= field * unit + low < TWO64
    ensures Signed64(field * unit + low) / unit == SignedField(field, 2 * half)
  {
    Distribute(field, 1, unit);
    Distribute(half, half, unit);
    MulUpTo(field + 1, 2 * half, unit);
    if field < half {
      MulUpTo(field + 1, half, unit);
      DivideUnique(field * unit + low, unit, field, low);
    } else {
      MulUpTo(half, field, unit);
      Distribute(field - 2 * half, 2 * half, unit);
      DivideUnique((field - 2 * half) * unit + low, unit, field - 2 * half, low);
    }
  }

  lemma FieldX(v: i64, x: nat, y: nat, z: nat)
    requires x < FIELD26 && z < FIELD26 && y < FIELD12
    requires v == Signed64(x * X_UNIT + (z * Z_UNIT + y))
    ensures v / X_UNIT == SignedField(x, FIELD26)
  {
    hide Signed64, SignedField;
    TopField(x, z * Z_UNIT + y, X_UNIT, FIELD26 / 2);
  }

  lemma FieldY(v: i64, x: nat, y: nat, z: nat, wrap: nat)
    requires x < FIELD26 && z < FIELD26 && y < FIELD12
    requires v == x * X_UNIT + z * Z_UNIT + y - wrap * TWO64
    ensures Signed64(v * 0x10_0000_0000_0000 % TWO64) / 0x10_0000_0000_0000 == SignedField(y, FIELD12)
  {
    hide Signed64, SignedField;
    Remainder(v * 0x10_0000_0000_0000, y * 0x10_0000_0000_0000, x * FIELD26 + z - wrap * 0x10_0000_0000_0000);
    TopField(y, 0, 0x10_0000_0000_0000, FIELD12 / 2);
  }

  lemma FieldZ(v: i64, x: nat, y: nat, z: nat, wrap: nat)
    requires x < FIELD26 && z < FIELD26 && y < FIELD12
    requires v == x * X_UNIT + z * Z_UNIT + y - wrap * TWO64
    ensures Signed64(v * FIELD26 % TWO64) / X_UNIT == SignedField(z, FIELD26)
  {
    hide Signed64, SignedField;
    Remainder(v * FIELD26, z * X_UNIT + y * FIELD26, x - wrap * FIELD26);
    TopField(z, y * FIELD26, X_UNIT, FIELD26 / 2);
  }

  /** The shifts recover the three bit fields of a long, each with its sign. */
  lemma UnpackedFields(v: i64, x: nat, y: nat, z: nat)
    requires x < FIELD26 && z < FIELD26 && y < FIELD12
    requires Unsigned64(v) == x * X_UNIT + z * Z_UNIT + y
    ensures UnpackBlockPos(v) == BlockPos(SignedField(x, FIELD26), SignedField(y, FIELD12), SignedField(z, FIELD26))
  {
    hide SignedField;
    var wrap := if v < 0 then 1 else 0;
    FieldX(v, x, y, z);
    FieldY(v, x, y, z, wrap);
    FieldZ(v, x, y, z, wrap);
  }

  lemma UnpackInvertsPack(p: BlockPos)
    requires InPackedRange(p)
    ensures UnpackBlockPos(PackBlockPos(p.x, p.y, p.z)) == p
  {
    hide BitOr, Pow2, PackedBits;
    var u := PackedBits(p.x % FIELD26, p.y % FIELD12, p.z % FIELD26);
    Unsigned64Inverse(u);
    UnpackedFields(Signed64(u), p.x % FIELD26, p.y % FIELD12, p.z % FIELD26);
  }

  lemma PackInvertsUnpack(v: i64)
    ensures InPackedRange(UnpackBlockPos(v))
    ensures var p := UnpackBlockPos(v); PackBlockPos(p.x, p.y, p.z) == v
  {
    hide SignedField, UnpackBlockPos;
    var u := Unsigned64(v);
    var x, z, y := u / X_UNIT, u / Z_UNIT % FIELD26, u % FIELD12;
    assert u / Z_UNIT == x * FIELD26 + z;
    UnpackedFields(v, x, y, z);
    var p := UnpackBlockPos(v);
    SignedFieldBack(x, FIELD26);
    SignedFieldBack(y, FIELD12);
    SignedFieldBack(z, FIELD26);
    Signed64Inverse(v);
  }

  lemma SignedFieldBack(n: nat, size: nat)
    requires n < size && size % 2 == 0
    ensures SignedField(n, size) % size == n && -(size / 2) <= SignedField(n, size) < size / 2
  {
    DivideUnique(SignedField(n, size), size, if n < size / 2 then 0 else -1, n);
  }

  // ----- the reader -----

  class Reader {
    const data: seq<byte>
    var pos: nat

    ghost predicate Valid()
      reads this
    {
      pos <= |data|
    }

    /** The result and the new position are those of a read function; where a read
        fails the position is left unspecified, as every caller abandons the buffer. */
    ghost predicate Yields<T>(r: Result<T>, read: Result<Parsed<T>>)
      reads this
    {
      && Valid()
      && (read.Ok? ==> r == Ok(read.value.value) && pos == read.value.end)
      && (read.Err? ==> r == Err(read.error))
    }

    constructor (bytes: seq<byte>)
      ensures data == bytes && pos == 0 && Valid()
    {
      data := bytes;
      pos := 0;
    }

    method Take(n: nat) returns (r: Result<seq<byte>>)
      requires Valid()
      modifies this
      ensures Yields(r, TakeAt(data, old(pos), n))
    {
      var end := pos + n;
      if end > |data| { return Err(Eof); }
      r := Ok(data[pos..end]);
      pos := end;
    }

    /** The bytes passed since the reader stood at `start`. */
    method Since(start: nat) returns (r: Result<seq<byte>>)
      requires Valid()
      ensures r == if start <= pos then Ok(data[start..pos]) else Err(Eof)
    {
      if start > pos { return Err(Eof); }
      r := Ok(data[start..pos]);
    }

    method FullyRead() returns (r: Result<()>)
      requires Valid()
      ensures r == ExpectFullyRead(data, pos)
    {
      if pos == |data| { return Ok(()); }
      r := Err(Trailing(|data| - pos));
    }

    method Rest() returns (r: seq<byte>)
      requires Valid()
      modifies this
      ensures r == data[old(pos)..] && pos == |data|
    {
      r := data[pos..];
      pos := |data|;
    }

    method U8() returns (r: Result<byte>)
      requires Valid()
      modifies this
      ensures Yields(r, U8At(data, old(pos)))
    {
      if pos >= |data| { return Err(Eof); }
      r := Ok(data[pos]);
      pos := pos + 1;
    }

    method U16() returns (r: Result<u16>)
      requires Valid()
      modifies this
      ensures Yields(r, U16At(data, old(pos)))
    {
      var b :- Take(2);
      FromBigEndianBound(b); Pow256Words();
      r := Ok(FromBigEndian(b));
    }

    method I32() returns (r: Result<i32>)
      requires Valid()
      modifies this
      ensures Yields(r, I32At(data, old(pos)))
    {
      var b :- Take(4);
      FromBigEndianBound(b); Pow256Words();
      r := Ok(Signed32(FromBigEndian(b)));
    }

    method I64() returns (r: Result<i64>)
      requires Valid()
      modifies this
      ensures Yields(r, I64At(data, old(pos)))
    {
      var b :- Take(8);
      FromBigEndianBound(b); Pow256Words();
      r := Ok(Signed64(FromBigEndian(b)));
    }

    method Var(limit: nat, width: nat) returns (r: Result<nat>)
      requires Valid()
      modifies this
      ensures Yields(r, VarFrom(data, old(pos), 0, 0, limit, width))
    {
      var value := 0;
      for shift := 0 to limit
        invariant Valid()
        invariant VarFrom(data, old(pos), 0, 0, limit, width) == VarFrom(data, pos, shift, value, limit, width)
      {
        var b :- U8();
        value := BitOr(value, Shifted(b % 128, shift) % Pow2(width));
        if b < 128 { return Ok(value); }
      }
      return Err(VarTooLong);
    }

    method VarI32() returns (r: Result<i32>)
      requires Valid()
      modifies this
      ensures Yields(r, VarI32At(data, old(pos)))
    {
      var v :- Var(5, HALF_BITS);
      r := Ok(Signed32(v % TWO32));
    }

    method VarI64() returns (r: Result<i64>)
      requires Valid()
      modifies this
      ensures Yields(r, VarI64At(data, old(pos)))
    {
      var v :- Var(10, WORD_BITS);
      r := Ok(Signed64(v % TWO64));
    }

    method VarLen(max: nat) returns (r: Result<nat>)
      requires Valid()
      modifies this
      ensures Yields(r, VarLenAt(data, old(pos), max))
    {
      var raw :- VarI32();
      if raw < 0 { return Err(TooLarge(0, max)); }
      if raw > max { return Err(TooLarge(raw, max)); }
      r := Ok(raw);
    }

    method ByteArray(max: nat) returns (r: Result<seq<byte>>)
      requires Valid()
      modifies this
      ensures Yields(r, ByteArrayAt(data, old(pos), max))
    {
      var len :- VarLen(max);
      r := Take(len);
    }

    method String() returns (r: Result<seq<byte>>)
      requires Valid()
      modifies this
      ensures Yields(r, StringAt(data, old(pos)))
    {
      var s :- ByteArray(MAX_STRING_BYTES);
      if !ValidUtf8(s) { return Err(BadUtf8); }
      r := Ok(s);
    }

    method ReadUuid() returns (r: Result<Uuid>)
      requires Valid()
      modifies this
      ensures Yields(r, UuidAt(data, old(pos)))
    {
      var high :- I64();
      var low :- I64();
      r := Ok(Uuid(Unsigned64(high), Unsigned64(low)));
    }
  }

  /** The reader stands where a read ends, or the read's error is returned. */
  ghost predicate EndsAt(r: Reader, res: Result<()>, end: Result<nat>)
    reads r
  {
    && r.Valid()
    && (end.Ok? ==> res == Ok(()) && r.pos == end.value)
    && (end.Err? ==> res == Err(end.error))
  }

  // ----- the writer -----

  class Writer {
    var buf: seq<byte>

    constructor ()
      ensures buf == []
    {
      buf := [];
    }

    method Raw(v: seq<byte>)
      modifies this
      ensures buf == old(buf) + v
    {
      buf := buf + v;
    }

    method U8(v: byte)
      modifies this
      ensures buf == old(buf) + [v]
    {
      buf := buf + [v];
    }

    method Bool(v: bool)
      modifies this
      ensures buf == old(buf) + [if v then 1 else 0]
    {
      U8(if v then 1 else 0);
    }

    method I32(v: i32)
      modifies this
      ensures buf == old(buf) + I32Bytes(v)
    {
      Raw(BigEndian(4, Unsigned32(v)));
    }

    method I64(v: i64)
      modifies this
      ensures buf == old(buf) + I64Bytes(v)
    {
      Raw(BigEndian(8, Unsigned64(v)));
    }

    /** The loop both varint writers run on the unsigned value. */
    method Var(v: nat)
      modifies this
      ensures buf == old(buf) + VarBytes(v)
    {
      var value := v;
      while value >= 128
        invariant buf + VarBytes(value) == old(buf) + VarBytes(v)
      {
        buf := buf + [value % 128 + 128];
        value := value / 128;
      }
      buf := buf + [value];
    }

    method VarI32(v: i32)
      modifies this
      ensures buf == old(buf) + VarI32Bytes(v)
    {
      Var(Unsigned32(v));
    }

    method VarI64(v: i64)
      modifies this
      ensures buf == old(buf) + VarI64Bytes(v)
    {
      Var(Unsigned64(v));
    }

    method ByteArray(v: seq<byte>)
      modifies this
      ensures buf == old(buf) + ByteArrayBytes(v)
    {
      VarI32(Signed32(|v| % TWO32));
      Raw(v);
    }

    method WriteUuid(u: Uuid)
      modifies this
      ensures buf == old(buf) + UuidBytes(u)
    {
      I64(Signed64(u.high % TWO64));
      I64(Signed64(u.low % TWO64));
    }
  }
}
