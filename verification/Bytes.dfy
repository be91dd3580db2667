/**
 Byte strings, little-endian integers, bitmaps and base-128 varints: the shared
 vocabulary of the row, array and batch codecs. Bytes are integers in [0, 256).
 */
module Bytes {

  type Byte = x: int | 0 <= x < 256

  type ByteString = seq<Byte>

  /** Every malformed input or oversized value is the one error `Err`. */
  datatype Result<+T> = Ok(value: T) | Err {
    predicate IsFailure() { Err? }
    function PropagateFailure<U>(): Result<U> requires Err? { Err }
    function Extract(): T requires Ok? { value }
  }

  const MAX_ROW_BYTES := 0x100_0000

  const TWO_8 := 0x100
  const TWO_16 := 0x1_0000
  const TWO_32 := 0x1_0000_0000
  const TWO_63 := 0x8000_0000_0000_0000
  const TWO_64 := 0x1_0000_0000_0000_0000

  // ------------------------------------------------------------ zero padding

  function Zeros(n: nat): (z: ByteString)
    ensures |z| == n
  {
    seq(n, _ => 0)
  }

  /** Overwrite bytes at position `at`, the way a Put into a slice does. */
  function Put(buffer: ByteString, at: nat, bytes: ByteString): (r: ByteString)
    requires at + |bytes| <= |buffer|
    ensures |r| == |buffer|
  {
    buffer[..at] + bytes + buffer[at + |bytes|..]
  }

  lemma PutMiddle(a: ByteString, hole: ByteString, c: ByteString, bytes: ByteString)
    requires |hole| == |bytes|
    ensures Put(a + hole + c, |a|, bytes) == a + bytes + c
  {
    assert (a + hole + c)[..|a|] == a;
    assert (a + hole + c)[|a| + |bytes|..] == c;
  }

  /** `buffer` holds `bytes` at position `at`. */
  predicate HoldsAt(buffer: ByteString, at: int, bytes: ByteString)
  {
    0 <= at && at + |bytes| <= |buffer| && buffer[at..at + |bytes|] == bytes
  }

  lemma HoldsAtSplit(buffer: ByteString, at: int, a: ByteString, b: ByteString)
    requires HoldsAt(buffer, at, a + b)
    ensures HoldsAt(buffer, at, a)
    ensures HoldsAt(buffer, at + |a|, b)
  {
    assert buffer[at..at + |a|] == (a + b)[..|a|];
    assert buffer[at + |a|..at + |a| + |b|] == (a + b)[|a|..];
  }

  lemma FiveRegions(a: ByteString, b: ByteString, c: ByteString, d: ByteString, e: ByteString)
    ensures HoldsAt(a + b + c + d + e, 0, a)
    ensures HoldsAt(a + b + c + d + e, |a|, b)
    ensures HoldsAt(a + b + c + d + e, |a| + |b|, c)
    ensures HoldsAt(a + b + c + d + e, |a| + |b| + |c| + |d|, e)
  {
  }

  // ------------------------------------------------- fixed-width little endian

  function Pow256(n: nat): (p: int)
    ensures p >= 1
  {
    if n == 0 then 1 else 256 * Pow256(n - 1)
  }

  /** The low `width` bytes of `value`, least significant first. */
  function Little(value: nat, width: nat): (bytes: ByteString)
    ensures |bytes| == width
  {
    if width == 0 then [] else [value % 256] + Little(value / 256, width - 1)
  }

  function FromLittle(bytes: ByteString): (value: nat)
    ensures value < Pow256(|bytes|)
  {
    if bytes == [] then 0 else bytes[0] + 256 * FromLittle(bytes[1..])
  }

  lemma {:induction false} LittleRoundTrip(value: nat, width: nat)
    ensures FromLittle(Little(value, width)) == value % Pow256(width)
  {
    if width > 0 {
      LittleRoundTrip(value / 256, width - 1);
      assert Little(value, width)[1..] == Little(value / 256, width - 1);
      ModSplit(value, Pow256(width - 1));
    } else {
      assert value % 1 == 0;
    }
  }

  lemma ModSplit(value: nat, m: int)
    requires m >= 1
    ensures value % (256 * m) == value % 256 + 256 * (value / 256 % m)
  {
    var q, r := value / 256, value % 256;
    var h, l := q / m, q % m;
    assert value == 256 * q + r && q == m * h + l;
    var low := r + 256 * l;
    assert value == (256 * m) * h + low by {
      assert 256 * (m * h) == (256 * m) * h;
    }
    assert 0 <= low < 256 * m;
    DivModUnique(value, 256 * m, h, low);
  }

  lemma DivModUnique(value: int, m: int, q: int, r: int)
    requires m >= 1 && value == m * q + r && 0 <= r < m
    ensures value / m == q && value % m == r
  {
    var q', r' := value / m, value % m;
    var d := q' - q;
    assert m * d == r - r' by {
      assert value == m * q' + r';
      assert m * d == m * q' - m * q;
    }
    if d >= 1 {
      MulAtLeast(m, d);
    } else if d <= -1 {
      MulAtLeast(m, -d);
    }
  }

  lemma MulAtLeast(m: int, d: int)
    requires m >= 1 && d >= 1
    ensures m * d >= m
  {
  }

  lemma LittleExact(value: nat, width: nat)
    requires value < Pow256(width)
    ensures FromLittle(Little(value, width)) == value
  {
    LittleRoundTrip(value, width);
    SmallMod(value, Pow256(width));
  }

  lemma SmallMod(value: int, m: int)
    requires 0 <= value < m
    ensures value % m == value && value / m == 0
  {
  }

  lemma PowersOf256()
    ensures Pow256(1) == TWO_8 && Pow256(2) == TWO_16 && Pow256(4) == TWO_32 && Pow256(8) == TWO_64
  {
    assert Pow256(1) == 256 * Pow256(0);
    assert Pow256(2) == 256 * Pow256(1);
    assert Pow256(3) == 256 * Pow256(2);
    assert Pow256(4) == 256 * Pow256(3);
    assert Pow256(5) == 256 * Pow256(4);
    assert Pow256(6) == 256 * Pow256(5);
    assert Pow256(7) == 256 * Pow256(6);
    assert Pow256(8) == 256 * Pow256(7);
  }

  // ------------------------------------------------------- two's complement

  /** The unsigned bits of a signed integer in a word of `modulus` values. */
  function Unsigned(value: int, modulus: int): (u: nat)
    requires modulus >= 1
    ensures u < modulus
  {
    value % modulus
  }

  /** A Go conversion to a signed integer type of `modulus` values. */
  function Signed(value: int, modulus: int): (s: int)
    requires modulus >= 2 && modulus % 2 == 0
    ensures -(modulus / 2) <= s < modulus / 2
  {
    var u := value % modulus;
    if u < modulus / 2 then u else u - modulus
  }

  predicate FitsSigned(value: int, modulus: int)
    requires modulus >= 2
  {
    -(modulus / 2) <= value < modulus / 2
  }

  lemma SignedUnsigned(value: int, modulus: int)
    requires modulus >= 2 && modulus % 2 == 0 && FitsSigned(value, modulus)
    ensures Signed(Unsigned(value, modulus), modulus) == value
  {
    var u := value % modulus;
    if value >= 0 {
      DivModUnique(value, modulus, 0, value);
    } else {
      DivModUnique(value, modulus, -1, value + modulus);
    }
    SmallMod(u, modulus);
  }

  lemma SignedOfMod(value: int, modulus: int)
    requires modulus >= 2 && modulus % 2 == 0
    ensures Signed(Unsigned(value, modulus), modulus) == Signed(value, modulus)
  {
    SmallMod(value % modulus, modulus);
  }

  // ------------------------------------------------------------------ bitmaps

  function Pow2(n: nat): (p: int)
    ensures p >= 1
  {
    if n == 0 then 1 else 2 * Pow2(n - 1)
  }

  predicate Bit(x: nat, k: nat)
  {
    if k == 0 then x % 2 == 1 else Bit(x / 2, k - 1)
  }

  /** `x | 1 << k` */
  function WithBit(x: nat, k: nat): (r: nat)
  {
    if k == 0 then x / 2 * 2 + 1 else WithBit(x / 2, k - 1) * 2 + x % 2
  }

  lemma {:induction false} WithBitBits(x: nat, k: nat, j: nat)
    ensures Bit(WithBit(x, k), j) <==> (j == k || Bit(x, j))
    decreases j
  {
    if j > 0 && k > 0 {
      WithBitBits(x / 2, k - 1, j - 1);
    }
  }

  lemma {:induction false} WithBitBound(x: nat, k: nat, n: nat)
    requires x < Pow2(n) && k < n
    ensures WithBit(x, k) < Pow2(n)
  {
    if k > 0 {
      WithBitBound(x / 2, k - 1, n - 1);
    }
  }

  /** Two n-bit numbers with the same bits are the same number. */
  lemma {:induction false} BitsDetermine(x: nat, y: nat, n: nat)
    requires x < Pow2(n) && y < Pow2(n)
    requires forall k: nat :: k < n ==> (Bit(x, k) <==> Bit(y, k))
    ensures x == y
  {
    if n > 0 {
      forall k: nat | k < n - 1 ensures Bit(x / 2, k) <==> Bit(y / 2, k) {
        assert Bit(x, k + 1) <==> Bit(y, k + 1);
      }
      BitsDetermine(x / 2, y / 2, n - 1);
      assert Bit(x, 0) <==> Bit(y, 0);
    }
  }

  lemma EightBits()
    ensures Pow2(8) == 256
  {
    assert Pow2(2) == 4 && Pow2(4) == 16;
    assert Pow2(6) == 64;
  }

  function SetBit(b: Byte, k: nat): (r: Byte)
    requires k < 8
  {
    EightBits();
    WithBitBound(b, k, 8);
    WithBit(b, k)
  }

  predicate BitmapFlag(flags: seq<bool>, index: nat, upTo: nat, k: nat)
  {
    k < upTo && 8 * index + k < |flags| && flags[8 * index + k]
  }

  /** The bitmap byte whose bit k is `flags[8 * index + k]`, for k below `upTo`. */
  function BitmapByte(flags: seq<bool>, index: nat, upTo: nat): (b: Byte)
    requires upTo <= 8
  {
    if upTo == 0 then 0
    else
      var b := BitmapByte(flags, index, upTo - 1);
      if BitmapFlag(flags, index, upTo, upTo - 1) then SetBit(b, upTo - 1) else b
  }

  lemma {:induction false} ZeroBits(k: nat)
    ensures !Bit(0, k)
  {
    if k > 0 {
      ZeroBits(k - 1);
    }
  }

  lemma {:induction false} BitmapByteBits(flags: seq<bool>, index: nat, upTo: nat, k: nat)
    requires upTo <= 8
    ensures Bit(BitmapByte(flags, index, upTo), k) <==> BitmapFlag(flags, index, upTo, k)
  {
    if upTo == 0 {
      ZeroBits(k);
    } else {
      BitmapByteBits(flags, index, upTo - 1, k);
      WithBitBits(BitmapByte(flags, index, upTo - 1), upTo - 1, k);
    }
  }

  /** The null bitmap of `flags`, `width` bytes long. */
  function Bitmap(flags: seq<bool>, width: nat): (bytes: ByteString)
    ensures |bytes| == width
  {
    seq(width, index requires 0 <= index => BitmapByte(flags, index, 8))
  }

  predicate BitAt(bytes: ByteString, at: nat, i: nat)
    requires at + i / 8 < |bytes|
  {
    Bit(bytes[at + i / 8], i % 8)
  }

  lemma BitmapBits(flags: seq<bool>, width: nat, i: nat)
    requires i / 8 < width && i < |flags|
    ensures BitAt(Bitmap(flags, width), 0, i) == flags[i]
  {
    BitmapByteBits(flags, i / 8, 8, i % 8);
  }

  /** Setting one bit in place extends the bitmap of a shorter prefix by one flag. */
  lemma BitmapSet(flags: seq<bool>, width: nat, i: nat)
    requires i / 8 < width && i < |flags|
    ensures Bitmap(flags[..i + 1], width)
         == if flags[i]
            then Bitmap(flags[..i], width)[i / 8 := SetBit(Bitmap(flags[..i], width)[i / 8], i % 8)]
            else Bitmap(flags[..i], width)
  {
    var was := Bitmap(flags[..i], width);
    var now := if flags[i] then was[i / 8 := SetBit(was[i / 8], i % 8)] else was;
    var want := Bitmap(flags[..i + 1], width);
    forall x | 0 <= x < width ensures now[x] == want[x] {
      forall k: nat | k < 8 ensures Bit(now[x], k) <==> Bit(want[x], k) {
        BitmapByteBits(flags[..i], x, 8, k);
        BitmapByteBits(flags[..i + 1], x, 8, k);
        WithBitBits(was[i / 8], i % 8, k);
        assert 8 * x + k == i <==> x == i / 8 && k == i % 8;
      }
      EightBits();
      BitsDetermine(now[x], want[x], 8);
    }
  }

  // ------------------------------------------------------------------ varints

  /** Base-128 groups, least significant first; every byte but the last has its top bit set. */
  function Var(value: nat): (bytes: ByteString)
    ensures |bytes| >= 1
  {
    if value > 0x7f then [value % 128 + 128] + Var(value / 128) else [value]
  }

  function Pow128(n: nat): (p: int)
    ensures p >= 1
  {
    if n == 0 then 1 else 128 * Pow128(n - 1)
  }

  lemma {:induction false} VarLength(value: nat, width: nat)
    requires width >= 1 && value < Pow128(width)
    ensures |Var(value)| <= width
  {
    if value > 0x7f {
      assert width > 1 by {
        assert Pow128(1) == 128 * Pow128(0);
      }
      VarLength(value / 128, width - 1);
    }
  }

  lemma VarWidths()
    ensures TWO_32 <= Pow128(5) && TWO_64 <= Pow128(10)
    ensures MAX_ROW_BYTES < Pow128(4)
  {
    assert Pow128(1) == 128 * Pow128(0);
    assert Pow128(2) == 128 * Pow128(1);
    assert Pow128(3) == 128 * Pow128(2);
    assert Pow128(4) == 128 * Pow128(3);
    assert Pow128(5) == 128 * Pow128(4);
    assert Pow128(6) == 128 * Pow128(5);
    assert Pow128(7) == 128 * Pow128(6);
    assert Pow128(8) == 128 * Pow128(7);
    assert Pow128(9) == 128 * Pow128(8);
    assert Pow128(10) == 128 * Pow128(9);
  }

  /** The unreduced sum of the groups starting at `position`, and the position after them. */
  function ReadGroups(encoded: ByteString, position: nat, maximum: nat): (r: Result<(nat, nat)>)
    ensures r.Ok? ==> position < r.value.1 <= |encoded| && r.value.1 <= position + maximum
    decreases maximum
  {
    if maximum == 0 || position >= |encoded| then Err
    else
      var part := encoded[position];
      if part < 128 then Ok((part, position + 1))
      else
        match ReadGroups(encoded, position + 1, maximum - 1)
        case Err => Err
        case Ok((rest, next)) => Ok((part - 128 + 128 * rest, next))
  }

  /** A varint of at most `maximum` bytes, accumulated in a 64-bit word. */
  function ReadVar(encoded: ByteString, position: nat, maximum: nat): (r: Result<(nat, nat)>)
    ensures r.Ok? ==> position < r.value.1 <= |encoded| && r.value.0 < TWO_64
  {
    match ReadGroups(encoded, position, maximum)
    case Err => Err
    case Ok((value, next)) => Ok((value % TWO_64, next))
  }

  lemma {:induction false} ReadGroupsOfVar(value: nat, encoded: ByteString, position: nat, maximum: nat)
    requires HoldsAt(encoded, position, Var(value)) && |Var(value)| <= maximum
    ensures ReadGroups(encoded, position, maximum) == Ok((value, position + |Var(value)|))
    decreases value
  {
    assert encoded[position] == encoded[position..position + |Var(value)|][0];
    if value > 0x7f {
      HoldsAtSplit(encoded, position, [value % 128 + 128], Var(value / 128));
      ReadGroupsOfVar(value / 128, encoded, position + 1, maximum - 1);
    }
  }

  lemma ReadVar32(value: nat, encoded: ByteString, position: nat)
    requires value < TWO_32 && HoldsAt(encoded, position, Var(value))
    ensures ReadVar(encoded, position, 5) == Ok((value, position + |Var(value)|))
  {
    VarWidths();
    VarLength(value, 5);
    ReadGroupsOfVar(value, encoded, position, 5);
    SmallMod(value, TWO_64);
  }

  lemma ReadVar64(value: nat, encoded: ByteString, position: nat)
    requires value < TWO_64 && HoldsAt(encoded, position, Var(value))
    ensures ReadVar(encoded, position, 10) == Ok((value, position + |Var(value)|))
  {
    VarWidths();
    VarLength(value, 10);
    ReadGroupsOfVar(value, encoded, position, 10);
    SmallMod(value, TWO_64);
  }

  // -------------------------------------------------------- length-prefixed bytes

  function LengthBytes(value: ByteString): (r: Result<ByteString>)
    ensures r.Ok? <==> |value| <= MAX_ROW_BYTES
  {
    if |value| > MAX_ROW_BYTES then Err else Ok(Var(|value|) + value)
  }

  function ReadFixed(encoded: ByteString, position: int, length: int): (r: Result<(ByteString, nat)>)
    ensures r.Ok? ==> 0 <= position <= r.value.1 <= |encoded| && |r.value.0| == length
    ensures r.Ok? ==> HoldsAt(encoded, position, r.value.0) && r.value.1 == position + length
  {
    if position < 0 || length < 0 || position > |encoded| || |encoded| - position < length then Err
    else Ok((encoded[position..position + length], position + length))
  }

  function ReadLengthBytes(encoded: ByteString, position: nat): (r: Result<(ByteString, nat)>)
    ensures r.Ok? ==> position < r.value.1 <= |encoded| && |r.value.0| <= MAX_ROW_BYTES
  {
    match ReadVar(encoded, position, 5)
    case Err => Err
    case Ok((length, next)) =>
      if length > MAX_ROW_BYTES || length > |encoded| - next then Err
      else Ok((encoded[next..next + length], next + length))
  }

  lemma ReadLengthBytesOf(value: ByteString, encoded: ByteString, position: nat)
    requires LengthBytes(value).Ok? && HoldsAt(encoded, position, LengthBytes(value).value)
    ensures ReadLengthBytes(encoded, position) == Ok((value, position + |LengthBytes(value).value|))
  {
    HoldsAtSplit(encoded, position, Var(|value|), value);
    ReadVar32(|value|, encoded, position);
  }

  // ------------------------------------------------------------ loop refinements

  method AppendVar64(dst: ByteString, value: nat) returns (r: ByteString)
    ensures r == dst + Var(value)
  {
    r := dst;
    var rest := value;
    while rest > 0x7f
      invariant r + Var(rest) == dst + Var(value)
    {
      r := r + [rest % 128 + 128];
      rest := rest / 128;
    }
    r := r + [rest];
  }

  method ReadVarLoop(encoded: ByteString, start: nat, maximum: nat) returns (r: Result<(nat, nat)>)
    ensures r == ReadVar(encoded, start, maximum)
  {
    var value, scale, position := 0, 1, start;
    var i := 0;
    while i < maximum
      invariant 0 <= i <= maximum && position == start + i
      invariant value >= 0 && scale >= 1
      invariant ReadGroups(encoded, start, maximum)
             == Scale(value, scale, ReadGroups(encoded, position, maximum - i))
    {
      if position >= |encoded| {
        return Err;
      }
      var part := encoded[position];
      if part < 128 {
        return Ok(((value + scale * part) % TWO_64, position + 1));
      }
      ScaleStep(value, scale, part - 128, ReadGroups(encoded, position + 1, maximum - i - 1));
      value, scale := value + scale * (part - 128), scale * 128;
      position := position + 1;
      i := i + 1;
    }
    return Err;
  }

  /** Groups read so far, worth `value`, followed by the rest at `scale`. */
  ghost function Scale(value: nat, scale: nat, rest: Result<(nat, nat)>): Result<(nat, nat)>
  {
    match rest
    case Err => Err
    case Ok((n, next)) => Ok((value + scale * n, next))
  }

  lemma ScaleStep(value: nat, scale: nat, part: nat, rest: Result<(nat, nat)>)
    ensures Scale(value, scale, Scale(part, 128, rest)) == Scale(value + scale * part, scale * 128, rest)
  {
    if rest.Ok? {
      var n := rest.value.0;
      assert scale * (part + 128 * n) == scale * part + scale * 128 * n;
    }
  }
}
