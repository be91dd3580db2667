/**
 Big-endian two's-complement bytes of unbounded integers, as large decimals store
 their unscaled value.
 */
module SignedBytes {
  import opened Bytes

  /** Magnitude bytes, most significant first, no leading zero byte; zero has none. */
  function BigEndian(value: nat): (bytes: ByteString)
  {
    if value == 0 then [] else BigEndian(value / 256) + [value % 256]
  }

  function FromBigEndian(bytes: ByteString): (value: nat)
  {
    if bytes == [] then 0
    else 256 * FromBigEndian(bytes[..|bytes| - 1]) + bytes[|bytes| - 1]
  }

  function BitLen(value: nat): (n: nat)
  {
    if value == 0 then 0 else 1 + BitLen(value / 2)
  }

  function Abs(value: int): nat
  {
    if value < 0 then -value else value
  }

  /** The bytes written for `value`, with the length and sign repairs the encoder carries. */
  function Encode(value: int): (bytes: ByteString)
  {
    if value >= 0 then
      var bytes := BigEndian(value);
      if |bytes| == 0 then [0]
      else if bytes[0] >= 128 then [0] + bytes
      else bytes
    else
      var width := NegativeWidth(value);
      NegativeModulus(value);
      var raw := BigEndian(Pow256(width) + value);
      var bytes := if |raw| < width then Zeros(width - |raw|) + raw else raw;
      if bytes[0] < 128 then BigEndian(256 * Pow256(width) + value) else bytes
  }

  function Decode(bytes: ByteString): (value: int)
  {
    if |bytes| == 0 then 0
    else if bytes[0] >= 128 then FromBigEndian(bytes) - Pow256(|bytes|)
    else FromBigEndian(bytes)
  }

  function NegativeWidth(value: int): (width: nat)
    requires value < 0
  {
    (BitLen(-value) + 8) / 8
  }

  // -------------------------------------------------------------- magnitudes

  lemma {:induction false} BigEndianRoundTrip(value: nat)
    ensures FromBigEndian(BigEndian(value)) == value
  {
    if value > 0 {
      BigEndianRoundTrip(value / 256);
      assert BigEndian(value)[..|BigEndian(value)| - 1] == BigEndian(value / 256);
    }
  }

  /** A magnitude has `width` bytes exactly when it lies in [256^(width-1), 256^width). */
  lemma {:induction false} BigEndianWidth(value: nat, width: nat)
    requires width >= 1 && Pow256(width - 1) <= value < Pow256(width)
    ensures |BigEndian(value)| == width
    ensures BigEndian(value)[0] == value / Pow256(width - 1)
  {
    if width == 1 {
      assert BigEndian(value / 256) == [];
    } else {
      BigEndianWidth(value / 256, width - 1);
      DivDiv(value, Pow256(width - 2));
    }
  }

  lemma DivDiv(value: nat, m: int)
    requires m >= 1
    ensures value / 256 / m == value / (256 * m)
  {
    ModSplit(value, m);
    var q, l := value / 256 / m, value / 256 % m;
    assert value / 256 == m * q + l;
    assert value == (256 * m) * q + (value % 256 + 256 * l) by {
      assert 256 * (m * q) == (256 * m) * q;
    }
    DivModUnique(value, 256 * m, q, value % 256 + 256 * l);
  }

  lemma {:induction false} BitLenBound(value: nat)
    ensures value < Pow2(BitLen(value))
    ensures value > 0 ==> BitLen(value) >= 1 && Pow2(BitLen(value) - 1) <= value
  {
    if value > 0 {
      BitLenBound(value / 2);
    }
  }

  lemma {:induction false} Pow2Of8(width: nat)
    ensures Pow2(8 * width) == Pow256(width)
  {
    if width > 0 {
      Pow2Of8(width - 1);
      EightBits();
      Pow2Add(8 * (width - 1), 8);
    }
  }

  lemma {:induction false} Pow2Add(a: nat, b: nat)
    ensures Pow2(a + b) == Pow2(a) * Pow2(b)
  {
    if b > 0 {
      Pow2Add(a, b - 1);
      assert Pow2(a) * (2 * Pow2(b - 1)) == 2 * (Pow2(a) * Pow2(b - 1));
    }
  }

  lemma {:induction false} Pow2Monotone(a: nat, b: nat)
    requires a <= b
    ensures Pow2(a) <= Pow2(b)
  {
    if a < b {
      Pow2Monotone(a, b - 1);
    }
  }

  lemma Pow256Even(width: nat)
    requires width >= 1
    ensures Pow256(width) % 2 == 0 && Pow256(width) / 2 == 128 * Pow256(width - 1)
    ensures Pow2(8 * width - 1) == Pow256(width) / 2
  {
    Pow2Of8(width);
  }

  // ------------------------------------------------------------- the encoder

  lemma NegativeModulus(value: int)
    requires value < 0
    ensures NegativeWidth(value) >= 1
    ensures Pow256(NegativeWidth(value)) + 2 * value > 0
  {
    var n, width := BitLen(-value), NegativeWidth(value);
    BitLenBound(-value);
    Pow256Even(width);
    Pow2Monotone(n, 8 * width - 1);
  }

  /** The width formula leaves at least one sign bit, so the magnitude is below half the modulus. */
  lemma NegativeFits(value: int)
    requires value < 0
    ensures var width := NegativeWidth(value);
      width >= 1 && Pow256(width) + value > 0
      && |BigEndian(Pow256(width) + value)| == width
      && BigEndian(Pow256(width) + value)[0] >= 128
  {
    var width := NegativeWidth(value);
    NegativeModulus(value);
    var u := Pow256(width) + value;
    assert u >= 128 * Pow256(width - 1);
    BigEndianWidth(u, width);
    DivAtLeast(u, Pow256(width - 1), 128);
  }

  lemma DivAtLeast(value: int, m: int, q: int)
    requires m >= 1 && value >= q * m
    ensures value / m >= q
  {
    var d := value / m;
    assert value < m * d + m;
    assert m * (q - d) == q * m - m * d;
    if d < q {
      MulAtLeast(m, q - d);
    }
  }

  lemma DivBelow(value: int, m: int, q: int)
    requires m >= 1 && 0 <= value < q * m
    ensures value / m < q
  {
    var d := value / m;
    assert value >= m * d;
    assert m * (d - q) == m * d - q * m;
    if d > q {
      MulAtLeast(m, d - q);
    }
  }

  /** Neither repair after the width computation is ever taken. */
  lemma RepairsUnreachable(value: int)
    requires value < 0
    ensures Pow256(NegativeWidth(value)) + value > 0
    ensures Encode(value) == BigEndian(Pow256(NegativeWidth(value)) + value)
    ensures |Encode(value)| == NegativeWidth(value)
  {
    NegativeFits(value);
  }

  lemma RoundTrip(value: int)
    ensures Decode(Encode(value)) == value
  {
    if value >= 0 {
      var bytes := BigEndian(value);
      BigEndianRoundTrip(value);
      if |bytes| > 0 && bytes[0] >= 128 {
        LeadingZero(bytes);
      }
    } else {
      var u := Pow256(NegativeWidth(value)) + value;
      RepairsUnreachable(value);
      NegativeFits(value);
      BigEndianRoundTrip(u);
    }
  }

  lemma {:induction false} LeadingZero(bytes: ByteString)
    ensures FromBigEndian([0] + bytes) == FromBigEndian(bytes)
  {
    if bytes == [] {
      assert ([0] + bytes)[..0] == [];
    } else {
      var init := bytes[..|bytes| - 1];
      LeadingZero(init);
      assert ([0] + bytes)[..|bytes|] == [0] + init;
    }
  }

  /** Half of the two's-complement range of `width` bytes. */
  function Half(width: nat): int
  {
    if width == 0 then 0 else 128 * Pow256(width - 1)
  }

  /** The exact number of bytes written: the least width whose half range exceeds the magnitude. */
  lemma EncodedWidth(value: int, width: nat)
    requires width >= 1 && Half(width - 1) <= Abs(value) < Half(width)
    ensures |Encode(value)| == width
  {
    if value == 0 {
      assert width == 1;
    } else if value > 0 {
      if value < Pow256(width - 1) {
        assert width >= 2;
        assert Half(width - 1) >= Pow256(width - 2);
        BigEndianWidth(value, width - 1);
        DivAtLeast(value, Pow256(width - 2), 128);
      } else {
        BigEndianWidth(value, width);
        DivBelow(value, Pow256(width - 1), 128);
      }
    } else {
      RepairsUnreachable(value);
      NegativeWidthIs(-value, width);
    }
  }

  lemma NegativeWidthIs(magnitude: nat, width: nat)
    requires width >= 1 && magnitude > 0 && Half(width - 1) <= magnitude < Half(width)
    ensures (BitLen(magnitude) + 8) / 8 == width
  {
    hide BitLen, Pow2, Pow256;
    var n := BitLen(magnitude);
    BitLenBound(magnitude);
    Pow256Even(width);
    if n > 8 * width - 1 {
      Pow2Monotone(8 * width - 1, n - 1);
      assert false;
    }
    if width >= 2 {
      Pow256Even(width - 1);
      if n <= 8 * (width - 1) - 1 {
        Pow2Monotone(n, 8 * (width - 1) - 1);
        assert false;
      }
    }
  }

  lemma {:induction false} HalfMonotone(a: nat, b: nat)
    requires a <= b
    ensures Half(a) <= Half(b)
  {
    if a < b {
      HalfMonotone(a, b - 1);
    }
  }

  /** The least width for a magnitude exists, so `EncodedWidth` covers every integer. */
  lemma {:induction false} WidthExists(magnitude: nat, bound: nat) returns (width: nat)
    requires bound >= 1 && magnitude < Half(bound)
    ensures 1 <= width <= bound && Half(width - 1) <= magnitude < Half(width)
  {
    if bound == 1 || Half(bound - 1) <= magnitude {
      width := bound;
    } else {
      width := WidthExists(magnitude, bound - 1);
    }
  }

  lemma WidthAtMost(value: int, bound: nat)
    requires bound >= 1 && Abs(value) < Half(bound)
    ensures |Encode(value)| <= bound
  {
    var width := WidthExists(Abs(value), bound);
    EncodedWidth(value, width);
  }

  /**
   At the lower end of each half range `width` bytes can represent -Half(width), yet
   width + 1 are written; zero is such an end too, being what no bytes decode to.
   */
  lemma LowerEndNotMinimal(width: nat) returns (shorter: ByteString)
    ensures |Encode(-Half(width))| == width + 1
    ensures |shorter| == width && Decode(shorter) == -Half(width)
  {
    if width == 0 {
      EncodedWidth(0, 1);
      shorter := [];
    } else {
      assert Half(width + 1) == 128 * Pow256(width) && Pow256(width) == 256 * Pow256(width - 1);
      EncodedWidth(-Half(width), width + 1);
      TopByteThenZeros(width - 1);
      shorter := [128] + Zeros(width - 1);
    }
  }

  lemma {:induction false} FromBigEndianBound(bytes: ByteString)
    ensures FromBigEndian(bytes) < Pow256(|bytes|)
  {
    if bytes != [] {
      FromBigEndianBound(bytes[..|bytes| - 1]);
    }
  }

  /** The first byte says in which 256th of the range the value lies. */
  lemma {:induction false} TopByte(bytes: ByteString)
    requires bytes != []
    ensures bytes[0] * Pow256(|bytes| - 1) <= FromBigEndian(bytes) < (bytes[0] + 1) * Pow256(|bytes| - 1)
  {
    var n := |bytes| - 1;
    if n > 0 {
      var init := bytes[..n];
      TopByte(init);
      NextDigit(bytes[0], Pow256(n - 1), FromBigEndian(init), bytes[n]);
    } else {
      assert bytes[..0] == [];
    }
  }

  lemma NextDigit(b: int, p: int, value: int, digit: Byte)
    requires b * p <= value < (b + 1) * p
    ensures b * (256 * p) <= 256 * value + digit < (b + 1) * (256 * p)
  {
    assert b * (256 * p) == 256 * (b * p) && (b + 1) * (256 * p) == 256 * ((b + 1) * p);
  }

  /** `width` bytes hold exactly the integers of their half ranges. */
  lemma DecodedRange(bytes: ByteString)
    ensures bytes == [] ==> Decode(bytes) == 0
    ensures bytes != [] ==> -Half(|bytes|) <= Decode(bytes) < Half(|bytes|)
  {
    if bytes != [] {
      var p := Pow256(|bytes| - 1);
      TopByte(bytes);
      FromBigEndianBound(bytes);
      assert Pow256(|bytes|) == 256 * p;
      if bytes[0] >= 128 {
        assert bytes[0] * p >= 128 * p by { MulMonotone(128, bytes[0], p); }
      } else {
        assert (bytes[0] + 1) * p <= 128 * p by { MulMonotone(bytes[0] + 1, 128, p); }
      }
    }
  }

  lemma MulMonotone(a: int, b: int, p: int)
    requires a <= b && p >= 1
    ensures a * p <= b * p
  {
    assert b * p - a * p == (b - a) * p;
  }

  /** `value` is the lower end of a half range. */
  ghost predicate LowerEnd(value: int)
  {
    exists width: nat :: value == -Half(width)
  }

  ghost predicate Minimal(value: int)
  {
    forall bytes: ByteString :: Decode(bytes) == value ==> |Encode(value)| <= |bytes|
  }

  /** The encoding is the shortest one exactly for the integers that are no lower end of a half range. */
  lemma MinimalExactlyWhen(value: int)
    ensures Minimal(value) <==> !LowerEnd(value)
  {
    if LowerEnd(value) {
      var width: nat :| value == -Half(width);
      var shorter := LowerEndNotMinimal(width);
      assert Decode(shorter) == value && |shorter| < |Encode(value)|;
    } else {
      assert value != -Half(0);
      var bound := BoundExists(Abs(value));
      var width := WidthExists(Abs(value), bound);
      EncodedWidth(value, width);
      forall bytes: ByteString | Decode(bytes) == value ensures |Encode(value)| <= |bytes| {
        DecodedRange(bytes);
        assert value != -Half(|bytes|);
        if |bytes| < width {
          HalfMonotone(|bytes|, width - 1);
        }
      }
    }
  }

  lemma {:induction false} BoundExists(magnitude: nat) returns (bound: nat)
    ensures bound >= 1 && magnitude < Half(bound)
  {
    if magnitude == 0 {
      bound := 1;
    } else {
      var below := BoundExists(magnitude - 1);
      bound := below + 1;
      assert Half(bound) == 256 * Half(below);
    }
  }

  lemma {:induction false} TopByteThenZeros(n: nat)
    ensures FromBigEndian([128] + Zeros(n)) == 128 * Pow256(n)
  {
    var bytes := [128] + Zeros(n);
    if n == 0 {
      assert bytes[..0] == [];
    } else {
      assert bytes[..n] == [128] + Zeros(n - 1);
      TopByteThenZeros(n - 1);
    }
  }

  // -------------------------------------------------- decimals fit 16 bytes

  function Pow10(n: nat): (p: int)
    ensures p >= 1
  {
    if n == 0 then 1 else 10 * Pow10(n - 1)
  }

  lemma {:induction false} Pow10Monotone(a: nat, b: nat)
    requires a <= b
    ensures Pow10(a) <= Pow10(b)
  {
    if a < b {
      Pow10Monotone(a, b - 1);
    }
  }

  lemma TenTo18()
    ensures Pow10(18) == 1000000000000000000
  {
    assert Pow10(6) == 1000000 by { assert Pow10(3) == 1000; }
    assert Pow10(9) == 1000000000 by { assert Pow10(7) == 10000000; }
    assert Pow10(12) == 1000000000000 by { assert Pow10(10) == 10000000000; }
    assert Pow10(15) == 1000000000000000 by { assert Pow10(13) == 10000000000000; }
    assert Pow10(16) == 10000000000000000;
  }

  lemma TenTo38()
    ensures Pow10(38) == 100000000000000000000000000000000000000
  {
    TenTo18();
    assert Pow10(20) == 100000000000000000000;
    assert Pow10(22) == 10000000000000000000000;
    assert Pow10(24) == 1000000000000000000000000;
    assert Pow10(26) == 100000000000000000000000000;
    assert Pow10(28) == 10000000000000000000000000000;
    assert Pow10(30) == 1000000000000000000000000000000;
    assert Pow10(32) == 100000000000000000000000000000000;
    assert Pow10(34) == 10000000000000000000000000000000000;
    assert Pow10(36) == 1000000000000000000000000000000000000;
  }

  lemma Half16()
    ensures Half(16) == 0x8000_0000_0000_0000_0000_0000_0000_0000
  {
    PowersOf256();
    assert Pow256(10) == 256 * Pow256(9) && Pow256(9) == 256 * Pow256(8);
    assert Pow256(12) == 256 * Pow256(11) && Pow256(11) == 256 * Pow256(10);
    assert Pow256(14) == 256 * Pow256(13) && Pow256(13) == 256 * Pow256(12);
    assert Pow256(15) == 256 * Pow256(14);
  }

  /** Every unscaled value of precision at most 38 fits the 16 bytes an array slot reserves. */
  lemma DecimalFits16(value: int, precision: nat)
    requires precision <= 38 && Abs(value) < Pow10(precision)
    ensures |Encode(value)| <= 16
  {
    Pow10Monotone(precision, 38);
    TenTo38();
    Half16();
    WidthAtMost(value, 16);
  }
}
