/**
 What the bucketing hash does with keys: every mixing step can be undone, so keys of one length
 that differ in one word or tail byte never collide, and it agrees with Fluss's own on the
 fixtures the client is held to.
 */
module Hashing {
  import opened Bytes
  import opened Routing

  // ------------------------------------------------------------------- undoing the steps

  // All factors of the hash are odd, so multiplying by them can be undone.

  function OverA(y: bv32): bv32
  {
    y * 0xdee13bb1
  }

  lemma OverAUndoes(x: bv32)
    ensures OverA(x * 0xcc9e2d51) == x
  {
    assert x * 0xcc9e2d51 * 0xdee13bb1 == x;
  }

  lemma TimesAIs(x: bv32)
    ensures TimesA(x) == x * 0xcc9e2d51
  {
  }

  lemma TimesAInjective(x: bv32, y: bv32)
    ensures OverA(TimesA(x)) == x && OverA(TimesA(y)) == y
    ensures TimesA(x) == TimesA(y) ==> x == y
  {
    hide TimesA, OverA;
    TimesAIs(x);
    TimesAIs(y);
    OverAUndoes(x);
    OverAUndoes(y);
  }

  function OverB(y: bv32): bv32
  {
    y * 0x56ed309b
  }

  lemma OverBUndoes(x: bv32)
    ensures OverB(x * 0x1b873593) == x
  {
    assert x * 0x1b873593 * 0x56ed309b == x;
  }

  lemma TimesBIs(x: bv32)
    ensures TimesB(x) == x * 0x1b873593
  {
  }

  lemma TimesBInjective(x: bv32, y: bv32)
    ensures OverB(TimesB(x)) == x && OverB(TimesB(y)) == y
    ensures TimesB(x) == TimesB(y) ==> x == y
  {
    hide TimesB, OverB;
    TimesBIs(x);
    TimesBIs(y);
    OverBUndoes(x);
    OverBUndoes(y);
  }

  function OverFive(y: bv32): bv32
  {
    y * 0xcccccccd
  }

  lemma OverFiveUndoes(x: bv32)
    ensures OverFive(x * 5) == x
  {
    assert x * 5 * 0xcccccccd == x;
  }

  lemma TimesFiveIs(x: bv32)
    ensures TimesFive(x) == x * 5
  {
  }

  lemma TimesFiveInjective(x: bv32, y: bv32)
    ensures OverFive(TimesFive(x)) == x && OverFive(TimesFive(y)) == y
    ensures TimesFive(x) == TimesFive(y) ==> x == y
  {
    hide TimesFive, OverFive;
    TimesFiveIs(x);
    TimesFiveIs(y);
    OverFiveUndoes(x);
    OverFiveUndoes(y);
  }

  function OverC(y: bv32): bv32
  {
    y * 0xa5cb9243
  }

  lemma OverCUndoes(x: bv32)
    ensures OverC(x * 0x85ebca6b) == x
  {
    assert x * 0x85ebca6b * 0xa5cb9243 == x;
  }

  lemma TimesCIs(x: bv32)
    ensures TimesC(x) == x * 0x85ebca6b
  {
  }

  lemma TimesCInjective(x: bv32, y: bv32)
    ensures OverC(TimesC(x)) == x && OverC(TimesC(y)) == y
    ensures TimesC(x) == TimesC(y) ==> x == y
  {
    hide TimesC, OverC;
    TimesCIs(x);
    TimesCIs(y);
    OverCUndoes(x);
    OverCUndoes(y);
  }

  function OverD(y: bv32): bv32
  {
    y * 0x7ed1b41d
  }

  lemma OverDUndoes(x: bv32)
    ensures OverD(x * 0xc2b2ae35) == x
  {
    assert x * 0xc2b2ae35 * 0x7ed1b41d == x;
  }

  lemma TimesDIs(x: bv32)
    ensures TimesD(x) == x * 0xc2b2ae35
  {
  }

  lemma TimesDInjective(x: bv32, y: bv32)
    ensures OverD(TimesD(x)) == x && OverD(TimesD(y)) == y
    ensures TimesD(x) == TimesD(y) ==> x == y
  {
    hide TimesD, OverD;
    TimesDIs(x);
    TimesDIs(y);
    OverDUndoes(x);
    OverDUndoes(y);
  }

  lemma Rotated(x: bv32)
    ensures RotateLeft(x, 15) == (x << 15) | (x >> 17)
    ensures RotateLeft(x, 13) == (x << 13) | (x >> 19)
  {
  }

  lemma RotateBack(x: bv32)
    ensures var y := (x << 15) | (x >> 17); (y << 17) | (y >> 15) == x
    ensures var y := (x << 13) | (x >> 19); (y << 19) | (y >> 13) == x
  {
  }

  lemma RotateInjective(x: bv32, y: bv32)
    ensures RotateLeft(x, 15) == RotateLeft(y, 15) ==> x == y
    ensures RotateLeft(x, 13) == RotateLeft(y, 13) ==> x == y
  {
    hide RotateLeft;
    Rotated(x);
    Rotated(y);
    RotateBack(x);
    RotateBack(y);
  }

  function Unfold16(a: bv32): bv32
  {
    a ^ (a >> 16)
  }

  function Unfold13(a: bv32): bv32
  {
    a ^ (a >> 13) ^ (a >> 26)
  }

  lemma Folded(x: bv32)
    ensures Fold(x, 16) == x ^ (x >> 16) && Fold(x, 13) == x ^ (x >> 13)
  {
  }

  lemma FoldBack(x: bv32)
    ensures Unfold16(x ^ (x >> 16)) == x && Unfold13(x ^ (x >> 13)) == x
  {
  }

  lemma Unfolds(x: bv32)
    ensures Unfold16(Fold(x, 16)) == x && Unfold13(Fold(x, 13)) == x
  {
    hide Fold, Unfold16, Unfold13;
    Folded(x);
    FoldBack(x);
  }

  lemma FoldInjective(x: bv32, y: bv32)
    ensures Fold(x, 16) == Fold(y, 16) ==> x == y
    ensures Fold(x, 13) == Fold(y, 13) ==> x == y
  {
    hide Fold, Unfold16, Unfold13;
    Unfolds(x);
    Unfolds(y);
  }

  lemma XorInjective(x: bv32, y: bv32, z: bv32)
    ensures x ^ z == y ^ z ==> x == y
    ensures z ^ x == z ^ y ==> x == y
  {
  }

  lemma AddInjective(x: bv32, y: bv32)
    ensures x + 0xe6546b64 == y + 0xe6546b64 ==> x == y
  {
  }

  lemma ScrambleInjective(x: bv32, y: bv32)
    requires Scramble(x) == Scramble(y)
    ensures x == y
  {
    hide RotateLeft, TimesA, TimesB, OverA, OverB;
    var a, b := TimesA(x), TimesA(y);
    TimesBInjective(RotateLeft(a, 15), RotateLeft(b, 15));
    RotateInjective(a, b);
    TimesAInjective(x, y);
  }

  lemma TurnInjective(x: bv32, y: bv32)
    requires Turn(x) == Turn(y)
    ensures x == y
  {
    hide RotateLeft, TimesFive, OverFive;
    AddInjective(TimesFive(RotateLeft(x, 13)), TimesFive(RotateLeft(y, 13)));
    TimesFiveInjective(RotateLeft(x, 13), RotateLeft(y, 13));
    RotateInjective(x, y);
  }

  /** Mixing in a value loses neither the hash so far nor the value. */
  lemma MixInjective(hash: bv32, other: bv32, value: bv32, different: bv32)
    ensures MixHash(hash, value) == MixHash(other, value) ==> hash == other
    ensures MixHash(hash, value) == MixHash(hash, different) ==> value == different
  {
    hide Turn, Scramble;
    if MixHash(hash, value) == MixHash(other, value) {
      TurnInjective(hash ^ Scramble(value), other ^ Scramble(value));
      XorInjective(hash, other, Scramble(value));
    }
    if MixHash(hash, value) == MixHash(hash, different) {
      TurnInjective(hash ^ Scramble(value), hash ^ Scramble(different));
      XorInjective(Scramble(value), Scramble(different), hash);
      ScrambleInjective(value, different);
    }
  }

  lemma FinalInjective(x: bv32, y: bv32)
    requires FinalHash(x) == FinalHash(y)
    ensures x == y
  {
    hide Fold, TimesC, TimesD, OverC, OverD;
    var a, a' := Fold(x, 16), Fold(y, 16);
    var b, b' := Fold(TimesC(a), 13), Fold(TimesC(a'), 13);
    FoldInjective(TimesD(b), TimesD(b'));
    TimesDInjective(b, b');
    FoldInjective(TimesC(a), TimesC(a'));
    TimesCInjective(a, a');
    FoldInjective(x, y);
  }

  // -------------------------------------------------------------------- keys of one length

  /** The pieces of a key that are mixed in, in order: its whole words, then its tail bytes. */
  function Pieces(value: ByteString): nat
  {
    |value| / 4 + |value| % 4
  }

  function Piece(value: ByteString, i: nat): bv32
    requires i < Pieces(value)
  {
    if i < |value| / 4 then Word(value, 4 * i)
    else SignExtended(value[4 * (|value| / 4) + (i - |value| / 4)])
  }

  /** A word is its four bytes, lowest first; a tail byte is the signed number its bits are. */
  lemma PiecesAre(a: bv32, b: bv32, c: bv32, d: bv32)
    requires a < 256 && b < 256 && c < 256 && d < 256
    ensures var w := a | (b << 8) | (c << 16) | (d << 24);
      w & 255 == a && (w >> 8) & 255 == b && (w >> 16) & 255 == c && w >> 24 == d
    ensures a >= 128 ==> a | 0xffff_ff00 == a - 256
  {
  }

  lemma WordIs(value: ByteString, offset: nat)
    requires offset + 4 <= |value|
    ensures var w := Word(value, offset);
      w & 255 == value[offset] as bv32 && (w >> 8) & 255 == value[offset + 1] as bv32
      && (w >> 16) & 255 == value[offset + 2] as bv32 && w >> 24 == value[offset + 3] as bv32
  {
    ByteFits(value[offset]);
    ByteFits(value[offset + 1]);
    ByteFits(value[offset + 2]);
    ByteFits(value[offset + 3]);
    PiecesAre(value[offset] as bv32, value[offset + 1] as bv32, value[offset + 2] as bv32, value[offset + 3] as bv32);
  }

  lemma ByteFits(b: Byte)
    ensures b as bv32 < 256 && (b as bv32 < 128 <==> b < 128)
  {
  }

  lemma SignIs(b: Byte)
    ensures SignExtended(b) == if b < 128 then b as bv32 else b as bv32 - 256
  {
    ByteFits(b);
    PiecesAre(b as bv32, 0, 0, 0);
  }

  function MixFrom(value: ByteString, i: nat, hash: bv32): bv32
    requires i <= Pieces(value)
    decreases Pieces(value) - i
  {
    if i == Pieces(value) then hash else MixFrom(value, i + 1, MixHash(hash, Piece(value, i)))
  }

  lemma {:induction false} TailIsPieces(value: ByteString, i: nat, hash: bv32)
    requires |value| / 4 <= i <= Pieces(value)
    ensures HashTail(value, 4 * (|value| / 4) + (i - |value| / 4), hash) == MixFrom(value, i, hash)
    decreases Pieces(value) - i
  {
    hide MixHash, SignExtended;
    if i < Pieces(value) {
      TailIsPieces(value, i + 1, MixHash(hash, Piece(value, i)));
    }
  }

  lemma {:induction false} WordsArePieces(value: ByteString, i: nat, hash: bv32)
    requires i <= |value| / 4
    ensures HashTail(value, 4 * (|value| / 4), HashWords(value, i, hash)) == MixFrom(value, i, hash)
    decreases |value| / 4 - i
  {
    hide MixHash, SignExtended, Word;
    if i < |value| / 4 {
      WordsArePieces(value, i + 1, MixHash(hash, Word(value, 4 * i)));
    } else {
      TailIsPieces(value, i, hash);
    }
  }

  function LengthWord(n: nat): bv32
    requires n < TWO_32
  {
    n as bv32
  }

  function Ends(hash: bv32, length: bv32): bv32
  {
    FinalHash(hash ^ length)
  }

  /** The end of a hash of `n` bytes. */
  function Sealed(hash: bv32, n: nat): bv32
    requires n < TWO_32
  {
    Ends(hash, LengthWord(n))
  }

  lemma SealedInjective(x: bv32, y: bv32, n: nat)
    requires n < TWO_32 && Sealed(x, n) == Sealed(y, n)
    ensures x == y
  {
    hide Ends, LengthWord;
    SameEnds(x, y, LengthWord(n));
  }

  lemma SameEnds(x: bv32, y: bv32, n: bv32)
    ensures Ends(x, n) == Ends(y, n) ==> x == y
  {
    hide FinalHash;
    if Ends(x, n) == Ends(y, n) {
      FinalInjective(x ^ n, y ^ n);
      XorInjective(x, y, n);
    }
  }

  /** The hash mixes every piece of the key, once and in order, then its length. */
  lemma HashIsMixed(value: ByteString, seed: bv32)
    requires |value| < TWO_32
    ensures HashBytes(value, seed) == Sealed(MixFrom(value, 0, seed), |value|)
  {
    hide FinalHash, HashTail, HashWords, MixFrom;
    WordsArePieces(value, 0, seed);
  }

  /** Keys that agree from piece `i` on end alike only from like hashes. */
  lemma {:induction false} MixFromInjective(a: ByteString, b: ByteString, i: nat, hash: bv32, other: bv32)
    requires |a| == |b| && i <= Pieces(a) && forall j :: i <= j < Pieces(a) ==> Piece(a, j) == Piece(b, j)
    requires MixFrom(a, i, hash) == MixFrom(b, i, other)
    ensures hash == other
    decreases Pieces(a) - i
  {
    hide MixHash, Piece;
    if i < Pieces(a) {
      var piece := Piece(a, i);
      MixFromInjective(a, b, i + 1, MixHash(hash, piece), MixHash(other, piece));
      MixInjective(hash, other, piece, piece);
    }
  }

  lemma {:induction false} OnePieceApart(a: ByteString, b: ByteString, i: nat, k: nat, hash: bv32)
    requires |a| == |b| && i <= k < Pieces(a) && Piece(a, k) != Piece(b, k)
    requires forall j :: i <= j < Pieces(a) && j != k ==> Piece(a, j) == Piece(b, j)
    ensures MixFrom(a, i, hash) != MixFrom(b, i, hash)
    decreases k - i
  {
    hide MixHash, Piece;
    if i < k {
      OnePieceApart(a, b, i + 1, k, MixHash(hash, Piece(a, i)));
    } else if MixFrom(a, i, hash) == MixFrom(b, i, hash) {
      MixFromInjective(a, b, i + 1, MixHash(hash, Piece(a, i)), MixHash(hash, Piece(b, i)));
      MixInjective(hash, hash, Piece(a, i), Piece(b, i));
    }
  }

  /** Keys of one length that differ in exactly one word or one tail byte have different hashes. */
  lemma NearKeysNeverCollide(a: ByteString, b: ByteString, k: nat, seed: bv32)
    requires |a| == |b| < TWO_32 && k < Pieces(a) && Piece(a, k) != Piece(b, k)
    requires forall j :: 0 <= j < Pieces(a) && j != k ==> Piece(a, j) == Piece(b, j)
    ensures HashBytes(a, seed) != HashBytes(b, seed)
  {
    hide HashBytes, Sealed, MixFrom, Piece;
    HashIsMixed(a, seed);
    HashIsMixed(b, seed);
    OnePieceApart(a, b, 0, k, seed);
    if HashBytes(a, seed) == HashBytes(b, seed) {
      SealedInjective(MixFrom(a, 0, seed), MixFrom(b, 0, seed), |a|);
    }
  }

  /** The second hash, before its sign is dropped. */
  function Second(value: bv32): bv32
  {
    Ends(MixHash(0, value), 4)
  }

  lemma SecondInjective(x: bv32, y: bv32)
    requires Second(x) == Second(y)
    ensures x == y
  {
    hide Ends, MixHash;
    SameEnds(MixHash(0, x), MixHash(0, y), 4);
    MixInjective(0, 0, x, y);
  }

  /** Only opposite hashes become one when the sign is dropped, besides zero and the hash without a negation. */
  lemma SecondHashPairs(x: bv32, y: bv32)
    requires HashInt(x) == HashInt(y) && x != y
    ensures Second(x) != Second(y) && (Second(x) == 0 - Second(y) || HashInt(x) == 0)
  {
    hide FinalHash, MixHash, Magnitude;
    if Second(x) == Second(y) {
      SecondInjective(x, y);
    }
    MagnitudePairs(Second(x), Second(y));
  }

  lemma MagnitudePairs(p: bv32, q: bv32)
    requires Magnitude(p) == Magnitude(q) && p != q
    ensures p == 0 - q || Magnitude(p) == 0
  {
    hide Magnitude;
    var m := Magnitude(p);
    if p == SIGN || q == SIGN {
    } else if p < SIGN && q > SIGN {
    } else if p > SIGN && q < SIGN {
      NegateBack(q, p);
    } else if p > SIGN && q > SIGN {
      SameNegation(p, q, m);
    }
  }

  lemma SameNegation(p: bv32, q: bv32, m: bv32)
    requires m == 0 - p && m == 0 - q
    ensures p == q
  {
  }

  lemma NegateBack(p: bv32, q: bv32)
    requires p == 0 - q
    ensures q == 0 - p
  {
  }

  /** A key's bucket is the twice-mixed hash of its pieces and length, modulo the number of buckets. */
  lemma BucketFollowsPieces(key: ByteString, count: nat)
    requires 0 < |key| < TWO_32 && count > 0
    ensures BucketIndex(key, count) == Ok((Magnitude(Second(Sealed(MixFrom(key, 0, 42), |key|))) as int) % count)
  {
    hide MixFrom, Sealed, HashBytes, Magnitude, FinalHash, MixHash;
    HashIsMixed(key, 42);
  }

  // ------------------------------------------------------------------------------ fixture

  lemma FlussMix1()
    ensures MixHash(0x0000002a, 0x73756c66) == 0x283a44cd
  {
    Rotated(TimesA(0x73756c66));
    Rotated(0x0000002a ^ Scramble(0x73756c66));
  }

  lemma FlussMix2()
    ensures MixHash(0x283a44cd, 0x00000073) == 0xb161f9e9
  {
    Rotated(TimesA(0x00000073));
    Rotated(0x283a44cd ^ Scramble(0x00000073));
  }

  lemma FlussMix3()
    ensures MixHash(0x00000000, 0x7b384a17) == 0x0bc8809e
  {
    Rotated(TimesA(0x7b384a17));
    Rotated(0x00000000 ^ Scramble(0x7b384a17));
  }

  lemma FlussFinal1()
    ensures FinalHash(0xb161f9ec) == 0x7b384a17
  {
    Folded(0xb161f9ec);
    assert Fold(0xb161f9ec, 16) == 0xb161488d;
    assert TimesC(0xb161488d) == 0xc15794ef;
    Folded(0xc15794ef);
    assert Fold(0xc15794ef, 13) == 0xc1519e53;
    assert TimesD(0xc1519e53) == 0x7b38312f;
    Folded(0x7b38312f);
    assert Fold(0x7b38312f, 16) == 0x7b384a17;
  }

  lemma FlussFinal2()
    ensures FinalHash(0x0bc8809a) == 0x8822f047
  {
    Folded(0x0bc8809a);
    assert Fold(0x0bc8809a, 16) == 0x0bc88b52;
    assert TimesC(0x0bc88b52) == 0xa906ef46;
    Folded(0xa906ef46);
    assert Fold(0xa906ef46, 13) == 0xa903a771;
    assert TimesD(0xa903a771) == 0x88227865;
    Folded(0x88227865);
    assert Fold(0x88227865, 16) == 0x8822f047;
  }

  /** The pieces and length of the key "fluss" hash to bucket 13 of 17, as in Fluss itself. */
  lemma FixtureFluss()
    ensures HashInt(Sealed(MixHash(MixHash(42, 0x73756c66), 0x00000073), 5)) == 0x77dd0fb9 && 0x77dd0fb9 % 17 == 13
  {
    hide MixHash, FinalHash;
    assert LengthWord(5) == 5;
    FlussMix1();
    FlussMix2();
    FlussFinal1();
    FlussMix3();
    FlussFinal2();
  }
}
