/**
 Bucket hashing and routing: the Murmur3 variant of the bucketing function and the bucket
 that the upsert writer, point lookups and prefix lookups choose for a key.
 */
module Routing {
  import opened Bytes
  import opened Schema
  import opened KeyCodec

  // -------------------------------------------------------------------------- hashing

  function RotateLeft(x: bv32, n: nat): bv32
    requires n <= 32
  {
    (x << n) | (x >> (32 - n))
  }

  function TimesA(x: bv32): bv32
  {
    x * 0xcc9e2d51
  }

  function TimesB(x: bv32): bv32
  {
    x * 0x1b873593
  }

  function TimesFive(x: bv32): bv32
  {
    x * 5
  }

  function TimesC(x: bv32): bv32
  {
    x * 0x85ebca6b
  }

  function TimesD(x: bv32): bv32
  {
    x * 0xc2b2ae35
  }

  function Scramble(value: bv32): bv32
  {
    TimesB(RotateLeft(TimesA(value), 15))
  }

  function Turn(hash: bv32): bv32
  {
    TimesFive(RotateLeft(hash, 13)) + 0xe6546b64
  }

  function MixHash(hash: bv32, value: bv32): bv32
  {
    Turn(hash ^ Scramble(value))
  }

  function Fold(x: bv32, n: nat): bv32
    requires n <= 32
  {
    x ^ (x >> n)
  }

  function FinalHash(hash: bv32): bv32
  {
    Fold(TimesD(Fold(TimesC(Fold(hash, 16)), 13)), 16)
  }

  /** A little-endian word of the key. */
  function Word(value: ByteString, offset: nat): bv32
    requires offset + 4 <= |value|
  {
    (value[offset] as bv32) | ((value[offset + 1] as bv32) << 8)
    | ((value[offset + 2] as bv32) << 16) | ((value[offset + 3] as bv32) << 24)
  }

  /** A tail byte is taken as a signed one. */
  function SignExtended(b: Byte): bv32
  {
    if b < 128 then b as bv32 else (b as bv32) | 0xffffff00
  }

  /** The whole words of the key from word `k` on. */
  function HashWords(value: ByteString, k: nat, hash: bv32): bv32
    requires k <= |value| / 4
    decreases |value| / 4 - k
  {
    if k == |value| / 4 then hash
    else
      assert 4 * k + 4 <= |value|;
      HashWords(value, k + 1, MixHash(hash, Word(value, 4 * k)))
  }

  function HashTail(value: ByteString, offset: nat, hash: bv32): bv32
    requires offset <= |value|
    decreases |value| - offset
  {
    if offset == |value| then hash else HashTail(value, offset + 1, MixHash(hash, SignExtended(value[offset])))
  }

  function HashBytes(value: ByteString, seed: bv32): bv32
    requires |value| < TWO_32
  {
    FinalHash(HashTail(value, 4 * (|value| / 4), HashWords(value, 0, seed)) ^ (|value| as bv32))
  }

  /** `murmurBytes`: whole words first, then the tail bytes one by one. */
  method HashBytesLoop(value: ByteString, seed: bv32) returns (r: bv32)
    requires |value| < TWO_32
    ensures r == HashBytes(value, seed)
  {
    hide MixHash, FinalHash, Word, SignExtended;
    var hash := seed;
    var words := |value| / 4;
    var k := 0;
    while k < words
      invariant 0 <= k <= words && HashWords(value, k, hash) == HashWords(value, 0, seed)
    {
      assert 4 * k + 4 <= |value|;
      hash := MixHash(hash, Word(value, 4 * k));
      k := k + 1;
    }
    var offset := 4 * words;
    ghost var before := hash;
    while offset < |value|
      invariant 4 * words <= offset <= |value|
      invariant HashTail(value, offset, hash) == HashTail(value, 4 * words, before)
    {
      hash := MixHash(hash, SignExtended(value[offset]));
      offset := offset + 1;
    }
    r := FinalHash(hash ^ (|value| as bv32));
  }

  const SIGN: bv32 := 0x8000_0000

  /** The absolute value of a hash read as a signed integer, with the one that has none mapped to zero. */
  function HashInt(value: bv32): (r: bv32)
    ensures r < SIGN
  {
    var hash := FinalHash(MixHash(0, value) ^ 4);
    Magnitude(hash)
  }

  function Magnitude(hash: bv32): (r: bv32)
    ensures r < SIGN
    ensures hash < SIGN ==> r == hash
    ensures hash > SIGN ==> r == 0 - hash
    ensures hash == SIGN ==> r == 0
  {
    if hash < SIGN then hash else if hash == SIGN then 0 else 0 - hash
  }

  /** `flussBucket`: an index into the bucket list. */
  function BucketIndex(key: ByteString, count: int): (r: Result<nat>)
    requires |key| < TWO_32
    ensures r.Ok? <==> key != [] && count > 0
    ensures r.Ok? ==> r.value < count
  {
    if key == [] || count <= 0 then Err else Ok((HashInt(HashBytes(key, 42)) as int) % count)
  }

  // -------------------------------------------------------------------------- routing

  type Name = nat

  /** Key columns by name; an empty bucket key means the whole primary key. */
  datatype Keys = Keys(primary: seq<Name>, bucketKey: seq<Name>, types: map<Name, LogicalType>)

  ghost predicate ValidKeys(k: Keys)
  {
    (forall i, j :: 0 <= i < j < |k.primary| ==> k.primary[i] != k.primary[j])
    && (forall n :: n in k.primary ==> n in k.types)
    && (forall n :: n in k.bucketKey ==> n in k.primary)
  }

  function BucketNames(k: Keys): seq<Name>
  {
    if k.bucketKey == [] then k.primary else k.bucketKey
  }

  function TypesOf(k: Keys, names: seq<Name>): seq<LogicalType>
    requires forall n :: n in names ==> n in k.types
  {
    seq(|names|, i requires 0 <= i < |names| => k.types[names[i]])
  }

  /** The values of a key or of a prefix of it, by column name. */
  function Named(primary: seq<Name>, values: seq<Value>): (m: map<Name, Value>)
    requires |values| <= |primary|
  {
    if values == [] then map[]
    else Named(primary[..|values| - 1], values[..|values| - 1])[primary[|values| - 1] := values[|values| - 1]]
  }

  lemma {:induction false} NamedAt(primary: seq<Name>, values: seq<Value>, i: nat)
    requires |values| <= |primary| && i < |values|
    requires forall x, y :: 0 <= x < y < |primary| ==> primary[x] != primary[y]
    ensures primary[i] in Named(primary, values) && Named(primary, values)[primary[i]] == values[i]
    decreases |values|
  {
    var last := |values| - 1;
    if i < last {
      NamedAt(primary[..last], values[..last], i);
    }
  }

  /** Values picked by name; a name without a value is a null, which no key accepts. */
  function Pick(names: seq<Name>, values: map<Name, Value>): (r: seq<Value>)
    ensures |r| == |names|
  {
    seq(|names|, i requires 0 <= i < |names| => if names[i] in values then values[names[i]] else Null)
  }

  /** The bucket of named values: `bucketForValues` and the same steps in the upsert writer. */
  function BucketFor(k: Keys, values: map<Name, Value>, buckets: seq<nat>): (r: Result<nat>)
    requires ValidKeys(k)
    ensures r.Ok? ==> r.value in buckets
  {
    var names := BucketNames(k);
    var key :- EncodeKey(TypesOf(k, names), Pick(names, values));
    var index :- BucketIndex(key, |buckets|);
    Ok(buckets[index])
  }

  /**
   The bucket of an upsert, a partial upsert or a delete: the writer picks the primary key and
   the bucket key, each by name, from the values it was given for the columns.
   */
  function WriterBucket(k: Keys, values: map<Name, Value>, buckets: seq<nat>): (r: Result<nat>)
    requires ValidKeys(k)
    ensures r.Ok? ==> r.value in buckets
  {
    var encoded :- EncodeKey(TypesOf(k, k.primary), Pick(k.primary, values));
    BucketFor(k, values, buckets)
  }

  /** The bucket of a point lookup: the key's values are named by the primary key only. */
  function PointBucket(k: Keys, key: seq<Value>, buckets: seq<nat>): (r: Result<nat>)
    requires ValidKeys(k) && |key| == |k.primary|
    ensures r.Ok? ==> r.value in buckets
  {
    var encoded :- EncodeKey(TypesOf(k, k.primary), key);
    BucketFor(k, Named(k.primary, key), buckets)
  }

  /** Prefix lookups need the bucket key to lead the primary key and to be inside the prefix. */
  function PrefixBucket(k: Keys, prefix: seq<Value>, buckets: seq<nat>): (r: Result<nat>)
    requires ValidKeys(k) && |prefix| <= |k.primary|
    ensures r.Ok? ==> r.value in buckets
  {
    var names := BucketNames(k);
    if |prefix| < |names| || !(names <= k.primary) || prefix == [] then Err
    else
      var encoded :- EncodeKey(TypesOf(k, k.primary[..|prefix|]), prefix);
      BucketFor(k, Named(k.primary, prefix), buckets)
  }

  /** A prefix names the bucket-key columns with the values the key has there. */
  lemma PickFromPrefix(k: Keys, key: seq<Value>, prefix: seq<Value>)
    requires ValidKeys(k) && |key| == |k.primary| && prefix <= key
    requires |BucketNames(k)| <= |prefix| && BucketNames(k) <= k.primary
    ensures Pick(BucketNames(k), Named(k.primary, prefix)) == Pick(BucketNames(k), Named(k.primary, key))
  {
    var names := BucketNames(k);
    var a, b := Pick(names, Named(k.primary, prefix)), Pick(names, Named(k.primary, key));
    forall i | 0 <= i < |names| ensures a[i] == b[i] {
      NamedAt(k.primary, prefix, i);
      NamedAt(k.primary, key, i);
      assert names[i] == k.primary[i];
    }
  }

  /** Bucket columns picked through the primary key are those of the whole row. */
  lemma PickThroughKey(k: Keys, values: map<Name, Value>)
    requires ValidKeys(k)
    ensures Pick(BucketNames(k), Named(k.primary, Pick(k.primary, values))) == Pick(BucketNames(k), values)
  {
    var names, key := BucketNames(k), Pick(k.primary, values);
    var a, b := Pick(names, Named(k.primary, key)), Pick(names, values);
    forall i | 0 <= i < |names| ensures a[i] == b[i] {
      assert names[i] in k.primary;
      var j :| 0 <= j < |k.primary| && k.primary[j] == names[i];
      NamedAt(k.primary, key, j);
    }
  }

  /** A point lookup looks where the writer wrote the row with that key, errors included. */
  lemma PointFollowsWriter(k: Keys, values: map<Name, Value>, buckets: seq<nat>)
    requires ValidKeys(k)
    ensures PointBucket(k, Pick(k.primary, values), buckets) == WriterBucket(k, values, buckets)
  {
    hide EncodeKey, BucketIndex, Named;
    PickThroughKey(k, values);
  }

  /** The columns of a row or of a partial update, by name; its key is what stands in the key columns. */
  lemma RowKey(k: Keys, columns: seq<Name>, row: seq<Value>, i: nat, at: nat)
    requires ValidKeys(k) && |row| == |columns| && i < |k.primary| && at < |columns| && columns[at] == k.primary[i]
    requires forall x, y :: 0 <= x < y < |columns| ==> columns[x] != columns[y]
    ensures Pick(k.primary, Named(columns, row))[i] == row[at]
  {
    NamedAt(columns, row, at);
  }

  /**
   The writer of a row, a point lookup of its key and every accepted prefix lookup of that key
   go to the same bucket of the list; if the prefix is routed, so is every encodable key under it.
   */
  lemma PrefixFollowsKey(k: Keys, values: map<Name, Value>, prefix: seq<Value>, buckets: seq<nat>)
    requires ValidKeys(k) && prefix <= Pick(k.primary, values)
    requires PrefixBucket(k, prefix, buckets).Ok? && EncodeKey(TypesOf(k, k.primary), Pick(k.primary, values)).Ok?
    ensures WriterBucket(k, values, buckets) == PrefixBucket(k, prefix, buckets)
    ensures PointBucket(k, Pick(k.primary, values), buckets) == PrefixBucket(k, prefix, buckets)
    ensures PrefixBucket(k, prefix, buckets).value in buckets
  {
    hide EncodeKey, BucketIndex, Named;
    PointFollowsWriter(k, values, buckets);
    PickFromPrefix(k, Pick(k.primary, values), prefix);
  }

  /** A routed prefix's bytes begin the bytes of every key under it, so the bucket can find them. */
  lemma PrefixBytesFollowKey(k: Keys, key: seq<Value>, prefix: seq<Value>)
    requires ValidKeys(k) && |key| == |k.primary| && prefix <= key
    requires EncodeKey(TypesOf(k, k.primary), key).Ok?
    ensures EncodeKey(TypesOf(k, k.primary[..|prefix|]), prefix).Ok?
    ensures EncodeKey(TypesOf(k, k.primary[..|prefix|]), prefix).value <= EncodeKey(TypesOf(k, k.primary), key).value
  {
    hide EncodeKey;
    var m := |prefix|;
    PrefixEncodes(TypesOf(k, k.primary), key, m);
    assert TypesOf(k, k.primary)[..m] == TypesOf(k, k.primary[..m]);
    assert key[..m] == prefix;
  }

  // ------------------------------------------------------------------- target columns

  predicate IsDigit(c: char)
  {
    '0' <= c <= '9'
  }

  function Digit(d: nat): (c: char)
    requires d < 10
    ensures IsDigit(c)
  {
    '0' + d as char
  }

  function Decimal(n: nat): (r: string)
    ensures |r| >= 1 && forall i :: 0 <= i < |r| ==> IsDigit(r[i])
  {
    if n < 10 then [Digit(n)] else Decimal(n / 10) + [Digit(n % 10)]
  }

  /** `targetKey`: the target columns in decimal, each followed by a comma. */
  function TargetKey(targets: seq<nat>): string
  {
    if targets == [] then "" else Decimal(targets[0]) + "," + TargetKey(targets[1..])
  }

  method TargetKeyLoop(targets: seq<nat>) returns (r: string)
    ensures r == TargetKey(targets)
  {
    hide Decimal;
    r := "";
    var i := 0;
    assert targets[0..] == targets && "" + TargetKey(targets) == TargetKey(targets);
    while i < |targets|
      invariant 0 <= i <= |targets| && r + TargetKey(targets[i..]) == TargetKey(targets)
    {
      assert targets[i..][0] == targets[i] && targets[i..][1..] == targets[i + 1..];
      Regroup(r, Decimal(targets[i]), ",", TargetKey(targets[i + 1..]));
      r := r + Decimal(targets[i]);
      r := r + ",";
      i := i + 1;
    }
    assert targets[i..] == [] && r + "" == r;
  }

  lemma Regroup(a: string, b: string, c: string, d: string)
    ensures a + (b + c + d) == a + b + c + d
  {
  }

  lemma DecimalLength(n: nat)
    ensures n < 10 <==> |Decimal(n)| == 1
  {
  }

  lemma {:induction false} DecimalInjective(a: nat, b: nat)
    requires Decimal(a) == Decimal(b)
    ensures a == b
    decreases a
  {
    var x, y := Decimal(a), Decimal(b);
    DecimalLength(a);
    DecimalLength(b);
    assert x[|x| - 1] == Digit(a % 10) && y[|y| - 1] == Digit(b % 10);
    if a >= 10 {
      assert x[..|x| - 1] == Decimal(a / 10) && y[..|y| - 1] == Decimal(b / 10);
      DecimalInjective(a / 10, b / 10);
    }
  }

  /** How many characters precede the first comma. */
  function BeforeComma(t: string): nat
  {
    if t == [] || t[0] == ',' then 0 else 1 + BeforeComma(t[1..])
  }

  lemma {:induction false} DigitsBeforeComma(a: string, x: string)
    requires forall i :: 0 <= i < |a| ==> IsDigit(a[i])
    ensures BeforeComma(a + "," + x) == |a|
  {
    if a != [] {
      DigitsBeforeComma(a[1..], x);
      assert (a + "," + x)[1..] == a[1..] + "," + x;
    }
  }

  /** Digits up to a comma are determined by the text. */
  lemma SplitAtComma(a: string, x: string, b: string, y: string)
    requires (forall i :: 0 <= i < |a| ==> IsDigit(a[i])) && (forall i :: 0 <= i < |b| ==> IsDigit(b[i]))
    requires a + "," + x == b + "," + y
    ensures a == b && x == y
  {
    DigitsBeforeComma(a, x);
    DigitsBeforeComma(b, y);
    var t := a + "," + x;
    assert t[..|a|] == a && t[..|b|] == b && t[|a| + 1..] == x && t[|b| + 1..] == y;
  }

  /** Mutations share a batch exactly when they name the same target columns. */
  lemma {:induction false} TargetKeyInjective(a: seq<nat>, b: seq<nat>)
    ensures TargetKey(a) == TargetKey(b) <==> a == b
    decreases |a|
  {
    hide Decimal;
    if TargetKey(a) == TargetKey(b) {
      if a == [] || b == [] {
        assert a != [] ==> |TargetKey(a)| >= 1;
        assert b != [] ==> |TargetKey(b)| >= 1;
      } else {
        SplitAtComma(Decimal(a[0]), TargetKey(a[1..]), Decimal(b[0]), TargetKey(b[1..]));
        DecimalInjective(a[0], b[0]);
        TargetKeyInjective(a[1..], b[1..]);
        assert a == [a[0]] + a[1..] && b == [b[0]] + b[1..];
      }
    }
  }
}
