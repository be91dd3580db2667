/**
 Compacted keys: the key columns' compacted values one after the other, with no null
 bitmap. The key encoding of a table is what point lookups, prefix lookups and bucket
 hashing agree on.
 */
module KeyCodec {
  import opened Bytes
  import opened Schema
  import opened RowCodec
  import opened RowRoundTrip

  /** The types of the key columns and non-null values that fit them. */
  predicate ValidKey(types: seq<LogicalType>, key: seq<Value>)
  {
    ValidRow(types, key) && forall i :: 0 <= i < |key| ==> !key[i].Null?
  }

  function KeyBytes(types: seq<LogicalType>, key: seq<Value>, i: nat): (r: Result<ByteString>)
    requires ValidKey(types, key) && i <= |key|
    decreases |key| - i
  {
    if i == |key| then Ok([])
    else
      CellFits(types, key, i);
      var value :- CompactedValue(types[i].root, key[i]);
      var rest :- KeyBytes(types, key, i + 1);
      Ok(value + rest)
  }

  function EncodeKey(types: seq<LogicalType>, key: seq<Value>): (r: Result<ByteString>)
    ensures r.Ok? ==> ValidKey(types, key) && |r.value| <= MAX_ROW_BYTES
  {
    if !ValidKey(types, key) then Err
    else
      var bytes :- KeyBytes(types, key, 0);
      if |bytes| > MAX_ROW_BYTES then Err else Ok(bytes)
  }

  /** The loop of `encodeKeyColumns`. */
  method EncodeKeyLoop(types: seq<LogicalType>, key: seq<Value>) returns (r: Result<ByteString>)
    ensures r == EncodeKey(types, key)
  {
    hide CompactedValue;
    if !ValidKey(types, key) {
      return Err;
    }
    var encoded: ByteString := [];
    var i := 0;
    PrependNothing(KeyBytes(types, key, 0));
    while i < |key|
      invariant 0 <= i <= |key|
      invariant KeyBytes(types, key, 0) == Prepend(encoded, KeyBytes(types, key, i))
    {
      CellFits(types, key, i);
      var value := CompactedValue(types[i].root, key[i]);
      if value.Err? {
        return Err;
      }
      PrependStep(encoded, value.value, KeyBytes(types, key, i + 1));
      encoded := encoded + value.value;
      i := i + 1;
    }
    assert encoded + [] == encoded;
    if |encoded| > MAX_ROW_BYTES {
      return Err;
    }
    return Ok(encoded);
  }

  function Prepend(head: ByteString, rest: Result<ByteString>): Result<ByteString>
  {
    match rest
    case Err => Err
    case Ok(bytes) => Ok(head + bytes)
  }

  lemma PrependNothing(rest: Result<ByteString>)
    ensures Prepend([], rest) == rest
  {
    if rest.Ok? {
      assert [] + rest.value == rest.value;
    }
  }

  lemma PrependStep(a: ByteString, b: ByteString, rest: Result<ByteString>)
    ensures Prepend(a, Prepend(b, rest)) == Prepend(a + b, rest)
  {
    if rest.Ok? {
      assert a + (b + rest.value) == a + b + rest.value;
    }
  }

  // ------------------------------------------------------------ a key is self-delimiting

  /** Reads one value per type, starting at `position`. */
  function ReadKey(types: seq<LogicalType>, encoded: ByteString, position: nat, i: nat): (r: Result<(seq<Value>, nat)>)
    requires position <= |encoded| && i <= |types|
    ensures r.Ok? ==> position <= r.value.1 <= |encoded| && |r.value.0| == |types| - i
    decreases |types| - i
  {
    if i == |types| then Ok(([], position))
    else
      var (v, next) :- ReadCompacted(encoded, position, types[i].root);
      var (rest, end) :- ReadKey(types, encoded, next, i + 1);
      Ok(([v] + rest, end))
  }

  /** What the stored bytes keep of a key: instants truncated to their precision. */
  function CanonKey(types: seq<LogicalType>, key: seq<Value>, i: nat): (r: seq<Value>)
    requires ValidKey(types, key) && i <= |key|
    ensures |r| == |key| - i
    decreases |key| - i
  {
    if i == |key| then []
    else
      CellFits(types, key, i);
      [CanonValue(Compacted, true, types[i].root, key[i])] + CanonKey(types, key, i + 1)
  }

  predicate CanonicalKey(types: seq<LogicalType>, key: seq<Value>)
    requires ValidKey(types, key)
  {
    forall i :: 0 <= i < |key| ==> Fits(types[i].root, key[i]) && CanonicalValue(Compacted, true, types[i].root, key[i])
  }

  /** Wherever a key's bytes stand in a buffer, reading from there gives the key and its end. */
  lemma {:induction false} KeyReads(types: seq<LogicalType>, key: seq<Value>, i: nat, bytes: ByteString,
                                    encoded: ByteString, position: nat)
    requires ValidKey(types, key) && i <= |key| && KeyBytes(types, key, i) == Ok(bytes)
    requires HoldsAt(encoded, position, bytes)
    ensures ReadKey(types, encoded, position, i) == Ok((CanonKey(types, key, i), position + |bytes|))
    decreases |key| - i
  {
    hide CompactedValue, ReadCompacted, CanonValue;
    if i < |key| {
      CellFits(types, key, i);
      var value := CompactedValue(types[i].root, key[i]).value;
      var rest := KeyBytes(types, key, i + 1).value;
      HoldsAtSplit(encoded, position, value, rest);
      CompactedReads(types[i].root, key[i], value, encoded, position);
      KeyReads(types, key, i + 1, rest, encoded, position + |value|);
    }
  }

  lemma PrefixValid(types: seq<LogicalType>, key: seq<Value>, m: nat)
    requires ValidKey(types, key) && m <= |key|
    ensures ValidKey(types[..m], key[..m])
  {
    forall i | 0 <= i < m ensures Accepts(types[..m][i], key[..m][i]) {
      assert Accepts(types[i], key[i]);
    }
  }

  /** The bytes of a key begin with the bytes of its first `m` columns. */
  lemma {:induction false} KeyBytesSplit(types: seq<LogicalType>, key: seq<Value>, m: nat, i: nat)
    requires ValidKey(types, key) && i <= m <= |key| && KeyBytes(types, key, i).Ok?
    ensures ValidKey(types[..m], key[..m])
    ensures KeyBytes(types[..m], key[..m], i).Ok? && KeyBytes(types, key, m).Ok?
    ensures KeyBytes(types, key, i).value == KeyBytes(types[..m], key[..m], i).value + KeyBytes(types, key, m).value
    decreases |key| - i
  {
    hide CompactedValue;
    PrefixValid(types, key, m);
    if i < m {
      KeyBytesSplit(types, key, m, i + 1);
      CellFits(types, key, i);
      var value := CompactedValue(types[i].root, key[i]).value;
      assert types[..m][i] == types[i] && key[..m][i] == key[i];
      assert value + (KeyBytes(types[..m], key[..m], i + 1).value + KeyBytes(types, key, m).value)
          == value + KeyBytes(types[..m], key[..m], i + 1).value + KeyBytes(types, key, m).value;
    } else {
      assert [] + KeyBytes(types, key, m).value == KeyBytes(types, key, m).value;
    }
  }

  lemma {:induction false} CanonKeyFixpoint(types: seq<LogicalType>, key: seq<Value>, i: nat)
    requires ValidKey(types, key) && CanonicalKey(types, key) && i <= |key|
    ensures CanonKey(types, key, i) == key[i..]
    decreases |key| - i
  {
    hide CanonValue, CanonicalValue;
    if i < |key| {
      CellFits(types, key, i);
      CanonFixpoint(Compacted, true, types[i].root, key[i]);
      CanonKeyFixpoint(types, key, i + 1);
    }
  }

  /** If a prefix's bytes begin a key's bytes, the key begins with that prefix, as stored. */
  lemma PrefixBytesDetermine(types: seq<LogicalType>, key: seq<Value>, prefix: seq<Value>)
    requires |prefix| <= |key| && EncodeKey(types, key).Ok?
    requires EncodeKey(types[..|prefix|], prefix).Ok?
    requires EncodeKey(types[..|prefix|], prefix).value <= EncodeKey(types, key).value
    ensures ValidKey(types[..|prefix|], key[..|prefix|])
    ensures CanonKey(types[..|prefix|], prefix, 0) == CanonKey(types[..|prefix|], key[..|prefix|], 0)
  {
    hide KeyBytes, ReadKey, CanonKey;
    var m := |prefix|;
    var encoded, bytes := EncodeKey(types, key).value, EncodeKey(types[..m], prefix).value;
    KeyBytesSplit(types, key, m, 0);
    var head := KeyBytes(types[..m], key[..m], 0).value;
    assert encoded[0..|bytes|] == bytes && encoded[0..|head|] == head;
    KeyReads(types[..m], prefix, 0, bytes, encoded, 0);
    KeyReads(types[..m], key[..m], 0, head, encoded, 0);
  }

  /**
   For canonical keys, the bytes of a prefix begin the bytes of a key exactly when the prefix
   begins the key. With a prefix as long as the key: distinct keys have distinct bytes.
   */
  lemma PrefixIff(types: seq<LogicalType>, key: seq<Value>, prefix: seq<Value>)
    requires |prefix| <= |key| && EncodeKey(types, key).Ok?
    requires EncodeKey(types[..|prefix|], prefix).Ok?
    requires CanonicalKey(types, key) && CanonicalKey(types[..|prefix|], prefix)
    ensures EncodeKey(types[..|prefix|], prefix).value <= EncodeKey(types, key).value <==> prefix <= key
  {
    hide KeyBytes, CanonKey, CanonicalValue;
    var m := |prefix|;
    KeyBytesSplit(types, key, m, 0);
    if EncodeKey(types[..m], prefix).value <= EncodeKey(types, key).value {
      PrefixBytesDetermine(types, key, prefix);
      assert CanonicalKey(types[..m], key[..m]) by {
        forall i | 0 <= i < m
          ensures Fits(types[..m][i].root, key[..m][i]) && CanonicalValue(Compacted, true, types[..m][i].root, key[..m][i])
        {
          assert Fits(types[i].root, key[i]);
        }
      }
      CanonKeyFixpoint(types[..m], prefix, 0);
      CanonKeyFixpoint(types[..m], key[..m], 0);
      assert prefix[0..] == prefix && key[..m][0..] == key[..m];
    }
    if prefix <= key {
      assert prefix == key[..m];
    }
  }

  /** Distinct canonical keys encode differently. */
  lemma DistinctKeys(types: seq<LogicalType>, a: seq<Value>, b: seq<Value>)
    requires EncodeKey(types, a).Ok? && EncodeKey(types, b).Ok?
    requires CanonicalKey(types, a) && CanonicalKey(types, b)
    ensures EncodeKey(types, a) == EncodeKey(types, b) <==> a == b
  {
    hide KeyBytes;
    assert types[..|b|] == types;
    PrefixIff(types, a, b);
  }

  /** A prefix of an encodable key is encodable, so prefix lookups refuse only what keys refuse. */
  lemma PrefixEncodes(types: seq<LogicalType>, key: seq<Value>, m: nat)
    requires EncodeKey(types, key).Ok? && m <= |key|
    ensures EncodeKey(types[..m], key[..m]).Ok?
    ensures EncodeKey(types[..m], key[..m]).value <= EncodeKey(types, key).value
  {
    hide KeyBytes;
    KeyBytesSplit(types, key, m, 0);
  }
}
