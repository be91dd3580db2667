/** Which keys and prefixes can be routed at all, stated over the key's values. */
module RoutingAcceptance {
  import opened Bytes
  import opened Schema
  import opened KeyCodec
  import opened RowAcceptance
  import opened Routing

  /** Non-null values of the columns' types that are representable and together within the size limit. */
  predicate Encodable(types: seq<LogicalType>, key: seq<Value>)
  {
    ValidRow(types, key) && (forall j :: 0 <= j < |key| ==> !key[j].Null?)
    && KeyOk(types, key, 0) && KeyLength(types, key, 0) <= MAX_ROW_BYTES
  }

  ghost predicate ValidColumns(k: Keys)
  {
    forall n :: n in k.types ==> ValidColumn(k.types[n])
  }

  lemma KeyEncodes(k: Keys, names: seq<Name>, key: seq<Value>)
    requires ValidColumns(k) && forall n :: n in names ==> n in k.types
    ensures EncodeKey(TypesOf(k, names), key).Ok? <==> Encodable(TypesOf(k, names), key)
  {
    hide EncodeKey, ValidColumn;
    var types := TypesOf(k, names);
    forall j | 0 <= j < |types| ensures ValidColumn(types[j]) {
      assert names[j] in names;
    }
    KeyAcceptedExactly(types, key);
  }

  lemma KeyHasBytes(types: seq<LogicalType>, key: seq<Value>, i: nat)
    requires ValidKey(types, key) && i < |key| && KeyBytes(types, key, i).Ok?
    ensures |KeyBytes(types, key, i).value| >= 1
  {
    CellFits(types, key, i);
  }

  /** A bucket is found if and only if the bucket columns are encodable, and there are any, and buckets. */
  lemma BucketForExactly(k: Keys, values: map<Name, Value>, buckets: seq<nat>)
    requires ValidKeys(k) && ValidColumns(k)
    ensures BucketFor(k, values, buckets).Ok? <==>
      Encodable(TypesOf(k, BucketNames(k)), Pick(BucketNames(k), values)) && BucketNames(k) != [] && buckets != []
  {
    hide EncodeKey, Encodable, HashInt, HashBytes;
    var names := BucketNames(k);
    KeyEncodes(k, names, Pick(names, values));
    var key := EncodeKey(TypesOf(k, names), Pick(names, values));
    if key.Ok? {
      EncodedHasBytes(TypesOf(k, names), Pick(names, values));
    }
  }

  lemma EncodedHasBytes(types: seq<LogicalType>, key: seq<Value>)
    requires EncodeKey(types, key).Ok?
    ensures EncodeKey(types, key).value == [] <==> key == []
  {
    hide KeyBytes;
    if key != [] {
      KeyHasBytes(types, key, 0);
    } else {
      NoBytes(types);
    }
  }

  lemma NoBytes(types: seq<LogicalType>)
    requires ValidKey(types, [])
    ensures KeyBytes(types, [], 0) == Ok([])
  {
  }

  /** A key is routed if and only if it and its bucket columns are encodable and there are buckets. */
  lemma PointAcceptedExactly(k: Keys, key: seq<Value>, buckets: seq<nat>)
    requires ValidKeys(k) && ValidColumns(k) && |key| == |k.primary|
    ensures PointBucket(k, key, buckets).Ok? <==>
      Encodable(TypesOf(k, k.primary), key) && Encodable(TypesOf(k, BucketNames(k)), Pick(BucketNames(k), Named(k.primary, key)))
      && k.primary != [] && buckets != []
  {
    hide EncodeKey, Encodable, BucketFor, Named;
    KeyEncodes(k, k.primary, key);
    assert k.bucketKey != [] ==> k.bucketKey[0] in k.primary;
    BucketForExactly(k, Named(k.primary, key), buckets);
  }

  /**
   A prefix is routed if and only if it is not empty, covers a bucket key that leads the primary
   key, is encodable, and there are buckets.
   */
  lemma PrefixAcceptedExactly(k: Keys, prefix: seq<Value>, buckets: seq<nat>)
    requires ValidKeys(k) && ValidColumns(k) && |prefix| <= |k.primary|
    ensures PrefixBucket(k, prefix, buckets).Ok? <==>
      prefix != [] && BucketNames(k) <= k.primary && |BucketNames(k)| <= |prefix|
      && Encodable(TypesOf(k, k.primary[..|prefix|]), prefix) && buckets != []
  {
    hide EncodeKey, Encodable, BucketFor, Named;
    var names, m := BucketNames(k), |prefix|;
    forall n | n in k.primary[..m] ensures n in k.types {
      assert n in k.primary;
    }
    KeyEncodes(k, k.primary[..m], prefix);
    BucketForExactly(k, Named(k.primary, prefix), buckets);
    if prefix != [] && names <= k.primary && |names| <= m {
      PickLeads(k, prefix);
      KeyEncodes(k, names, prefix[..|names|]);
      if EncodeKey(TypesOf(k, k.primary[..m]), prefix).Ok? {
        PrefixEncodes(TypesOf(k, k.primary[..m]), prefix, |names|);
        assert TypesOf(k, k.primary[..m])[..|names|] == TypesOf(k, names);
      }
    }
  }

  /** The bucket columns of a prefix are its first values. */
  lemma PickLeads(k: Keys, prefix: seq<Value>)
    requires ValidKeys(k) && BucketNames(k) <= k.primary && |BucketNames(k)| <= |prefix| <= |k.primary|
    ensures Pick(BucketNames(k), Named(k.primary, prefix)) == prefix[..|BucketNames(k)|]
  {
    var names := BucketNames(k);
    var picked := Pick(names, Named(k.primary, prefix));
    forall i | 0 <= i < |names| ensures picked[i] == prefix[i] {
      assert names[i] == k.primary[i];
      NamedAt(k.primary, prefix, i);
    }
  }
}
