/**
 What the decoders promise on arbitrary bytes: they never read outside the buffer (every
 function of RowCodec is total), they only produce values the schema accepts, and an
 accepted row accounts for every byte of its buffer.
 */
module RowDecoder {
  import opened Bytes
  import opened Schema
  import opened RowCodec

  lemma WordOfFits(word: Word, image: ByteString)
    requires |image| == WordWidth(word) && WordOf(word, image).Ok?
    ensures WordFits(word, WordOf(word, image).value)
  {
    PowersOf256();
  }

  lemma CompactedWordFits(encoded: ByteString, position: nat, word: Word)
    requires ReadCompactedWord(encoded, position, word).Ok?
    ensures WordFits(word, ReadCompactedWord(encoded, position, word).value.0)
  {
    hide ReadVar, WordOf, Little, FromLittle, Pow256;
    if !(word.Int? || word.Date? || word.Time? || word.BigInt?) {
      WordOfFits(word, ReadFixed(encoded, position, WordWidth(word)).value.0);
    }
  }

  lemma {:induction false} CompactedFits(encoded: ByteString, position: nat, root: Root)
    requires position <= |encoded| && ReadCompacted(encoded, position, root).Ok?
    ensures Fits(root, ReadCompacted(encoded, position, root).value.0)
    decreases root, 4
  {
    hide ReadVar, NestedValue, ReadCompactedWord;
    match root
    case WordRoot(word) => CompactedWordFits(encoded, position, word);
    case TextRoot(_) =>
    case Timestamp(_, _) =>
    case Decimal(_, _) =>
    case _ => NestedFits(Compacted, root, ReadLengthBytes(encoded, position).value.0);
  }

  lemma {:induction false} IndexedFits(encoded: ByteString, position: nat, root: Root, length: int)
    requires position <= |encoded| && ReadIndexed(encoded, position, root, length).Ok?
    ensures Fits(root, ReadIndexed(encoded, position, root, length).value.0)
    decreases root, 4
  {
    hide NestedValue, WordOf, FromLittle, TrimZero;
    match root
    case WordRoot(word) => WordOfFits(word, ReadFixed(encoded, position, WordWidth(word)).value.0);
    case TextRoot(_) =>
    case Timestamp(_, _) =>
    case Decimal(_, _) =>
    case _ => NestedFits(Indexed, root, ReadFixed(encoded, position, length).value.0);
  }

  lemma {:induction false} ElementFits(layout: Layout, encoded: ByteString, slot: nat, root: Root)
    requires ReadElement(layout, encoded, slot, root).Ok?
    ensures Fits(root, ReadElement(layout, encoded, slot, root).value)
    decreases root, 4
  {
    hide NestedValue, WordOf, FromLittle;
    match root
    case WordRoot(word) => WordOfFits(word, encoded[slot..slot + WordWidth(word)]);
    case TextRoot(_) =>
    case Timestamp(_, _) =>
    case Decimal(_, _) =>
    case _ => NestedFits(layout, root, ReadVariable(encoded, slot).value);
  }

  lemma {:induction false} NestedFits(layout: Layout, root: Root, bytes: ByteString)
    requires Nested(root) && NestedValue(layout, root, bytes).Ok?
    ensures Fits(root, NestedValue(layout, root, bytes).value)
    decreases root, 3
  {
    hide DecodeArray, DecodeRow, FromLittle;
    match root
    case Array(e) => ArrayFits(layout, e, bytes);
    case Map(k, e) =>
      var keyLength := FromLittle(bytes[..4]);
      ArrayFits(layout, k, bytes[4..4 + keyLength]);
      ArrayFits(layout, e, bytes[4 + keyLength..]);
      var keys := DecodeArray(layout, k, bytes[4..4 + keyLength]).value;
      var values := DecodeArray(layout, e, bytes[4 + keyLength..]).value;
      assert Keys(Entries(keys, values)) == keys && Values(Entries(keys, values)) == values;
    case Row(fields) => DecodedRowIsValid(layout, fields, bytes);
  }

  lemma {:induction false} ArrayFits(layout: Layout, t: LogicalType, encoded: ByteString)
    requires DecodeArray(layout, t, encoded).Ok?
    ensures AllAccepted(t, DecodeArray(layout, t, encoded).value)
    decreases t, 3
  {
    ElementsFit(layout, t, encoded, FromLittle(encoded[..4]), 0);
  }

  lemma {:induction false} ElementsFit(layout: Layout, t: LogicalType, encoded: ByteString, count: nat, i: nat)
    requires i <= count && FixedBytes(t.root, count) <= |encoded|
    requires DecodeElements(layout, t, encoded, count, i).Ok?
    ensures AllAccepted(t, DecodeElements(layout, t, encoded, count, i).value)
    decreases t, 2, count - i
  {
    hide ReadElement, Slots, Bit, Fits;
    if i < count {
      BitmapInside(t.root, count, i);
      ElementsFit(layout, t, encoded, count, i + 1);
      if !BitAt(encoded, 4, i) {
        ElementFits(layout, encoded, SlotAt(t.root, count, i), t.root);
        NullFitsNothing(t.root);
      }
    }
  }

  lemma {:induction false} CellFitsColumn(layout: Layout, encoded: ByteString, position: nat, t: LogicalType, length: int)
    requires position <= |encoded| && ReadCell(layout, encoded, position, t, length).Ok?
    ensures Accepts(t, ReadCell(layout, encoded, position, t, length).value.0)
    ensures !ReadCell(layout, encoded, position, t, length).value.0.Null?
    decreases t
  {
    hide ReadCompacted, ReadIndexed, Fits;
    if layout.Compacted? {
      CompactedFits(encoded, position, t.root);
    } else {
      IndexedFits(encoded, position, t.root, length);
    }
    NullFitsNothing(t.root);
  }

  lemma NullFitsNothing(root: Root)
    ensures !Fits(root, Null)
  {
  }

  /** Column `column`, of type `t`, is `v`, and its value occupies bytes [from, to). */
  ghost predicate Span(layout: Layout, t: LogicalType, encoded: ByteString, column: nat, v: Value,
                       length: int, from: nat, to: nat)
    requires column / 8 < |encoded|
  {
    from <= to <= |encoded| && BitAt(encoded, 0, column) == v.Null?
    && if v.Null? then to == from else ReadCell(layout, encoded, from, t, length) == Ok((v, to))
  }

  /**
   `cuts[k]` is where column i + k begins: consecutive cuts bound what each column consumed,
   and the last cut is the end of the buffer.
   */
  ghost predicate Tiles(layout: Layout, fields: seq<LogicalType>, encoded: ByteString, i: nat,
                        row: seq<Value>, lengths: seq<int>, cuts: seq<nat>)
    requires i <= |fields| && NullBytes(|fields|) <= |encoded|
  {
    |row| == |lengths| == |fields| - i && |cuts| == |row| + 1 && cuts[|row|] == |encoded|
    && forall k :: 0 <= k < |row| ==>
         Span(layout, fields[i + k], encoded, i + k, row[k], lengths[k], cuts[k], cuts[k + 1])
  }

  lemma {:induction false} CellsTile(layout: Layout, fields: seq<LogicalType>, encoded: ByteString,
                                    i: nat, position: nat, lengthPosition: nat)
    returns (lengths: seq<int>, cuts: seq<nat>)
    requires i <= |fields| && position <= |encoded| && NullBytes(|fields|) <= |encoded|
    requires lengthPosition + LengthSlots(layout, fields, i) <= |encoded|
    requires DecodeCells(layout, fields, encoded, i, position, lengthPosition).Ok?
    ensures var row := DecodeCells(layout, fields, encoded, i, position, lengthPosition).value;
      |cuts| >= 1 && cuts[0] == position && Tiles(layout, fields, encoded, i, row, lengths, cuts)
      && forall k :: 0 <= k < |row| ==> Accepts(fields[i + k], row[k])
    decreases fields, |fields| - i
  {
    hide ReadCell, Bit, FromLittle, Fits, Tiles;
    if i == |fields| {
      lengths, cuts := [], [position];
      NoTile(layout, fields, encoded);
    } else {
      var row := DecodeCells(layout, fields, encoded, i, position, lengthPosition).value;
      var length := -1;
      if BitAt(encoded, 0, i) {
        lengths, cuts := CellsTile(layout, fields, encoded, i + 1, position, lengthPosition);
      } else {
        var owns := OwnsLength(layout, fields[i].root);
        length := if owns then FromLittle(encoded[lengthPosition..lengthPosition + 4]) else -1;
        var (v, next) := ReadCell(layout, encoded, position, fields[i], length).value;
        lengths, cuts :=
          CellsTile(layout, fields, encoded, i + 1, next, if owns then lengthPosition + 4 else lengthPosition);
        CellFitsColumn(layout, encoded, position, fields[i], length);
      }
      lengths, cuts := [length] + lengths, [position] + cuts;
      assert row[1..] == row[1..] + [] && lengths[1..] + [] == lengths[1..] && cuts[1..] + [] == cuts[1..];
      PrependTile(layout, fields, encoded, i, row, lengths, cuts);
    }
  }

  lemma NoTile(layout: Layout, fields: seq<LogicalType>, encoded: ByteString)
    requires NullBytes(|fields|) <= |encoded|
    ensures Tiles(layout, fields, encoded, |fields|, [], [], [|encoded|])
  {
  }

  lemma PrependTile(layout: Layout, fields: seq<LogicalType>, encoded: ByteString, i: nat,
                    row: seq<Value>, lengths: seq<int>, cuts: seq<nat>)
    requires i < |fields| && NullBytes(|fields|) <= |encoded| && |row| >= 1 && |lengths| >= 1 && |cuts| >= 2
    requires Tiles(layout, fields, encoded, i + 1, row[1..], lengths[1..], cuts[1..])
    requires Span(layout, fields[i], encoded, i, row[0], lengths[0], cuts[0], cuts[1])
    ensures Tiles(layout, fields, encoded, i, row, lengths, cuts)
  {
    hide Span;
    forall k | 0 <= k < |row|
      ensures Span(layout, fields[i + k], encoded, i + k, row[k], lengths[k], cuts[k], cuts[k + 1])
    {
      if k > 0 {
        var j := k - 1;
        assert i + 1 + j == i + k;
        assert Span(layout, fields[i + 1 + j], encoded, i + 1 + j, row[1..][j], lengths[1..][j], cuts[1..][j], cuts[1..][j + 1]);
      }
    }
  }

  /** Whatever the bytes, an accepted row has exactly the schema's columns, each one valid. */
  lemma {:induction false} DecodedRowIsValid(layout: Layout, fields: seq<LogicalType>, encoded: ByteString)
    requires DecodeRow(layout, fields, encoded).Ok?
    ensures ValidRow(fields, DecodeRow(layout, fields, encoded).value)
    decreases fields, |fields| + 1
  {
    hide DecodeCells, Accepts;
    var _, _ := CellsTile(layout, fields, encoded, 0, HeaderBytes(layout, fields), NullBytes(|fields|));
  }

  /** The header and the intervals the columns consumed tile the whole buffer. */
  lemma DecodedRowTiles(layout: Layout, fields: seq<LogicalType>, encoded: ByteString)
    returns (lengths: seq<int>, cuts: seq<nat>)
    requires DecodeRow(layout, fields, encoded).Ok?
    ensures NullBytes(|fields|) <= |encoded|
    ensures Tiles(layout, fields, encoded, 0, DecodeRow(layout, fields, encoded).value, lengths, cuts)
    ensures |cuts| >= 1 && cuts[0] == HeaderBytes(layout, fields)
  {
    lengths, cuts := CellsTile(layout, fields, encoded, 0, HeaderBytes(layout, fields), NullBytes(|fields|));
  }
}
