/**
 The records of both codecs as bytes: encodings cut off anywhere, what a field
 cut short leaves behind; and the bytes of every record.
 */
module RecordBytes {
  import opened Machine
  import opened Varint
  import opened Wire
  import opened UnknownFields
  import opened WireErrors
  import opened Sequences
  import opened ResultsCodec
  import opened MetadataCodec
  import opened ResultsMessages
  import opened MetadataMessages

  // ---------- encodings cut off ----------

  function AsItems(fs: seq<Field>): (items: seq<Item>)
    ensures |items| == |fs| && forall i :: 0 <= i < |fs| ==> items[i] == Emitted(fs[i])
  {
    if fs == [] then [] else [Emitted(fs[0])] + AsItems(fs[1..])
  }

  lemma {:induction false} PrintAsItems(fs: seq<Field>)
    ensures PrintItems(AsItems(fs)) == PrintFields(fs) && EmittedOf(AsItems(fs)) == fs
  {
    hide PrintField;
    if fs != [] {
      assert AsItems(fs)[1..] == AsItems(fs[1..]);
      PrintAsItems(fs[1..]);
    }
  }

  lemma {:induction false} FieldsPrefix(fs: seq<Field>, n: nat)
    requires n <= |fs|
    ensures |PrintFields(fs[..n])| <= |PrintFields(fs)|
    ensures PrintFields(fs)[..|PrintFields(fs[..n])|] == PrintFields(fs[..n])
  {
    assert fs == fs[..n] + fs[n..];
    PrintAppend(fs[..n], fs[n..]);
    hide PrintFields;
  }

  /** Fields of a schema, cut off after k bytes: all fields before the cut, or an unexpected end. */
  lemma DecodeOfCutFields<M>(schema: Schema, apply: (M, Field) -> Parsed<M>, m: M, fs: seq<Field>, k: nat) returns (n: nat)
    requires forall f :: f in fs ==> Known(schema, f)
    requires k <= |PrintFields(fs)| <= MAX_INT && ApplyAll(apply, m, fs).Ok?
    ensures n <= |fs| && ApplyAll(apply, m, fs[..n]).Ok?
    ensures Decode(schema, apply, m, PrintFields(fs)[..k], 0) == Err(UnexpectedEOF)
            || (PrintFields(fs[..n]) == PrintFields(fs)[..k]
                && Decode(schema, apply, m, PrintFields(fs)[..k], 0) == ApplyAll(apply, m, fs[..n]))
  {
    hide Decode, PrintFields, PrintItems, EmittedOf, ApplyAll, WholeItems, Known, Admissible;
    var items := AsItems(fs);
    PrintAsItems(fs);
    assert forall item :: item in items ==> Admissible(schema, item) by { ItemsKnown(schema, fs); }
    DecodeOfCut(schema, apply, m, items, k);
    n := WholeItems(items, k);
    assert items[..n] == AsItems(fs[..n]);
    PrintAsItems(fs[..n]);
    FieldsPrefix(fs, n);
  }

  lemma ItemsKnown(schema: Schema, fs: seq<Field>)
    requires forall f :: f in fs ==> Known(schema, f)
    ensures forall item :: item in AsItems(fs) ==> Admissible(schema, item)
  {
    hide Known;
    forall item | item in AsItems(fs)
      ensures Admissible(schema, item)
    {
      var i :| 0 <= i < |fs| && AsItems(fs)[i] == item;
      assert fs[i] in fs;
    }
  }

  lemma {:induction false} GroupFieldsPrefix(groups: seq<Group>, n: nat)
    requires n <= |groups|
    ensures |GroupFields(groups)| == |groups| && GroupFields(groups)[..n] == GroupFields(groups[..n])
  {
    hide EncodeGroup;
    if groups != [] {
      GroupFieldsPrefix(groups[1..], if n > 0 then n - 1 else 0);
      if n > 0 {
        assert groups[..n][1..] == groups[1..][..n - 1];
      }
    }
  }

  /** The record of the first n fields of m. */
  function FirstFieldsOf(m: Results, n: nat): Results
    requires n <= |FieldsOfResults(m)|
  {
    GroupFieldsPrefix(m.groups, 0);
    if n == 0 then EMPTY_RESULTS
    else if m.receiptsHash == [] then Results([], m.groups[..n])
    else Results(m.receiptsHash, m.groups[..n - 1])
  }

  lemma FieldsOfFirst(m: Results, n: nat)
    requires n <= |FieldsOfResults(m)|
    ensures FieldsOfResults(FirstFieldsOf(m, n)) == FieldsOfResults(m)[..n]
    ensures FirstFieldsOf(m, n).groups <= m.groups
  {
    hide EncodeGroup;
    GroupFieldsPrefix(m.groups, 0);
    GroupFieldsPrefix(m.groups, if m.receiptsHash == [] then n else if n == 0 then 0 else n - 1);
    assert GroupFields([]) == [];
  }

  lemma FirstDecodes(m: Results, n: nat)
    requires n <= |FieldsOfResults(m)| && |PrintFields(FieldsOfResults(m)[..n])| <= MAX_INT
    ensures ApplyAll(ApplyToResults, EMPTY_RESULTS, FieldsOfResults(m)[..n]) == Ok(FirstFieldsOf(m, n))
    ensures EncodeResults(FirstFieldsOf(m, n)) == PrintFields(FieldsOfResults(m)[..n])
  {
    hide PrintFields, FieldsOfResults, EncodeGroup, ApplyAll, FirstFieldsOf;
    var x := FirstFieldsOf(m, n);
    FieldsOfFirst(m, n);
    FieldsOfResultsFit(x);
    ApplyFieldsOfResults(EMPTY_RESULTS, x);
    LeftUnit(x.groups);
  }

  /**
   An encoded record cut off after any number of bytes is an unexpected end, or it is the whole
   encoding of the record that is decoded, whose groups are the first ones of the original.
   */
  lemma TruncatedResults(m: Results, k: nat)
    requires k <= |EncodeResults(m)| <= MAX_INT
    ensures match DecodeResults(EMPTY_RESULTS, EncodeResults(m)[..k])
            case Err(e) => e == UnexpectedEOF
            case Ok(x) => EncodeResults(x) == EncodeResults(m)[..k] && x.groups <= m.groups
  {
    FieldsOfResultsFit(m);
    ApplyFieldsOfResults(EMPTY_RESULTS, m);
    hide Decode, PrintFields, FieldsOfResults, Known, EncodeGroup, ApplyAll, FirstFieldsOf;
    var n := DecodeOfCutFields(ResultsSchema, ApplyToResults, EMPTY_RESULTS, FieldsOfResults(m), k);
    if DecodeResults(EMPTY_RESULTS, EncodeResults(m)[..k]).Ok? {
      FieldsOfFirst(m, n);
      FieldsPrefix(FieldsOfResults(m), n);
      FirstDecodes(m, n);
    }
  }

  /** m with all fields from number k on left empty. */
  function Below(m: Metadata, k: nat): Metadata {
    Metadata(
      if 1 < k then m.sourceShardID else 0,
      if 2 < k then m.destinationShardID else 0,
      if 3 < k then m.round else 0,
      if 4 < k then m.headerNonce else 0,
      if 5 < k then m.headerHash else [],
      if 6 < k then m.miniblockHash else [],
      if 7 < k then m.deprecatedStatus else [],
      if 8 < k then m.epoch else 0,
      if 9 < k then m.sourceMetaNonce else 0,
      if 10 < k then m.destinationMetaNonce else 0,
      if 11 < k then m.sourceMetaHash else [],
      if 12 < k then m.destinationMetaHash else [],
      if 13 < k then m.miniblockType else 0)
  }

  lemma FieldBelow(m: Metadata, k: nat, j: nat)
    ensures FieldAt(Below(m, k), j) == if j < k then FieldAt(m, j) else []
    ensures |FieldAt(m, j)| <= 1
  {
  }

  lemma {:induction false} FieldsBelow(m: Metadata, k: nat, j: nat)
    requires j <= 14 && k <= 14
    ensures j <= k ==> FieldsFrom(Below(m, k), j) + FieldsFrom(m, k) == FieldsFrom(m, j)
    ensures j >= k ==> FieldsFrom(Below(m, k), j) == []
    decreases 14 - j
  {
    hide *;
    var x := Below(m, k);
    FieldsStep(m, j);
    FieldsStep(x, j);
    if j < 14 {
      FieldBelow(m, k, j);
      FieldsBelow(m, k, j + 1);
      if j < k {
        OneMoreInFront(FieldAt(m, j), FieldsFrom(x, j + 1), FieldsFrom(m, k));
      }
    }
    NothingBefore(FieldsFrom(m, k));
  }

  lemma FieldsStep(m: Metadata, j: nat)
    ensures j < 14 ==> FieldsFrom(m, j) == FieldAt(m, j) + FieldsFrom(m, j + 1)
    ensures j >= 14 ==> FieldsFrom(m, j) == []
  {
    hide FieldAt;
  }

  lemma OneMoreInFront(a: seq<Field>, b: seq<Field>, c: seq<Field>)
    ensures (a + b) + c == a + (b + c)
  {
  }

  lemma NothingBefore(c: seq<Field>)
    ensures [] + c == c
  {
  }

  /** Where the first n fields of m end. */
  lemma {:induction false} NumberOfField(m: Metadata, n: nat, k: nat) returns (end: nat)
    requires 1 <= k <= 14 && n <= |FieldsFrom(m, k)|
    ensures k <= end <= 14 && |FieldsFrom(m, k)| == n + |FieldsFrom(m, end)|
    decreases 14 - k
  {
    hide FieldAt;
    if n == 0 {
      end := k;
    } else {
      FieldBelow(m, k, k);
      end := NumberOfField(m, n - |FieldAt(m, k)|, k + 1);
    }
  }

  /**
   Encoded metadata cut off after any number of bytes is an unexpected end, or it is the whole
   encoding of the metadata that is decoded.
   */
  lemma TruncatedMetadata(m: Metadata, k: nat)
    requires k <= |EncodeMetadata(m)| <= MAX_INT
    ensures match DecodeMetadata(EMPTY_METADATA, EncodeMetadata(m)[..k])
            case Err(e) => e == UnexpectedEOF
            case Ok(x) => EncodeMetadata(x) == EncodeMetadata(m)[..k]
  {
    FieldsFromKnown(m, 1);
    ApplyFieldsFrom(EMPTY_METADATA, m, 1);
    hide Decode, PrintFields, FieldsFrom, Known, ApplyAll, MergeFrom, Below;
    var n := DecodeOfCutFields(MetadataSchema, ApplyToMetadata, EMPTY_METADATA, FieldsFrom(m, 1), k);
    if DecodeMetadata(EMPTY_METADATA, EncodeMetadata(m)[..k]).Ok? {
      var end := NumberOfField(m, n, 1);
      var x := Below(m, end);
      FieldsBelow(m, end, 1);
      assert FieldsFrom(x, 1) == FieldsFrom(m, 1)[..n];
      ApplyFieldsFrom(EMPTY_METADATA, x, 1);
      MergeIntoEmpty(x);
    }
  }

  // ---------- what a field cut short leaves behind ----------

  /** A number cut short after k bytes leaves its k least significant digits in its field. */
  lemma CutNumber<M>(schema: Schema, apply: (M, Field) -> Parsed<M>, reject: (M, Field) -> M, m: M,
                     num: nat, v: uint64, k: nat)
    requires 0 < num < TWO_31 && schema(num) == VarintKind && k < |EncodeVarint(v)|
    requires apply(m, VarintField(num, Narrow(LowDigits(v, k), W64))).Ok?
    ensures var d := PrintTag(num, 0) + EncodeVarint(v)[..k];
            && Decode(schema, apply, m, d, 0) == Err(UnexpectedEOF)
            && Remains(schema, apply, reject, m, d, 0) == apply(m, VarintField(num, Narrow(LowDigits(v, k), W64))).value
  {
    var tag, part := PrintTag(num, 0), EncodeVarint(v)[..k];
    var d := tag + part;
    AtMostTenBytes(v);
    TagNotEmpty(num, 0);
    assert d[0..] == d && Window(d, 0, tag);
    ReadTagOfPrinted(d, 0, num, 0);
    assert Cut(d, |tag|, EncodeVarint(v));
    CutVarint(d, |tag|, v);
    CollectedOfCut(d, |tag|, v, k, 0);
    hide PrintTag, EncodeVarint, ReadTag, ReadVarint, Collected, LowDigits, Narrow, Cut, Window;
    assert NextField(schema, d, 0) == Err(UnexpectedEOF);
  }

  /** An epoch cut short leaves the bits of its first k bytes; the rest of the group stays. */
  lemma CutEpoch(x: Group, v: uint64, k: nat)
    requires k < |EncodeVarint(v)|
    ensures DecodeGroup(x, [0x08] + EncodeVarint(v)[..k]) == Err(UnexpectedEOF)
    ensures RemainsOfGroup(x, [0x08] + EncodeVarint(v)[..k]) == x.(epoch := LowDigits(v, k) % 0x1_0000_0000)
  {
    assert PrintTag(1, 0) == [0x08];
    hide PrintTag, EncodeVarint, Decode, Remains, LowDigits;
    CutNumber(GroupSchema, ApplyToGroup, KeepMessage, x, 1, v, k);
    NarrowTwice(LowDigits(v, k), W32);
  }

  /** The round of metadata, and its signed type, cut short. */
  lemma CutRoundAndType(x: Metadata, v: uint64, k: nat)
    requires k < |EncodeVarint(v)|
    ensures RemainsOfMetadata(x, [0x18] + EncodeVarint(v)[..k]) == x.(round := LowDigits(v, k) % 0x1_0000_0000_0000_0000)
    ensures RemainsOfMetadata(x, [0x68] + EncodeVarint(v)[..k]) == x.(miniblockType := ToInt32(LowDigits(v, k) % 0x1_0000_0000))
  {
    assert PrintTag(3, 0) == [0x18] && PrintTag(13, 0) == [0x68];
    hide PrintTag, EncodeVarint, Decode, Remains, LowDigits;
    CutNumber(MetadataSchema, ApplyToMetadata, KeepMessage, x, 3, v, k);
    CutNumber(MetadataSchema, ApplyToMetadata, KeepMessage, x, 13, v, k);
    NarrowTwice(LowDigits(v, k), W32);
    NarrowTwice(LowDigits(v, k), W64);
  }

  /** A nested group that does not decode ends the record with its error, and stays in the list as far as it came. */
  lemma HalfDecodedGroup(x: Results, payload: seq<byte>)
    requires |PrintField(BytesField(2, payload))| <= MAX_INT && DecodeGroup(EMPTY_GROUP, payload).Err?
    ensures DecodeResults(x, PrintField(BytesField(2, payload))) == Err(DecodeGroup(EMPTY_GROUP, payload).error)
    ensures RemainsOfResults(x, PrintField(BytesField(2, payload))) ==
            x.(groups := x.groups + [RemainsOfGroup(EMPTY_GROUP, payload)])
  {
    var f := BytesField(2, payload);
    assert |payload| <= |PrintField(f)|;
    PrintedNotEmpty(ResultsSchema, f);
    hide PrintField, DecodeGroup, RemainsOfGroup, NextField;
    assert Window(PrintField(f), 0, PrintField(f));
    NextFieldOfPrinted(ResultsSchema, PrintField(f), 0, f);
  }

  // ---------- the bytes of a record ----------

  /** A number with its tag, if it is not zero. */
  function NumberPart(tag: byte, v: uint64): seq<byte> {
    if v != 0 then [tag] + EncodeVarint(v) else []
  }

  /** A byte string with its tag and length, if it is not empty. */
  function BytesPart(tag: byte, payload: seq<byte>): seq<byte> {
    if payload != [] then [tag] + EncodeVarint(|payload|) + payload else []
  }

  /** Byte strings with their tags and lengths, empty ones too. */
  function RepeatedPart(tag: byte, payloads: seq<seq<byte>>): seq<byte> {
    if payloads == [] then [] else [tag] + EncodeVarint(|payloads[0]|) + payloads[0] + RepeatedPart(tag, payloads[1..])
  }

  lemma {:induction false} RepeatedHashes(hashes: seq<seq<byte>>)
    ensures PrintFields(HashFields(hashes)) == RepeatedPart(0x12, hashes)
  {
    if hashes != [] {
      RepeatedHashes(hashes[1..]);
      PrintHashFields(hashes);
      assert PrintTag(2, 2) == [0x12];
      hide PrintTag, EncodeVarint, PrintFields, HashFields;
    }
  }

  function EncodedGroups(groups: seq<Group>): seq<seq<byte>> {
    if groups == [] then [] else [EncodeGroup(groups[0])] + EncodedGroups(groups[1..])
  }

  lemma {:induction false} RepeatedGroups(groups: seq<Group>)
    ensures PrintFields(GroupFields(groups)) == RepeatedPart(0x12, EncodedGroups(groups))
  {
    if groups != [] {
      RepeatedGroups(groups[1..]);
      PrintGroupFields(groups);
      assert EncodedGroups(groups)[1..] == EncodedGroups(groups[1..]);
      assert PrintTag(2, 2) == [0x12];
      hide PrintTag, EncodeVarint, PrintFields, GroupFields, EncodeGroup;
    }
  }

  /** The bytes of an epoch group: field 1 is the epoch, field 2 repeats the hashes. */
  lemma BytesOfGroup(g: Group)
    ensures EncodeGroup(g) == NumberPart(0x08, g.epoch) + RepeatedPart(0x12, g.hashes)
  {
    PrintGroup(g);
    RepeatedHashes(g.hashes);
    assert PrintTag(1, 0) == [0x08];
    hide PrintTag, EncodeVarint, PrintFields, HashFields, EncodeGroup, EpochField, RepeatedPart;
  }

  /** The bytes of a record: field 1 is the receipt, field 2 repeats the groups. */
  lemma BytesOfResults(m: Results)
    ensures EncodeResults(m) == BytesPart(0x0a, m.receiptsHash) + RepeatedPart(0x12, EncodedGroups(m.groups))
  {
    PrintResults(m);
    RepeatedGroups(m.groups);
    assert PrintTag(1, 2) == [0x0a];
    hide PrintTag, EncodeVarint, PrintFields, GroupFields, EncodeResults, ReceiptField, RepeatedPart;
  }

  lemma PartOfNumber(m: Metadata, k: nat, v: uint64)
    requires 1 <= k <= 13 && FieldAt(m, k) == OptionalVarint(k, v)
    ensures PrintFields(FieldAt(m, k)) == NumberPart(k * 8, v)
  {
    PrintOptionalVarint(k, v);
    hide EncodeVarint, PrintFields, FieldAt;
  }

  lemma PartOfBytes(m: Metadata, k: nat, payload: seq<byte>)
    requires 1 <= k <= 13 && FieldAt(m, k) == OptionalBytes(k, payload) && |EncodeMetadata(m)| <= MAX_INT
    ensures PrintFields(FieldAt(m, k)) == BytesPart(k * 8 + 2, payload)
  {
    SuffixFits(m, k);
    FieldsFromStep(m, k);
    hide EncodeVarint, PrintFields, FieldAt, FieldsFrom, EncodeMetadata, OptionalBytes;
    PrintOptionalBytes(k, payload);
  }

  lemma BytesFrom9(m: Metadata)
    requires |EncodeMetadata(m)| <= MAX_INT
    ensures PrintFields(FieldsFrom(m, 9)) ==
            NumberPart(0x48, m.sourceMetaNonce) + (
            NumberPart(0x50, m.destinationMetaNonce) + (
            BytesPart(0x5a, m.sourceMetaHash) + (
            BytesPart(0x62, m.destinationMetaHash) + (
            NumberPart(0x68, if m.miniblockType < 0 then m.miniblockType + 0x1_0000_0000_0000_0000 else m.miniblockType) + (
            [])))))
  {
    FieldNumbers(m);
    NothingAbove(m);
    SignBits(m);
    hide *;
    FieldsFromStep(m, 13);
    PartOfNumber(m, 13, SignExtend(m.miniblockType));
    FieldsFromStep(m, 12);
    PartOfBytes(m, 12, m.destinationMetaHash);
    FieldsFromStep(m, 11);
    PartOfBytes(m, 11, m.sourceMetaHash);
    FieldsFromStep(m, 10);
    PartOfNumber(m, 10, m.destinationMetaNonce);
    FieldsFromStep(m, 9);
    PartOfNumber(m, 9, m.sourceMetaNonce);
  }

  lemma SignBits(m: Metadata)
    ensures SignExtend(m.miniblockType) ==
            if m.miniblockType < 0 then m.miniblockType + 0x1_0000_0000_0000_0000 else m.miniblockType
  {
  }

  /** The bytes of metadata: thirteen numbered parts, the type as the 64 bits of its sign extension. */
  lemma BytesOfMetadata(m: Metadata)
    requires |EncodeMetadata(m)| <= MAX_INT
    ensures EncodeMetadata(m) ==
            NumberPart(0x08, m.sourceShardID) + (
            NumberPart(0x10, m.destinationShardID) + (
            NumberPart(0x18, m.round) + (
            NumberPart(0x20, m.headerNonce) + (
            BytesPart(0x2a, m.headerHash) + (
            BytesPart(0x32, m.miniblockHash) + (
            BytesPart(0x3a, m.deprecatedStatus) + (
            NumberPart(0x40, m.epoch) + (
            NumberPart(0x48, m.sourceMetaNonce) + (
            NumberPart(0x50, m.destinationMetaNonce) + (
            BytesPart(0x5a, m.sourceMetaHash) + (
            BytesPart(0x62, m.destinationMetaHash) + (
            NumberPart(0x68, if m.miniblockType < 0 then m.miniblockType + 0x1_0000_0000_0000_0000 else m.miniblockType) + (
            [])))))))))))))
  {
    FieldNumbers(m);
    NothingAbove(m);
    hide *;
    BytesFrom9(m);
    FieldsFromStep(m, 8);
    PartOfNumber(m, 8, m.epoch);
    FieldsFromStep(m, 7);
    PartOfBytes(m, 7, m.deprecatedStatus);
    FieldsFromStep(m, 6);
    PartOfBytes(m, 6, m.miniblockHash);
    FieldsFromStep(m, 5);
    PartOfBytes(m, 5, m.headerHash);
    FieldsFromStep(m, 4);
    PartOfNumber(m, 4, m.headerNonce);
    FieldsFromStep(m, 3);
    PartOfNumber(m, 3, m.round);
    FieldsFromStep(m, 2);
    PartOfNumber(m, 2, m.destinationShardID);
    FieldsFromStep(m, 1);
    PartOfNumber(m, 1, m.sourceShardID);
  }

  /** The digits of 300, and the bytes of a small record. */
  lemma SmallExample()
    ensures EncodeVarint(300) == [0xac, 0x02]
    ensures EncodeGroup(Group(300, [[1, 2]])) == [0x08, 0xac, 0x02, 0x12, 2, 1, 2]
  {
    assert EncodeVarint(300) == [300 % 128 + 128] + EncodeVarint(2);
    BytesOfGroup(Group(300, [[1, 2]]));
    hide EncodeGroup;
    assert [[1, 2]][1..] == [];
    assert EncodeVarint(2) == [2];
  }
}
