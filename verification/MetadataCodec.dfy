/**
 The codec of MiniblockMetadata: thirteen scalar and bytes fields, each written only when it
 is not empty; Type is a signed number, sign-extended on writing and narrowed on reading.
 */
module MetadataCodec {
  import opened Machine
  import opened Varint
  import opened Wire
  import opened UnknownFields

  /** MiniblockMetadata; the four notarization fields are numbers 9 to 12. */
  datatype Metadata = Metadata(
    sourceShardID: uint32,
    destinationShardID: uint32,
    round: uint64,
    headerNonce: uint64,
    headerHash: seq<byte>,
    miniblockHash: seq<byte>,
    deprecatedStatus: seq<byte>,
    epoch: uint32,
    sourceMetaNonce: uint64,
    destinationMetaNonce: uint64,
    sourceMetaHash: seq<byte>,
    destinationMetaHash: seq<byte>,
    miniblockType: int32)

  const EMPTY_METADATA := Metadata(0, 0, 0, 0, [], [], [], 0, 0, 0, [], [], 0)

  // ---------- encoding ----------

  function OptionalVarint(num: nat, value: uint64): seq<Field> {
    if value != 0 then [VarintField(num, value)] else []
  }

  function OptionalBytes(num: nat, payload: seq<byte>): seq<Field> {
    if payload != [] then [BytesField(num, payload)] else []
  }

  /** The field with number k, if the writer emits it. */
  function FieldAt(m: Metadata, k: nat): seq<Field> {
    match k
    case 1 => OptionalVarint(1, m.sourceShardID)
    case 2 => OptionalVarint(2, m.destinationShardID)
    case 3 => OptionalVarint(3, m.round)
    case 4 => OptionalVarint(4, m.headerNonce)
    case 5 => OptionalBytes(5, m.headerHash)
    case 6 => OptionalBytes(6, m.miniblockHash)
    case 7 => OptionalBytes(7, m.deprecatedStatus)
    case 8 => OptionalVarint(8, m.epoch)
    case 9 => OptionalVarint(9, m.sourceMetaNonce)
    case 10 => OptionalVarint(10, m.destinationMetaNonce)
    case 11 => OptionalBytes(11, m.sourceMetaHash)
    case 12 => OptionalBytes(12, m.destinationMetaHash)
    case 13 => OptionalVarint(13, SignExtend(m.miniblockType))
    case _ => []
  }

  /** The emitted fields from number k on, in the order of their numbers. */
  function FieldsFrom(m: Metadata, k: nat): seq<Field>
    decreases 14 - k
  {
    if k >= 14 then [] else FieldAt(m, k) + FieldsFrom(m, k + 1)
  }

  function EncodeMetadata(m: Metadata): seq<byte> {
    PrintFields(FieldsFrom(m, 1))
  }

  // ---------- decoding ----------

  function MetadataSchema(num: nat): Kind {
    match num
    case 1 => VarintKind
    case 2 => VarintKind
    case 3 => VarintKind
    case 4 => VarintKind
    case 5 => BytesKind
    case 6 => BytesKind
    case 7 => BytesKind
    case 8 => VarintKind
    case 9 => VarintKind
    case 10 => VarintKind
    case 11 => BytesKind
    case 12 => BytesKind
    case 13 => VarintKind
    case _ => UnknownKind
  }

  function ApplyToMetadata(m: Metadata, f: Field): Parsed<Metadata> {
    match f
    case VarintField(num, v) => Ok(ApplyVarint(m, num, v))
    case BytesField(num, payload) => Ok(ApplyBytes(m, num, payload))
    case UnknownField => Ok(m)
  }

  function ApplyVarint(m: Metadata, num: nat, v: uint64): Metadata {
    match num
    case 1 => m.(sourceShardID := Narrow(v, W32))
    case 2 => m.(destinationShardID := Narrow(v, W32))
    case 3 => m.(round := v)
    case 4 => m.(headerNonce := v)
    case 8 => m.(epoch := Narrow(v, W32))
    case 9 => m.(sourceMetaNonce := v)
    case 10 => m.(destinationMetaNonce := v)
    case 13 => m.(miniblockType := ToInt32(Narrow(v, W32)))
    case _ => m
  }

  function ApplyBytes(m: Metadata, num: nat, payload: seq<byte>): Metadata {
    match num
    case 5 => m.(headerHash := payload)
    case 6 => m.(miniblockHash := payload)
    case 7 => m.(deprecatedStatus := payload)
    case 11 => m.(sourceMetaHash := payload)
    case 12 => m.(destinationMetaHash := payload)
    case _ => m
  }

  function DecodeMetadata(m: Metadata, d: seq<byte>): Parsed<Metadata> {
    Decode(MetadataSchema, ApplyToMetadata, m, d, 0)
  }

  // ---------- reading back what was written ----------

  /** x, with every field whose number is at least k and which y emits taken from y. */
  function MergeFrom(x: Metadata, y: Metadata, k: nat): Metadata {
    Metadata(
      if k <= 1 && y.sourceShardID != 0 then y.sourceShardID else x.sourceShardID,
      if k <= 2 && y.destinationShardID != 0 then y.destinationShardID else x.destinationShardID,
      if k <= 3 && y.round != 0 then y.round else x.round,
      if k <= 4 && y.headerNonce != 0 then y.headerNonce else x.headerNonce,
      if k <= 5 && y.headerHash != [] then y.headerHash else x.headerHash,
      if k <= 6 && y.miniblockHash != [] then y.miniblockHash else x.miniblockHash,
      if k <= 7 && y.deprecatedStatus != [] then y.deprecatedStatus else x.deprecatedStatus,
      if k <= 8 && y.epoch != 0 then y.epoch else x.epoch,
      if k <= 9 && y.sourceMetaNonce != 0 then y.sourceMetaNonce else x.sourceMetaNonce,
      if k <= 10 && y.destinationMetaNonce != 0 then y.destinationMetaNonce else x.destinationMetaNonce,
      if k <= 11 && y.sourceMetaHash != [] then y.sourceMetaHash else x.sourceMetaHash,
      if k <= 12 && y.destinationMetaHash != [] then y.destinationMetaHash else x.destinationMetaHash,
      if k <= 13 && y.miniblockType != 0 then y.miniblockType else x.miniblockType)
  }

  function MergeMetadata(x: Metadata, y: Metadata): Metadata {
    MergeFrom(x, y, 1)
  }

  /** x with the field of number k, and no other, taken from y if y emits it. */
  function TakeField(x: Metadata, y: Metadata, k: nat): Metadata {
    Metadata(
      if k == 1 && y.sourceShardID != 0 then y.sourceShardID else x.sourceShardID,
      if k == 2 && y.destinationShardID != 0 then y.destinationShardID else x.destinationShardID,
      if k == 3 && y.round != 0 then y.round else x.round,
      if k == 4 && y.headerNonce != 0 then y.headerNonce else x.headerNonce,
      if k == 5 && y.headerHash != [] then y.headerHash else x.headerHash,
      if k == 6 && y.miniblockHash != [] then y.miniblockHash else x.miniblockHash,
      if k == 7 && y.deprecatedStatus != [] then y.deprecatedStatus else x.deprecatedStatus,
      if k == 8 && y.epoch != 0 then y.epoch else x.epoch,
      if k == 9 && y.sourceMetaNonce != 0 then y.sourceMetaNonce else x.sourceMetaNonce,
      if k == 10 && y.destinationMetaNonce != 0 then y.destinationMetaNonce else x.destinationMetaNonce,
      if k == 11 && y.sourceMetaHash != [] then y.sourceMetaHash else x.sourceMetaHash,
      if k == 12 && y.destinationMetaHash != [] then y.destinationMetaHash else x.destinationMetaHash,
      if k == 13 && y.miniblockType != 0 then y.miniblockType else x.miniblockType)
  }

  lemma ApplyOne(x: Metadata, f: Field)
    requires !f.UnknownField?
    ensures ApplyAll(ApplyToMetadata, x, [f]) == ApplyToMetadata(x, f)
  {
    assert [f][1..] == [];
  }

  lemma NarrowSmall(v: uint64)
    ensures Narrow(v, W64) == v
    ensures v < TWO_32 ==> Narrow(v, W32) == v
  {
  }

  /** Decoding the field of number k takes over exactly that field, the sign of Type included. */
  lemma ApplyFieldAt(x: Metadata, y: Metadata, k: nat)
    ensures ApplyAll(ApplyToMetadata, x, FieldAt(y, k)) == Ok(TakeField(x, y, k))
  {
    hide ApplyAll;
    if FieldAt(y, k) == [] {
      assert ApplyAll(ApplyToMetadata, x, []) == Ok(x) by { ApplyNone(x); }
    } else {
      var f := FieldAt(y, k)[0];
      ApplyOne(x, f);
      if f.VarintField? {
        NarrowSmall(f.value);
        SignExtendNarrows(y.miniblockType);
        hide Narrow;
      }
    }
  }

  lemma ApplyNone(x: Metadata)
    ensures ApplyAll(ApplyToMetadata, x, []) == Ok(x)
  {
  }

  lemma MergeFromTaken(x: Metadata, y: Metadata, k: nat)
    requires 1 <= k <= 13
    ensures MergeFrom(TakeField(x, y, k), y, k + 1) == MergeFrom(x, y, k)
  {
  }

  lemma NothingFrom(x: Metadata, y: Metadata)
    ensures ApplyAll(ApplyToMetadata, x, FieldsFrom(y, 14)) == Ok(x) == Ok(MergeFrom(x, y, 14))
  {
  }

  lemma {:induction false} ApplyFieldsFrom(x: Metadata, y: Metadata, k: nat)
    requires 1 <= k <= 14
    ensures ApplyAll(ApplyToMetadata, x, FieldsFrom(y, k)) == Ok(MergeFrom(x, y, k))
    decreases 14 - k
  {
    hide MergeFrom, FieldAt, TakeField, ApplyAll;
    if k == 14 {
      NothingFrom(x, y);
    } else {
      ApplyAppend(ApplyToMetadata, x, FieldAt(y, k), FieldsFrom(y, k + 1));
      ApplyFieldAt(x, y, k);
      MergeFromTaken(x, y, k);
      ApplyFieldsFrom(TakeField(x, y, k), y, k + 1);
    }
  }

  lemma FieldAtKnown(m: Metadata, k: nat)
    requires |PrintFields(FieldAt(m, k))| <= MAX_INT
    ensures forall f :: f in FieldAt(m, k) ==> Known(MetadataSchema, f)
  {
    if FieldAt(m, k) != [] {
      assert |PrintField(FieldAt(m, k)[0])| <= |PrintFields(FieldAt(m, k))|;
    }
  }

  lemma {:induction false} FieldsFromKnown(m: Metadata, k: nat)
    requires |PrintFields(FieldsFrom(m, k))| <= MAX_INT
    ensures forall f :: f in FieldsFrom(m, k) ==> Known(MetadataSchema, f)
    decreases 14 - k
  {
    if k < 14 {
      PrintAppend(FieldAt(m, k), FieldsFrom(m, k + 1));
      hide PrintFields, FieldAt, Known;
      FieldAtKnown(m, k);
      FieldsFromKnown(m, k + 1);
    }
  }

  /** Decoding the encoding of y into x takes over every field that y emits and keeps the others. */
  lemma DecodeOfEncodedMetadata(x: Metadata, y: Metadata)
    requires |EncodeMetadata(y)| <= MAX_INT
    ensures DecodeMetadata(x, EncodeMetadata(y)) == Ok(MergeMetadata(x, y))
  {
    FieldsFromKnown(y, 1);
    hide Decode, PrintFields, FieldsFrom, MergeFrom, Known;
    DecodeOfPrinted(MetadataSchema, ApplyToMetadata, x, FieldsFrom(y, 1));
    ApplyFieldsFrom(x, y, 1);
  }

  lemma MergeIntoEmpty(m: Metadata)
    ensures MergeMetadata(EMPTY_METADATA, m) == m
  {
  }

  /** Round trip of all thirteen fields, negative types included. */
  lemma MetadataRoundTrip(m: Metadata)
    requires |EncodeMetadata(m)| <= MAX_INT
    ensures DecodeMetadata(EMPTY_METADATA, EncodeMetadata(m)) == Ok(m)
  {
    hide EncodeMetadata, DecodeMetadata, MergeMetadata;
    DecodeOfEncodedMetadata(EMPTY_METADATA, m);
    MergeIntoEmpty(m);
  }

  lemma MergeByFields(x: Metadata, y: Metadata)
    ensures MergeMetadata(x, y) == Metadata(
              if y.sourceShardID != 0 then y.sourceShardID else x.sourceShardID,
              if y.destinationShardID != 0 then y.destinationShardID else x.destinationShardID,
              if y.round != 0 then y.round else x.round,
              if y.headerNonce != 0 then y.headerNonce else x.headerNonce,
              if y.headerHash != [] then y.headerHash else x.headerHash,
              if y.miniblockHash != [] then y.miniblockHash else x.miniblockHash,
              if y.deprecatedStatus != [] then y.deprecatedStatus else x.deprecatedStatus,
              if y.epoch != 0 then y.epoch else x.epoch,
              if y.sourceMetaNonce != 0 then y.sourceMetaNonce else x.sourceMetaNonce,
              if y.destinationMetaNonce != 0 then y.destinationMetaNonce else x.destinationMetaNonce,
              if y.sourceMetaHash != [] then y.sourceMetaHash else x.sourceMetaHash,
              if y.destinationMetaHash != [] then y.destinationMetaHash else x.destinationMetaHash,
              if y.miniblockType != 0 then y.miniblockType else x.miniblockType)
  {
  }

  /** Concatenating encodings merges the messages, the later one winning. */
  lemma MetadataConcatenationMerges(x: Metadata, y: Metadata)
    requires |EncodeMetadata(x) + EncodeMetadata(y)| <= MAX_INT
    ensures DecodeMetadata(EMPTY_METADATA, EncodeMetadata(x) + EncodeMetadata(y)) == Ok(MergeMetadata(x, y))
    ensures DecodeMetadata(EMPTY_METADATA, EncodeMetadata(x) + EncodeMetadata(y)) ==
            Ok(Metadata(
              if y.sourceShardID != 0 then y.sourceShardID else x.sourceShardID,
              if y.destinationShardID != 0 then y.destinationShardID else x.destinationShardID,
              if y.round != 0 then y.round else x.round,
              if y.headerNonce != 0 then y.headerNonce else x.headerNonce,
              if y.headerHash != [] then y.headerHash else x.headerHash,
              if y.miniblockHash != [] then y.miniblockHash else x.miniblockHash,
              if y.deprecatedStatus != [] then y.deprecatedStatus else x.deprecatedStatus,
              if y.epoch != 0 then y.epoch else x.epoch,
              if y.sourceMetaNonce != 0 then y.sourceMetaNonce else x.sourceMetaNonce,
              if y.destinationMetaNonce != 0 then y.destinationMetaNonce else x.destinationMetaNonce,
              if y.sourceMetaHash != [] then y.sourceMetaHash else x.sourceMetaHash,
              if y.destinationMetaHash != [] then y.destinationMetaHash else x.destinationMetaHash,
              if y.miniblockType != 0 then y.miniblockType else x.miniblockType))
  {
    MergeByFields(x, y);
    hide EncodeMetadata, Decode, MergeMetadata;
    MetadataRoundTrip(x);
    DecodeConcatenation(MetadataSchema, ApplyToMetadata, EMPTY_METADATA, EncodeMetadata(x), EncodeMetadata(y));
    DecodeOfEncodedMetadata(x, y);
  }

  /** The fields of m, in order, with foreign fields anywhere between them. */
  predicate ItemsOfMetadata(m: Metadata, items: seq<Item>) {
    EmittedOf(items) == FieldsFrom(m, 1) && ForeignAbove(items, 13)
  }

  /** Fields with numbers above 13, groups included, may stand in any number at any boundaries without being noticed. */
  lemma MetadataIgnoresUnknownFields(m: Metadata, items: seq<Item>)
    requires ItemsOfMetadata(m, items) && |PrintItems(items)| <= MAX_INT
    ensures DecodeMetadata(EMPTY_METADATA, PrintItems(items)) == Ok(m)
  {
    hide Decode, PrintFields, PrintItems, EmittedOf, ForeignAbove, Admissible, FieldsFrom, Known, ApplyAll, MergeFrom;
    EmittedAreShorter(items);
    FieldsFromKnown(m, 1);
    ItemsAdmissible(MetadataSchema, items, 13);
    ForeignFieldsIgnored(MetadataSchema, ApplyToMetadata, EMPTY_METADATA, items);
    ApplyFieldsFrom(EMPTY_METADATA, m, 1);
    MergeIntoEmpty(m);
  }

  // ---------- what an error leaves behind ----------

  function RemainsOfMetadata(m: Metadata, d: seq<byte>): Metadata {
    Remains(MetadataSchema, ApplyToMetadata, KeepMessage, m, d, 0)
  }

  /** Garbage behind an encoding: the encoded metadata stays, changed only by what the garbage holds. */
  lemma GarbageKeepsMetadata(x: Metadata, garbage: seq<byte>)
    requires |EncodeMetadata(x) + garbage| <= MAX_INT
    ensures RemainsOfMetadata(EMPTY_METADATA, EncodeMetadata(x) + garbage) == RemainsOfMetadata(x, garbage)
  {
    hide EncodeMetadata, Decode, Remains;
    MetadataRoundTrip(x);
    RemainsOfConcatenation(MetadataSchema, ApplyToMetadata, KeepMessage, EMPTY_METADATA, EncodeMetadata(x), garbage);
  }

  /** A negative Type takes a ten-byte varint. */
  lemma NegativeTypeTakesTenBytes(t: int32)
    requires t < 0
    ensures |EncodeVarint(SignExtend(t))| == 10
  {
    AtMostTenBytes(SignExtend(t));
    LongVarint(SignExtend(t), 9);
  }

  lemma {:induction false} LongVarint(v: nat, k: nat)
    requires v >= ShiftLeft(1, k)
    ensures |EncodeVarint(v)| > k
  {
    if k > 0 {
      assert ShiftLeft(1, k) == 128 * ShiftLeft(1, k - 1);
      LongVarint(v / 128, k - 1);
    }
  }
}
