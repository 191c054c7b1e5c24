/**
 The generated methods of MiniblockMetadata: sizing, the back-to-front writer and the reader.
 */
module MetadataMessages {
  import opened Machine
  import opened Varint
  import opened Wire
  import opened MetadataCodec
  import opened Sequences

  lemma FieldsFromStep(m: Metadata, k: nat)
    requires k <= 13
    ensures PrintFields(FieldsFrom(m, k)) == PrintFields(FieldAt(m, k)) + PrintFields(FieldsFrom(m, k + 1))
  {
    PrintAppend(FieldAt(m, k), FieldsFrom(m, k + 1));
  }

  lemma {:induction false} SuffixFits(m: Metadata, k: nat)
    requires 1 <= k <= 14
    ensures |PrintFields(FieldsFrom(m, k))| <= |EncodeMetadata(m)|
  {
    hide PrintFields, FieldsFrom, FieldAt;
    if k > 1 {
      FieldsFromStep(m, k - 1);
      SuffixFits(m, k - 1);
    }
  }

  lemma PrintOptionalVarint(num: nat, v: uint64)
    requires 0 < num < 16
    ensures PrintFields(OptionalVarint(num, v)) == if v != 0 then [num * 8] + EncodeVarint(v) else []
    ensures |PrintFields(OptionalVarint(num, v))| == if v != 0 then 1 + Sov(v) else 0
  {
    assert PrintTag(num, 0) == [num * 8];
    SovIsLength(v);
    hide EncodeVarint, Sov;
    if v != 0 {
      assert OptionalVarint(num, v)[1..] == [];
      RightUnit(PrintField(VarintField(num, v)));
    }
  }

  lemma PrintOptionalBytes(num: nat, payload: seq<byte>)
    requires 0 < num < 16 && |PrintFields(OptionalBytes(num, payload))| <= MAX_INT
    ensures |payload| <= MAX_INT
    ensures PrintFields(OptionalBytes(num, payload)) ==
            if payload != [] then [num * 8 + 2] + EncodeVarint(|payload|) + payload else []
    ensures |PrintFields(OptionalBytes(num, payload))| == if payload != [] then 1 + |payload| + Sov(|payload|) else 0
  {
    assert PrintTag(num, 2) == [num * 8 + 2];
    hide EncodeVarint, Sov;
    if payload != [] {
      assert OptionalBytes(num, payload)[1..] == [];
      RightUnit(PrintField(BytesField(num, payload)));
      assert |PrintField(BytesField(num, payload))| >= |payload|;
      SovIsLength(|payload|);
    }
  }

  /** The block of a varint field in the writer; numbers above are already written. */
  method EmitVarint(dAtA: array<byte>, offset: nat, tag: byte, v: uint64,
                    ghost m: Metadata, ghost k: nat, ghost before: seq<byte>, ghost end: nat) returns (i: nat)
    requires 1 <= k <= 13 && FieldAt(m, k) == OptionalVarint(k, v) && tag == k * 8
    requires |EncodeMetadata(m)| <= MAX_INT && |EncodeMetadata(m)| <= end
    requires Written(before, dAtA[..], offset, end, PrintFields(FieldsFrom(m, k + 1)))
    modifies dAtA
    ensures Written(before, dAtA[..], i, end, PrintFields(FieldsFrom(m, k)))
  {
    FieldsFromStep(m, k);
    SuffixFits(m, k);
    PrintOptionalVarint(k, v);
    SovIsLength(v);
    hide *;
    ghost var rest := PrintFields(FieldsFrom(m, k + 1));
    WrittenLength(before, dAtA[..], offset, end, rest);
    i := offset;
    if v != 0 {
      ghost var mid := dAtA[..];
      i := PutVarint(dAtA, i, tag, v);
      WrittenThen(before, mid, dAtA[..], i, offset, end, [tag] + EncodeVarint(v), rest);
    } else {
      LeftUnit(rest);
    }
  }

  /** The block of a bytes field in the writer; numbers above are already written. */
  method EmitBytes(dAtA: array<byte>, offset: nat, tag: byte, payload: seq<byte>,
                   ghost m: Metadata, ghost k: nat, ghost before: seq<byte>, ghost end: nat) returns (i: nat)
    requires 1 <= k <= 13 && FieldAt(m, k) == OptionalBytes(k, payload) && tag == k * 8 + 2
    requires |EncodeMetadata(m)| <= MAX_INT && |EncodeMetadata(m)| <= end
    requires Written(before, dAtA[..], offset, end, PrintFields(FieldsFrom(m, k + 1)))
    modifies dAtA
    ensures Written(before, dAtA[..], i, end, PrintFields(FieldsFrom(m, k)))
  {
    FieldsFromStep(m, k);
    SuffixFits(m, k);
    PrintOptionalBytes(k, payload);
    hide *;
    ghost var rest := PrintFields(FieldsFrom(m, k + 1));
    WrittenLength(before, dAtA[..], offset, end, rest);
    i := offset;
    if |payload| > 0 {
      ghost var mid := dAtA[..];
      i := PutBytes(dAtA, i, tag, payload);
      WrittenThen(before, mid, dAtA[..], i, offset, end, [tag] + EncodeVarint(|payload|) + payload, rest);
    } else {
      LeftUnit(rest);
    }
  }

  /** What the field with number k adds to Size, given the size of the fields above. */
  method AddVarint(n: nat, v: uint64, ghost m: Metadata, ghost k: nat) returns (sum: nat)
    requires 1 <= k <= 13 && FieldAt(m, k) == OptionalVarint(k, v)
    requires n + |PrintFields(FieldsFrom(m, k))| == |EncodeMetadata(m)|
    ensures sum + |PrintFields(FieldsFrom(m, k + 1))| == |EncodeMetadata(m)|
  {
    FieldsFromStep(m, k);
    PrintOptionalVarint(k, v);
    sum := n;
    if v != 0 {
      sum := sum + 1 + Sov(v);
    }
  }

  method AddBytes(n: nat, payload: seq<byte>, ghost m: Metadata, ghost k: nat) returns (sum: nat)
    requires 1 <= k <= 13 && FieldAt(m, k) == OptionalBytes(k, payload)
    requires |EncodeMetadata(m)| <= MAX_INT
    requires n + |PrintFields(FieldsFrom(m, k))| == |EncodeMetadata(m)|
    ensures sum + |PrintFields(FieldsFrom(m, k + 1))| == |EncodeMetadata(m)|
  {
    FieldsFromStep(m, k);
    PrintOptionalBytes(k, payload);
    sum := n;
    var l := |payload|;
    if l > 0 {
      sum := sum + 1 + l + Sov(l);
    }
  }

  class MetadataMessage {
    var sourceShardID: uint32
    var destinationShardID: uint32
    var round: uint64
    var headerNonce: uint64
    var headerHash: seq<byte>
    var miniblockHash: seq<byte>
    var deprecatedStatus: seq<byte>
    var epoch: uint32
    var sourceMetaNonce: uint64
    var destinationMetaNonce: uint64
    var sourceMetaHash: seq<byte>
    var destinationMetaHash: seq<byte>
    var miniblockType: int32

    function Value(): Metadata
      reads this
    {
      Metadata(sourceShardID, destinationShardID, round, headerNonce, headerHash,
               miniblockHash, deprecatedStatus, epoch, sourceMetaNonce, destinationMetaNonce,
               sourceMetaHash, destinationMetaHash, miniblockType)
    }

    constructor ()
      ensures Value() == EMPTY_METADATA
    {
      sourceShardID := 0;
      destinationShardID := 0;
      round := 0;
      headerNonce := 0;
      headerHash := [];
      miniblockHash := [];
      deprecatedStatus := [];
      epoch := 0;
      sourceMetaNonce := 0;
      destinationMetaNonce := 0;
      sourceMetaHash := [];
      destinationMetaHash := [];
      miniblockType := 0;
    }

    method Size() returns (n: nat)
      requires |EncodeMetadata(Value())| <= MAX_INT
      ensures n == |EncodeMetadata(Value())|
    {
      ghost var m := Value();
      n := 0;
      assert |PrintFields(FieldsFrom(m, 1))| == |EncodeMetadata(m)|;
      hide EncodeMetadata, PrintFields, FieldsFrom;
      n := AddVarint(n, sourceShardID, m, 1);
      n := AddVarint(n, destinationShardID, m, 2);
      n := AddVarint(n, round, m, 3);
      n := AddVarint(n, headerNonce, m, 4);
      n := AddBytes(n, headerHash, m, 5);
      n := AddBytes(n, miniblockHash, m, 6);
      n := AddBytes(n, deprecatedStatus, m, 7);
      n := AddVarint(n, epoch, m, 8);
      n := AddVarint(n, sourceMetaNonce, m, 9);
      n := AddVarint(n, destinationMetaNonce, m, 10);
      n := AddBytes(n, sourceMetaHash, m, 11);
      n := AddBytes(n, destinationMetaHash, m, 12);
      n := AddVarint(n, SignExtend(miniblockType), m, 13);
      NothingAbove(m);
    }

    /** Fills dAtA[..end] from the back, field 13 first, and returns the number of bytes written. */
    method MarshalToSizedBuffer(dAtA: array<byte>, end: nat) returns (n: nat)
      requires |EncodeMetadata(Value())| <= MAX_INT
      requires |EncodeMetadata(Value())| <= end <= dAtA.Length
      modifies dAtA
      ensures n == |EncodeMetadata(Value())|
      ensures Written(old(dAtA[..]), dAtA[..], end - n, end, EncodeMetadata(Value()))
    {
      var m := Value();
      ghost var before := dAtA[..];
      NothingAbove(m);
      NothingWritten(before, end);
      hide *;
      var i := PutFieldsFrom9(m, dAtA, end, before, end);
      i := PutFieldsFrom5(m, dAtA, i, before, end);
      i := PutFieldsFrom1(m, dAtA, i, before, end);
      WrittenLength(before, dAtA[..], i, end, EncodeMetadata(m));
      n := end - i;
    }

    method Marshal() returns (bytes: seq<byte>)
      requires |EncodeMetadata(Value())| <= MAX_INT
      ensures bytes == EncodeMetadata(Value())
    {
      hide EncodeMetadata;
      var size := Size();
      var dAtA := new byte[size](_ => 0);
      var n := MarshalToSizedBuffer(dAtA, size);
      bytes := dAtA[..n];
    }

    /** The width of the accumulator that the switch uses for a varint field. */
    static function WidthOf(fieldNum: nat): Width {
      if fieldNum in {1, 2, 8, 13} then W32 else W64
    }

    /** The assignment at the end of a varint case. */
    method StoreVarint(fieldNum: nat, v: uint64)
      requires MetadataSchema(fieldNum) == VarintKind && (WidthOf(fieldNum) == W32 ==> v < TWO_32)
      modifies this
      ensures forall raw: uint64 :: v == Narrow(raw, WidthOf(fieldNum)) ==> Value() == ApplyVarint(old(Value()), fieldNum, raw)
    {
      match fieldNum {
        case 1 => sourceShardID := v;
        case 2 => destinationShardID := v;
        case 3 => round := v;
        case 4 => headerNonce := v;
        case 8 => epoch := v;
        case 9 => sourceMetaNonce := v;
        case 10 => destinationMetaNonce := v;
        case 13 => miniblockType := ToInt32(v);
      }
    }

    /** The assignment at the end of a bytes case. */
    method StoreBytes(fieldNum: nat, payload: seq<byte>)
      requires MetadataSchema(fieldNum) == BytesKind
      modifies this
      ensures Value() == ApplyBytes(old(Value()), fieldNum, payload)
    {
      match fieldNum {
        case 5 => headerHash := payload;
        case 6 => miniblockHash := payload;
        case 7 => deprecatedStatus := payload;
        case 11 => sourceMetaHash := payload;
        case 12 => destinationMetaHash := payload;
      }
    }

    /** One turn of the reader's loop. A varint field collects the bits of its varint while they are read. */
    method UnmarshalField(dAtA: seq<byte>, preIndex: nat) returns (iNdEx: nat, err: Option<Error>)
      requires preIndex < |dAtA| <= MAX_INT
      modifies this
      ensures err == None ==> preIndex < iNdEx <= |dAtA|
      ensures err == None ==> MetadataGoesOn(dAtA, old(Value()), preIndex, Value(), iNdEx)
      ensures err.Some? ==> MetadataStops(dAtA, old(Value()), preIndex, Value(), err.value)
    {
      hide ReadTag, ReadVarintField, ReadBytesField, ReadUnknownField, GoesOn, Stops, ApplyVarint, ApplyBytes, Narrow,
        Collected;
      ReaderTurn(MetadataSchema, ApplyToMetadata, KeepMessage, dAtA, Value(), preIndex);
      var fieldNum, wireType;
      fieldNum, wireType, iNdEx, err := ReadTagAt(dAtA, preIndex);
      if err.Some? {
        return;
      }
      match MetadataSchema(fieldNum) {
        case VarintKind =>
          var v;
          v, iNdEx, err := ReadVarintAt(dAtA, iNdEx, fieldNum, wireType, WidthOf(fieldNum));
          if wireType == 0 {
            StoreVarint(fieldNum, v);
          }
        case BytesKind =>
          var payload;
          payload, iNdEx, err := ReadBytesAt(dAtA, iNdEx, fieldNum, wireType);
          if err == None {
            StoreBytes(fieldNum, payload);
          }
        case UnknownKind =>
          iNdEx, err := SkipUnknownAt(dAtA, preIndex);
      }
    }

    /** Decodes into this message; on an error it keeps what was decoded and collected so far. */
    method Unmarshal(dAtA: seq<byte>) returns (err: Option<Error>)
      requires |dAtA| <= MAX_INT
      modifies this
      ensures Value() == RemainsOfMetadata(old(Value()), dAtA)
      ensures match DecodeMetadata(old(Value()), dAtA)
              case Ok(m) => err == None && Value() == m
              case Err(e) => err == Some(e)
    {
      var l := |dAtA|;
      var iNdEx := 0;
      while iNdEx < l
        invariant iNdEx <= l
        invariant MetadataGoesOn(dAtA, old(Value()), 0, Value(), iNdEx)
        decreases l - iNdEx
      {
        hide Decode, Remains;
        iNdEx, err := UnmarshalField(dAtA, iNdEx);
        if err.Some? {
          return;
        }
      }
      err := None;
    }
  }

  ghost predicate MetadataGoesOn(d: seq<byte>, m: Metadata, i: nat, m': Metadata, j: nat) {
    GoesOn(MetadataSchema, ApplyToMetadata, KeepMessage, d, m, i, m', j)
  }

  ghost predicate MetadataStops(d: seq<byte>, m: Metadata, i: nat, m': Metadata, e: Error) {
    Stops(MetadataSchema, ApplyToMetadata, KeepMessage, d, m, i, m', e)
  }

  lemma NothingAbove(m: Metadata)
    ensures PrintFields(FieldsFrom(m, 14)) == []
    ensures PrintFields(FieldsFrom(m, 1)) == EncodeMetadata(m)
  {
  }

  // The blocks of the writer, highest number first, in three runs.

  method PutFieldsFrom9(m: Metadata, dAtA: array<byte>, offset: nat, ghost before: seq<byte>, ghost end: nat) returns (i: nat)
    requires |EncodeMetadata(m)| <= MAX_INT && |EncodeMetadata(m)| <= end
    requires Written(before, dAtA[..], offset, end, PrintFields(FieldsFrom(m, 14)))
    modifies dAtA
    ensures Written(before, dAtA[..], i, end, PrintFields(FieldsFrom(m, 9)))
  {
    FieldNumbers(m);
    hide *;
    i := offset;
    i := EmitVarint(dAtA, i, 0x68, SignExtend(m.miniblockType), m, 13, before, end);
    i := EmitBytes(dAtA, i, 0x62, m.destinationMetaHash, m, 12, before, end);
    i := EmitBytes(dAtA, i, 0x5a, m.sourceMetaHash, m, 11, before, end);
    i := EmitVarint(dAtA, i, 0x50, m.destinationMetaNonce, m, 10, before, end);
    i := EmitVarint(dAtA, i, 0x48, m.sourceMetaNonce, m, 9, before, end);
  }

  method PutFieldsFrom5(m: Metadata, dAtA: array<byte>, offset: nat, ghost before: seq<byte>, ghost end: nat) returns (i: nat)
    requires |EncodeMetadata(m)| <= MAX_INT && |EncodeMetadata(m)| <= end
    requires Written(before, dAtA[..], offset, end, PrintFields(FieldsFrom(m, 9)))
    modifies dAtA
    ensures Written(before, dAtA[..], i, end, PrintFields(FieldsFrom(m, 5)))
  {
    FieldNumbers(m);
    hide *;
    i := offset;
    i := EmitVarint(dAtA, i, 0x40, m.epoch, m, 8, before, end);
    i := EmitBytes(dAtA, i, 0x3a, m.deprecatedStatus, m, 7, before, end);
    i := EmitBytes(dAtA, i, 0x32, m.miniblockHash, m, 6, before, end);
    i := EmitBytes(dAtA, i, 0x2a, m.headerHash, m, 5, before, end);
  }

  method PutFieldsFrom1(m: Metadata, dAtA: array<byte>, offset: nat, ghost before: seq<byte>, ghost end: nat) returns (i: nat)
    requires |EncodeMetadata(m)| <= MAX_INT && |EncodeMetadata(m)| <= end
    requires Written(before, dAtA[..], offset, end, PrintFields(FieldsFrom(m, 5)))
    modifies dAtA
    ensures Written(before, dAtA[..], i, end, PrintFields(FieldsFrom(m, 1)))
  {
    FieldNumbers(m);
    hide *;
    i := offset;
    i := EmitVarint(dAtA, i, 0x20, m.headerNonce, m, 4, before, end);
    i := EmitVarint(dAtA, i, 0x18, m.round, m, 3, before, end);
    i := EmitVarint(dAtA, i, 0x10, m.destinationShardID, m, 2, before, end);
    i := EmitVarint(dAtA, i, 0x8, m.sourceShardID, m, 1, before, end);
  }

  lemma FieldNumbers(m: Metadata)
    ensures FieldAt(m, 1) == OptionalVarint(1, m.sourceShardID)
    ensures FieldAt(m, 2) == OptionalVarint(2, m.destinationShardID)
    ensures FieldAt(m, 3) == OptionalVarint(3, m.round)
    ensures FieldAt(m, 4) == OptionalVarint(4, m.headerNonce)
    ensures FieldAt(m, 5) == OptionalBytes(5, m.headerHash)
    ensures FieldAt(m, 6) == OptionalBytes(6, m.miniblockHash)
    ensures FieldAt(m, 7) == OptionalBytes(7, m.deprecatedStatus)
    ensures FieldAt(m, 8) == OptionalVarint(8, m.epoch)
    ensures FieldAt(m, 9) == OptionalVarint(9, m.sourceMetaNonce)
    ensures FieldAt(m, 10) == OptionalVarint(10, m.destinationMetaNonce)
    ensures FieldAt(m, 11) == OptionalBytes(11, m.sourceMetaHash)
    ensures FieldAt(m, 12) == OptionalBytes(12, m.destinationMetaHash)
    ensures FieldAt(m, 13) == OptionalVarint(13, SignExtend(m.miniblockType))
  {
  }
}
