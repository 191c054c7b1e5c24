/**
 The generated methods of the two results messages: sizing, the writer that fills its buffer
 from back to front, and the reader's cursor loop.
 */
module ResultsMessages {
  import opened Machine
  import opened Varint
  import opened Wire
  import opened Sequences
  import opened ResultsCodec

  // ---------- what one more field adds to an encoding ----------

  /** A length-delimited field with a one-byte tag takes 1 + l + sov(l) bytes. */
  lemma BytesFieldSize(num: nat, payload: seq<byte>)
    requires 0 < num < 16 && |payload| <= MAX_INT
    ensures PrintField(BytesField(num, payload)) == [num * 8 + 2] + EncodeVarint(|payload|) + payload
    ensures |PrintField(BytesField(num, payload))| == 1 + |payload| + Sov(|payload|)
  {
    assert PrintTag(num, 2) == [num * 8 + 2];
    SovIsLength(|payload|);
    hide EncodeVarint, Sov;
  }

  lemma VarintFieldSize(num: nat, value: uint64)
    requires 0 < num < 16
    ensures PrintField(VarintField(num, value)) == [num * 8] + EncodeVarint(value)
    ensures |PrintField(VarintField(num, value))| == 1 + Sov(value)
  {
    assert PrintTag(num, 0) == [num * 8];
    SovIsLength(value);
    hide EncodeVarint, Sov;
  }

  lemma PrintOne(f: Field)
    ensures PrintFields([f]) == PrintField(f)
  {
    assert [f][1..] == [];
    assert PrintField(f) + [] == PrintField(f);
  }

  lemma PrintHashFields(hashes: seq<seq<byte>>)
    requires hashes != []
    ensures PrintFields(HashFields(hashes)) == PrintField(BytesField(2, hashes[0])) + PrintFields(HashFields(hashes[1..]))
  {
    assert HashFields(hashes)[1..] == HashFields(hashes[1..]);
  }

  lemma PrintGroupFields(groups: seq<Group>)
    requires groups != []
    ensures PrintFields(GroupFields(groups)) ==
            PrintField(BytesField(2, EncodeGroup(groups[0]))) + PrintFields(GroupFields(groups[1..]))
  {
    assert GroupFields(groups)[1..] == GroupFields(groups[1..]);
  }

  lemma PrintGroup(g: Group)
    ensures EncodeGroup(g) == PrintFields(EpochField(g)) + PrintFields(HashFields(g.hashes))
    ensures g.epoch != 0 ==> PrintFields(EpochField(g)) == PrintField(VarintField(1, g.epoch))
    ensures g.epoch == 0 ==> PrintFields(EpochField(g)) == []
  {
    PrintAppend(EpochField(g), HashFields(g.hashes));
    PrintOne(VarintField(1, g.epoch));
  }

  lemma PrintResults(m: Results)
    ensures EncodeResults(m) == PrintFields(ReceiptField(m)) + PrintFields(GroupFields(m.groups))
    ensures m.receiptsHash != [] ==> PrintFields(ReceiptField(m)) == PrintField(BytesField(1, m.receiptsHash))
    ensures m.receiptsHash == [] ==> PrintFields(ReceiptField(m)) == []
  {
    PrintAppend(ReceiptField(m), GroupFields(m.groups));
    PrintOne(BytesField(1, m.receiptsHash));
  }

  /** The two parts of an encoding that fits, the receipt spelled out. */
  lemma PrintResultsParts(m: Results)
    requires |EncodeResults(m)| <= MAX_INT
    ensures |m.receiptsHash| <= MAX_INT
    ensures m.receiptsHash != [] ==>
              EncodeResults(m) ==
              [0xa] + EncodeVarint(|m.receiptsHash|) + m.receiptsHash + PrintFields(GroupFields(m.groups))
    ensures m.receiptsHash == [] ==> EncodeResults(m) == PrintFields(GroupFields(m.groups))
    ensures |PrintFields(GroupFields(m.groups))| <= |EncodeResults(m)|
  {
    hide *;
    PrintResults(m);
    BytesFieldSizeIfFits(1, m.receiptsHash);
    LeftUnit(PrintFields(GroupFields(m.groups)));
  }

  lemma GroupsFit(m: Results)
    requires |EncodeResults(m)| <= MAX_INT
    ensures |PrintFields(GroupFields(m.groups))| <= |EncodeResults(m)|
  {
    hide *;
    PrintResultsParts(m);
  }

  /** The encodings of the fields from k on are no longer than the whole. */
  lemma {:induction false} HashSuffixFits(hashes: seq<seq<byte>>, k: nat)
    requires k <= |hashes|
    ensures |PrintFields(HashFields(hashes[k..]))| <= |PrintFields(HashFields(hashes))|
  {
    if k == 0 {
      assert hashes[0..] == hashes;
    } else {
      PrintHashFields(hashes);
      assert hashes[k..] == hashes[1..][k - 1..];
      HashSuffixFits(hashes[1..], k - 1);
    }
  }

  lemma {:induction false} GroupSuffixFits(groups: seq<Group>, k: nat)
    requires k <= |groups|
    ensures |PrintFields(GroupFields(groups[k..]))| <= |PrintFields(GroupFields(groups))|
  {
    if k == 0 {
      assert groups[0..] == groups;
    } else {
      PrintGroupFields(groups);
      assert groups[k..] == groups[1..][k - 1..];
      GroupSuffixFits(groups[1..], k - 1);
    }
  }

  /** What hash k adds in front of the hashes after it, when all of them fit. */
  lemma NextHash(hashes: seq<seq<byte>>, k: nat)
    requires k < |hashes| && |PrintFields(HashFields(hashes))| <= MAX_INT
    ensures |hashes[k]| <= MAX_INT && Sov(|hashes[k]|) == |EncodeVarint(|hashes[k]|)|
    ensures PrintFields(HashFields(hashes[k..])) ==
            [0x12] + EncodeVarint(|hashes[k]|) + hashes[k] + PrintFields(HashFields(hashes[k + 1..]))
    ensures |PrintFields(HashFields(hashes[k..]))| ==
            1 + |hashes[k]| + Sov(|hashes[k]|) + |PrintFields(HashFields(hashes[k + 1..]))|
    ensures |PrintFields(HashFields(hashes[k..]))| <= |PrintFields(HashFields(hashes))|
  {
    HashSuffixFits(hashes, k);
    PrintHashFields(hashes[k..]);
    assert hashes[k..][1..] == hashes[k + 1..];
    hide PrintFields, HashFields, EncodeVarint;
    assert |PrintField(BytesField(2, hashes[k]))| >= |hashes[k]|;
    BytesFieldSize(2, hashes[k]);
    SovIsLength(|hashes[k]|);
  }

  lemma NextGroup(groups: seq<Group>, k: nat)
    requires k < |groups| && |PrintFields(GroupFields(groups))| <= MAX_INT
    ensures |EncodeGroup(groups[k])| <= MAX_INT < 0x1_0000_0000_0000_0000
    ensures Sov(|EncodeGroup(groups[k])|) == |EncodeVarint(|EncodeGroup(groups[k])|)|
    ensures PrintFields(GroupFields(groups[k..])) ==
            [0x12] + EncodeVarint(|EncodeGroup(groups[k])|) + EncodeGroup(groups[k]) + PrintFields(GroupFields(groups[k + 1..]))
    ensures |PrintFields(GroupFields(groups[k..]))| ==
            1 + |EncodeGroup(groups[k])| + Sov(|EncodeGroup(groups[k])|) + |PrintFields(GroupFields(groups[k + 1..]))|
    ensures |PrintFields(GroupFields(groups[k..]))| <= |PrintFields(GroupFields(groups))|
  {
    GroupSuffixFits(groups, k);
    PrintGroupFields(groups[k..]);
    assert groups[k..][1..] == groups[k + 1..];
    hide PrintFields, GroupFields, EncodeVarint, EncodeGroup;
    assert |PrintField(BytesField(2, EncodeGroup(groups[k])))| >= |EncodeGroup(groups[k])|;
    BytesFieldSize(2, EncodeGroup(groups[k]));
    SovIsLength(|EncodeGroup(groups[k])|);
  }

  // ---------- ScResultsHashesAndEpoch ----------

  class GroupMessage {
    var epoch: uint32
    var hashes: seq<seq<byte>>

    function Value(): Group
      reads this
    {
      Group(epoch, hashes)
    }

    constructor ()
      ensures Value() == EMPTY_GROUP
    {
      epoch, hashes := 0, [];
    }

    method Size() returns (n: nat)
      requires |EncodeGroup(Value())| <= MAX_INT
      ensures n == |EncodeGroup(Value())|
    {
      PrintGroup(Value());
      hide EncodeGroup, EncodeVarint, Sov, PrintFields, HashFields;
      n := 0;
      if epoch != 0 {
        VarintFieldSize(1, epoch);
        n := n + 1 + Sov(epoch);
      }
      ghost var head := n;
      var k := 0;
      NoHashes(hashes);
      while k < |hashes|
        invariant k <= |hashes|
        invariant n + |PrintFields(HashFields(hashes[k..]))| == |EncodeGroup(Value())|
      {
        var l := |hashes[k]|;
        NextHash(hashes, k);
        n := n + 1 + l + Sov(l);
        k := k + 1;
      }
    }

    /** Fills dAtA[..end] from the back and returns the number of bytes written. */
    method MarshalToSizedBuffer(dAtA: array<byte>, end: nat) returns (n: nat)
      requires |EncodeGroup(Value())| <= MAX_INT
      requires |EncodeGroup(Value())| <= end <= dAtA.Length
      modifies dAtA
      ensures n == |EncodeGroup(Value())|
      ensures Written(old(dAtA[..]), dAtA[..], end - n, end, EncodeGroup(Value()))
    {
      PrintGroup(Value());
      VarintFieldSize(1, epoch);
      SovIsLength(epoch);
      hide EncodeGroup, PrintFields, PrintField, HashFields, EpochField, Written, EncodeVarint, Sov;
      ghost var before := dAtA[..];
      var i := PutHashes(hashes, dAtA, end);
      WrittenLength(before, dAtA[..], i, end, PrintFields(HashFields(hashes)));
      if epoch != 0 {
        ghost var mid, at := dAtA[..], i;
        i := PutVarint(dAtA, i, 0x8, epoch);
        WrittenThen(before, mid, dAtA[..], i, at, end, [0x8] + EncodeVarint(epoch), PrintFields(HashFields(hashes)));
      } else {
        LeftUnit(PrintFields(HashFields(hashes)));
      }
      WrittenLength(before, dAtA[..], i, end, EncodeGroup(Value()));
      n := end - i;
    }

    method Marshal() returns (bytes: seq<byte>)
      requires |EncodeGroup(Value())| <= MAX_INT
      ensures bytes == EncodeGroup(Value())
    {
      hide EncodeGroup;
      var size := Size();
      var dAtA := new byte[size](_ => 0);
      var n := MarshalToSizedBuffer(dAtA, size);
      bytes := dAtA[..n];
    }

    /** One turn of the reader's loop. The epoch collects the bits of its varint while they are read. */
    method UnmarshalField(dAtA: seq<byte>, preIndex: nat) returns (iNdEx: nat, err: Option<Error>)
      requires preIndex < |dAtA| <= MAX_INT
      modifies this
      ensures err == None ==> preIndex < iNdEx <= |dAtA|
      ensures err == None ==> GroupGoesOn(dAtA, old(Value()), preIndex, Value(), iNdEx)
      ensures err.Some? ==> GroupStops(dAtA, old(Value()), preIndex, Value(), err.value)
    {
      hide ReadTag, ReadVarintField, ReadBytesField, ReadUnknownField, GoesOn, Stops, Narrow, Collected;
      ReaderTurn(GroupSchema, ApplyToGroup, KeepMessage, dAtA, Value(), preIndex);
      var fieldNum, wireType;
      fieldNum, wireType, iNdEx, err := ReadTagAt(dAtA, preIndex);
      if err.Some? {
        return;
      }
      match fieldNum {
        case 1 =>
          var v;
          v, iNdEx, err := ReadVarintAt(dAtA, iNdEx, fieldNum, wireType, W32);
          if wireType == 0 {
            epoch := v;
          }
        case 2 =>
          var payload;
          payload, iNdEx, err := ReadBytesAt(dAtA, iNdEx, fieldNum, wireType);
          if err == None {
            hashes := hashes + [payload];
          }
        case _ =>
          iNdEx, err := SkipUnknownAt(dAtA, preIndex);
      }
    }

    /** Decodes into this message; on an error it keeps what was decoded and collected so far. */
    method Unmarshal(dAtA: seq<byte>) returns (err: Option<Error>)
      requires |dAtA| <= MAX_INT
      modifies this
      ensures Value() == RemainsOfGroup(old(Value()), dAtA)
      ensures match DecodeGroup(old(Value()), dAtA)
              case Ok(g) => err == None && Value() == g
              case Err(e) => err == Some(e)
    {
      var l := |dAtA|;
      var iNdEx := 0;
      while iNdEx < l
        invariant iNdEx <= l
        invariant GroupGoesOn(dAtA, old(Value()), 0, Value(), iNdEx)
        decreases l - iNdEx
      {
        hide Decode, Remains;
        iNdEx, err := UnmarshalField(dAtA, iNdEx);
        if err.Some? {
          return;
        }
      }
      err := None;
    }
  }

  ghost predicate GroupGoesOn(d: seq<byte>, m: Group, i: nat, m': Group, j: nat) {
    GoesOn(GroupSchema, ApplyToGroup, KeepMessage, d, m, i, m', j)
  }

  ghost predicate GroupStops(d: seq<byte>, m: Group, i: nat, m': Group, e: Error) {
    Stops(GroupSchema, ApplyToGroup, KeepMessage, d, m, i, m', e)
  }

  // ---------- ResultsHashesByTxHash ----------

  class ResultsMessage {
    var receiptsHash: seq<byte>
    var groups: seq<GroupMessage>

    function Value(): Results
      reads this, groups
    {
      Results(receiptsHash, GroupValues(groups))
    }

    constructor ()
      ensures Value() == EMPTY_RESULTS && groups == []
    {
      receiptsHash, groups := [], [];
    }

    method Size() returns (n: nat)
      requires |EncodeResults(Value())| <= MAX_INT
      ensures n == |EncodeResults(Value())|
    {
      ghost var values := GroupValues(groups);
      PrintResults(Value());
      hide EncodeResults, EncodeGroup, EncodeVarint, Sov, PrintFields, GroupFields;
      n := 0;
      var l := |receiptsHash|;
      if l > 0 {
        BytesFieldSize(1, receiptsHash);
        n := n + 1 + l + Sov(l);
      }
      var k := 0;
      NoGroups(values);
      while k < |groups|
        invariant k <= |groups|
        invariant n + |PrintFields(GroupFields(values[k..]))| == |EncodeResults(Value())|
      {
        NextGroup(values, k);
        l := groups[k].Size();
        n := n + 1 + l + Sov(l);
        k := k + 1;
      }
    }

    /** Fills dAtA[..end] from the back and returns the number of bytes written. */
    method MarshalToSizedBuffer(dAtA: array<byte>, end: nat) returns (n: nat)
      requires |EncodeResults(Value())| <= MAX_INT
      requires |EncodeResults(Value())| <= end <= dAtA.Length
      modifies dAtA
      ensures n == |EncodeResults(Value())|
      ensures Written(old(dAtA[..]), dAtA[..], end - n, end, EncodeResults(Value()))
    {
      ghost var m := Value();
      ghost var before := dAtA[..];
      assert m == Results(receiptsHash, GroupValues(groups));
      hide *;
      GroupsFit(m);
      var i := PutGroups(groups, dAtA, end);
      i := PutReceipt(receiptsHash, dAtA, i, m, before, end);
      assert m == Value();
      WrittenLength(before, dAtA[..], i, end, EncodeResults(m));
      n := end - i;
    }

    method Marshal() returns (bytes: seq<byte>)
      requires |EncodeResults(Value())| <= MAX_INT
      ensures bytes == EncodeResults(Value())
    {
      hide EncodeResults;
      var size := Size();
      var dAtA := new byte[size](_ => 0);
      var n := MarshalToSizedBuffer(dAtA, size);
      bytes := dAtA[..n];
    }

    /** Appends a fresh object and decodes one nested message into it. */
    method UnmarshalGroup(payload: seq<byte>) returns (err: Option<Error>)
      requires |payload| <= MAX_INT
      modifies this
      ensures receiptsHash == old(receiptsHash)
      ensures Value() == old(Value()).(groups := old(Value()).groups + [RemainsOfGroup(EMPTY_GROUP, payload)])
      ensures match DecodeGroup(EMPTY_GROUP, payload)
              case Ok(g) => err == None && RemainsOfGroup(EMPTY_GROUP, payload) == g
              case Err(e) => err == Some(e)
      ensures forall g :: g in groups ==> g in old(groups) || fresh(g)
    {
      hide DecodeGroup, GroupValues, RemainsOfGroup;
      ghost var previous, values := groups, GroupValues(groups);
      var group := new GroupMessage();
      groups := groups + [group];
      err := group.Unmarshal(payload);
      assert GroupValues(previous) == values;
      GroupValuesAppend(previous, group);
    }

    /** One turn of the reader's loop. */
    method UnmarshalField(dAtA: seq<byte>, preIndex: nat) returns (iNdEx: nat, err: Option<Error>)
      requires preIndex < |dAtA| <= MAX_INT
      modifies this
      ensures err == None ==> preIndex < iNdEx <= |dAtA|
      ensures err == None ==> ResultsGoOn(dAtA, old(Value()), preIndex, Value(), iNdEx)
      ensures err.Some? ==> ResultsStop(dAtA, old(Value()), preIndex, Value(), err.value)
      ensures forall g :: g in groups ==> g in old(groups) || fresh(g)
    {
      hide ReadTag, ReadVarintField, ReadBytesField, ReadUnknownField, GoesOn, Stops, DecodeGroup, RemainsOfGroup,
        GroupValues, Collected;
      ReaderTurn(ResultsSchema, ApplyToResults, KeepHalfDecoded, dAtA, Value(), preIndex);
      var fieldNum, wireType;
      fieldNum, wireType, iNdEx, err := ReadTagAt(dAtA, preIndex);
      if err.Some? {
        return;
      }
      match fieldNum {
        case 1 =>
          var payload;
          payload, iNdEx, err := ReadBytesAt(dAtA, iNdEx, fieldNum, wireType);
          if err.Some? {
            return;
          }
          receiptsHash := payload;
        case 2 =>
          var payload;
          payload, iNdEx, err := ReadBytesAt(dAtA, iNdEx, fieldNum, wireType);
          if err.Some? {
            return;
          }
          err := UnmarshalGroup(payload);
        case _ =>
          iNdEx, err := SkipUnknownAt(dAtA, preIndex);
      }
    }

    /** Decodes into this message; on an error it keeps what was decoded so far. */
    method Unmarshal(dAtA: seq<byte>) returns (err: Option<Error>)
      requires |dAtA| <= MAX_INT
      modifies this
      ensures Value() == RemainsOfResults(old(Value()), dAtA)
      ensures match DecodeResults(old(Value()), dAtA)
              case Ok(m) => err == None && Value() == m
              case Err(e) => err == Some(e)
      ensures forall g :: g in groups ==> g in old(groups) || fresh(g)
    {
      var l := |dAtA|;
      var iNdEx := 0;
      while iNdEx < l
        invariant iNdEx <= l
        invariant ResultsGoOn(dAtA, old(Value()), 0, Value(), iNdEx)
        invariant forall g :: g in groups ==> g in old(groups) || fresh(g)
        decreases l - iNdEx
      {
        hide Decode, Remains;
        iNdEx, err := UnmarshalField(dAtA, iNdEx);
        if err.Some? {
          return;
        }
      }
      err := None;
    }
  }

  ghost predicate ResultsGoOn(d: seq<byte>, m: Results, i: nat, m': Results, j: nat) {
    GoesOn(ResultsSchema, ApplyToResults, KeepHalfDecoded, d, m, i, m', j)
  }

  ghost predicate ResultsStop(d: seq<byte>, m: Results, i: nat, m': Results, e: Error) {
    Stops(ResultsSchema, ApplyToResults, KeepHalfDecoded, d, m, i, m', e)
  }

  function GroupValues(groups: seq<GroupMessage>): (r: seq<Group>)
    reads groups
    ensures |r| == |groups| && forall k :: 0 <= k < |groups| ==> r[k] == groups[k].Value()
  {
    if groups == [] then [] else [groups[0].Value()] + GroupValues(groups[1..])
  }

  lemma GroupValuesAppend(groups: seq<GroupMessage>, g: GroupMessage)
    ensures GroupValues(groups + [g]) == GroupValues(groups) + [g.Value()]
  {
  }

  lemma NoGroups(groups: seq<Group>)
    ensures PrintFields(GroupFields(groups[|groups|..])) == []
    ensures PrintFields(GroupFields(groups[0..])) == PrintFields(GroupFields(groups))
  {
    assert groups[0..] == groups;
  }

  lemma BytesFieldSizeIfFits(num: nat, payload: seq<byte>)
    requires 0 < num < 16
    ensures |payload| <= |PrintField(BytesField(num, payload))|
    ensures |payload| <= MAX_INT ==>
              && PrintField(BytesField(num, payload)) == [num * 8 + 2] + EncodeVarint(|payload|) + payload
              && Sov(|payload|) == |EncodeVarint(|payload|)|
  {
    if |payload| <= MAX_INT {
      BytesFieldSize(num, payload);
      SovIsLength(|payload|);
    }
  }

  /** The block of the receipt in the writer; the groups are already written. */
  method PutReceipt(receiptsHash: seq<byte>, dAtA: array<byte>, offset: nat,
                    ghost m: Results, ghost before: seq<byte>, ghost end: nat) returns (i: nat)
    requires receiptsHash == m.receiptsHash && |EncodeResults(m)| <= MAX_INT && |EncodeResults(m)| <= end
    requires Written(before, dAtA[..], offset, end, PrintFields(GroupFields(m.groups)))
    modifies dAtA
    ensures Written(before, dAtA[..], i, end, EncodeResults(m))
  {
    hide *;
    PrintResultsParts(m);
    ghost var rest := PrintFields(GroupFields(m.groups));
    WrittenLength(before, dAtA[..], offset, end, rest);
    i := offset;
    if |receiptsHash| > 0 {
      ghost var mid := dAtA[..];
      i := PutBytes(dAtA, i, 0xa, receiptsHash);
      WrittenThen(before, mid, dAtA[..], i, offset, end, [0xa] + EncodeVarint(|receiptsHash|) + receiptsHash, rest);
    }
  }

  /** The repeated nested message, last group first; each one is sized by writing it. */
  method PutGroups(groups: seq<GroupMessage>, dAtA: array<byte>, end: nat) returns (i: nat)
    requires |PrintFields(GroupFields(GroupValues(groups)))| <= MAX_INT
    requires |PrintFields(GroupFields(GroupValues(groups)))| <= end <= dAtA.Length
    modifies dAtA
    ensures Written(old(dAtA[..]), dAtA[..], i, end, PrintFields(GroupFields(GroupValues(groups))))
  {
    hide *;
    i := end;
    ghost var before, values := dAtA[..], GroupValues(groups);
    NoGroups(values);
    NothingWritten(before, end);
    var iNdEx := |groups| - 1;
    while iNdEx >= 0
      invariant -1 <= iNdEx < |groups|
      invariant GroupValues(groups) == values
      invariant Written(before, dAtA[..], i, end, PrintFields(GroupFields(values[iNdEx + 1..])))
    {
      NextGroup(values, iNdEx);
      ghost var rest := PrintFields(GroupFields(values[iNdEx + 1..]));
      WrittenLength(before, dAtA[..], i, end, rest);
      ghost var start, at := dAtA[..], i;
      ghost var payload := EncodeGroup(values[iNdEx]);
      var size := groups[iNdEx].MarshalToSizedBuffer(dAtA, i);
      i := i - size;
      ghost var mid := dAtA[..];
      i := PutVarint(dAtA, i, 0x12, size);
      WrittenThen(start, mid, dAtA[..], i, at - size, at, [0x12] + EncodeVarint(size), payload);
      WrittenThen(before, start, dAtA[..], i, at, end, [0x12] + EncodeVarint(size) + payload, rest);
      iNdEx := iNdEx - 1;
    }
  }

  /** The repeated field, last hash first. */
  method PutHashes(hashes: seq<seq<byte>>, dAtA: array<byte>, end: nat) returns (i: nat)
    requires |PrintFields(HashFields(hashes))| <= MAX_INT
    requires |PrintFields(HashFields(hashes))| <= end <= dAtA.Length
    modifies dAtA
    ensures Written(old(dAtA[..]), dAtA[..], i, end, PrintFields(HashFields(hashes)))
  {
    hide *;
    i := end;
    ghost var before := dAtA[..];
    NoHashes(hashes);
    NothingWritten(before, end);
    var iNdEx := |hashes| - 1;
    while iNdEx >= 0
      invariant -1 <= iNdEx < |hashes|
      invariant Written(before, dAtA[..], i, end, PrintFields(HashFields(hashes[iNdEx + 1..])))
    {
      NextHash(hashes, iNdEx);
      ghost var rest := PrintFields(HashFields(hashes[iNdEx + 1..]));
      WrittenLength(before, dAtA[..], i, end, rest);
      ghost var mid, at := dAtA[..], i;
      i := PutBytes(dAtA, i, 0x12, hashes[iNdEx]);
      WrittenThen(before, mid, dAtA[..], i, at, end, [0x12] + EncodeVarint(|hashes[iNdEx]|) + hashes[iNdEx], rest);
      iNdEx := iNdEx - 1;
    }
  }

  lemma NoHashes(hashes: seq<seq<byte>>)
    ensures PrintFields(HashFields(hashes[|hashes|..])) == []
    ensures PrintFields(HashFields(hashes[0..])) == PrintFields(HashFields(hashes))
  {
    assert hashes[0..] == hashes;
  }
}
