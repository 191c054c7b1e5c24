/**
 The codec of the results-by-transaction records: a repeated message nested in a message.
 */
module ResultsCodec {
  import opened Machine
  import opened Varint
  import opened Wire
  import opened Sequences
  import opened UnknownFields

  /** ScResultsHashesAndEpoch. */
  datatype Group = Group(epoch: uint32, hashes: seq<seq<byte>>)

  /** ResultsHashesByTxHash; a nil slice and an empty one are Equal, hence one value here. */
  datatype Results = Results(receiptsHash: seq<byte>, groups: seq<Group>)

  const EMPTY_GROUP := Group(0, [])
  const EMPTY_RESULTS := Results([], [])

  // ---------- encoding ----------

  function HashFields(hashes: seq<seq<byte>>): seq<Field> {
    if hashes == [] then [] else [BytesField(2, hashes[0])] + HashFields(hashes[1..])
  }

  function EpochField(g: Group): seq<Field> {
    if g.epoch != 0 then [VarintField(1, g.epoch)] else []
  }

  function FieldsOfGroup(g: Group): seq<Field> {
    EpochField(g) + HashFields(g.hashes)
  }

  function EncodeGroup(g: Group): seq<byte> {
    PrintFields(FieldsOfGroup(g))
  }

  function GroupFields(groups: seq<Group>): seq<Field> {
    if groups == [] then [] else [BytesField(2, EncodeGroup(groups[0]))] + GroupFields(groups[1..])
  }

  function ReceiptField(m: Results): seq<Field> {
    if m.receiptsHash != [] then [BytesField(1, m.receiptsHash)] else []
  }

  function FieldsOfResults(m: Results): seq<Field> {
    ReceiptField(m) + GroupFields(m.groups)
  }

  function EncodeResults(m: Results): seq<byte> {
    PrintFields(FieldsOfResults(m))
  }

  // ---------- decoding ----------

  function GroupSchema(num: nat): Kind {
    match num
    case 1 => VarintKind
    case 2 => BytesKind
    case _ => UnknownKind
  }

  function ApplyToGroup(m: Group, f: Field): Parsed<Group> {
    match f
    case VarintField(1, v) => Ok(m.(epoch := Narrow(v, W32)))
    case BytesField(2, payload) => Ok(m.(hashes := m.hashes + [payload]))
    case _ => Ok(m)
  }

  function DecodeGroup(m: Group, d: seq<byte>): Parsed<Group> {
    Decode(GroupSchema, ApplyToGroup, m, d, 0)
  }

  function ResultsSchema(num: nat): Kind {
    match num
    case 1 => BytesKind
    case 2 => BytesKind
    case _ => UnknownKind
  }

  function ApplyToResults(m: Results, f: Field): Parsed<Results> {
    match f
    case BytesField(1, payload) => Ok(m.(receiptsHash := payload))
    case BytesField(2, payload) =>
      (match DecodeGroup(EMPTY_GROUP, payload)
       case Ok(g) => Ok(m.(groups := m.groups + [g]))
       case Err(e) => Err(e))
    case _ => Ok(m)
  }

  function DecodeResults(m: Results, d: seq<byte>): Parsed<Results> {
    Decode(ResultsSchema, ApplyToResults, m, d, 0)
  }

  // ---------- reading back what was written ----------

  /** What decoding the encoding of y into x gives. */
  function MergeGroups(x: Group, y: Group): Group {
    Group(if y.epoch != 0 then y.epoch else x.epoch, x.hashes + y.hashes)
  }

  function MergeResults(x: Results, y: Results): Results {
    Results(if y.receiptsHash != [] then y.receiptsHash else x.receiptsHash, x.groups + y.groups)
  }

  lemma {:induction false} HashFieldsKnown(hashes: seq<seq<byte>>)
    requires |PrintFields(HashFields(hashes))| <= MAX_INT
    ensures forall f :: f in HashFields(hashes) ==> Known(GroupSchema, f)
  {
    if hashes != [] {
      assert HashFields(hashes)[1..] == HashFields(hashes[1..]);
      HashFieldsKnown(hashes[1..]);
    }
  }

  lemma {:induction false} ApplyHashFields(m: Group, hashes: seq<seq<byte>>)
    ensures ApplyAll(ApplyToGroup, m, HashFields(hashes)) == Ok(m.(hashes := m.hashes + hashes))
    decreases |hashes|
  {
    if hashes == [] {
      RightUnit(m.hashes);
    } else {
      assert HashFields(hashes)[1..] == HashFields(hashes[1..]);
      ApplyHashFields(m.(hashes := m.hashes + [hashes[0]]), hashes[1..]);
      MoveHead(m.hashes, hashes);
    }
  }

  lemma FieldsOfGroupKnown(g: Group)
    requires |EncodeGroup(g)| <= MAX_INT
    ensures forall f :: f in FieldsOfGroup(g) ==> Known(GroupSchema, f)
  {
    PrintAppend(EpochField(g), HashFields(g.hashes));
    HashFieldsKnown(g.hashes);
  }

  lemma ApplyFieldsOfGroup(x: Group, y: Group)
    ensures ApplyAll(ApplyToGroup, x, FieldsOfGroup(y)) == Ok(MergeGroups(x, y))
  {
    ApplyAppend(ApplyToGroup, x, EpochField(y), HashFields(y.hashes));
    var x' := x.(epoch := if y.epoch != 0 then y.epoch else x.epoch);
    assert ApplyAll(ApplyToGroup, x, EpochField(y)) == Ok(x');
    ApplyHashFields(x', y.hashes);
  }

  lemma DecodeOfEncodedGroup(x: Group, y: Group)
    requires |EncodeGroup(y)| <= MAX_INT
    ensures DecodeGroup(x, EncodeGroup(y)) == Ok(MergeGroups(x, y))
    ensures DecodeGroup(x, EncodeGroup(y)) == Ok(Group(if y.epoch != 0 then y.epoch else x.epoch, x.hashes + y.hashes))
  {
    FieldsOfGroupKnown(y);
    hide Decode, PrintFields, FieldsOfGroup, Known;
    DecodeOfPrinted(GroupSchema, ApplyToGroup, x, FieldsOfGroup(y));
    ApplyFieldsOfGroup(x, y);
  }

  lemma GroupRoundTrip(g: Group)
    requires |EncodeGroup(g)| <= MAX_INT
    ensures DecodeGroup(EMPTY_GROUP, EncodeGroup(g)) == Ok(g)
  {
    hide EncodeGroup, DecodeGroup;
    DecodeOfEncodedGroup(EMPTY_GROUP, g);
    LeftUnit(g.hashes);
  }

  lemma {:induction false} GroupFieldsFit(groups: seq<Group>)
    requires |PrintFields(GroupFields(groups))| <= MAX_INT
    ensures forall f :: f in GroupFields(groups) ==> Known(ResultsSchema, f)
    ensures forall g :: g in groups ==> |EncodeGroup(g)| <= MAX_INT
  {
    if groups != [] {
      hide EncodeGroup;
      assert GroupFields(groups)[1..] == GroupFields(groups[1..]);
      GroupFieldsFit(groups[1..]);
    }
  }

  lemma {:induction false} ApplyGroupFields(m: Results, groups: seq<Group>)
    requires forall g :: g in groups ==> |EncodeGroup(g)| <= MAX_INT
    ensures ApplyAll(ApplyToResults, m, GroupFields(groups)) == Ok(m.(groups := m.groups + groups))
    decreases |groups|
  {
    hide EncodeGroup, DecodeGroup;
    if groups == [] {
      RightUnit(m.groups);
    } else {
      assert GroupFields(groups)[1..] == GroupFields(groups[1..]);
      GroupRoundTrip(groups[0]);
      ApplyGroupFields(m.(groups := m.groups + [groups[0]]), groups[1..]);
      MoveHead(m.groups, groups);
    }
  }

  lemma FieldsOfResultsFit(m: Results)
    requires |EncodeResults(m)| <= MAX_INT
    ensures forall f :: f in FieldsOfResults(m) ==> Known(ResultsSchema, f)
    ensures forall g :: g in m.groups ==> |EncodeGroup(g)| <= MAX_INT
  {
    PrintAppend(ReceiptField(m), GroupFields(m.groups));
    GroupFieldsFit(m.groups);
  }

  lemma ApplyFieldsOfResults(x: Results, y: Results)
    requires forall g :: g in y.groups ==> |EncodeGroup(g)| <= MAX_INT
    ensures ApplyAll(ApplyToResults, x, FieldsOfResults(y)) == Ok(MergeResults(x, y))
  {
    hide EncodeGroup, DecodeGroup;
    ApplyAppend(ApplyToResults, x, ReceiptField(y), GroupFields(y.groups));
    var x' := x.(receiptsHash := if y.receiptsHash != [] then y.receiptsHash else x.receiptsHash);
    assert ApplyAll(ApplyToResults, x, ReceiptField(y)) == Ok(x');
    ApplyGroupFields(x', y.groups);
  }

  lemma DecodeOfEncodedResults(x: Results, y: Results)
    requires |EncodeResults(y)| <= MAX_INT
    ensures DecodeResults(x, EncodeResults(y)) == Ok(MergeResults(x, y))
    ensures DecodeResults(x, EncodeResults(y)) ==
            Ok(Results(if y.receiptsHash != [] then y.receiptsHash else x.receiptsHash, x.groups + y.groups))
  {
    FieldsOfResultsFit(y);
    hide Decode, PrintFields, FieldsOfResults, Known, EncodeGroup;
    DecodeOfPrinted(ResultsSchema, ApplyToResults, x, FieldsOfResults(y));
    ApplyFieldsOfResults(x, y);
  }

  /** Nested round trip: both levels of order survive, empty groups and empty hashes included. */
  lemma ResultsRoundTrip(m: Results)
    requires |EncodeResults(m)| <= MAX_INT
    ensures DecodeResults(EMPTY_RESULTS, EncodeResults(m)) == Ok(m)
  {
    hide EncodeResults, DecodeResults;
    DecodeOfEncodedResults(EMPTY_RESULTS, m);
    LeftUnit(m.groups);
  }

  /** Concatenating encodings merges the messages. */
  lemma ResultsConcatenationMerges(x: Results, y: Results)
    requires |EncodeResults(x) + EncodeResults(y)| <= MAX_INT
    ensures DecodeResults(EMPTY_RESULTS, EncodeResults(x) + EncodeResults(y)) ==
            Ok(Results(if y.receiptsHash != [] then y.receiptsHash else x.receiptsHash, x.groups + y.groups))
  {
    hide EncodeResults, Decode;
    ResultsRoundTrip(x);
    DecodeConcatenation(ResultsSchema, ApplyToResults, EMPTY_RESULTS, EncodeResults(x), EncodeResults(y));
    DecodeOfEncodedResults(x, y);
  }

  // ---------- unknown fields at every level ----------

  /** The fields of g, in order, with foreign fields anywhere between them. */
  predicate ItemsOfGroup(g: Group, items: seq<Item>) {
    EmittedOf(items) == FieldsOfGroup(g) && ForeignAbove(items, 2)
  }

  lemma GroupIgnoresUnknownFields(g: Group, items: seq<Item>)
    requires ItemsOfGroup(g, items) && |PrintItems(items)| <= MAX_INT
    ensures DecodeGroup(EMPTY_GROUP, PrintItems(items)) == Ok(g)
  {
    hide Decode, PrintFields, PrintItems, EmittedOf, ForeignAbove, Admissible, FieldsOfGroup, Known, ApplyAll;
    EmittedAreShorter(items);
    FieldsOfGroupKnown(g);
    ItemsAdmissible(GroupSchema, items, 2);
    ForeignFieldsIgnored(GroupSchema, ApplyToGroup, EMPTY_GROUP, items);
    ApplyFieldsOfGroup(EMPTY_GROUP, g);
    LeftUnit(g.hashes);
  }

  function Payloads(inner: seq<seq<Item>>): seq<seq<byte>> {
    if inner == [] then [] else [PrintItems(inner[0])] + Payloads(inner[1..])
  }

  /**
   The fields of m, in order, with foreign fields anywhere between them; the k-th group is
   printed as inner[k], foreign fields of its own included, behind the length that this takes.
   */
  ghost predicate ItemsOfResults(m: Results, inner: seq<seq<Item>>, items: seq<Item>) {
    && |inner| == |m.groups|
    && (forall k :: 0 <= k < |inner| ==> ItemsOfGroup(m.groups[k], inner[k]))
    && EmittedOf(items) == ReceiptField(m) + HashFields(Payloads(inner))
    && ForeignAbove(items, 2)
  }

  lemma {:induction false} PayloadsFit(inner: seq<seq<Item>>)
    requires |PrintFields(HashFields(Payloads(inner)))| <= MAX_INT
    ensures forall f :: f in HashFields(Payloads(inner)) ==> Known(ResultsSchema, f)
    ensures forall k :: 0 <= k < |inner| ==> |PrintItems(inner[k])| <= MAX_INT
  {
    hide PrintItems;
    if inner != [] {
      var payloads := Payloads(inner);
      assert payloads[1..] == Payloads(inner[1..]);
      assert HashFields(payloads)[1..] == HashFields(payloads[1..]);
      PayloadsFit(inner[1..]);
    }
  }

  lemma {:induction false} ApplyPayloads(m: Results, groups: seq<Group>, inner: seq<seq<Item>>)
    requires |inner| == |groups|
    requires forall k :: 0 <= k < |inner| ==> ItemsOfGroup(groups[k], inner[k]) && |PrintItems(inner[k])| <= MAX_INT
    ensures ApplyAll(ApplyToResults, m, HashFields(Payloads(inner))) == Ok(m.(groups := m.groups + groups))
    decreases |inner|
  {
    hide PrintItems, DecodeGroup, ItemsOfGroup;
    if inner == [] {
      RightUnit(m.groups);
    } else {
      var payloads := Payloads(inner);
      assert payloads[1..] == Payloads(inner[1..]);
      assert HashFields(payloads)[1..] == HashFields(payloads[1..]);
      GroupIgnoresUnknownFields(groups[0], inner[0]);
      ApplyPayloads(m.(groups := m.groups + [groups[0]]), groups[1..], inner[1..]);
      MoveHead(m.groups, groups);
    }
  }

  lemma ApplyItemsOfResults(m: Results, inner: seq<seq<Item>>, items: seq<Item>)
    requires ItemsOfResults(m, inner, items) && |PrintItems(items)| <= MAX_INT
    ensures ApplyAll(ApplyToResults, EMPTY_RESULTS, EmittedOf(items)) == Ok(m)
    ensures forall f :: f in EmittedOf(items) ==> Known(ResultsSchema, f)
  {
    hide PrintFields, PrintItems, EmittedOf, ForeignAbove, ItemsOfGroup, HashFields, Payloads, Known;
    EmittedAreShorter(items);
    PrintAppend(ReceiptField(m), HashFields(Payloads(inner)));
    PayloadsFit(inner);
    ReceiptFieldKnown(m);
    ApplyAppend(ApplyToResults, EMPTY_RESULTS, ReceiptField(m), HashFields(Payloads(inner)));
    var m' := EMPTY_RESULTS.(receiptsHash := m.receiptsHash);
    assert ApplyAll(ApplyToResults, EMPTY_RESULTS, ReceiptField(m)) == Ok(m');
    hide ApplyAll;
    ApplyPayloads(m', m.groups, inner);
    LeftUnit(m.groups);
  }

  lemma ReceiptFieldKnown(m: Results)
    requires |PrintFields(ReceiptField(m))| <= MAX_INT
    ensures forall f :: f in ReceiptField(m) ==> Known(ResultsSchema, f)
  {
    if ReceiptField(m) != [] {
      assert |PrintField(ReceiptField(m)[0])| <= |PrintFields(ReceiptField(m))|;
    }
  }

  /**
   Fields with numbers above 2, groups included, may stand in any number at any boundaries,
   between the fields of the record and inside its nested groups, without being noticed.
   */
  lemma ResultsIgnoreUnknownFields(m: Results, inner: seq<seq<Item>>, items: seq<Item>)
    requires ItemsOfResults(m, inner, items) && |PrintItems(items)| <= MAX_INT
    ensures DecodeResults(EMPTY_RESULTS, PrintItems(items)) == Ok(m)
  {
    hide Decode, PrintItems, EmittedOf, ForeignAbove, Admissible, Known, ApplyAll, ItemsOfGroup, HashFields, Payloads;
    ApplyItemsOfResults(m, inner, items);
    ItemsAdmissible(ResultsSchema, items, 2);
    ForeignFieldsIgnored(ResultsSchema, ApplyToResults, EMPTY_RESULTS, items);
  }

  /** An encoding determines its message. */
  lemma EncodingInjective(x: Results, y: Results)
    requires |EncodeResults(x)| <= MAX_INT && EncodeResults(x) == EncodeResults(y)
    ensures x == y
  {
    hide EncodeResults, DecodeResults;
    ResultsRoundTrip(x);
    ResultsRoundTrip(y);
  }

  // ---------- what an error leaves behind ----------

  function RemainsOfGroup(m: Group, d: seq<byte>): Group {
    Remains(GroupSchema, ApplyToGroup, KeepMessage, m, d, 0)
  }

  /** A nested message that does not decode stays at the end of the list, as far as it came. */
  function KeepHalfDecoded(m: Results, f: Field): Results {
    match f
    case BytesField(2, payload) => m.(groups := m.groups + [RemainsOfGroup(EMPTY_GROUP, payload)])
    case _ => m
  }

  function RemainsOfResults(m: Results, d: seq<byte>): Results {
    Remains(ResultsSchema, ApplyToResults, KeepHalfDecoded, m, d, 0)
  }

  lemma {:induction false} GroupsOnlyGrow(m: Results, d: seq<byte>, i: nat)
    requires i <= |d|
    ensures m.groups <= Remains(ResultsSchema, ApplyToResults, KeepHalfDecoded, m, d, i).groups
    decreases |d| - i
  {
    hide NextField, ReadTag;
    if i < |d| && NextField(ResultsSchema, d, i).Ok? {
      var (f, j) := NextField(ResultsSchema, d, i).value;
      if ApplyKnown(ApplyToResults, m, f).Ok? {
        var m' := ApplyKnown(ApplyToResults, m, f).value;
        GroupsOnlyGrow(m', d, j);
        hide Remains;
        assert m.groups <= m'.groups;
      }
    }
  }

  /**
   Whatever stands behind an encoding, the groups of the encoded record come first in the
   message that the reader leaves, error or not.
   */
  lemma GarbageKeepsResults(x: Results, garbage: seq<byte>)
    requires |EncodeResults(x) + garbage| <= MAX_INT
    ensures RemainsOfResults(EMPTY_RESULTS, EncodeResults(x) + garbage) == RemainsOfResults(x, garbage)
    ensures x.groups <= RemainsOfResults(EMPTY_RESULTS, EncodeResults(x) + garbage).groups
  {
    hide EncodeResults, Decode, Remains;
    ResultsRoundTrip(x);
    RemainsOfConcatenation(ResultsSchema, ApplyToResults, KeepHalfDecoded, EMPTY_RESULTS, EncodeResults(x), garbage);
    GroupsOnlyGrow(x, garbage, 0);
  }
}
