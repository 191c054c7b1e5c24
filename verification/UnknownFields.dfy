/**
 Fields a reader does not know, groups included (Protocol Buffers Encoding, section "Groups"):
 the skipper consumes every printed field exactly, so such fields never change a message.
 */
module UnknownFields {
  import opened Machine
  import opened Varint
  import opened Wire

  datatype WireField =
    | WireVarint(num: nat, value: uint64)
    | WireFixed64(num: nat, eight: seq<byte>)
    | WireBytes(num: nat, payload: seq<byte>)
    | WireGroup(num: nat, body: WireFields)
    | WireFixed32(num: nat, four: seq<byte>)

  datatype WireFields = Nil | Cons(head: WireField, tail: WireFields)

  predicate Proper(f: WireField) {
    && 0 < f.num < TWO_31
    && match f
       case WireVarint(_, _) => true
       case WireFixed64(_, eight) => |eight| == 8
       case WireBytes(_, payload) => |payload| <= MAX_INT
       case WireGroup(_, body) => AllProper(body)
       case WireFixed32(_, four) => |four| == 4
  }

  predicate AllProper(fs: WireFields) {
    fs.Cons? ==> Proper(fs.head) && AllProper(fs.tail)
  }

  function Print(f: WireField): seq<byte>
    decreases f, 1
  {
    PrintTag(f.num, WireType(f)) + PrintValue(f)
  }

  function WireType(f: WireField): nat {
    match f
    case WireVarint(_, _) => 0
    case WireFixed64(_, _) => 1
    case WireBytes(_, _) => 2
    case WireGroup(_, _) => 3
    case WireFixed32(_, _) => 5
  }

  function PrintValue(f: WireField): seq<byte>
    decreases f, 0
  {
    match f
    case WireVarint(_, value) => EncodeVarint(value)
    case WireFixed64(_, eight) => eight
    case WireBytes(_, payload) => EncodeVarint(|payload|) + payload
    case WireGroup(num, body) => PrintAll(body) + PrintTag(num, 4)
    case WireFixed32(_, four) => four
  }

  function PrintAll(fs: WireFields): seq<byte> {
    match fs
    case Nil => []
    case Cons(f, rest) => Print(f) + PrintAll(rest)
  }

  /** The skipper's answer once it has passed i, `depth` groups being open. */
  function SkipOn(d: seq<byte>, i: nat, depth: nat): Parsed<nat> {
    if depth == 0 then Ok(i) else SkipFrom(d, i, depth)
  }

  lemma SkipTagOfPrinted(d: seq<byte>, i: nat, num: nat, wireType: nat)
    requires 0 < num < TWO_31 && wireType < 8 && Window(d, i, PrintTag(num, wireType))
    ensures ReadVarint(d, i, W64).Ok? && ReadVarint(d, i, W64).value.0 % 8 == wireType
    ensures ReadVarint(d, i, W64).value.1 == i + |PrintTag(num, wireType)|
  {
    ReadVarintOfEncoded(d, i, num * 8 + wireType);
    hide ReadVarint, EncodeVarint, Window;
    assert (num * 8 + wireType) % 8 == wireType;
  }

  lemma SkipValueOfFlatField(d: seq<byte>, j: nat, depth: nat, f: WireField)
    requires Proper(f) && !f.WireGroup? && Window(d, j, PrintValue(f))
    ensures SkipValue(d, j, WireType(f), depth) == Ok((j + |PrintValue(f)|, depth))
  {
    hide EncodeVarint;
    match f
    case WireVarint(_, v) => ReadVarintOfEncoded(d, j, v); hide ReadVarint, Window;
    case WireFixed64(_, _) =>
    case WireFixed32(_, _) =>
    case WireBytes(_, payload) =>
      WindowPart(d, j, EncodeVarint(|payload|), payload);
      PayloadEndOfPrinted(d, j, |payload|);
      hide PayloadEnd, Window;
  }

  lemma FlatFieldParts(d: seq<byte>, i: nat, depth: nat, f: WireField)
    requires Proper(f) && !f.WireGroup? && Window(d, i, Print(f))
    ensures ReadVarint(d, i, W64).Ok?
    ensures var (wire, j) := ReadVarint(d, i, W64).value;
            SkipValue(d, j, wire % 8, depth) == Ok((i + |Print(f)|, depth)) && i + |Print(f)| <= |d|
  {
    hide PrintTag, PrintValue, ReadVarint, SkipValue;
    WindowPart(d, i, PrintTag(f.num, WireType(f)), PrintValue(f));
    SkipTagOfPrinted(d, i, f.num, WireType(f));
    SkipValueOfFlatField(d, i + |PrintTag(f.num, WireType(f))|, depth, f);
  }

  /** A field without a body of fields takes one turn of the skipper's loop. */
  lemma SkipOfFlatField(d: seq<byte>, i: nat, depth: nat, f: WireField)
    requires Proper(f) && !f.WireGroup? && i < |d| <= MAX_INT && Window(d, i, Print(f))
    ensures SkipFrom(d, i, depth) == SkipOn(d, i + |Print(f)|, depth)
  {
    hide ReadVarint, SkipValue, Print, Proper, Window;
    FlatFieldParts(d, i, depth, f);
  }

  lemma TurnOfGroupTag(d: seq<byte>, i: nat, depth: nat, num: nat, wireType: nat)
    requires 0 < num < TWO_31 && (wireType == 3 || (wireType == 4 && depth > 0))
    requires |d| <= MAX_INT && Window(d, i, PrintTag(num, wireType))
    ensures SkipTurn(d, i, depth) == Ok((i + |PrintTag(num, wireType)|, if wireType == 3 then depth + 1 else depth - 1))
  {
    PayloadOfWindow(d, i, PrintTag(num, wireType));
    hide ReadVarint, PrintTag, Window;
    SkipTagOfPrinted(d, i, num, wireType);
  }

  lemma SkipOfGroupTag(d: seq<byte>, i: nat, depth: nat, num: nat, wireType: nat)
    requires 0 < num < TWO_31 && (wireType == 3 || (wireType == 4 && depth > 0))
    requires i < |d| <= MAX_INT && Window(d, i, PrintTag(num, wireType))
    ensures SkipFrom(d, i, depth) ==
            SkipOn(d, i + |PrintTag(num, wireType)|, if wireType == 3 then depth + 1 else depth - 1)
  {
    hide SkipTurn, PrintTag, Window;
    TurnOfGroupTag(d, i, depth, num, wireType);
  }

  lemma GroupParts(d: seq<byte>, i: nat, num: nat, body: WireFields)
    requires Window(d, i, Print(WireGroup(num, body)))
    ensures var tag, close := PrintTag(num, 3), PrintTag(num, 4);
            && |Print(WireGroup(num, body))| == |tag| + |PrintAll(body)| + |close|
            && Window(d, i, tag)
            && Window(d, i + |tag|, PrintAll(body))
            && Window(d, i + |tag| + |PrintAll(body)|, close)
  {
    hide PrintTag, PrintAll, EncodeVarint;
    var tag, inner, close := PrintTag(num, 3), PrintAll(body), PrintTag(num, 4);
    WindowPart(d, i, tag, inner + close);
    WindowPart(d, i + |tag|, inner, close);
  }

  /** The skipper passes a printed field exactly, whatever surrounds it and however deep it stands. */
  lemma {:induction false} SkipOfField(d: seq<byte>, i: nat, depth: nat, f: WireField)
    requires Proper(f) && |d| <= MAX_INT && Window(d, i, Print(f))
    ensures SkipFrom(d, i, depth) == SkipOn(d, i + |Print(f)|, depth)
    decreases f, 0
  {
    hide Print, PrintAll, PrintValue, PrintTag, SkipFrom, Window, AllProper;
    PrintedStartsInside(d, i, f);
    match f
    case WireGroup(num, body) =>
      GroupParts(d, i, num, body);
      TagInside(d, i, num, 3);
      SkipOfGroupTag(d, i, depth, num, 3);
      var j := i + |PrintTag(num, 3)|;
      SkipOfFields(d, j, depth + 1, body);
      TagInside(d, j + |PrintAll(body)|, num, 4);
      SkipOfGroupTag(d, j + |PrintAll(body)|, depth + 1, num, 4);
    case _ => SkipOfFlatField(d, i, depth, f);
  }

  lemma TagInside(d: seq<byte>, i: nat, num: nat, wireType: nat)
    requires Window(d, i, PrintTag(num, wireType))
    ensures i < |d|
  {
  }

  lemma PrintedStartsInside(d: seq<byte>, i: nat, f: WireField)
    requires Window(d, i, Print(f))
    ensures i < |d|
  {
  }

  lemma {:induction false} SkipOfFields(d: seq<byte>, i: nat, depth: nat, fs: WireFields)
    requires AllProper(fs) && depth > 0 && |d| <= MAX_INT && Window(d, i, PrintAll(fs))
    ensures SkipFrom(d, i, depth) == SkipFrom(d, i + |PrintAll(fs)|, depth)
    decreases fs, 1
  {
    hide Print, SkipFrom, Window, Proper;
    match fs
    case Nil =>
    case Cons(f, rest) =>
      FieldsParts(d, i, f, rest);
      hide PrintAll;
      SkipOfField(d, i, depth, f);
      SkipOfFields(d, i + |Print(f)|, depth, rest);
  }

  lemma FieldsParts(d: seq<byte>, i: nat, f: WireField, rest: WireFields)
    requires Window(d, i, PrintAll(Cons(f, rest)))
    ensures Window(d, i, Print(f)) && Window(d, i + |Print(f)|, PrintAll(rest))
    ensures |PrintAll(Cons(f, rest))| == |Print(f)| + |PrintAll(rest)|
  {
    hide Print;
    WindowPart(d, i, Print(f), PrintAll(rest));
  }

  /** A printed field whose number the switch does not match is exactly one unknown field. */
  lemma PrintedIsUnknownField(schema: Schema, f: WireField)
    requires Proper(f) && schema(f.num) == UnknownKind && |Print(f)| <= MAX_INT
    ensures IsUnknownField(schema, Print(f))
  {
    var d := Print(f);
    ReadTagOfField(d, f);
    SkipOfField(d, 0, 0, f);
    PrintedStartsInside(d, 0, f);
    assert d[0..] == d;
    hide ReadTag, SkipFrom, Print, Window;
  }

  lemma ReadTagOfField(d: seq<byte>, f: WireField)
    requires Proper(f) && Window(d, 0, Print(f))
    ensures ReadTag(d, 0).Ok? && ReadTag(d, 0).value.0 == f.num
  {
    hide PrintTag, PrintValue, ReadTag;
    WindowPart(d, 0, PrintTag(f.num, WireType(f)), PrintValue(f));
    ReadTagOfPrinted(d, 0, f.num, WireType(f));
  }

  /**
   Unknown fields are transparent: any proper field with an unmatched number, nested groups
   included, may stand at a field boundary of a decodable buffer without changing the message.
   */
  lemma UnknownFieldsTransparent<M>(schema: Schema, apply: (M, Field) -> Parsed<M>, m: M,
                                    a: seq<byte>, f: WireField, b: seq<byte>)
    requires Proper(f) && schema(f.num) == UnknownKind && |a + Print(f) + b| <= MAX_INT
    requires Decode(schema, apply, m, a, 0).Ok?
    ensures SameOutcome(Decode(schema, apply, m, a + Print(f) + b, 0), Decode(schema, apply, m, a + b, 0))
  {
    PrintedIsUnknownField(schema, f);
    UnknownFieldTransparent(schema, apply, m, a, Print(f), b);
  }

  lemma KnownInConcatenation(schema: Schema, before: seq<Field>, after: seq<Field>)
    requires forall g :: g in before ==> Known(schema, g)
    requires forall g :: g in after ==> Known(schema, g)
    ensures forall g :: g in before + after ==> Known(schema, g)
  {
    hide Known;
  }

  /** At any boundary between printed fields, an unknown field may be inserted. */
  lemma InsertedFieldIgnored<M>(schema: Schema, apply: (M, Field) -> Parsed<M>, m: M,
                                before: seq<Field>, f: WireField, after: seq<Field>)
    requires forall g :: g in before ==> Known(schema, g)
    requires forall g :: g in after ==> Known(schema, g)
    requires Proper(f) && schema(f.num) == UnknownKind
    requires |PrintFields(before) + Print(f) + PrintFields(after)| <= MAX_INT
    requires ApplyAll(apply, m, before + after).Ok?
    ensures Decode(schema, apply, m, PrintFields(before) + Print(f) + PrintFields(after), 0) ==
            ApplyAll(apply, m, before + after)
  {
    hide *;
    KnownInConcatenation(schema, before, after);
    PrintAppend(before, after);
    ApplyAppend(apply, m, before, after);
    DecodeOfPrinted(schema, apply, m, before);
    DecodeOfPrinted(schema, apply, m, before + after);
    UnknownFieldsTransparent(schema, apply, m, PrintFields(before), f, PrintFields(after));
    SameOutcomeOk(Decode(schema, apply, m, PrintFields(before) + Print(f) + PrintFields(after), 0),
                  Decode(schema, apply, m, PrintFields(before) + PrintFields(after), 0));
  }

  lemma SameOutcomeOk<M>(a: Parsed<M>, b: Parsed<M>)
    requires SameOutcome(a, b) && b.Ok?
    ensures a == b
  {
  }

  // ---------- any number of unknown fields ----------

  /** A field that the writer emits, or one that somebody else put between them. */
  datatype Item = Emitted(field: Field) | Foreign(unknown: WireField)

  function PrintItem(item: Item): seq<byte> {
    match item
    case Emitted(f) => PrintField(f)
    case Foreign(u) => Print(u)
  }

  function PrintItems(items: seq<Item>): seq<byte> {
    if items == [] then [] else PrintItem(items[0]) + PrintItems(items[1..])
  }

  /** The emitted fields, in order. */
  function EmittedOf(items: seq<Item>): seq<Field> {
    if items == [] then []
    else if items[0].Emitted? then [items[0].field] + EmittedOf(items[1..])
    else EmittedOf(items[1..])
  }

  predicate Admissible(schema: Schema, item: Item) {
    match item
    case Emitted(f) => Known(schema, f)
    case Foreign(u) => Proper(u) && schema(u.num) == UnknownKind
  }

  function FieldOf(item: Item): Field {
    match item
    case Emitted(f) => f
    case Foreign(_) => UnknownField
  }

  lemma NextItem(schema: Schema, d: seq<byte>, k: nat, item: Item)
    requires Admissible(schema, item) && |d| <= MAX_INT && Window(d, k, PrintItem(item))
    ensures k < |d| && |PrintItem(item)| > 0
    ensures NextField(schema, d, k) == Ok((FieldOf(item), k + |PrintItem(item)|))
  {
    hide Proper, Known, NextField, PrintField, Print, Window;
    match item
    case Emitted(f) =>
      PrintedNotEmpty(schema, f);
      PayloadOfWindow(d, k, PrintField(f));
      NextFieldOfPrinted(schema, d, k, f);
    case Foreign(u) =>
      PayloadOfWindow(d, k, Print(u));
      PrintedIsUnknownField(schema, u);
      NextFieldInWindow(schema, d, k, Print(u), 0);
  }

  lemma {:induction false} DecodeOfItemsFrom<M>(schema: Schema, apply: (M, Field) -> Parsed<M>, m: M,
                                                d: seq<byte>, k: nat, items: seq<Item>)
    requires k + |PrintItems(items)| == |d| <= MAX_INT && Window(d, k, PrintItems(items))
    requires forall item :: item in items ==> Admissible(schema, item)
    ensures Decode(schema, apply, m, d, k) == ApplyAll(apply, m, EmittedOf(items))
    decreases |items|
  {
    hide NextField, PrintItem, Admissible, Window;
    if items != [] {
      var item := items[0];
      WindowPart(d, k, PrintItem(item), PrintItems(items[1..]));
      NextItem(schema, d, k, item);
      var n := k + |PrintItem(item)|;
      if ApplyKnown(apply, m, FieldOf(item)).Ok? {
        DecodeOfItemsFrom(schema, apply, ApplyKnown(apply, m, FieldOf(item)).value, d, n, items[1..]);
      }
      EmittedStep(apply, m, items);
    }
  }

  lemma EmittedStep<M>(apply: (M, Field) -> Parsed<M>, m: M, items: seq<Item>)
    requires items != []
    ensures ApplyAll(apply, m, EmittedOf(items)) ==
            match ApplyKnown(apply, m, FieldOf(items[0]))
            case Err(e) => Err(e)
            case Ok(m') => ApplyAll(apply, m', EmittedOf(items[1..]))
  {
    if items[0].Emitted? {
      assert EmittedOf(items)[1..] == EmittedOf(items[1..]);
    }
  }

  /** Unknown fields in any number and at any boundaries: only the emitted fields count. */
  lemma ForeignFieldsIgnored<M>(schema: Schema, apply: (M, Field) -> Parsed<M>, m: M, items: seq<Item>)
    requires |PrintItems(items)| <= MAX_INT
    requires forall item :: item in items ==> Admissible(schema, item)
    ensures Decode(schema, apply, m, PrintItems(items), 0) == ApplyAll(apply, m, EmittedOf(items))
  {
    DecodeOfItemsFrom(schema, apply, m, PrintItems(items), 0, items);
  }

  lemma {:induction false} EmittedAreShorter(items: seq<Item>)
    ensures |PrintFields(EmittedOf(items))| <= |PrintItems(items)|
  {
    hide PrintField, Print;
    if items != [] {
      EmittedAreShorter(items[1..]);
      if items[0].Emitted? {
        assert EmittedOf(items)[1..] == EmittedOf(items[1..]);
      }
    }
  }

  lemma {:induction false} EmittedMembers(items: seq<Item>, f: Field)
    requires Emitted(f) in items
    ensures f in EmittedOf(items)
  {
    if items[0] != Emitted(f) {
      assert Emitted(f) in items[1..];
      EmittedMembers(items[1..], f);
    }
  }

  /** Every foreign field is well formed and has a number above n. */
  predicate ForeignAbove(items: seq<Item>, n: nat) {
    forall item :: item in items && item.Foreign? ==> Proper(item.unknown) && item.unknown.num > n
  }

  lemma ItemsAdmissible(schema: Schema, items: seq<Item>, n: nat)
    requires ForeignAbove(items, n) && forall num :: num > n ==> schema(num) == UnknownKind
    requires forall f :: f in EmittedOf(items) ==> Known(schema, f)
    ensures forall item :: item in items ==> Admissible(schema, item)
  {
    hide Known, Proper, EmittedOf;
    forall item | item in items
      ensures Admissible(schema, item)
    {
      if item.Emitted? {
        EmittedMembers(items, item.field);
      }
    }
  }
}
