/**
 What the reader refuses, and how: tags, wire types and lengths that are not allowed, and
 buffers that end inside a field.
 */
module WireErrors {
  import opened Machine
  import opened Varint
  import opened Wire
  import opened UnknownFields

  // ---------- tags, wire types and lengths ----------

  lemma TagRead(d: seq<byte>, i: nat, num: nat, wireType: nat)
    requires wireType < 8 && num * 8 + wireType < TWO_64 && Window(d, i, PrintTag(num, wireType))
    ensures ReadVarint(d, i, W64) == Ok((num * 8 + wireType, i + |PrintTag(num, wireType)|))
    ensures (num * 8 + wireType) % 8 == wireType && (num * 8 + wireType) / 8 == num
  {
    ReadVarintOfEncoded(d, i, num * 8 + wireType);
    hide ReadVarint, EncodeVarint, Window;
  }

  /**
   The tag at the head of a turn: an end of group is refused; so is a number whose low 32 bits are
   zero or negative as an int32; so is a wire type that does not fit a known field, and for an
   unknown field a wire type that does not exist.
   */
  lemma RefusedTags(schema: Schema, d: seq<byte>, i: nat, num: nat, wireType: nat)
    requires wireType < 8 && num * 8 + wireType < TWO_64 && i < |d| && Window(d, i, PrintTag(num, wireType))
    ensures wireType == 4 ==> NextField(schema, d, i) == Err(EndGroupForNonGroup)
    ensures wireType != 4 && (num % 0x1_0000_0000 == 0 || num % 0x1_0000_0000 >= 0x8000_0000) ==>
              NextField(schema, d, i) == Err(IllegalTag)
    ensures wireType != 4 && 0 < num % 0x1_0000_0000 < 0x8000_0000 ==>
              && (schema(num % 0x1_0000_0000) == VarintKind && wireType != 0 ==> NextField(schema, d, i) == Err(WrongWireType))
              && (schema(num % 0x1_0000_0000) == BytesKind && wireType != 2 ==> NextField(schema, d, i) == Err(WrongWireType))
              && (schema(num % 0x1_0000_0000) == UnknownKind && wireType >= 6 ==> NextField(schema, d, i) == Err(IllegalWireType))
  {
    TagRead(d, i, num, wireType);
    WindowAtStart(d, i, PrintTag(num, wireType));
    TagRead(d[i..], 0, num, wireType);
    hide ReadVarint, PrintTag, Window;
  }

  lemma WindowAtStart(d: seq<byte>, i: nat, s: seq<byte>)
    requires i <= |d| && Window(d, i, s)
    ensures Window(d[i..], 0, s)
  {
  }

  /** The length of a payload: negative as an int64, or beyond the last index there is, or beyond the buffer. */
  lemma RefusedLengths(d: seq<byte>, i: nat, num: nat, len: uint64)
    requires |d| <= MAX_INT && Window(d, i, EncodeVarint(len))
    ensures var start := i + |EncodeVarint(len)|;
            ReadBytesField(d, i, num, 2) ==
            if len >= 0x8000_0000_0000_0000 || start + len > 0x7FFF_FFFF_FFFF_FFFF then Err(InvalidLength)
            else if start + len > |d| then Err(UnexpectedEOF)
            else Ok((BytesField(num, d[start..start + len]), start + len))
  {
    ReadVarintOfEncoded(d, i, len);
    hide ReadVarint, EncodeVarint, Window;
  }

  /** The skipper: an end of group that was not opened, and a wire type that does not exist. */
  lemma RefusedBySkipper(d: seq<byte>, i: nat, num: nat, wireType: nat, depth: nat)
    requires wireType < 8 && num * 8 + wireType < TWO_64 && i < |d| && Window(d, i, PrintTag(num, wireType))
    ensures wireType == 4 && depth == 0 ==> SkipFrom(d, i, depth) == Err(UnexpectedEndOfGroup)
    ensures wireType >= 6 ==> SkipFrom(d, i, depth) == Err(IllegalWireType)
  {
    TagRead(d, i, num, wireType);
    hide ReadVarint, PrintTag, EncodeVarint, Window;
  }

  /** The skipper: a length that is negative as an int64, or leads beyond the last index there is. */
  lemma LengthRefusedBySkipper(d: seq<byte>, i: nat, num: nat, len: uint64, depth: nat)
    requires num * 8 + 2 < TWO_64 && i < |d| && Window(d, i, PrintTag(num, 2) + EncodeVarint(len))
    requires len >= 0x8000_0000_0000_0000 || i + |PrintTag(num, 2) + EncodeVarint(len)| + len > 0x7FFF_FFFF_FFFF_FFFF
    ensures SkipFrom(d, i, depth) == Err(InvalidLength)
  {
    hide ReadVarint, PrintTag, EncodeVarint, Window;
    WindowPart(d, i, PrintTag(num, 2), EncodeVarint(len));
    TagRead(d, i, num, 2);
    ReadVarintOfEncoded(d, i + |PrintTag(num, 2)|, len);
  }

  /** An unknown length-delimited field, wherever it stands: the same limits, counted from the beginning of the buffer. */
  lemma UnknownLengths(schema: Schema, d: seq<byte>, i: nat, num: nat, len: uint64)
    requires 0 < num < TWO_31 && schema(num) == UnknownKind
    requires i < |d| <= MAX_INT && Window(d, i, PrintTag(num, 2) + EncodeVarint(len))
    ensures var end := i + |PrintTag(num, 2) + EncodeVarint(len)| + len;
            NextField(schema, d, i) ==
            if len >= 0x8000_0000_0000_0000 || end > 0x7FFF_FFFF_FFFF_FFFF then Err(InvalidLength)
            else if end > |d| then Err(UnexpectedEOF)
            else Ok((UnknownField, end))
  {
    var tag, digits := PrintTag(num, 2), EncodeVarint(len);
    WindowPart(d, i, tag, digits);
    ReadTagOfPrinted(d, i, num, 2);
    WindowAtStart(d, i, tag + digits);
    hide PrintTag, EncodeVarint, Window, ReadTag, SkipFrom;
    SkipOfLength(d[i..], num, len);
  }

  lemma SkipOfLength(d: seq<byte>, num: nat, len: uint64)
    requires num * 8 + 2 < TWO_64 && 0 < |d| && Window(d, 0, PrintTag(num, 2) + EncodeVarint(len))
    ensures var end := |PrintTag(num, 2) + EncodeVarint(len)| + len;
            SkipFrom(d, 0, 0) ==
            if len >= 0x8000_0000_0000_0000 || end > 0x7FFF_FFFF_FFFF_FFFF then Err(InvalidLength) else Ok(end)
  {
    hide ReadVarint, PrintTag, EncodeVarint, Window;
    WindowPart(d, 0, PrintTag(num, 2), EncodeVarint(len));
    TagRead(d, 0, num, 2);
    ReadVarintOfEncoded(d, |PrintTag(num, 2)|, len);
  }

  // ---------- buffers that end inside a field ----------

  /** A cut of a + b is one in a, or one in b behind all of a. */
  lemma CutParts(d: seq<byte>, i: nat, a: seq<byte>, b: seq<byte>)
    requires Cut(d, i, a + b)
    ensures |d| < i + |a| ==> Cut(d, i, a)
    ensures |d| >= i + |a| ==> Window(d, i, a) && Cut(d, i + |a|, b)
  {
    var s := a + b;
    if |d| < i + |a| {
      forall x | i <= x < |d|
        ensures d[x] == a[x - i]
      {
        assert s[x - i] == a[x - i];
      }
    } else {
      forall x | 0 <= x < |a|
        ensures d[i + x] == a[x]
      {
        assert d[i + x] == s[i + x - i];
        assert s[x] == a[x];
      }
      forall x | i + |a| <= x < |d|
        ensures d[x] == b[x - (i + |a|)]
      {
        assert s[x - i] == b[x - i - |a|];
      }
    }
  }

  lemma CutInside(d: seq<byte>, i: nat, s: seq<byte>)
    requires Cut(d, i, s)
    ensures i <= |d| < i + |s|
  {
  }

  /** The value of a flat field, cut short: an unexpected end, or a cursor exactly where the value would end. */
  lemma CutValue(d: seq<byte>, j: nat, depth: nat, f: WireField)
    requires Proper(f) && !f.WireGroup? && Cut(d, j, PrintValue(f)) && j + |PrintValue(f)| <= MAX_INT
    ensures || SkipValue(d, j, WireType(f), depth) == Err(UnexpectedEOF)
            || SkipValue(d, j, WireType(f), depth) == Ok((j + |PrintValue(f)|, depth))
  {
    CutInside(d, j, PrintValue(f));
    hide EncodeVarint;
    match f
    case WireVarint(_, v) => CutVarint(d, j, v); hide ReadVarint, Cut;
    case WireFixed64(_, _) =>
    case WireFixed32(_, _) =>
    case WireBytes(_, payload) =>
      CutParts(d, j, EncodeVarint(|payload|), payload);
      if |d| < j + |EncodeVarint(|payload|)| {
        CutVarint(d, j, |payload|);
      } else {
        PayloadEndOfPrinted(d, j, |payload|);
      }
      hide ReadVarint, Cut, Window;
  }

  lemma TurnOfValue(d: seq<byte>, i: nat, depth: nat, wire: uint64, j: nat)
    requires ReadVarint(d, i, W64) == Ok((wire, j))
    ensures SkipTurn(d, i, depth) ==
            match SkipValue(d, j, wire % 8, depth)
            case Err(e) => Err(e)
            case Ok((n, left)) => if n > MAX_INT then Err(InvalidLength) else Ok((n, left))
  {
    hide SkipValue, ReadVarint;
  }

  lemma FlatPrinted(f: WireField)
    ensures Print(f) == PrintTag(f.num, WireType(f)) + PrintValue(f)
  {
    hide PrintTag, PrintValue, WireType;
  }

  lemma ProperNumber(u: WireField)
    requires Proper(u)
    ensures 0 < u.num < TWO_31 && WireType(u) < 8 && WireType(u) != 4
  {
  }

  lemma CutFlatTurn(d: seq<byte>, i: nat, depth: nat, f: WireField)
    requires Proper(f) && !f.WireGroup? && Cut(d, i, Print(f)) && i + |Print(f)| <= MAX_INT
    ensures SkipTurn(d, i, depth) == Err(UnexpectedEOF) || SkipTurn(d, i, depth) == Ok((i + |Print(f)|, depth))
  {
    ProperNumber(f);
    hide *;
    var tag := PrintTag(f.num, WireType(f));
    FlatPrinted(f);
    CutParts(d, i, tag, PrintValue(f));
    if |d| < i + |tag| {
      CutTag(d, i, f.num, WireType(f));
    } else {
      SkipTagOfPrinted(d, i, f.num, WireType(f));
      CutValue(d, i + |tag|, depth, f);
      TurnOfValue(d, i, depth, ReadVarint(d, i, W64).value.0, i + |tag|);
    }
  }

  lemma CutTag(d: seq<byte>, i: nat, num: nat, wireType: nat)
    requires num < TWO_31 && wireType < 8 && Cut(d, i, PrintTag(num, wireType))
    ensures ReadVarint(d, i, W64) == Err(UnexpectedEOF) && ReadTag(d, i) == Err(UnexpectedEOF)
    ensures forall depth :: SkipFrom(d, i, depth) == Err(UnexpectedEOF) && SkipTurn(d, i, depth) == Err(UnexpectedEOF)
  {
    CutVarint(d, i, num * 8 + wireType);
    hide ReadVarint, EncodeVarint, Cut;
  }

  /** The skipper inside a field that is cut short, at any depth of groups. */
  lemma {:induction false} CutSkip(d: seq<byte>, i: nat, depth: nat, f: WireField)
    requires Proper(f) && Cut(d, i, Print(f)) && i + |Print(f)| <= MAX_INT
    ensures SkipFrom(d, i, depth) == Err(UnexpectedEOF) || (depth == 0 && SkipFrom(d, i, depth) == Ok(i + |Print(f)|))
    decreases f, 0
  {
    CutInside(d, i, Print(f));
    hide Print, PrintAll, PrintValue, PrintTag, SkipTurn, Cut, Window, AllProper;
    match f
    case WireGroup(num, body) => hide SkipFrom; CutGroup(d, i, depth, num, body);
    case _ => CutFlatTurn(d, i, depth, f);
  }

  lemma GroupPrinted(num: nat, body: WireFields)
    ensures Print(WireGroup(num, body)) == PrintTag(num, 3) + (PrintAll(body) + PrintTag(num, 4))
  {
    hide PrintTag, PrintAll;
  }

  lemma {:induction false} CutGroup(d: seq<byte>, i: nat, depth: nat, num: nat, body: WireFields)
    requires 0 < num < TWO_31 && AllProper(body)
    requires Cut(d, i, Print(WireGroup(num, body))) && i + |Print(WireGroup(num, body))| <= MAX_INT
    ensures SkipFrom(d, i, depth) == Err(UnexpectedEOF)
    decreases body, 2
  {
    hide *;
    GroupPrinted(num, body);
    var open, inner, close := PrintTag(num, 3), PrintAll(body), PrintTag(num, 4);
    CutInside(d, i, Print(WireGroup(num, body)));
    CutParts(d, i, open, inner + close);
    if |d| < i + |open| {
      CutTag(d, i, num, 3);
    } else {
      TagInside(d, i, num, 3);
      SkipOfGroupTag(d, i, depth, num, 3);
      SkipOnOpen(d, i + |open|, depth + 1);
      var j := i + |open|;
      CutParts(d, j, inner, close);
      if |d| < j + |inner| {
        CutSkipFields(d, j, depth + 1, body);
      } else {
        SkipOfFields(d, j, depth + 1, body);
        CutTag(d, j + |inner|, num, 4);
      }
    }
  }

  lemma SkipOnOpen(d: seq<byte>, i: nat, depth: nat)
    requires depth > 0
    ensures SkipOn(d, i, depth) == SkipFrom(d, i, depth)
  {
    hide SkipFrom;
  }

  lemma FieldsPrinted(f: WireField, rest: WireFields)
    ensures PrintAll(Cons(f, rest)) == Print(f) + PrintAll(rest)
    ensures AllProper(Cons(f, rest)) <==> Proper(f) && AllProper(rest)
    ensures PrintAll(Nil) == []
  {
    hide Print, Proper;
  }

  lemma {:induction false} CutSkipFields(d: seq<byte>, i: nat, depth: nat, fs: WireFields)
    requires AllProper(fs) && depth > 0 && Cut(d, i, PrintAll(fs)) && i + |PrintAll(fs)| <= MAX_INT
    ensures SkipFrom(d, i, depth) == Err(UnexpectedEOF)
    decreases fs, 1
  {
    hide *;
    CutInside(d, i, PrintAll(fs));
    match fs
    case Nil => FieldsPrinted(WireVarint(1, 0), Nil);
    case Cons(f, rest) =>
      FieldsPrinted(f, rest);
      CutParts(d, i, Print(f), PrintAll(rest));
      if |d| < i + |Print(f)| {
        CutSkip(d, i, depth, f);
      } else {
        SkipOfField(d, i, depth, f);
        SkipOnOpen(d, i + |Print(f)|, depth);
        CutSkipFields(d, i + |Print(f)|, depth, rest);
      }
  }

  lemma CutWhole(d: seq<byte>, i: nat, s: seq<byte>)
    requires Cut(d, i, s)
    ensures Cut(d[i..], 0, s)
  {
  }

  lemma CutForeign(schema: Schema, d: seq<byte>, i: nat, u: WireField)
    requires Proper(u) && schema(u.num) == UnknownKind
    requires i < |d| && Cut(d, i, Print(u)) && i + |Print(u)| <= MAX_INT
    ensures NextField(schema, d, i) == Err(UnexpectedEOF)
  {
    CutInside(d, i, Print(u));
    CutWhole(d, i, Print(u));
    var tag := PrintTag(u.num, WireType(u));
    assert Print(u) == tag + PrintValue(u);
    CutParts(d, i, tag, PrintValue(u));
    hide Print, PrintTag, PrintValue, SkipFrom, Cut, Window, Proper, ReadTag;
    assert 0 < u.num < TWO_31 by { ProperNumber(u); }
    if |d| < i + |tag| {
      CutTag(d, i, u.num, WireType(u));
    } else {
      ReadTagOfPrinted(d, i, u.num, WireType(u));
      CutSkip(d[i..], 0, 0, u);
    }
  }

  lemma CutEmitted(schema: Schema, d: seq<byte>, i: nat, f: Field)
    requires Known(schema, f) && i < |d| && Cut(d, i, PrintField(f)) && i + |PrintField(f)| <= MAX_INT
    ensures NextField(schema, d, i) == Err(UnexpectedEOF)
  {
    hide PrintTag, ReadTag, EncodeVarint, Cut, Window, NextField;
    match f
    case VarintField(num, value) => CutEmittedVarint(schema, d, i, num, value);
    case BytesField(num, payload) => CutEmittedBytes(schema, d, i, num, payload);
  }

  lemma CutEmittedVarint(schema: Schema, d: seq<byte>, i: nat, num: nat, value: uint64)
    requires 0 < num < TWO_31 && schema(num) == VarintKind && Cut(d, i, PrintTag(num, 0) + EncodeVarint(value))
    requires i < |d|
    ensures NextField(schema, d, i) == Err(UnexpectedEOF)
  {
    hide PrintTag, ReadTag, EncodeVarint, Cut, Window, ReadVarint;
    var tag := PrintTag(num, 0);
    CutParts(d, i, tag, EncodeVarint(value));
    if |d| < i + |tag| {
      CutTag(d, i, num, 0);
    } else {
      ReadTagOfPrinted(d, i, num, 0);
      CutVarint(d, i + |tag|, value);
    }
  }

  lemma TagBeforePayload(tag: seq<byte>, len: seq<byte>, payload: seq<byte>)
    ensures tag + len + payload == tag + (len + payload)
  {
  }

  lemma CutEmittedBytes(schema: Schema, d: seq<byte>, i: nat, num: nat, payload: seq<byte>)
    requires 0 < num < TWO_31 && schema(num) == BytesKind && i < |d|
    requires Cut(d, i, PrintTag(num, 2) + EncodeVarint(|payload|) + payload)
    requires i + |PrintTag(num, 2) + EncodeVarint(|payload|) + payload| <= MAX_INT
    ensures NextField(schema, d, i) == Err(UnexpectedEOF)
  {
    hide PrintTag, ReadTag, EncodeVarint, Cut, Window, ReadBytesField;
    var tag, len := PrintTag(num, 2), EncodeVarint(|payload|);
    TagBeforePayload(tag, len, payload);
    CutParts(d, i, tag, len + payload);
    if |d| < i + |tag| {
      CutTag(d, i, num, 2);
    } else {
      ReadTagOfPrinted(d, i, num, 2);
      CutPayload(d, i + |tag|, num, payload);
    }
  }

  lemma CutPayload(d: seq<byte>, j: nat, num: nat, payload: seq<byte>)
    requires Cut(d, j, EncodeVarint(|payload|) + payload) && j + |EncodeVarint(|payload|) + payload| <= MAX_INT
    ensures ReadBytesField(d, j, num, 2) == Err(UnexpectedEOF)
  {
    hide EncodeVarint, Cut;
    var len := EncodeVarint(|payload|);
    CutInside(d, j, len + payload);
    CutParts(d, j, len, payload);
    if |d| < j + |len| {
      CutVarint(d, j, |payload|);
      hide ReadVarint;
    } else {
      PayloadEndOfPrinted(d, j, |payload|);
      hide PayloadEnd;
    }
  }

  /** A field of a message or a foreign one, cut short, is an unexpected end. */
  lemma CutItem(schema: Schema, d: seq<byte>, i: nat, item: Item)
    requires Admissible(schema, item) && i < |d| && Cut(d, i, PrintItem(item)) && i + |PrintItem(item)| <= MAX_INT
    ensures NextField(schema, d, i) == Err(UnexpectedEOF)
  {
    hide NextField, PrintField, Print, Proper, Known, Cut;
    match item
    case Emitted(f) => CutEmitted(schema, d, i, f);
    case Foreign(u) => CutForeign(schema, d, i, u);
  }

  // ---------- buffers that end anywhere ----------

  /** How many items end within the first k bytes. */
  function WholeItems(items: seq<Item>, k: nat): (n: nat)
    ensures n <= |items|
  {
    if items == [] || |PrintItem(items[0])| > k then 0
    else 1 + WholeItems(items[1..], k - |PrintItem(items[0])|)
  }

  lemma {:induction false} DecodeOfCutFrom<M>(schema: Schema, apply: (M, Field) -> Parsed<M>, m: M,
                                              d: seq<byte>, i: nat, items: seq<Item>)
    requires forall item :: item in items ==> Admissible(schema, item)
    requires i <= |d| <= i + |PrintItems(items)| <= MAX_INT
    requires forall x :: i <= x < |d| ==> d[x] == PrintItems(items)[x - i]
    requires ApplyAll(apply, m, EmittedOf(items)).Ok?
    ensures var n := WholeItems(items, |d| - i);
            && ApplyAll(apply, m, EmittedOf(items[..n])).Ok?
            && Decode(schema, apply, m, d, i) ==
               if i + |PrintItems(items[..n])| == |d| then ApplyAll(apply, m, EmittedOf(items[..n])) else Err(UnexpectedEOF)
    decreases |items|
  {
    hide NextField, PrintItem, Admissible;
    if items == [] {
      assert items[..0] == [];
    } else {
      var item, rest := items[0], items[1..];
      var printed := PrintItem(item);
      NotNothing(schema, item);
      if i + |printed| > |d| {
        assert items[..0] == [];
        if i < |d| {
          assert Cut(d, i, printed);
          CutItem(schema, d, i, item);
        }
      } else {
        assert Window(d, i, printed);
        NextItem(schema, d, i, item);
        EmittedStep(apply, m, items);
        var n := WholeItems(rest, |d| - i - |printed|);
        var m' := ApplyKnown(apply, m, FieldOf(item)).value;
        forall x | i + |printed| <= x < |d|
          ensures d[x] == PrintItems(rest)[x - (i + |printed|)]
        {
          assert PrintItems(items)[x - i] == PrintItems(rest)[x - i - |printed|];
        }
        DecodeOfCutFrom(schema, apply, m', d, i + |printed|, rest);
        assert items[..n + 1][1..] == rest[..n];
        EmittedStep(apply, m, items[..n + 1]);
        hide EmittedOf, ApplyAll;
      }
    }
  }

  lemma NotNothing(schema: Schema, item: Item)
    requires Admissible(schema, item)
    ensures |PrintItem(item)| > 0
  {
    hide PrintTag, EncodeVarint, PrintValue;
    match item
    case Emitted(f) => PrintedNotEmpty(schema, f);
    case Foreign(u) => TagNotEmpty(u.num, WireType(u));
  }

  lemma TagNotEmpty(num: nat, wireType: nat)
    ensures |PrintTag(num, wireType)| > 0
  {
  }

  /**
   Printed fields, foreign ones among them, cut off after any number of bytes: where a field ends
   the fields before are decoded, everywhere else it is an unexpected end.
   */
  lemma DecodeOfCut<M>(schema: Schema, apply: (M, Field) -> Parsed<M>, m: M, items: seq<Item>, k: nat)
    requires forall item :: item in items ==> Admissible(schema, item)
    requires k <= |PrintItems(items)| <= MAX_INT && ApplyAll(apply, m, EmittedOf(items)).Ok?
    ensures ApplyAll(apply, m, EmittedOf(items[..WholeItems(items, k)])).Ok?
    ensures var n := WholeItems(items, k);
            Decode(schema, apply, m, PrintItems(items)[..k], 0) ==
            if |PrintItems(items[..n])| == k then ApplyAll(apply, m, EmittedOf(items[..n])) else Err(UnexpectedEOF)
  {
    hide Decode, PrintItems, EmittedOf, Admissible, ApplyAll, WholeItems;
    DecodeOfCutFrom(schema, apply, m, PrintItems(items)[..k], 0, items);
  }
}
