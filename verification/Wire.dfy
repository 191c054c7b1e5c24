/**
 The wire level shared by the generated codecs: the skipper for unknown fields, one turn of
 the reader's loop, the decoding of a whole message, and its theorems.

 A message type enters as a schema (which field numbers its switch matches, and with which
 wire type) and a function that applies one decoded field to the message.
 */
module Wire {
  import opened Machine
  import opened Bits
  import opened Varint

  type Parsed<T> = Result<T, Error>

  // ---------- the skipper ----------

  /** The end of a length-delimited payload whose length stands at i; it may lie beyond d. */
  function PayloadEnd(d: seq<byte>, i: nat): (r: Parsed<(nat, int)>)
    ensures r.Ok? ==> i < r.value.0 <= |d| && r.value.0 <= r.value.1
  {
    match ReadVarint(d, i, W64)
    case Err(e) => Err(e)
    case Ok((len, j)) => if ToInt64(len) < 0 then Err(InvalidLength) else Ok((j, j + ToInt64(len)))
  }

  /** The cursor and the group depth after the part of a field that follows its tag. */
  function SkipValue(d: seq<byte>, j: nat, wireType: nat, depth: nat): (r: Parsed<(nat, nat)>)
    ensures r.Ok? ==> r.value.0 >= j
  {
    match wireType
    case 0 => (match ReadVarint(d, j, W64) case Ok((_, n)) => Ok((n, depth)) case Err(e) => Err(e))
    case 1 => Ok((j + 8, depth))
    case 2 => (match PayloadEnd(d, j) case Ok((_, end)) => Ok((end, depth)) case Err(e) => Err(e))
    case 3 => Ok((j, depth + 1))
    case 4 => if depth == 0 then Err(UnexpectedEndOfGroup) else Ok((j, depth - 1))
    case 5 => Ok((j + 4, depth))
    case _ => Err(IllegalWireType)
  }

  /** One turn of the skipper's loop: the cursor after the field part at i, and the open groups. */
  function SkipTurn(d: seq<byte>, i: nat, depth: nat): (r: Parsed<(nat, nat)>)
    ensures r.Ok? ==> i < r.value.0 <= MAX_INT
  {
    match ReadVarint(d, i, W64)
    case Err(e) => Err(e)
    case Ok((wire, j)) =>
      match SkipValue(d, j, wire % 8, depth)
      case Err(e) => Err(e)
      case Ok((n, left)) => if n > MAX_INT then Err(InvalidLength) else Ok((n, left))
  }

  /** Where the field at i ends, `depth` groups being open; the answer may lie beyond d. */
  function SkipFrom(d: seq<byte>, i: nat, depth: nat): (r: Parsed<nat>)
    ensures r.Ok? ==> i < r.value <= MAX_INT
    decreases |d| - i
  {
    if i >= |d| then Err(UnexpectedEOF)
    else
      match SkipTurn(d, i, depth)
      case Err(e) => Err(e)
      case Ok((n, left)) => if left == 0 then Ok(n) else SkipFrom(d, n, left)
  }

  /** What the skipper's switch does for the wire type; a cursor sum that wraps around is negative. */
  method SkipSwitch(dAtA: seq<byte>, start: nat, wireType: nat, open: nat)
      returns (iNdEx: int, depth: nat, err: Option<Error>)
    requires |dAtA| <= MAX_INT && start <= |dAtA|
    ensures err.Some? ==> SkipValue(dAtA, start, wireType, open) == Err(err.value)
    ensures err == None ==>
              match SkipValue(dAtA, start, wireType, open)
              case Err(_) => false
              case Ok((n, left)) => depth == left && if n > MAX_INT then iNdEx < 0 else iNdEx == n
  {
    iNdEx, depth, err := start, open, None;
    if wireType == 0 {
      var _, after, e := ReadVarintLoop(dAtA, start, W64);
      iNdEx, err := after, e;
    } else if wireType == 1 {
      iNdEx := AddInt(iNdEx, 8);
    } else if wireType == 2 {
      var bits, after, e := ReadVarintLoop(dAtA, start, W64);
      if e.Some? {
        err := e;
        return;
      }
      var length := ToInt64(bits);
      if length < 0 {
        err := Some(InvalidLength);
        return;
      }
      iNdEx := AddInt(after, length);
    } else if wireType == 3 {
      depth := depth + 1;
    } else if wireType == 4 {
      if depth == 0 {
        err := Some(UnexpectedEndOfGroup);
        return;
      }
      depth := depth - 1;
    } else if wireType == 5 {
      iNdEx := AddInt(iNdEx, 4);
    } else {
      err := Some(IllegalWireType);
    }
  }

  /** The generated skipper. */
  method Skip(dAtA: seq<byte>) returns (n: nat, err: Option<Error>)
    requires |dAtA| <= MAX_INT
    ensures err == None ==> SkipFrom(dAtA, 0, 0) == Ok(n)
    ensures err.Some? ==> SkipFrom(dAtA, 0, 0) == Err(err.value)
  {
    var l := |dAtA|;
    var iNdEx: int := 0;
    var depth: nat := 0;
    n, err := 0, None;
    while iNdEx < l
      invariant 0 <= iNdEx <= MAX_INT
      invariant SkipFrom(dAtA, 0, 0) == SkipFrom(dAtA, iNdEx, depth)
      decreases l - iNdEx
    {
      var wire, next, e := ReadVarintLoop(dAtA, iNdEx, W64);
      if e.Some? {
        err := e;
        return;
      }
      LowThreeBits(wire);
      var wireType := And(wire, 0x7);
      iNdEx, depth, err := SkipSwitch(dAtA, next, wireType, depth);
      if err.Some? {
        return;
      }
      if iNdEx < 0 {
        err := Some(InvalidLength);
        return;
      }
      if depth == 0 {
        n := iNdEx;
        return;
      }
    }
    err := Some(UnexpectedEOF);
  }

  // ---------- one turn of the reader ----------

  datatype Kind = VarintKind | BytesKind | UnknownKind
  type Schema = nat -> Kind

  datatype Field =
    | VarintField(num: nat, value: uint64)
    | BytesField(num: nat, payload: seq<byte>)
    | UnknownField

  /** The field number, the wire type and the index after the tag at i. */
  function ReadTag(d: seq<byte>, i: nat): (r: Parsed<(nat, nat, nat)>)
    ensures r.Ok? ==> i < r.value.2 <= |d|
  {
    match ReadVarint(d, i, W64)
    case Err(e) => Err(e)
    case Ok((wire, j)) =>
      if wire % 8 == 4 then Err(EndGroupForNonGroup)
      else if ToInt32(wire / 8 % TWO_32) <= 0 then Err(IllegalTag)
      else Ok((ToInt32(wire / 8 % TWO_32), wire % 8, j))
  }

  function ReadVarintField(d: seq<byte>, j: nat, num: nat, wireType: nat): (r: Parsed<(Field, nat)>)
    ensures r.Ok? ==> j < r.value.1 <= |d|
  {
    if wireType != 0 then Err(WrongWireType)
    else
      match ReadVarint(d, j, W64)
      case Ok((v, n)) => Ok((VarintField(num, v), n))
      case Err(e) => Err(e)
  }

  function ReadBytesField(d: seq<byte>, j: nat, num: nat, wireType: nat): (r: Parsed<(Field, nat)>)
    ensures r.Ok? ==> j < r.value.1 <= |d|
  {
    if wireType != 2 then Err(WrongWireType)
    else
      match PayloadEnd(d, j)
      case Err(e) => Err(e)
      case Ok((start, end)) => TakePayload(d, num, start, end)
  }

  /** The payload between two indexes, of which the second may be too large. */
  function TakePayload(d: seq<byte>, num: nat, start: nat, end: int): (r: Parsed<(Field, nat)>)
    requires start <= end
    ensures r.Ok? ==> start <= r.value.1 <= |d|
  {
    if end > MAX_INT then Err(InvalidLength)
    else if end > |d| then Err(UnexpectedEOF)
    else Ok((BytesField(num, d[start..end]), end))
  }

  function ReadUnknownField(d: seq<byte>, i: nat): (r: Parsed<(Field, nat)>)
    requires i <= |d|
    ensures r.Ok? ==> i < r.value.1 <= |d|
  {
    match SkipFrom(d[i..], 0, 0)
    case Err(e) => Err(e)
    case Ok(n) =>
      if i + n > MAX_INT then Err(InvalidLength)
      else if i + n > |d| then Err(UnexpectedEOF)
      else Ok((UnknownField, i + n))
  }

  /** The field at index i and the index after it. */
  function NextField(schema: Schema, d: seq<byte>, i: nat): (r: Parsed<(Field, nat)>)
    requires i < |d|
    ensures r.Ok? ==> i < r.value.1 <= |d|
  {
    match ReadTag(d, i)
    case Err(e) => Err(e)
    case Ok((num, wireType, j)) =>
      match schema(num)
      case VarintKind => ReadVarintField(d, j, num, wireType)
      case BytesKind => ReadBytesField(d, j, num, wireType)
      case UnknownKind => ReadUnknownField(d, i)
  }

  /** Decodes d from index i on into the message m; an unknown field leaves the message as it is. */
  function Decode<M>(schema: Schema, apply: (M, Field) -> Parsed<M>, m: M, d: seq<byte>, i: nat): (r: Parsed<M>)
    requires i <= |d|
    decreases |d| - i
  {
    if i == |d| then Ok(m)
    else
      match NextField(schema, d, i)
      case Err(e) => Err(e)
      case Ok((f, j)) =>
        match ApplyKnown(apply, m, f)
        case Err(e) => Err(e)
        case Ok(m') => Decode(schema, apply, m', d, j)
  }

  function ApplyKnown<M>(apply: (M, Field) -> Parsed<M>, m: M, f: Field): Parsed<M> {
    if f.UnknownField? then Ok(m) else apply(m, f)
  }

  /**
   What a field that cannot be read does to the message: the collecting loop of a varint field
   works on the message itself, so the bits collected before the error stay there.
   */
  function CutShort<M>(schema: Schema, apply: (M, Field) -> Parsed<M>, m: M, d: seq<byte>, i: nat): M {
    match ReadTag(d, i)
    case Err(_) => m
    case Ok((num, wireType, j)) => CutField(schema, apply, m, num, wireType, Collected(d, j))
  }

  function CutField<M>(schema: Schema, apply: (M, Field) -> Parsed<M>, m: M, num: nat, wireType: nat, collected: nat): M {
    if schema(num) != VarintKind || wireType != 0 then m
    else
      match apply(m, VarintField(num, Narrow(collected, W64)))
      case Ok(m') => m'
      case Err(_) => m
  }

  /**
   The message when the reader stops, at the end of d or at an error. A field that is read but
   not applied, a nested message that does not decode, leaves reject(m, f).
   */
  function Remains<M>(schema: Schema, apply: (M, Field) -> Parsed<M>, reject: (M, Field) -> M,
                      m: M, d: seq<byte>, i: nat): M
    requires i <= |d|
    decreases |d| - i
  {
    if i == |d| then m
    else
      match NextField(schema, d, i)
      case Err(_) => CutShort(schema, apply, m, d, i)
      case Ok((f, j)) =>
        match ApplyKnown(apply, m, f)
        case Err(_) => reject(m, f)
        case Ok(m') => Remains(schema, apply, reject, m', d, j)
  }

  /** For messages whose fields are all applied once they are read. */
  function KeepMessage<M>(m: M, f: Field): M { m }

  /** A reader that meets no error leaves the decoded message. */
  lemma {:induction false} RemainsOfDecodable<M>(schema: Schema, apply: (M, Field) -> Parsed<M>, reject: (M, Field) -> M,
                                                 m: M, d: seq<byte>, i: nat)
    requires i <= |d| && Decode(schema, apply, m, d, i).Ok?
    ensures Remains(schema, apply, reject, m, d, i) == Decode(schema, apply, m, d, i).value
    decreases |d| - i
  {
    hide NextField, CutShort;
    if i < |d| {
      var (f, j) := NextField(schema, d, i).value;
      RemainsOfDecodable(schema, apply, reject, ApplyKnown(apply, m, f).value, d, j);
    }
  }

  /** The reader at index i with the message m goes on at index j with the message m'. */
  ghost predicate GoesOn<M>(schema: Schema, apply: (M, Field) -> Parsed<M>, reject: (M, Field) -> M,
                            d: seq<byte>, m: M, i: nat, m': M, j: nat)
  {
    && i <= |d| && j <= |d|
    && Decode(schema, apply, m, d, i) == Decode(schema, apply, m', d, j)
    && Remains(schema, apply, reject, m, d, i) == Remains(schema, apply, reject, m', d, j)
  }

  /** The reader at index i with the message m stops with an error and leaves m'. */
  ghost predicate Stops<M>(schema: Schema, apply: (M, Field) -> Parsed<M>, reject: (M, Field) -> M,
                           d: seq<byte>, m: M, i: nat, m': M, e: Error)
  {
    && i <= |d|
    && Decode(schema, apply, m, d, i) == Err(e)
    && Remains(schema, apply, reject, m, d, i) == m'
  }

  /** What follows from reading, or failing to read, the field at index i. */
  ghost predicate After<M>(schema: Schema, apply: (M, Field) -> Parsed<M>, reject: (M, Field) -> M,
                           d: seq<byte>, m: M, i: nat, r: Parsed<(Field, nat)>)
  {
    match r
    case Err(e) => Stops(schema, apply, reject, d, m, i, CutShort(schema, apply, m, d, i), e)
    case Ok((f, j)) =>
      match ApplyKnown(apply, m, f)
      case Err(e) => Stops(schema, apply, reject, d, m, i, reject(m, f), e)
      case Ok(m') => GoesOn(schema, apply, reject, d, m, i, m', j)
  }

  /** One turn of the reader's loop, branch by branch. */
  lemma ReaderTurn<M>(schema: Schema, apply: (M, Field) -> Parsed<M>, reject: (M, Field) -> M, d: seq<byte>, m: M, i: nat)
    requires i < |d|
    ensures ReadTag(d, i).Err? ==> Stops(schema, apply, reject, d, m, i, m, ReadTag(d, i).error)
    ensures ReadTag(d, i).Ok? ==>
              var (num, wireType, j) := ReadTag(d, i).value;
              match schema(num)
              case VarintKind => After(schema, apply, reject, d, m, i, ReadVarintField(d, j, num, wireType))
              case BytesKind => After(schema, apply, reject, d, m, i, ReadBytesField(d, j, num, wireType))
              case UnknownKind => After(schema, apply, reject, d, m, i, ReadUnknownField(d, i))
  {
    hide ReadVarintField, ReadBytesField, ReadUnknownField;
  }

  // ---------- what surrounds a field does not matter ----------

  lemma PayloadEndInWindow(whole: seq<byte>, k: nat, d: seq<byte>, i: nat)
    requires Window(whole, k, d) && i <= |d|
    requires PayloadEnd(d, i).Ok? || k + |d| == |whole|
    ensures PayloadEnd(whole, k + i) ==
            match PayloadEnd(d, i) { case Ok((start, end)) => Ok((k + start, k + end)) case Err(e) => Err(e) }
  {
    hide ReadVarint, Window;
    ReadVarintInWindow(whole, k, d, i, W64);
  }

  lemma SkipValueWithSuffix(d: seq<byte>, suffix: seq<byte>, j: nat, wireType: nat, depth: nat)
    requires j <= |d| && SkipValue(d, j, wireType, depth).Ok?
    ensures SkipValue(d + suffix, j, wireType, depth) == SkipValue(d, j, wireType, depth)
  {
    if wireType == 0 {
      ReadVarintInWindow(d + suffix, 0, d, j, W64);
    } else if wireType == 2 {
      PayloadEndInWindow(d + suffix, 0, d, j);
    }
  }

  lemma SkipTurnWithSuffix(d: seq<byte>, suffix: seq<byte>, i: nat, depth: nat)
    requires i <= |d| && SkipTurn(d, i, depth).Ok?
    ensures SkipTurn(d + suffix, i, depth) == SkipTurn(d, i, depth)
  {
    ReadVarintInWindow(d + suffix, 0, d, i, W64);
    var (wire, j) := ReadVarint(d, i, W64).value;
    SkipValueWithSuffix(d, suffix, j, wire % 8, depth);
  }

  /** The skipper's answer is stable under any suffix. */
  lemma {:induction false} SkipStable(d: seq<byte>, suffix: seq<byte>, i: nat, depth: nat)
    requires SkipFrom(d, i, depth).Ok?
    ensures SkipFrom(d + suffix, i, depth) == SkipFrom(d, i, depth)
    decreases |d| - i
  {
    SkipTurnWithSuffix(d, suffix, i, depth);
    var (n, left) := SkipTurn(d, i, depth).value;
    if left != 0 {
      SkipStable(d, suffix, n, left);
    }
  }

  lemma ReadTagInWindow(whole: seq<byte>, k: nat, d: seq<byte>, i: nat)
    requires Window(whole, k, d) && i <= |d|
    requires ReadTag(d, i).Ok? || k + |d| == |whole|
    ensures ReadTag(whole, k + i) ==
            match ReadTag(d, i) { case Ok((num, wireType, j)) => Ok((num, wireType, k + j)) case Err(e) => Err(e) }
  {
    hide ReadVarint, Window;
    ReadVarintInWindow(whole, k, d, i, W64);
  }

  lemma ReadVarintFieldInWindow(whole: seq<byte>, k: nat, d: seq<byte>, j: nat, num: nat, wireType: nat)
    requires Window(whole, k, d) && j <= |d|
    requires ReadVarintField(d, j, num, wireType).Ok? || k + |d| == |whole|
    ensures ReadVarintField(whole, k + j, num, wireType) == Shift(ReadVarintField(d, j, num, wireType), k)
  {
    if wireType == 0 {
      ReadVarintInWindow(whole, k, d, j, W64);
    }
  }

  lemma SliceInWindow(whole: seq<byte>, k: nat, d: seq<byte>, start: nat, end: nat)
    requires Window(whole, k, d) && start <= end <= |d|
    ensures whole[k + start..k + end] == d[start..end]
  {
  }

  lemma TakePayloadInWindow(whole: seq<byte>, k: nat, d: seq<byte>, num: nat, start: nat, end: int)
    requires Window(whole, k, d) && start <= end && |whole| <= MAX_INT
    requires TakePayload(d, num, start, end).Ok? || k + |d| == |whole|
    ensures SameOutcome(TakePayload(whole, num, k + start, k + end), Shift(TakePayload(d, num, start, end), k))
  {
    if end <= |d| {
      SliceInWindow(whole, k, d, start, end);
    }
  }

  lemma ReadBytesFieldInWindow(whole: seq<byte>, k: nat, d: seq<byte>, j: nat, num: nat, wireType: nat)
    requires Window(whole, k, d) && j <= |d| && |whole| <= MAX_INT
    requires ReadBytesField(d, j, num, wireType).Ok? || k + |d| == |whole|
    ensures SameOutcome(ReadBytesField(whole, k + j, num, wireType), Shift(ReadBytesField(d, j, num, wireType), k))
  {
    hide PayloadEnd, Window, TakePayload;
    if wireType == 2 {
      PayloadEndInWindow(whole, k, d, j);
      if PayloadEnd(d, j).Ok? {
        var (start, end) := PayloadEnd(d, j).value;
        TakePayloadInWindow(whole, k, d, num, start, end);
      }
    }
  }

  lemma ReadUnknownFieldInWindow(whole: seq<byte>, k: nat, d: seq<byte>, i: nat)
    requires Window(whole, k, d) && i <= |d| && |whole| <= MAX_INT
    requires ReadUnknownField(d, i).Ok? || k + |d| == |whole|
    ensures SameOutcome(ReadUnknownField(whole, k + i), Shift(ReadUnknownField(d, i), k))
  {
    var suffix := whole[k + |d|..];
    assert whole[k + i..] == d[i..] + suffix;
    if SkipFrom(d[i..], 0, 0).Ok? {
      SkipStable(d[i..], suffix, 0, 0);
    } else {
      assert whole[k + i..] == d[i..];
    }
  }

  /** A field read in d is read in the same way wherever d stands in a buffer. */
  lemma NextFieldInWindow(schema: Schema, whole: seq<byte>, k: nat, d: seq<byte>, i: nat)
    requires Window(whole, k, d) && i < |d| && |whole| <= MAX_INT
    requires NextField(schema, d, i).Ok? || k + |d| == |whole|
    ensures SameOutcome(NextField(schema, whole, k + i), Shift(NextField(schema, d, i), k))
  {
    ReadTagInWindow(whole, k, d, i);
    if ReadTag(d, i).Ok? {
      var (num, wireType, j) := ReadTag(d, i).value;
      match schema(num)
      case VarintKind => ReadVarintFieldInWindow(whole, k, d, j, num, wireType);
      case BytesKind => ReadBytesFieldInWindow(whole, k, d, j, num, wireType);
      case UnknownKind => ReadUnknownFieldInWindow(whole, k, d, i);
    }
  }

  /** Two decodings that succeed together, with the same message. */
  ghost predicate SameOutcome<M>(a: Parsed<M>, b: Parsed<M>) {
    a.Ok? == b.Ok? && (a.Ok? ==> a == b)
  }

  /** A message decodes alike at any place of the buffer, if nothing follows it. */
  lemma {:induction false} DecodeAtEnd<M>(schema: Schema, apply: (M, Field) -> Parsed<M>, m: M,
                                          whole: seq<byte>, k: nat, d: seq<byte>, i: nat)
    requires i <= |d| && k + |d| == |whole| <= MAX_INT && Window(whole, k, d)
    ensures SameOutcome(Decode(schema, apply, m, whole, k + i), Decode(schema, apply, m, d, i))
    decreases |d| - i
  {
    hide NextField;
    if i < |d| {
      NextFieldInWindow(schema, whole, k, d, i);
      if NextField(schema, d, i).Ok? {
        var (f, j) := NextField(schema, d, i).value;
        if ApplyKnown(apply, m, f).Ok? {
          DecodeAtEnd(schema, apply, ApplyKnown(apply, m, f).value, whole, k, d, j);
        }
      }
    }
  }

  /** Decoding resumes after a decodable prefix with the message decoded so far. */
  lemma {:induction false} DecodeResumes<M>(schema: Schema, apply: (M, Field) -> Parsed<M>, m: M,
                                            d: seq<byte>, suffix: seq<byte>, i: nat)
    requires i <= |d| && |d + suffix| <= MAX_INT
    requires Decode(schema, apply, m, d, i).Ok?
    ensures Decode(schema, apply, m, d + suffix, i) ==
            Decode(schema, apply, Decode(schema, apply, m, d, i).value, d + suffix, |d|)
    decreases |d| - i
  {
    if i < |d| {
      NextFieldInWindow(schema, d + suffix, 0, d, i);
      var (f, j) := NextField(schema, d, i).value;
      DecodeResumes(schema, apply, ApplyKnown(apply, m, f).value, d, suffix, j);
    }
  }

  /** Decoding a concatenation is decoding the second part into the message decoded from the first. */
  lemma DecodeConcatenation<M>(schema: Schema, apply: (M, Field) -> Parsed<M>, m: M, a: seq<byte>, b: seq<byte>)
    requires |a + b| <= MAX_INT
    requires Decode(schema, apply, m, a, 0).Ok?
    ensures SameOutcome(Decode(schema, apply, m, a + b, 0),
                        Decode(schema, apply, Decode(schema, apply, m, a, 0).value, b, 0))
  {
    DecodeResumes(schema, apply, m, a, b, 0);
    DecodeAtEnd(schema, apply, Decode(schema, apply, m, a, 0).value, a + b, |a|, b, 0);
  }

  lemma CutShortAtEnd<M>(schema: Schema, apply: (M, Field) -> Parsed<M>, m: M,
                         whole: seq<byte>, k: nat, d: seq<byte>, i: nat)
    requires Window(whole, k, d) && i <= |d| && k + |d| == |whole|
    ensures CutShort(schema, apply, m, whole, k + i) == CutShort(schema, apply, m, d, i)
  {
    hide ReadTag, Collected, Window, CutField;
    ReadTagInWindow(whole, k, d, i);
    if ReadTag(d, i).Ok? {
      CollectedAtEnd(whole, k, d, ReadTag(d, i).value.2, 0);
    }
  }

  lemma {:induction false} RemainsAtEnd<M>(schema: Schema, apply: (M, Field) -> Parsed<M>, reject: (M, Field) -> M, m: M,
                                           whole: seq<byte>, k: nat, d: seq<byte>, i: nat)
    requires i <= |d| && k + |d| == |whole| <= MAX_INT && Window(whole, k, d)
    ensures Remains(schema, apply, reject, m, whole, k + i) == Remains(schema, apply, reject, m, d, i)
    decreases |d| - i
  {
    hide NextField, CutShort;
    if i < |d| {
      NextFieldInWindow(schema, whole, k, d, i);
      CutShortAtEnd(schema, apply, m, whole, k, d, i);
      if NextField(schema, d, i).Ok? {
        var (f, j) := NextField(schema, d, i).value;
        if ApplyKnown(apply, m, f).Ok? {
          RemainsAtEnd(schema, apply, reject, ApplyKnown(apply, m, f).value, whole, k, d, j);
        }
      }
    }
  }

  lemma {:induction false} RemainsResumes<M>(schema: Schema, apply: (M, Field) -> Parsed<M>, reject: (M, Field) -> M, m: M,
                                             d: seq<byte>, suffix: seq<byte>, i: nat)
    requires i <= |d| && |d + suffix| <= MAX_INT
    requires Decode(schema, apply, m, d, i).Ok?
    ensures Remains(schema, apply, reject, m, d + suffix, i) ==
            Remains(schema, apply, reject, Decode(schema, apply, m, d, i).value, d + suffix, |d|)
    decreases |d| - i
  {
    hide NextField, CutShort;
    if i < |d| {
      NextFieldInWindow(schema, d + suffix, 0, d, i);
      var (f, j) := NextField(schema, d, i).value;
      RemainsResumes(schema, apply, reject, ApplyKnown(apply, m, f).value, d, suffix, j);
    }
  }

  /** An error leaves all that was decoded before it, and what the failing part does to that. */
  lemma RemainsOfConcatenation<M>(schema: Schema, apply: (M, Field) -> Parsed<M>, reject: (M, Field) -> M, m: M,
                                  a: seq<byte>, b: seq<byte>)
    requires |a + b| <= MAX_INT
    requires Decode(schema, apply, m, a, 0).Ok?
    ensures Remains(schema, apply, reject, m, a + b, 0) ==
            Remains(schema, apply, reject, Decode(schema, apply, m, a, 0).value, b, 0)
  {
    RemainsResumes(schema, apply, reject, m, a, b, 0);
    RemainsAtEnd(schema, apply, reject, Decode(schema, apply, m, a, 0).value, a + b, |a|, b, 0);
  }

  /** A buffer that is exactly one field which the switch does not match. */
  predicate IsUnknownField(schema: Schema, u: seq<byte>) {
    u != [] && NextField(schema, u, 0) == Ok((UnknownField, |u|))
  }

  lemma Associates(a: seq<byte>, u: seq<byte>, b: seq<byte>)
    ensures a + u + b == a + (u + b)
  {
  }

  /** Unknown fields are transparent: one inserted at a field boundary changes nothing. */
  lemma UnknownFieldTransparent<M>(schema: Schema, apply: (M, Field) -> Parsed<M>, m: M,
                                   a: seq<byte>, u: seq<byte>, b: seq<byte>)
    requires |a + u + b| <= MAX_INT
    requires Decode(schema, apply, m, a, 0).Ok? && IsUnknownField(schema, u)
    ensures SameOutcome(Decode(schema, apply, m, a + u + b, 0), Decode(schema, apply, m, a + b, 0))
  {
    var ma := Decode(schema, apply, m, a, 0).value;
    assert Decode(schema, apply, ma, u, 0) == Ok(ma);
    hide NextField, Decode;
    DecodeConcatenation(schema, apply, ma, u, b);
    Associates(a, u, b);
    DecodeConcatenation(schema, apply, m, a, u + b);
    DecodeConcatenation(schema, apply, m, a, b);
  }

  // ---------- printing and reading back ----------

  function PrintTag(num: nat, wireType: nat): seq<byte> {
    EncodeVarint(num * 8 + wireType)
  }

  /** The bytes the generated writers produce for a field: tag, then value. */
  function PrintField(f: Field): seq<byte> {
    match f
    case VarintField(num, value) => PrintTag(num, 0) + EncodeVarint(value)
    case BytesField(num, payload) => PrintTag(num, 2) + EncodeVarint(|payload|) + payload
    case UnknownField => []
  }

  function PrintFields(fs: seq<Field>): (r: seq<byte>) {
    if fs == [] then [] else PrintField(fs[0]) + PrintFields(fs[1..])
  }

  lemma {:induction false} PrintAppend(a: seq<Field>, b: seq<Field>)
    ensures PrintFields(a + b) == PrintFields(a) + PrintFields(b)
  {
    if a == [] {
      assert a + b == b;
    } else {
      assert (a + b)[1..] == a[1..] + b;
      PrintAppend(a[1..], b);
    }
  }

  /** A field of the schema. */
  predicate Known(schema: Schema, f: Field) {
    match f
    case VarintField(num, _) => 0 < num < TWO_31 && schema(num) == VarintKind
    case BytesField(num, payload) => 0 < num < TWO_31 && schema(num) == BytesKind && |payload| <= MAX_INT
    case UnknownField => false
  }

  lemma WindowPart(whole: seq<byte>, k: nat, a: seq<byte>, b: seq<byte>)
    requires Window(whole, k, a + b)
    ensures Window(whole, k, a) && Window(whole, k + |a|, b)
  {
    forall x | 0 <= x < |a|
      ensures whole[k + x] == a[x]
    {
      assert (a + b)[x] == a[x];
    }
    forall x | 0 <= x < |b|
      ensures whole[k + |a| + x] == b[x]
    {
      assert (a + b)[|a| + x] == b[x];
      assert whole[k + (|a| + x)] == (a + b)[|a| + x];
    }
  }

  lemma TagParts(num: nat, wireType: nat)
    requires num < TWO_31 && wireType < 8
    ensures (num * 8 + wireType) % 8 == wireType
    ensures (num * 8 + wireType) / 8 % TWO_32 == num
  {
  }

  lemma ReadTagOfPrinted(d: seq<byte>, k: nat, num: nat, wireType: nat)
    requires 0 < num < TWO_31 && wireType < 8 && wireType != 4
    requires Window(d, k, PrintTag(num, wireType))
    ensures ReadTag(d, k) == Ok((num, wireType, k + |PrintTag(num, wireType)|))
  {
    ReadVarintOfEncoded(d, k, num * 8 + wireType);
    hide ReadVarint, EncodeVarint, Window;
    TagParts(num, wireType);
  }

  lemma PayloadEndOfPrinted(d: seq<byte>, k: nat, len: nat)
    requires len <= MAX_INT && Window(d, k, EncodeVarint(len))
    ensures PayloadEnd(d, k) == Ok((k + |EncodeVarint(len)|, k + |EncodeVarint(len)| + len))
  {
    ReadVarintOfEncoded(d, k, len);
    hide ReadVarint, EncodeVarint, Window;
  }

  lemma VarintFieldOfPrinted(d: seq<byte>, k: nat, num: nat, value: uint64)
    requires Window(d, k, EncodeVarint(value))
    ensures ReadVarintField(d, k, num, 0) == Ok((VarintField(num, value), k + |EncodeVarint(value)|))
  {
    ReadVarintOfEncoded(d, k, value);
    hide ReadVarint, EncodeVarint, Window;
  }

  lemma PayloadOfWindow(d: seq<byte>, start: nat, payload: seq<byte>)
    requires Window(d, start, payload)
    ensures start + |payload| <= |d| && d[start..start + |payload|] == payload
  {
  }

  lemma BytesFieldOfPrinted(d: seq<byte>, k: nat, num: nat, payload: seq<byte>)
    requires |payload| <= MAX_INT && |d| <= MAX_INT
    requires Window(d, k, EncodeVarint(|payload|) + payload)
    ensures ReadBytesField(d, k, num, 2) == Ok((BytesField(num, payload), k + |EncodeVarint(|payload|) + payload|))
  {
    hide EncodeVarint;
    var size := EncodeVarint(|payload|);
    WindowPart(d, k, size, payload);
    PayloadEndOfPrinted(d, k, |payload|);
    PayloadOfWindow(d, k + |size|, payload);
    hide PayloadEnd, Window;
  }

  /** The reader's loop reads a printed field back. */
  lemma NextFieldOfPrinted(schema: Schema, d: seq<byte>, k: nat, f: Field)
    requires Known(schema, f) && k < |d| <= MAX_INT
    requires Window(d, k, PrintField(f))
    ensures NextField(schema, d, k) == Ok((f, k + |PrintField(f)|))
  {
    hide EncodeVarint, ReadTag, ReadVarintField, ReadBytesField, ReadUnknownField;
    match f
    case VarintField(num, value) =>
      var tag := PrintTag(num, 0);
      WindowPart(d, k, tag, EncodeVarint(value));
      ReadTagOfPrinted(d, k, num, 0);
      VarintFieldOfPrinted(d, k + |tag|, num, value);
      hide PrintTag, Window;
    case BytesField(num, payload) =>
      var tag, rest := PrintTag(num, 2), EncodeVarint(|payload|) + payload;
      assert PrintField(f) == tag + rest;
      WindowPart(d, k, tag, rest);
      ReadTagOfPrinted(d, k, num, 2);
      BytesFieldOfPrinted(d, k + |tag|, num, payload);
      hide PrintTag, Window, PrintField;
  }

  /** Applies a list of fields in order. */
  function ApplyAll<M>(apply: (M, Field) -> Parsed<M>, m: M, fs: seq<Field>): (r: Parsed<M>) {
    if fs == [] then Ok(m)
    else
      match ApplyKnown(apply, m, fs[0])
      case Err(e) => Err(e)
      case Ok(m') => ApplyAll(apply, m', fs[1..])
  }

  lemma {:induction false} ApplyAppend<M>(apply: (M, Field) -> Parsed<M>, m: M, a: seq<Field>, b: seq<Field>)
    ensures ApplyAll(apply, m, a + b) ==
            match ApplyAll(apply, m, a) { case Err(e) => Err(e) case Ok(m') => ApplyAll(apply, m', b) }
  {
    if a == [] {
      assert a + b == b;
    } else {
      assert (a + b)[1..] == a[1..] + b;
      if ApplyKnown(apply, m, a[0]).Ok? {
        ApplyAppend(apply, ApplyKnown(apply, m, a[0]).value, a[1..], b);
      }
    }
  }

  lemma PrintedNotEmpty(schema: Schema, f: Field)
    requires Known(schema, f)
    ensures |PrintField(f)| > 0
  {
  }

  lemma {:induction false} DecodeOfPrintedFrom<M>(schema: Schema, apply: (M, Field) -> Parsed<M>, m: M,
                                                  d: seq<byte>, k: nat, fs: seq<Field>)
    requires k + |PrintFields(fs)| == |d| <= MAX_INT && Window(d, k, PrintFields(fs))
    requires forall f :: f in fs ==> Known(schema, f)
    ensures Decode(schema, apply, m, d, k) == ApplyAll(apply, m, fs)
    decreases |fs|
  {
    hide NextField, PrintField, Known, Window;
    if fs != [] {
      var f := fs[0];
      PrintedNotEmpty(schema, f);
      WindowPart(d, k, PrintField(f), PrintFields(fs[1..]));
      NextFieldOfPrinted(schema, d, k, f);
      if ApplyKnown(apply, m, f).Ok? {
        DecodeOfPrintedFrom(schema, apply, ApplyKnown(apply, m, f).value, d, k + |PrintField(f)|, fs[1..]);
      }
    }
  }

  /** Decoding printed fields applies them in order. */
  lemma DecodeOfPrinted<M>(schema: Schema, apply: (M, Field) -> Parsed<M>, m: M, fs: seq<Field>)
    requires |PrintFields(fs)| <= MAX_INT
    requires forall f :: f in fs ==> Known(schema, f)
    ensures Decode(schema, apply, m, PrintFields(fs), 0) == ApplyAll(apply, m, fs)
  {
    DecodeOfPrintedFrom(schema, apply, m, PrintFields(fs), 0, fs);
  }

  // ---------- the statements the generated readers and writers share ----------

  /** The tag loop at the head of a reader's turn, and the two checks after it. */
  method ReadTagAt(dAtA: seq<byte>, start: nat)
      returns (fieldNum: nat, wireType: nat, iNdEx: nat, err: Option<Error>)
    ensures err == None ==> ReadTag(dAtA, start) == Ok((fieldNum, wireType, iNdEx)) && iNdEx <= |dAtA|
    ensures err.Some? ==> ReadTag(dAtA, start) == Err(err.value)
  {
    fieldNum, wireType := 0, 0;
    var wire;
    wire, iNdEx, err := ReadVarintLoop(dAtA, start, W64);
    if err.Some? {
      return;
    }
    var signed := ToInt32(wire / 8 % TWO_32);
    LowThreeBits(wire);
    wireType := And(wire, 0x7);
    if wireType == 4 {
      err := Some(EndGroupForNonGroup);
      return;
    }
    if signed <= 0 {
      err := Some(IllegalTag);
      return;
    }
    fieldNum := signed;
  }

  lemma NarrowTwice(x: nat, width: Width)
    ensures Narrow(Narrow(x, W64), width) == Narrow(x, width)
  {
    var q := x / TWO_64;
    assert x == x % TWO_64 + q * TWO_64;
    DropMultiples32(x % TWO_64, q * TWO_32);
  }

  /** A varint field: the value is collected in an accumulator of the field's width. */
  method ReadVarintAt(dAtA: seq<byte>, start: nat, fieldNum: nat, wireType: nat, width: Width)
      returns (value: uint64, iNdEx: nat, err: Option<Error>)
    ensures err.Some? ==> ReadVarintField(dAtA, start, fieldNum, wireType) == Err(err.value)
    ensures err == None ==> wireType == 0
    ensures err == None ==>
              match ReadVarintField(dAtA, start, fieldNum, wireType)
              case Ok((VarintField(num, v), n)) => num == fieldNum && value == Narrow(v, width) && iNdEx == n
              case _ => false
    ensures wireType == 0 ==> value == Narrow(Narrow(Collected(dAtA, start), W64), width)
    ensures width == W32 ==> value < TWO_32
  {
    value, iNdEx, err := 0, start, None;
    if wireType != 0 {
      err := Some(WrongWireType);
      return;
    }
    value, iNdEx, err := ReadVarintLoop(dAtA, start, width);
    NarrowTwice(Collected(dAtA, start), width);
    if err == None {
      NarrowTwice(ReadRaw(dAtA, start).value.0, width);
    }
  }

  /** A length-delimited field; the end of the payload may wrap around to a negative index. */
  method ReadBytesAt(dAtA: seq<byte>, start: nat, fieldNum: nat, wireType: nat)
      returns (payload: seq<byte>, postIndex: nat, err: Option<Error>)
    requires |dAtA| <= MAX_INT
    ensures err.Some? ==> ReadBytesField(dAtA, start, fieldNum, wireType) == Err(err.value)
    ensures err == None ==> ReadBytesField(dAtA, start, fieldNum, wireType) == Ok((BytesField(fieldNum, payload), postIndex))
    ensures err == None ==> |payload| <= |dAtA|
  {
    payload, postIndex, err := [], start, None;
    if wireType != 2 {
      err := Some(WrongWireType);
      return;
    }
    var bits, iNdEx, e := ReadVarintLoop(dAtA, start, W64);
    if e.Some? {
      err := e;
      return;
    }
    var byteLen := ToInt64(bits);
    if byteLen < 0 {
      err := Some(InvalidLength);
      return;
    }
    var post := AddInt(iNdEx, byteLen);
    if post < 0 {
      err := Some(InvalidLength);
      return;
    }
    if post > |dAtA| {
      err := Some(UnexpectedEOF);
      return;
    }
    payload, postIndex := dAtA[iNdEx..post], post;
  }

  /** The default branch: rewind to the tag and skip the field. */
  method SkipUnknownAt(dAtA: seq<byte>, preIndex: nat) returns (iNdEx: nat, err: Option<Error>)
    requires preIndex <= |dAtA| <= MAX_INT
    ensures err == None ==> ReadUnknownField(dAtA, preIndex) == Ok((UnknownField, iNdEx))
    ensures err.Some? ==> ReadUnknownField(dAtA, preIndex) == Err(err.value)
  {
    iNdEx := preIndex;
    var skippy;
    skippy, err := Skip(dAtA[preIndex..]);
    if err.Some? {
      return;
    }
    var post := AddInt(preIndex, skippy);
    if post < 0 {
      err := Some(InvalidLength);
      return;
    }
    if post > |dAtA| {
      err := Some(UnexpectedEOF);
      return;
    }
    iNdEx := post;
  }

  /** Writes tag and value of a varint field so that it ends just before `offset`. */
  method PutVarint(dAtA: array<byte>, offset: nat, tag: byte, v: uint64) returns (i: nat)
    requires 1 + |EncodeVarint(v)| <= offset <= dAtA.Length
    modifies dAtA
    ensures Written(old(dAtA[..]), dAtA[..], i, offset, [tag] + EncodeVarint(v))
  {
    i := EncodeVarintAt(dAtA, offset, v);
    ghost var mid := dAtA[..];
    i := i - 1;
    dAtA[i] := tag;
    WrittenThen(old(dAtA[..]), mid, dAtA[..], i, i + 1, offset, [tag], EncodeVarint(v));
  }

  /** Writes tag, length and payload of a length-delimited field so that it ends just before `offset`. */
  method PutBytes(dAtA: array<byte>, offset: nat, tag: byte, payload: seq<byte>) returns (i: nat)
    requires |payload| <= MAX_INT
    requires 1 + |EncodeVarint(|payload|)| + |payload| <= offset <= dAtA.Length
    modifies dAtA
    ensures Written(old(dAtA[..]), dAtA[..], i, offset, [tag] + EncodeVarint(|payload|) + payload)
  {
    var at := offset - |payload|;
    forall x | 0 <= x < |payload| {
      dAtA[at + x] := payload[x];
    }
    ghost var mid := dAtA[..];
    assert Written(old(dAtA[..]), mid, at, offset, payload);
    i := PutVarint(dAtA, at, tag, |payload|);
    WrittenThen(old(dAtA[..]), mid, dAtA[..], i, at, offset, [tag] + EncodeVarint(|payload|), payload);
  }
}
