/**
 The RESP parser of pkg/protocol/redis.go.  The array loop parses an element and
 then advances by a size recomputed from the parsed value, so it is correct only
 where the parser and the size function agree.
 */
module Resp {
  import opened Bytes

  datatype LineKind = SimpleString | ErrorString | IntegerString

  datatype Value =
    | Line(kind: LineKind, text: seq<byte>)
    | NullBulk
    | Bulk(bytes: seq<byte>)
    | NullArray
    | Array(elems: seq<Value>)

  datatype ParseError =
    | EmptyData
    | IncompleteSimple
    | IncompleteBulkLength
    | InvalidBulkLength
    | IncompleteBulkData
    | IncompleteArrayLength
    | InvalidArrayLength
    | IncompleteArrayElement
    | UnknownType(tag: byte)

  const STAR: byte := 42
  const DOLLAR: byte := 36
  const PLUS: byte := 43
  const MINUS: byte := 45
  const COLON: byte := 58
  const CRLF: seq<byte> := [CR, LF]

  /** The most pointers `make` allocates room for: 2^48 bytes of address space, 8 bytes each. */
  const MAX_CAPACITY := 0x2000_0000_0000

  lemma TagsSpelt()
    ensures Ascii("*$+-:") == [STAR, DOLLAR, PLUS, MINUS, COLON]
  {
  }

  function Tag(kind: LineKind): byte
  {
    match kind
    case SimpleString => PLUS
    case ErrorString => MINUS
    case IntegerString => COLON
  }

  // ---------------------------------------------------------------------------
  // strings.Index(s, "\r\n")
  // ---------------------------------------------------------------------------

  predicate CrlfAt(s: seq<byte>, i: int)
  {
    0 <= i && i + 1 < |s| && s[i] == CR && s[i + 1] == LF
  }

  predicate NoCrlf(s: seq<byte>)
  {
    forall i :: 0 <= i < |s| ==> !CrlfAt(s, i)
  }

  /** The first position at or after `from` where CRLF starts, or -1. */
  function IndexCrlf(s: seq<byte>, from: nat := 0): (i: int)
    ensures i == -1 || from <= i < |s| - 1
    decreases |s| - from
  {
    if from >= |s| then -1
    else if CrlfAt(s, from) then from
    else IndexCrlf(s, from + 1)
  }

  lemma {:induction false} IndexCrlfIsFirst(s: seq<byte>, from: nat)
    ensures var i := IndexCrlf(s, from);
            && (i == -1 || CrlfAt(s, i))
            && (forall k :: from <= k < (if i == -1 then |s| else i) ==> !CrlfAt(s, k))
    decreases |s| - from
  {
    if from < |s| && !CrlfAt(s, from) { IndexCrlfIsFirst(s, from + 1); }
  }

  /** A line without CRLF is found whole, whatever follows its terminator. */
  lemma IndexOfLine(text: seq<byte>, rest: seq<byte>)
    requires NoCrlf(text)
    ensures IndexCrlf(text + CRLF + rest) == |text|
  {
    var s := text + CRLF + rest;
    IndexCrlfIsFirst(s, 0);
    assert CrlfAt(s, |text|);
    forall k | 0 <= k < |text| ensures !CrlfAt(s, k) {
      assert !CrlfAt(text, k);
    }
  }

  // ---------------------------------------------------------------------------
  // strconv.Atoi and fmt.Sprintf("%d")
  // ---------------------------------------------------------------------------

  predicate IsDigit(b: byte) { 48 <= b <= 57 }

  predicate AllDigits(s: seq<byte>)
  {
    forall i :: 0 <= i < |s| ==> IsDigit(s[i])
  }

  function DigitsValue(s: seq<byte>): (n: nat)
    requires AllDigits(s)
  {
    if s == [] then 0
    else 10 * DigitsValue(s[..|s| - 1]) + (s[|s| - 1] - 48)
  }

  function Atoi(s: seq<byte>): (r: Option<int>)
    ensures r.Some? ==> s != [] && -TWO_63 <= r.value <= MAX_INT
  {
    if s == [] then None
    else
      var digits := if s[0] == MINUS || s[0] == PLUS then s[1..] else s;
      if digits == [] || !AllDigits(digits) then None
      else
        var n: int := DigitsValue(digits);
        var v := if s[0] == MINUS then -n else n;
        if -TWO_63 <= v <= MAX_INT then Some(v) else None
  }

  function Decimal(n: nat): (s: seq<byte>)
    ensures |s| >= 1
  {
    if n < 10 then [48 + n] else Decimal(n / 10) + [48 + n % 10]
  }

  lemma {:induction false} DigitsOfDecimal(n: nat)
    ensures AllDigits(Decimal(n)) && DigitsValue(Decimal(n)) == n
  {
    var s := Decimal(n);
    if n < 10 {
      assert s[..|s| - 1] == [];
    } else {
      assert s[..|s| - 1] == Decimal(n / 10);
      DigitsOfDecimal(n / 10);
    }
  }

  /** Printing and re-reading a length is the identity on Go's ints. */
  lemma AtoiOfDecimal(n: nat)
    requires n <= MAX_INT
    ensures Atoi(Decimal(n)) == Some(n) && NoCrlf(Decimal(n))
  {
    DigitsOfDecimal(n);
    assert IsDigit(Decimal(n)[0]);
  }

  lemma DecimalMonotone(m: nat, n: nat)
    requires m <= n
    ensures |Decimal(m)| <= |Decimal(n)|
  {
  }

  lemma {:induction false} DecimalNoLonger(s: seq<byte>)
    requires s != [] && AllDigits(s)
    ensures |Decimal(DigitsValue(s))| <= |s|
  {
    if |s| == 1 {
      assert s[..0] == [];
    } else {
      var front := s[..|s| - 1];
      DecimalNoLonger(front);
      assert DigitsValue(s) == 10 * DigitsValue(front) + (s[|s| - 1] - 48);
      assert IsDigit(s[|s| - 1]);
      assert DigitsValue(s) / 10 == DigitsValue(front);
    }
  }

  /** Signs and leading zeros only lengthen a number. */
  lemma AtoiNoShorter(s: seq<byte>)
    requires Atoi(s).Some? && Atoi(s).value >= 0
    ensures |Decimal(Atoi(s).value)| <= |s|
  {
    var digits := if s[0] == MINUS || s[0] == PLUS then s[1..] else s;
    DecimalNoLonger(digits);
    DecimalMonotone(Atoi(s).value, DigitsValue(digits));
  }

  // ---------------------------------------------------------------------------
  // ParseRedisPacket and calculateRESPSize
  // ---------------------------------------------------------------------------

  /** The byte count that the array loop advances by; a null counts for 4. */
  function Size(v: Value): (n: nat)
  {
    match v
    case Line(_, text) => 1 + |text| + 2
    case NullBulk => 4
    case Bulk(bytes) => 1 + |Decimal(|bytes|)| + 2 + |bytes| + 2
    case NullArray => 4
    case Array(elems) => 1 + |Decimal(|elems|)| + 2 + SizeAll(elems)
  }

  function SizeAll(vs: seq<Value>): (n: nat)
  {
    if vs == [] then 0 else Size(vs[0]) + SizeAll(vs[1..])
  }

  function ParseLine(kind: LineKind, data: seq<byte>): (r: Outcome<Value, ParseError>)
    requires data != []
  {
    var end := IndexCrlf(data[1..]);
    if end == -1 then Fail(IncompleteSimple) else Ok(Line(kind, data[1..1 + end]))
  }

  /** The bulk string of a declared length from `offset` on, with the arithmetic of an int. */
  function SliceBulk(data: seq<byte>, offset: nat, length: int): (r: Outcome<Value, ParseError>)
  {
    var high := AddInt64(offset, length);
    if length == -1 then Ok(NullBulk)
    else if AddInt64(high, 2) > |data| then Fail(IncompleteBulkData)
    else if offset <= high <= |data| then Ok(Bulk(data[offset..high]))
    else Panic
  }

  function ParseBulk(data: seq<byte>): (r: Outcome<Value, ParseError>)
    requires data != []
  {
    var end := IndexCrlf(data[1..]);
    if end == -1 then Fail(IncompleteBulkLength)
    else
      match Atoi(data[1..1 + end])
      case None => Fail(InvalidBulkLength)
      case Some(length) => SliceBulk(data, 1 + end + 2, length)
  }

  function ParseScalar(data: seq<byte>): (r: Outcome<Value, ParseError>)
  {
    if data == [] then Fail(EmptyData)
    else if data[0] == PLUS then ParseLine(SimpleString, data)
    else if data[0] == MINUS then ParseLine(ErrorString, data)
    else if data[0] == COLON then ParseLine(IntegerString, data)
    else if data[0] == DOLLAR then ParseBulk(data)
    else Fail(UnknownType(data[0]))
  }

  /** Where the elements of an array start and how many there are, -1 for a null array;
      `make` panics on a capacity that is negative or too large. */
  function ArrayHeader(data: seq<byte>): (r: Outcome<(nat, int), ParseError>)
    requires data != []
    ensures r.Ok? ==> r.value.0 > 0 && -1 <= r.value.1 <= MAX_CAPACITY
  {
    var end := IndexCrlf(data[1..]);
    if end == -1 then Fail(IncompleteArrayLength)
    else
      match Atoi(data[1..1 + end])
      case None => Fail(InvalidArrayLength)
      case Some(length) => if length < -1 || length > MAX_CAPACITY then Panic else Ok((1 + end + 2, length))
  }

  function Parse(data: seq<byte>): (r: Outcome<Value, ParseError>)
    decreases |data|, 1, 0
  {
    if data == [] || data[0] != STAR then ParseScalar(data)
    else
      match ArrayHeader(data)
      case Fail(e) => Fail(e)
      case Panic => Panic
      case Ok((offset, count)) => if count == -1 then Ok(NullArray) else ParseElems(data, offset, count, [])
  }

  /** The array loop with `count` elements still to read and `done` already read. */
  function ParseElems(data: seq<byte>, offset: nat, count: nat, done: seq<Value>): (r: Outcome<Value, ParseError>)
    requires offset > 0
    decreases |data|, 0, count
  {
    if count == 0 then Ok(Array(done))
    else if offset >= |data| then Fail(IncompleteArrayElement)
    else
      match Parse(data[offset..])
      case Fail(e) => Fail(e)
      case Panic => Panic
      case Ok(elem) => ParseElems(data, offset + Size(elem), count - 1, done + [elem])
  }

  method CalculateRespSize(v: Value) returns (size: nat)
    ensures size == Size(v)
    decreases v
  {
    match v
    case Line(_, text) => size := 1 + |text| + 2;
    case NullBulk => size := 4;
    case Bulk(bytes) => size := 1 + |Decimal(|bytes|)| + 2 + |bytes| + 2;
    case NullArray => size := 4;
    case Array(elems) =>
      size := 1 + |Decimal(|elems|)| + 2;
      for i := 0 to |elems|
        invariant size + SizeAll(elems[i..]) == Size(v)
      {
        var n := CalculateRespSize(elems[i]);
        size := size + n;
      }
  }

  method ParseRedisPacket(data: seq<byte>) returns (r: Outcome<Value, ParseError>)
    requires |data| <= MAX_LEN
    ensures r == Parse(data)
    ensures r.Ok? ==> WellFormed(r.value) && 3 <= Size(r.value) <= |data|
    decreases |data|, 1
  {
    ParseBounds(data);
    if data == [] || data[0] != STAR { return ParseScalar(data); }
    var header := ArrayHeader(data);
    if header.Fail? { return Fail(header.error); }
    if header.Panic? { return Panic; }
    if header.value.1 == -1 { return Ok(NullArray); }
    r := ParseArrayElements(data, header.value.0, header.value.1);
  }

  /** The array loop of ParseRedisPacket. */
  method ParseArrayElements(data: seq<byte>, start: nat, length: nat) returns (r: Outcome<Value, ParseError>)
    requires |data| <= MAX_LEN && 0 < start
    ensures r == ParseElems(data, start, length, [])
    decreases |data|, 0
  {
    hide Parse, Size, WellFormed;
    var offset, elements := start, [];
    for i := 0 to length
      invariant 0 < offset
      invariant ParseElems(data, offset, length - i, elements) == ParseElems(data, start, length, [])
    {
      if offset >= |data| { return Fail(IncompleteArrayElement); }
      var elem := ParseRedisPacket(data[offset..]);
      if !elem.Ok? { return elem; }
      elements := elements + [elem.value];
      var size := CalculateRespSize(elem.value);
      offset := offset + size;
    }
    r := Ok(Array(elements));
  }

  // ---------------------------------------------------------------------------
  // Arbitrary bytes: the loop always advances and never leaves the buffer
  // ---------------------------------------------------------------------------

  /** Values whose line texts can be told apart from their terminator and whose arrays `make` can
      allocate. */
  predicate WellFormed(v: Value)
  {
    match v
    case Line(_, text) => NoCrlf(text)
    case Array(elems) => |elems| <= MAX_CAPACITY && forall i :: 0 <= i < |elems| ==> WellFormed(elems[i])
    case _ => true
  }

  lemma {:induction false} SizeAllAppend(vs: seq<Value>, v: Value)
    ensures SizeAll(vs + [v]) == SizeAll(vs) + Size(v)
  {
    if vs == [] {
      assert vs + [v] == [v] && [v][1..] == [];
    } else {
      SizeAllAppend(vs[1..], v);
      assert (vs + [v])[1..] == vs[1..] + [v];
    }
  }

  lemma LineBounds(kind: LineKind, data: seq<byte>)
    requires data != [] && ParseLine(kind, data).Ok?
    ensures WellFormed(ParseLine(kind, data).value)
    ensures 3 <= Size(ParseLine(kind, data).value) <= |data|
  {
    var tail := data[1..];
    var end := IndexCrlf(tail);
    IndexCrlfIsFirst(tail, 0);
    var text := data[1..1 + end];
    forall i | 0 <= i < |text| ensures !CrlfAt(text, i) {
      assert !CrlfAt(tail, i);
    }
  }

  lemma BulkBounds(data: seq<byte>)
    requires data != [] && |data| <= MAX_LEN && ParseBulk(data).Ok?
    ensures WellFormed(ParseBulk(data).value) && 3 <= Size(ParseBulk(data).value) <= |data|
  {
    var tail := data[1..];
    var end := IndexCrlf(tail);
    var length := Atoi(data[1..1 + end]).value;
    if length == -1 {
      assert end >= 2;
    } else {
      assert length >= 0;
      AtoiNoShorter(data[1..1 + end]);
      assert |ParseBulk(data).value.bytes| == length;
    }
  }

  /** Every accepted value is well formed and accounts for 3 to `|data|` bytes. */
  lemma {:induction false} ParseBounds(data: seq<byte>)
    requires |data| <= MAX_LEN
    ensures Parse(data).Ok? ==> WellFormed(Parse(data).value) && 3 <= Size(Parse(data).value) <= |data|
    decreases |data|, 1, 0
  {
    if !Parse(data).Ok? {
    } else if data == [] || data[0] != STAR {
      ScalarBounds(data);
      hide ParseScalar;
    } else {
      HeaderBounds(data);
      hide ArrayHeader;
      var (offset, count) := ArrayHeader(data).value;
      if count >= 0 { ElemsBounds(data, offset, count, []); }
    }
  }

  lemma ScalarBounds(data: seq<byte>)
    requires |data| <= MAX_LEN && ParseScalar(data).Ok?
    ensures WellFormed(ParseScalar(data).value) && 3 <= Size(ParseScalar(data).value) <= |data|
  {
    hide ParseLine, ParseBulk;
    if data[0] == PLUS {
      LineBounds(SimpleString, data);
    } else if data[0] == MINUS {
      LineBounds(ErrorString, data);
    } else if data[0] == COLON {
      LineBounds(IntegerString, data);
    } else {
      BulkBounds(data);
    }
  }

  /** An array header is no shorter than its canonical form. */
  lemma HeaderBounds(data: seq<byte>)
    requires data != [] && ArrayHeader(data).Ok?
    ensures var (offset, count) := ArrayHeader(data).value;
            offset <= |data| && if count == -1 then |data| >= 5 else 1 + |Decimal(count)| + 2 <= offset
  {
    var end := IndexCrlf(data[1..]);
    if ArrayHeader(data).value.1 == -1 {
      assert end >= 2;
    } else {
      AtoiNoShorter(data[1..1 + end]);
    }
  }

  lemma {:induction false} ElemsBounds(data: seq<byte>, offset: nat, count: nat, done: seq<Value>)
    requires |data| <= MAX_LEN && 0 < offset <= |data|
    requires ParseElems(data, offset, count, done).Ok?
    requires |done| + count <= MAX_CAPACITY && forall i :: 0 <= i < |done| ==> WellFormed(done[i])
    ensures var v := ParseElems(data, offset, count, done).value;
            && v.Array? && WellFormed(v) && |v.elems| == |done| + count
            && offset - SizeAll(done) + SizeAll(v.elems) <= |data|
    decreases |data|, 0, count
  {
    hide Parse;
    if count > 0 {
      ParseBounds(data[offset..]);
      var elem := Parse(data[offset..]).value;
      SizeAllAppend(done, elem);
      ElemsBounds(data, offset + Size(elem), count - 1, done + [elem]);
    }
  }

  // ---------------------------------------------------------------------------
  // When the parser panics
  // ---------------------------------------------------------------------------

  /** A header at the start of `d` with a length below -1, one that overflows an int on the way to
      the end of a bulk string, or one for which `make` cannot allocate an array. */
  predicate BadHeader(d: seq<byte>)
  {
    && d != [] && (d[0] == DOLLAR || d[0] == STAR)
    && var end := IndexCrlf(d[1..]);
    && end != -1
    && var length := Atoi(d[1..1 + end]);
    && length.Some?
    && (|| length.value < -1
        || (d[0] == DOLLAR && 1 + end + 2 + length.value + 2 > MAX_INT)
        || (d[0] == STAR && length.value > MAX_CAPACITY))
  }

  /** The parser comes upon a bad header: here, or in an element behind elements that parse. */
  predicate ReachesBad(data: seq<byte>)
    decreases |data|, 1, 0
  {
    BadHeader(data) ||
    (data != [] && data[0] == STAR && ArrayHeader(data).Ok? && ArrayHeader(data).value.1 > 0
     && ReachesBadElem(data, ArrayHeader(data).value.0, ArrayHeader(data).value.1))
  }

  predicate ReachesBadElem(data: seq<byte>, offset: nat, count: nat)
    requires offset > 0
    decreases |data|, 0, count
  {
    && count > 0 && offset < |data|
    && (ReachesBad(data[offset..]) ||
        (Parse(data[offset..]).Ok? && ReachesBadElem(data, offset + Size(Parse(data[offset..]).value), count - 1)))
  }

  lemma ScalarPanicsIff(data: seq<byte>)
    requires |data| <= MAX_LEN && (data == [] || data[0] != STAR)
    ensures ParseScalar(data).Panic? <==> BadHeader(data)
  {
  }

  lemma HeaderPanicsIff(data: seq<byte>)
    requires data != [] && data[0] == STAR
    ensures ArrayHeader(data).Panic? <==> BadHeader(data)
  {
  }

  /** The parser panics exactly on the bytes on which it comes upon a bad header. */
  lemma {:induction false} ParsePanicsIff(data: seq<byte>)
    requires |data| <= MAX_LEN
    ensures Parse(data).Panic? <==> ReachesBad(data)
    decreases |data|, 1, 0
  {
    if data == [] || data[0] != STAR {
      ScalarPanicsIff(data);
      hide ParseScalar, BadHeader;
    } else {
      HeaderPanicsIff(data);
      hide ArrayHeader, BadHeader;
      if ArrayHeader(data).Ok? && ArrayHeader(data).value.1 >= 0 {
        ElemsPanicIff(data, ArrayHeader(data).value.0, ArrayHeader(data).value.1, []);
      }
    }
  }

  lemma {:induction false} ElemsPanicIff(data: seq<byte>, offset: nat, count: nat, done: seq<Value>)
    requires |data| <= MAX_LEN && 0 < offset
    ensures ParseElems(data, offset, count, done).Panic? <==> ReachesBadElem(data, offset, count)
    decreases |data|, 0, count
  {
    hide Parse, ReachesBad;
    if count > 0 && offset < |data| {
      ParsePanicsIff(data[offset..]);
      if Parse(data[offset..]).Ok? {
        var elem := Parse(data[offset..]).value;
        ElemsPanicIff(data, offset + Size(elem), count - 1, done + [elem]);
      }
    }
  }

  lemma {:induction false} ReachedHeader(data: seq<byte>)
    requires ReachesBad(data)
    ensures exists i :: 0 <= i < |data| && BadHeader(data[i..])
    decreases |data|, 1, 0
  {
    hide BadHeader, ArrayHeader;
    if BadHeader(data) {
      BadHeaderNonEmpty(data);
    } else {
      BadElemHasHeader(data, ArrayHeader(data).value.0, ArrayHeader(data).value.1);
    }
  }

  /** So without a bad header at any position it never panics. */
  lemma PanicNeedsBadHeader(data: seq<byte>)
    requires |data| <= MAX_LEN && Parse(data).Panic?
    ensures exists i :: 0 <= i < |data| && BadHeader(data[i..])
  {
    hide Parse, ReachesBad, BadHeader;
    ParsePanicsIff(data);
    ReachedHeader(data);
  }

  /** A packet that starts with one does panic. */
  lemma BadHeaderPanics(data: seq<byte>)
    requires |data| <= MAX_LEN && BadHeader(data)
    ensures Parse(data).Panic?
  {
    hide Parse, BadHeader;
    ParsePanicsIff(data);
  }

  lemma BadHeaderNonEmpty(data: seq<byte>)
    requires BadHeader(data)
    ensures data != [] && data[0..] == data
  {
  }

  lemma {:induction false} BadElemHasHeader(data: seq<byte>, offset: nat, count: nat)
    requires 0 < offset && ReachesBadElem(data, offset, count)
    ensures exists i :: 0 <= i < |data| && BadHeader(data[i..])
    decreases |data|, 0, count
  {
    hide Parse, ReachesBad, BadHeader;
    var rest := data[offset..];
    if ReachesBad(rest) {
      ReachedHeader(rest);
      var i :| 0 <= i < |rest| && BadHeader(rest[i..]);
      assert rest[i..] == data[offset + i..];
    } else {
      BadElemHasHeader(data, offset + Size(Parse(rest).value), count - 1);
    }
  }

  /** An array declaring more elements than `make` can allocate panics, whatever follows. */
  lemma HugeArrayPanics(n: nat, suffix: seq<byte>)
    requires 0x2000_0000_0000 < n <= MAX_INT
    ensures Parse([STAR] + (Decimal(n) + CRLF + suffix)).Panic?
  {
    var data := [STAR] + (Decimal(n) + CRLF + suffix);
    AtoiOfDecimal(n);
    HeaderReadsBack(data, STAR, Decimal(n), suffix);
  }

  // ---------------------------------------------------------------------------
  // Canonical encodings
  // ---------------------------------------------------------------------------

  const NULL_LENGTH: seq<byte> := [MINUS, 49]

  function Encode(v: Value): (s: seq<byte>)
  {
    match v
    case Line(kind, text) => [Tag(kind)] + (text + CRLF)
    case NullBulk => [DOLLAR] + (NULL_LENGTH + CRLF)
    case Bulk(bytes) => [DOLLAR] + (Decimal(|bytes|) + CRLF + (bytes + CRLF))
    case NullArray => [STAR] + (NULL_LENGTH + CRLF)
    case Array(elems) => [STAR] + (Decimal(|elems|) + CRLF + EncodeAll(elems))
  }

  function EncodeAll(vs: seq<Value>): (s: seq<byte>)
  {
    if vs == [] then [] else Encode(vs[0]) + EncodeAll(vs[1..])
  }

  function Nulls(v: Value): (n: nat)
  {
    match v
    case Line(_, _) => 0
    case NullBulk => 1
    case Bulk(_) => 0
    case NullArray => 1
    case Array(elems) => NullsAll(elems)
  }

  function NullsAll(vs: seq<Value>): (n: nat)
  {
    if vs == [] then 0 else Nulls(vs[0]) + NullsAll(vs[1..])
  }

  /** No null, at any depth, is followed by another element. */
  predicate NullsLast(v: Value)
  {
    v.Array? ==> NullsLastAll(v.elems)
  }

  predicate NullsLastAll(vs: seq<Value>)
  {
    vs != [] ==>
      && NullsLast(vs[0])
      && (|vs| > 1 ==> Nulls(vs[0]) == 0)
      && NullsLastAll(vs[1..])
  }

  lemma {:induction false} NullsLastAtMostOne(v: Value)
    ensures NullsLast(v) ==> Nulls(v) <= 1
    ensures Nulls(v) == 0 ==> NullsLast(v)
  {
    if v.Array? { NullsLastAllAtMostOne(v.elems); }
  }

  lemma {:induction false} NullsLastAllAtMostOne(vs: seq<Value>)
    ensures NullsLastAll(vs) ==> NullsAll(vs) <= 1
    ensures NullsAll(vs) == 0 ==> NullsLastAll(vs)
  {
    if vs != [] {
      NullsLastAtMostOne(vs[0]);
      NullsLastAllAtMostOne(vs[1..]);
    }
  }

  /** The size function is exact up to one byte for every null in the tree. */
  lemma {:induction false} SizeLagsByNulls(v: Value)
    ensures Size(v) + Nulls(v) == |Encode(v)|
  {
    if v.Array? { SizeAllLagsByNulls(v.elems); }
  }

  lemma {:induction false} SizeAllLagsByNulls(vs: seq<Value>)
    ensures SizeAll(vs) + NullsAll(vs) == |EncodeAll(vs)|
  {
    if vs != [] {
      SizeLagsByNulls(vs[0]);
      SizeAllLagsByNulls(vs[1..]);
    }
  }

  lemma {:induction false} EncodeEndsInLf(v: Value)
    ensures |Encode(v)| >= 3 && Encode(v)[|Encode(v)| - 1] == LF
  {
    if v.Array? && v.elems != [] { EncodeAllEndsInLf(v.elems); }
  }

  lemma {:induction false} EncodeAllEndsInLf(vs: seq<Value>)
    requires vs != []
    ensures |EncodeAll(vs)| >= 3 && EncodeAll(vs)[|EncodeAll(vs)| - 1] == LF
  {
    EncodeEndsInLf(vs[0]);
    if |vs| > 1 { EncodeAllEndsInLf(vs[1..]); }
  }

  /** How a header line of a canonical encoding reads back. */
  lemma HeaderReadsBack(data: seq<byte>, tag: byte, text: seq<byte>, rest: seq<byte>)
    requires data == [tag] + (text + CRLF + rest) && NoCrlf(text)
    ensures IndexCrlf(data[1..]) == |text|
    ensures data[1..1 + |text|] == text && data[1 + |text| + 2..] == rest
  {
    IndexOfLine(text, rest);
    assert data[1..] == text + CRLF + rest;
  }

  const LAGGED: Outcome<Value, ParseError> := Fail(UnknownType(LF))

  lemma ParseEncodedLine(kind: LineKind, text: seq<byte>, suffix: seq<byte>)
    requires NoCrlf(text)
    ensures Parse(Encode(Line(kind, text)) + suffix) == Ok(Line(kind, text))
  {
    var data := Encode(Line(kind, text)) + suffix;
    HeaderReadsBack(data, Tag(kind), text, suffix);
  }

  lemma ParseEncodedNull(v: Value, suffix: seq<byte>)
    requires v.NullBulk? || v.NullArray?
    ensures Parse(Encode(v) + suffix) == Ok(v)
  {
    NullLengthReadsBack();
    HeaderReadsBack(Encode(v) + suffix, Encode(v)[0], NULL_LENGTH, suffix);
  }

  lemma DecimalSpells(n: nat)
    ensures Spells(Decimal(n), n)
  {
    hide Decimal;
    assert Decimal(n) == Zeros(0) + Decimal(n);
    assert SpellsNat(Decimal(n), n);
    hide SpellsNat;
  }

  lemma EncodedHeader(data: seq<byte>, tag: byte, n: nat, rest: seq<byte>)
    requires data == [tag] + (Decimal(n) + CRLF + rest) && n <= MAX_INT
    ensures Declares(data, tag, Decimal(n), n) && data[|Decimal(n)| + 3..] == rest
  {
    AtoiOfDecimal(n);
    DecimalSpells(n);
    hide Decimal, Atoi, NoCrlf, Spells, IndexCrlf, StartsLine;
    HeaderReadsBack(data, tag, Decimal(n), rest);
    LineIff(data, tag, Decimal(n));
  }

  lemma ParseEncodedBulk(bytes: seq<byte>, suffix: seq<byte>)
    requires |Encode(Bulk(bytes)) + suffix| <= MAX_LEN
    ensures Parse(Encode(Bulk(bytes)) + suffix) == Ok(Bulk(bytes))
  {
    hide Encode, Decimal, ParseBulk, Declares;
    var data, digits := Encode(Bulk(bytes)) + suffix, Decimal(|bytes|);
    EncodedBulkSplit(bytes, suffix);
    EncodedHeader(data, DOLLAR, |bytes|, bytes + (CRLF + suffix));
    DeclaredBulk(data, digits, |bytes|);
    BulkSlice(data, |digits| + 3, bytes, CRLF + suffix);
  }

  lemma EncodedBulkSplit(bytes: seq<byte>, suffix: seq<byte>)
    ensures Encode(Bulk(bytes)) + suffix == [DOLLAR] + (Decimal(|bytes|) + CRLF + (bytes + (CRLF + suffix)))
  {
    hide Decimal;
    var head := Decimal(|bytes|) + CRLF;
    Concat([DOLLAR], head + (bytes + CRLF), suffix);
    Concat(head, bytes + CRLF, suffix);
    Concat(bytes, CRLF, suffix);
  }

  lemma Concat(a: seq<byte>, b: seq<byte>, c: seq<byte>)
    ensures a + b + c == a + (b + c)
  {
  }

  lemma BulkSlice(data: seq<byte>, offset: nat, bytes: seq<byte>, rest: seq<byte>)
    requires offset <= |data| && data[offset..] == bytes + rest
    ensures offset + |bytes| <= |data| && data[offset..offset + |bytes|] == bytes
  {
    assert data[offset..offset + |bytes|] == data[offset..][..|bytes|];
  }

  /** Parsing a canonical encoding, with anything behind it, returns the tree exactly when
      no null is followed by another element; otherwise it stops on a stray LF. */
  lemma {:induction false} ParseEncode(v: Value, suffix: seq<byte>)
    requires WellFormed(v) && |Encode(v) + suffix| <= MAX_LEN
    ensures Parse(Encode(v) + suffix) == if NullsLast(v) then Ok(v) else LAGGED
    decreases v, 1
  {
    hide Parse, Encode;
    match v
    case Line(kind, text) => ParseEncodedLine(kind, text, suffix);
    case NullBulk => ParseEncodedNull(v, suffix);
    case NullArray => ParseEncodedNull(v, suffix);
    case Bulk(bytes) => ParseEncodedBulk(bytes, suffix);
    case Array(elems) => ParseEncodedArray(elems, suffix);
  }

  lemma {:induction false} ParseEncodedArray(elems: seq<Value>, suffix: seq<byte>)
    requires WellFormed(Array(elems)) && |Encode(Array(elems)) + suffix| <= MAX_LEN
    ensures Parse(Encode(Array(elems)) + suffix) == if NullsLastAll(elems) then Ok(Array(elems)) else LAGGED
    decreases elems, 1
  {
    var data, digits := Encode(Array(elems)) + suffix, Decimal(|elems|);
    assert data == [STAR] + (digits + CRLF + (EncodeAll(elems) + suffix));
    hide Encode, Decimal, ArrayHeader, Declares, ParseElems, NullsLastAll;
    EncodedHeader(data, STAR, |elems|, EncodeAll(elems) + suffix);
    HeaderIff(data, digits, |elems|);
    ParseEncodeAll(data, |digits| + 3, elems, suffix, []);
    assert [] + elems == elems;
  }

  lemma {:induction false} ParseEncodeAll(data: seq<byte>, offset: nat, vs: seq<Value>, suffix: seq<byte>,
                                          done: seq<Value>)
    requires |data| <= MAX_LEN && 0 < offset <= |data|
    requires data[offset..] == EncodeAll(vs) + suffix
    requires forall i :: 0 <= i < |vs| ==> WellFormed(vs[i])
    ensures ParseElems(data, offset, |vs|, done) == if NullsLastAll(vs) then Ok(Array(done + vs)) else LAGGED
    decreases vs, 0
  {
    hide Parse;
    if vs == [] {
      assert done + vs == done;
    } else {
      var v, rest := vs[0], EncodeAll(vs[1..]) + suffix;
      SplitAt(data, offset, Encode(v), rest);
      EncodeEndsInLf(v);
      ParseEncode(v, rest);
      if NullsLast(v) {
        NullsLastAtMostOne(v);
        if Nulls(v) == 0 {
          SizeLagsByNulls(v);
          ElemStep(data, offset, |vs|, done, v);
          ParseEncodeAll(data, offset + Size(v), vs[1..], suffix, done + [v]);
          assert done + [v] + vs[1..] == done + vs;
        } else {
          LaggingElem(data, offset, vs, rest, done);
        }
      }
    }
  }

  /** An element holding a null is skipped one byte short. */
  lemma LaggingElem(data: seq<byte>, offset: nat, vs: seq<Value>, rest: seq<byte>, done: seq<Value>)
    requires vs != [] && Nulls(vs[0]) == 1
    requires 0 < offset <= |data| && data[offset..] == Encode(vs[0]) + rest
    requires Parse(data[offset..]) == Ok(vs[0])
    ensures ParseElems(data, offset, |vs|, done) == if |vs| == 1 then Ok(Array(done + vs)) else LAGGED
  {
    hide Parse, Encode;
    var v := vs[0];
    EncodeEndsInLf(v);
    SizeLagsByNulls(v);
    SplitAt(data, offset, Encode(v), rest);
    ElemStep(data, offset, |vs|, done, v);
    if |vs| > 1 {
      StrayLf(data, offset + Size(v), |vs| - 1, done + [v]);
    } else {
      assert done + [v] == done + vs;
    }
  }

  lemma SplitAt(data: seq<byte>, offset: nat, front: seq<byte>, rest: seq<byte>)
    requires offset <= |data| && data[offset..] == front + rest
    ensures offset + |front| <= |data| && data[offset + |front|..] == rest
    ensures front != [] ==> data[offset + |front| - 1] == front[|front| - 1]
  {
    assert data[offset + |front|..] == data[offset..][|front|..];
    if front != [] { assert data[offset + |front| - 1] == data[offset..][|front| - 1]; }
  }

  lemma ElemStep(data: seq<byte>, offset: nat, count: nat, done: seq<Value>, elem: Value)
    requires 0 < offset < |data| && count > 0 && Parse(data[offset..]) == Ok(elem)
    ensures ParseElems(data, offset, count, done)
            == ParseElems(data, offset + Size(elem), count - 1, done + [elem])
  {
    hide Parse;
  }

  lemma StrayLf(data: seq<byte>, offset: nat, count: nat, done: seq<Value>)
    requires 0 < offset < |data| && data[offset] == LF && count > 0
    ensures ParseElems(data, offset, count, done) == LAGGED
  {
    StartsWithLf(data[offset..]);
  }

  lemma StartsWithLf(data: seq<byte>)
    requires data != [] && data[0] == LF
    ensures Parse(data) == LAGGED
  {
  }

  lemma NullLengthReadsBack()
    ensures Atoi(NULL_LENGTH) == Some(-1) && NoCrlf(NULL_LENGTH)
  {
    assert NULL_LENGTH[1..] == [49] && [49][..0] == [];
    assert DigitsValue([49]) == 1;
  }

  /** The round trip that array tiling rests on: null-free trees come back whole and their
      computed size is the length of their encoding. */
  lemma RoundTrip(v: Value, suffix: seq<byte>)
    requires WellFormed(v) && Nulls(v) == 0 && |Encode(v) + suffix| <= MAX_LEN
    ensures Parse(Encode(v) + suffix) == Ok(v) && Size(v) == |Encode(v)|
  {
    NullsLastAtMostOne(v);
    ParseEncode(v, suffix);
    SizeLagsByNulls(v);
  }

  /** A pipelined second value starts where the size function says if and only if
      the first holds no null. */
  lemma PipelinedValues(v: Value, w: Value, suffix: seq<byte>)
    requires WellFormed(v) && WellFormed(w) && NullsLast(v) && NullsLast(w)
    requires |Encode(v) + (Encode(w) + suffix)| <= MAX_LEN
    ensures var data := Encode(v) + (Encode(w) + suffix);
            && Parse(data) == Ok(v)
            && Size(v) <= |data|
            && (Parse(data[Size(v)..]) == Ok(w) <==> Nulls(v) == 0)
  {
    hide Parse, Encode;
    var data := Encode(v) + (Encode(w) + suffix);
    ParseEncode(v, Encode(w) + suffix);
    SizeLagsByNulls(v);
    NullsLastAtMostOne(v);
    EncodeEndsInLf(v);
    SplitAt(data, 0, Encode(v), Encode(w) + suffix);
    if Nulls(v) == 0 {
      ParseEncode(w, suffix);
    } else {
      StartsWithLf(data[Size(v)..]);
    }
  }

  /** A null as the first of two elements is rejected, although RESP allows it. */
  lemma NullThenElementRejected()
    ensures Parse(Encode(Array([NullBulk, Bulk([])]))) == LAGGED
  {
    var v := Array([NullBulk, Bulk([])]);
    assert Encode(v) + [] == Encode(v);
    assert EncodeAll(v.elems) == Encode(NullBulk) + EncodeAll([Bulk([])]);
    assert v.elems[1..] == [Bulk([])] && [Bulk([])][1..] == [];
    assert |Encode(Bulk([]))| == 6;
    assert |Encode(v)| <= MAX_LEN;
    ParseEncode(v, []);
  }

  // ---------------------------------------------------------------------------
  // What the parser accepts and rejects, on arbitrary bytes
  // ---------------------------------------------------------------------------

  function Zeros(k: nat): seq<byte>
  {
    seq(k, _ => 48)
  }

  /** Any number of zeros before the decimal form. */
  predicate SpellsNat(s: seq<byte>, n: nat)
  {
    exists k :: 0 <= k < |s| && s == Zeros(k) + Decimal(n)
  }

  /** The spellings of a number that strconv.Atoi takes: an optional sign, zeros, the number. */
  predicate Spells(s: seq<byte>, n: int)
  {
    || (n >= 0 && SpellsNat(s, n))
    || (n >= 0 && s != [] && s[0] == 43 && SpellsNat(s[1..], n))
    || (n <= 0 && s != [] && s[0] == 45 && SpellsNat(s[1..], -n))
  }

  lemma AppendDigit(front: seq<byte>, d: byte)
    requires AllDigits(front) && IsDigit(d)
    ensures AllDigits(front + [d]) && DigitsValue(front + [d]) == 10 * DigitsValue(front) + (d - 48)
  {
    assert (front + [d])[..|front|] == front;
  }

  lemma {:induction false} ZerosVanish(k: nat)
    ensures AllDigits(Zeros(k)) && DigitsValue(Zeros(k)) == 0
  {
    if k > 0 {
      ZerosVanish(k - 1);
      AppendDigit(Zeros(k - 1), 48);
      assert Zeros(k) == Zeros(k - 1) + [48];
    }
  }

  lemma {:induction false} PaddedValue(k: nat, n: nat)
    ensures AllDigits(Zeros(k) + Decimal(n)) && DigitsValue(Zeros(k) + Decimal(n)) == n
    decreases n
  {
    hide DigitsValue, AllDigits, Zeros;
    if n < 10 {
      ZerosVanish(k);
      AppendDigit(Zeros(k), 48 + n);
    } else {
      PaddedValue(k, n / 10);
      AppendDigit(Zeros(k) + Decimal(n / 10), 48 + n % 10);
      assert Zeros(k) + Decimal(n) == Zeros(k) + Decimal(n / 10) + [48 + n % 10];
    }
  }

  lemma {:induction false} DigitsArePadded(s: seq<byte>)
    requires s != [] && AllDigits(s)
    ensures SpellsNat(s, DigitsValue(s))
  {
    var n, front, last := DigitsValue(s), s[..|s| - 1], s[|s| - 1];
    assert IsDigit(last) && s == front + [last];
    AppendDigit(front, last);
    if |s| == 1 {
      assert DigitsValue([]) == 0;
      assert s == Zeros(0) + Decimal(n);
    } else {
      DigitsArePadded(front);
      var m := DigitsValue(front);
      var k :| 0 <= k < |front| && front == Zeros(k) + Decimal(m);
      hide DigitsValue, AllDigits;
      if m == 0 {
        assert s == Zeros(k + 1) + Decimal(n);
      } else {
        assert n / 10 == m && n % 10 == last - 48;
        assert s == Zeros(k) + Decimal(n);
      }
    }
  }

  lemma DigitsIff(s: seq<byte>, n: nat)
    ensures s != [] && AllDigits(s) && DigitsValue(s) == n <==> SpellsNat(s, n)
  {
    if s != [] && AllDigits(s) { DigitsArePadded(s); }
    if SpellsNat(s, n) {
      var k :| 0 <= k < |s| && s == Zeros(k) + Decimal(n);
      PaddedValue(k, n);
    }
  }

  /** strconv.Atoi reads exactly the spellings of 64-bit numbers. */
  lemma AtoiIff(s: seq<byte>, n: int)
    ensures Atoi(s) == Some(n) <==> Spells(s, n) && -TWO_63 <= n <= MAX_INT
  {
    if s != [] {
      DigitsIff(s, if n >= 0 then n else 0);
      DigitsIff(s[1..], if n >= 0 then n else -n);
      assert AllDigits(s) ==> IsDigit(s[0]);
      hide DigitsValue, SpellsNat;
    }
  }

  lemma SpellsNoShorter(s: seq<byte>, n: int)
    requires Spells(s, n)
    ensures n >= 0 ==> |s| >= |Decimal(n)|
    ensures n < 0 ==> |s| >= 2
  {
  }

  /** The bytes start with the tag, a text and the first CRLF. */
  predicate StartsLine(data: seq<byte>, tag: byte, text: seq<byte>)
  {
    && |data| >= |text| + 3 && data[0] == tag && data[1..1 + |text|] == text
    && data[1 + |text|] == CR && data[2 + |text|] == LF && NoCrlf(text)
  }

  lemma LineIff(data: seq<byte>, tag: byte, text: seq<byte>)
    requires data != [] && data[0] == tag
    ensures IndexCrlf(data[1..]) == |text| && data[1..1 + |text|] == text <==> StartsLine(data, tag, text)
    ensures IndexCrlf(data[1..]) == -1 <==> NoCrlf(data[1..])
  {
    var tail := data[1..];
    var end := IndexCrlf(tail);
    IndexCrlfIsFirst(tail, 0);
    if end == |text| && data[1..1 + |text|] == text {
      forall i | 0 <= i < |text| ensures !CrlfAt(text, i) {
        assert !CrlfAt(tail, i);
      }
    }
    if StartsLine(data, tag, text) {
      assert tail == text + CRLF + data[|text| + 3..];
      IndexOfLine(text, data[|text| + 3..]);
    }
  }

  /** A first line that spells a number. */
  predicate Declares(data: seq<byte>, tag: byte, text: seq<byte>, n: int)
  {
    StartsLine(data, tag, text) && Spells(text, n)
  }

  /** What a value looks like on the wire for this parser: lengths in any spelling, the two bytes
      behind a bulk string not looked at, and elements placed by the size function. */
  ghost predicate Accepted(data: seq<byte>, v: Value)
    decreases v, 1
  {
    match v
    case Line(kind, text) => StartsLine(data, Tag(kind), text)
    case NullBulk => exists text :: Declares(data, DOLLAR, text, -1)
    case Bulk(bytes) =>
      exists text :: Declares(data, DOLLAR, text, |bytes|) && |text| + 3 + |bytes| + 2 <= |data|
                     && data[|text| + 3..|text| + 3 + |bytes|] == bytes
    case NullArray => exists text :: Declares(data, STAR, text, -1)
    case Array(elems) =>
      |elems| <= MAX_CAPACITY
      && exists text :: Declares(data, STAR, text, |elems|) && AcceptedAll(data, |text| + 3, elems)
  }

  ghost predicate AcceptedAll(data: seq<byte>, offset: nat, vs: seq<Value>)
    decreases vs, 0
  {
    vs == [] ||
    (offset < |data| && Accepted(data[offset..], vs[0]) && AcceptedAll(data, offset + Size(vs[0]), vs[1..]))
  }

  /** The text of the first line, when there is one. */
  lemma FirstLine(data: seq<byte>) returns (text: seq<byte>)
    requires data != [] && IndexCrlf(data[1..]) != -1
    ensures StartsLine(data, data[0], text) && text == data[1..1 + IndexCrlf(data[1..])]
    ensures |text| == IndexCrlf(data[1..])
    ensures forall other :: StartsLine(data, data[0], other) ==> other == text
  {
    text := data[1..1 + IndexCrlf(data[1..])];
    LineIff(data, data[0], text);
    forall other | StartsLine(data, data[0], other) ensures other == text {
      LineIff(data, data[0], other);
    }
  }

  lemma LineAcceptedIff(data: seq<byte>, kind: LineKind, v: Value)
    requires data != [] && data[0] == Tag(kind)
    ensures ParseLine(kind, data) == Ok(v) <==> v.Line? && v.kind == kind && StartsLine(data, Tag(kind), v.text)
    ensures ParseLine(kind, data).Fail? ==> NoCrlf(data[1..])
  {
    if v.Line? { LineIff(data, Tag(kind), v.text); }
    LineIff(data, Tag(kind), data[1..]);
    if IndexCrlf(data[1..]) != -1 {
      var text := FirstLine(data);
    }
    hide IndexCrlf;
  }

  lemma NoLineNoText(data: seq<byte>, tag: byte, text: seq<byte>)
    requires StartsLine(data, tag, text)
    ensures data != [] && IndexCrlf(data[1..]) == |text| && text == data[1..1 + |text|]
  {
    LineIff(data, tag, text);
  }

  lemma BulkAcceptedIff(data: seq<byte>, v: Value)
    requires data != [] && data[0] == DOLLAR && |data| <= MAX_LEN
    ensures ParseBulk(data) == Ok(v) <==> (v.NullBulk? || v.Bulk?) && Accepted(data, v)
  {
    hide ParseBulk, Declares;
    if v.NullBulk? && Accepted(data, v) {
      var text :| Declares(data, DOLLAR, text, -1);
      DeclaredBulk(data, text, -1);
    }
    if v.Bulk? && Accepted(data, v) {
      var text :| Declares(data, DOLLAR, text, |v.bytes|) && |text| + 3 + |v.bytes| + 2 <= |data|
                  && data[|text| + 3..|text| + 3 + |v.bytes|] == v.bytes;
      DeclaredBulk(data, text, |v.bytes|);
    }
    if ParseBulk(data) == Ok(v) {
      var text, n := BulkText(data);
      DeclaredBulk(data, text, n);
    }
  }

  lemma BulkText(data: seq<byte>) returns (text: seq<byte>, n: int)
    requires data != [] && data[0] == DOLLAR && ParseBulk(data).Ok?
    ensures Declares(data, DOLLAR, text, n) && -TWO_63 <= n <= MAX_INT
  {
    text := FirstLine(data);
    n := Atoi(text).value;
    AtoiIff(text, n);
    hide IndexCrlf, Atoi, Spells, StartsLine;
  }

  /** What a bulk string with a declared length comes to. */
  lemma DeclaredBulk(data: seq<byte>, text: seq<byte>, n: int)
    requires Declares(data, DOLLAR, text, n) && -TWO_63 <= n <= MAX_INT && |data| <= MAX_LEN
    ensures var offset := |text| + 3;
            && (n == -1 ==> ParseBulk(data) == Ok(NullBulk))
            && (0 <= n && offset + n + 2 <= |data| ==> ParseBulk(data) == Ok(Bulk(data[offset..offset + n])))
            && (0 <= n && |data| < offset + n + 2 <= MAX_INT ==> ParseBulk(data) == Fail(IncompleteBulkData))
            && (n < -1 || offset + n + 2 > MAX_INT ==> ParseBulk(data).Panic?)
  {
    BulkOfLine(data, text, n);
    hide ParseBulk, Declares;
  }

  lemma BulkOfLine(data: seq<byte>, text: seq<byte>, n: int)
    requires Declares(data, DOLLAR, text, n) && -TWO_63 <= n <= MAX_INT
    ensures data != [] && ParseBulk(data) == SliceBulk(data, |text| + 3, n)
  {
    hide IndexCrlf, Atoi, Spells, StartsLine, SliceBulk;
    NoLineNoText(data, DOLLAR, text);
    AtoiIff(text, n);
  }

  lemma ScalarAcceptedIff(data: seq<byte>, v: Value)
    requires |data| <= MAX_LEN && (data == [] || data[0] != STAR)
    ensures ParseScalar(data) == Ok(v) <==> Accepted(data, v)
  {
    hide ParseLine, ParseBulk, Spells, NoCrlf;
    if data != [] {
      if data[0] == DOLLAR { BulkAcceptedIff(data, v); }
      if data[0] == PLUS { LineAcceptedIff(data, SimpleString, v); }
      if data[0] == MINUS { LineAcceptedIff(data, ErrorString, v); }
      if data[0] == COLON { LineAcceptedIff(data, IntegerString, v); }
    }
  }

  /** An array header declares its count, in some spelling, up to what `make` can allocate. */
  lemma HeaderIff(data: seq<byte>, text: seq<byte>, n: int)
    requires data != [] && data[0] == STAR
    ensures ArrayHeader(data) == Ok((|text| + 3, n)) && StartsLine(data, STAR, text)
            <==> Declares(data, STAR, text, n) && -1 <= n <= MAX_CAPACITY
  {
    hide IndexCrlf, Atoi, Spells, NoCrlf;
    if StartsLine(data, STAR, text) {
      NoLineNoText(data, STAR, text);
      AtoiIff(text, n);
    }
  }

  lemma HeaderText(data: seq<byte>) returns (text: seq<byte>)
    requires data != [] && data[0] == STAR && ArrayHeader(data).Ok?
    ensures |text| + 3 == ArrayHeader(data).value.0 && Declares(data, STAR, text, ArrayHeader(data).value.1)
  {
    text := FirstLine(data);
    HeaderIff(data, text, ArrayHeader(data).value.1);
    hide IndexCrlf, Atoi, Spells, NoCrlf;
  }

  lemma {:induction false} ElemsKeepDone(data: seq<byte>, offset: nat, count: nat, done: seq<Value>)
    requires offset > 0 && ParseElems(data, offset, count, done).Ok?
    ensures var v := ParseElems(data, offset, count, done).value;
            v.Array? && done <= v.elems && |v.elems| == |done| + count
    decreases count
  {
    hide Parse;
    if count > 0 {
      var elem := Parse(data[offset..]).value;
      ElemsKeepDone(data, offset + Size(elem), count - 1, done + [elem]);
    }
  }

  /** On every input: the parser returns a value exactly when the bytes are one of its forms. */
  lemma {:induction false} AcceptedIff(data: seq<byte>, v: Value)
    requires |data| <= MAX_LEN
    ensures Parse(data) == Ok(v) <==> Accepted(data, v)
    decreases |data|, 2, 0
  {
    if data == [] || data[0] != STAR {
      ScalarAcceptedIff(data, v);
      hide ParseScalar, Accepted;
    } else {
      ArrayAcceptedIff(data, v);
    }
  }

  lemma {:induction false} ArrayAcceptedIff(data: seq<byte>, v: Value)
    requires |data| <= MAX_LEN && data != [] && data[0] == STAR
    ensures Parse(data) == Ok(v) <==> Accepted(data, v)
    decreases |data|, 1, 0
  {
    hide ArrayHeader, ParseElems, AcceptedAll, Spells, NoCrlf;
    if Parse(data) == Ok(v) {
      var text := HeaderText(data);
      var count := ArrayHeader(data).value.1;
      if count >= 0 {
        ElemsKeepDone(data, |text| + 3, count, []);
        assert [] + v.elems == v.elems;
        ElemsAcceptedIff(data, |text| + 3, [], v.elems);
      }
    }
    if Accepted(data, v) && v.NullArray? {
      var text :| Declares(data, STAR, text, -1);
      HeaderIff(data, text, -1);
    }
    if Accepted(data, v) && v.Array? {
      var text :| Declares(data, STAR, text, |v.elems|) && AcceptedAll(data, |text| + 3, v.elems);
      HeaderIff(data, text, |v.elems|);
      assert [] + v.elems == v.elems;
      ElemsAcceptedIff(data, |text| + 3, [], v.elems);
    }
  }

  lemma {:induction false} ElemsAcceptedIff(data: seq<byte>, offset: nat, done: seq<Value>, vs: seq<Value>)
    requires |data| <= MAX_LEN && offset > 0
    ensures ParseElems(data, offset, |vs|, done) == Ok(Array(done + vs)) <==> AcceptedAll(data, offset, vs)
    decreases |data|, 0, |vs|
  {
    hide Parse, Accepted;
    if vs == [] {
      assert done + vs == done;
    } else if offset < |data| {
      AcceptedIff(data[offset..], vs[0]);
      assert done + [vs[0]] + vs[1..] == done + vs;
      if Parse(data[offset..]).Ok? {
        var elem := Parse(data[offset..]).value;
        if elem == vs[0] {
          ElemsAcceptedIff(data, offset + Size(elem), done + [elem], vs[1..]);
        } else if ParseElems(data, offset, |vs|, done) == Ok(Array(done + vs)) {
          assert (done + [elem])[|done|] == elem && (done + vs)[|done|] == vs[0];
          ElemsKeepDone(data, offset + Size(elem), |vs| - 1, done + [elem]);
        }
      }
    }
  }

  // ---------------------------------------------------------------------------
  // Truncated packets
  // ---------------------------------------------------------------------------

  lemma LineStable(p: seq<byte>, s: seq<byte>, tag: byte, text: seq<byte>)
    requires StartsLine(p, tag, text)
    ensures StartsLine(p + s, tag, text)
  {
  }

  /** More bytes behind an accepted packet change nothing. */
  lemma {:induction false} AcceptedStable(p: seq<byte>, s: seq<byte>, v: Value)
    requires Accepted(p, v)
    ensures Accepted(p + s, v)
    decreases v, 1
  {
    hide StartsLine, Spells;
    match v
    case Line(kind, text) => LineStable(p, s, Tag(kind), text);
    case NullBulk =>
      var text :| Declares(p, DOLLAR, text, -1);
      LineStable(p, s, DOLLAR, text);
      assert Declares(p + s, DOLLAR, text, -1);
    case NullArray =>
      var text :| Declares(p, STAR, text, -1);
      LineStable(p, s, STAR, text);
      assert Declares(p + s, STAR, text, -1);
    case Bulk(bytes) =>
      var text :| Declares(p, DOLLAR, text, |bytes|) && |text| + 3 + |bytes| + 2 <= |p|
                  && p[|text| + 3..|text| + 3 + |bytes|] == bytes;
      LineStable(p, s, DOLLAR, text);
      assert (p + s)[|text| + 3..|text| + 3 + |bytes|] == bytes;
      assert Declares(p + s, DOLLAR, text, |bytes|);
    case Array(elems) =>
      var text :| Declares(p, STAR, text, |elems|) && AcceptedAll(p, |text| + 3, elems);
      LineStable(p, s, STAR, text);
      AcceptedAllStable(p, s, |text| + 3, elems);
      assert Declares(p + s, STAR, text, |elems|);
  }

  lemma {:induction false} AcceptedAllStable(p: seq<byte>, s: seq<byte>, offset: nat, vs: seq<Value>)
    requires AcceptedAll(p, offset, vs)
    ensures AcceptedAll(p + s, offset, vs)
    decreases vs, 0
  {
    hide Accepted;
    if vs != [] {
      AcceptedStable(p[offset..], s, vs[0]);
      assert (p + s)[offset..] == p[offset..] + s;
      AcceptedAllStable(p, s, offset + Size(vs[0]), vs[1..]);
    }
  }

  lemma BadHeaderStable(p: seq<byte>, s: seq<byte>)
    requires BadHeader(p)
    ensures BadHeader(p + s)
  {
    hide Atoi, IndexCrlf, StartsLine;
    var text := FirstLine(p);
    LineStable(p, s, p[0], text);
    NoLineNoText(p + s, p[0], text);
  }

  lemma {:induction false} BadStable(p: seq<byte>, s: seq<byte>)
    requires ReachesBad(p) && |p + s| <= MAX_LEN
    ensures ReachesBad(p + s)
    decreases |p|, 1, 0
  {
    hide BadHeader, ArrayHeader, Spells, StartsLine;
    if BadHeader(p) {
      BadHeaderStable(p, s);
    } else {
      var text := HeaderText(p);
      var count := ArrayHeader(p).value.1;
      HeaderIff(p, text, count);
      LineStable(p, s, STAR, text);
      HeaderIff(p + s, text, count);
      BadElemStable(p, s, |text| + 3, count);
    }
  }

  lemma {:induction false} BadElemStable(p: seq<byte>, s: seq<byte>, offset: nat, count: nat)
    requires offset > 0 && ReachesBadElem(p, offset, count) && |p + s| <= MAX_LEN
    ensures ReachesBadElem(p + s, offset, count)
    decreases |p|, 0, count
  {
    hide Parse, ReachesBad, Accepted;
    assert (p + s)[offset..] == p[offset..] + s;
    if ReachesBad(p[offset..]) {
      BadStable(p[offset..], s);
    } else {
      var elem := Parse(p[offset..]).value;
      OkStable(p[offset..], s, elem);
      BadElemStable(p, s, offset + Size(elem), count - 1);
    }
  }

  lemma OkStable(p: seq<byte>, s: seq<byte>, v: Value)
    requires Parse(p) == Ok(v) && |p + s| <= MAX_LEN
    ensures Parse(p + s) == Ok(v)
  {
    hide Parse, Accepted;
    AcceptedIff(p, v);
    AcceptedStable(p, s, v);
    AcceptedIff(p + s, v);
  }

  /** A packet that parses or panics does the same with more bytes behind it: only an error can be
      cured by reading on. */
  lemma ParseStable(p: seq<byte>, s: seq<byte>)
    requires !Parse(p).Fail? && |p + s| <= MAX_LEN
    ensures Parse(p + s) == Parse(p)
  {
    hide Parse, ReachesBad;
    if Parse(p).Ok? {
      OkStable(p, s, Parse(p).value);
    } else {
      ParsePanicsIff(p);
      BadStable(p, s);
      ParsePanicsIff(p + s);
    }
  }

  /** Whatever the spelling, an accepted packet is at least as long as the encoding of its value. */
  lemma {:induction false} AcceptedNoShorter(data: seq<byte>, v: Value)
    requires Accepted(data, v) && NullsLast(v)
    ensures |data| >= |Encode(v)|
    decreases v, 1
  {
    hide Spells;
    match v
    case Line(kind, text) =>
    case NullBulk =>
      var text :| Declares(data, DOLLAR, text, -1);
      SpellsNoShorter(text, -1);
    case NullArray =>
      var text :| Declares(data, STAR, text, -1);
      SpellsNoShorter(text, -1);
    case Bulk(bytes) =>
      var text :| Declares(data, DOLLAR, text, |bytes|) && |text| + 3 + |bytes| + 2 <= |data|
                  && data[|text| + 3..|text| + 3 + |bytes|] == bytes;
      SpellsNoShorter(text, |bytes|);
    case Array(elems) =>
      var text :| Declares(data, STAR, text, |elems|) && AcceptedAll(data, |text| + 3, elems);
      SpellsNoShorter(text, |elems|);
      AcceptedAllNoShorter(data, |text| + 3, elems);
  }

  lemma {:induction false} AcceptedAllNoShorter(data: seq<byte>, offset: nat, vs: seq<Value>)
    requires offset <= |data| && AcceptedAll(data, offset, vs) && NullsLastAll(vs)
    ensures |data| >= offset + |EncodeAll(vs)|
    decreases vs, 0
  {
    hide Accepted, Encode;
    if vs != [] {
      AcceptedNoShorter(data[offset..], vs[0]);
      if |vs| > 1 {
        SizeLagsByNulls(vs[0]);
        AcceptedAllNoShorter(data, offset + Size(vs[0]), vs[1..]);
      } else {
        assert EncodeAll(vs[1..]) == [];
      }
    }
  }

  /** Every proper prefix of every encoding is rejected. */
  lemma TruncatedFails(v: Value, k: nat)
    requires WellFormed(v) && k < |Encode(v)| <= MAX_LEN
    ensures Parse(Encode(v)[..k]).Fail?
  {
    hide Parse, Encode, Accepted;
    var whole := Encode(v);
    var p, s := whole[..k], whole[k..];
    assert p + s == whole && whole + [] == whole;
    ParseEncode(v, []);
    if !Parse(p).Fail? {
      ParseStable(p, s);
      AcceptedIff(p, v);
      AcceptedNoShorter(p, v);
      assert false;
    }
  }

  // ---------------------------------------------------------------------------
  // Which error is reported
  // ---------------------------------------------------------------------------

  /** The line behind the tag is missing, or spells no 64-bit number. */
  ghost predicate BadLength(data: seq<byte>, e: ParseError, incomplete: ParseError, invalid: ParseError)
    requires data != []
  {
    || (NoCrlf(data[1..]) && e == incomplete)
    || (e == invalid && exists text :: StartsLine(data, data[0], text) && SpellsNothing(text))
  }

  ghost predicate SpellsNothing(text: seq<byte>)
  {
    forall n :: -TWO_63 <= n <= MAX_INT ==> !Spells(text, n)
  }

  /** A bulk string declared with `n` bytes that are not all there. */
  predicate CutShort(data: seq<byte>, text: seq<byte>, n: int)
  {
    Declares(data, DOLLAR, text, n) && n >= 0 && |data| < |text| + 3 + n + 2 <= MAX_INT
  }

  /** The first thing that is wrong with the bytes. */
  ghost predicate Rejected(data: seq<byte>, e: ParseError)
    decreases |data|, 2
  {
    if data == [] then e == EmptyData
    else if data[0] in {PLUS, MINUS, COLON} then NoCrlf(data[1..]) && e == IncompleteSimple
    else if data[0] == DOLLAR then
      || BadLength(data, e, IncompleteBulkLength, InvalidBulkLength)
      || (e == IncompleteBulkData && exists text, n :: CutShort(data, text, n))
    else if data[0] == STAR then
      || BadLength(data, e, IncompleteArrayLength, InvalidArrayLength)
      || exists text, n :: Declares(data, STAR, text, n) && n <= MAX_CAPACITY && ElemRejected(data, |text| + 3, n, e)
    else e == UnknownType(data[0])
  }

  /** Behind fewer than `count` elements that are accepted, one is missing or rejected. */
  ghost predicate ElemRejected(data: seq<byte>, offset: nat, count: int, e: ParseError)
    requires offset > 0
    decreases |data|, 1
  {
    exists vs :: |vs| < count && AcceptedAll(data, offset, vs) && StopsAt(data, offset + SizeAll(vs), e)
  }

  ghost predicate StopsAt(data: seq<byte>, next: nat, e: ParseError)
    requires next > 0
    decreases |data|, 0
  {
    if next >= |data| then e == IncompleteArrayElement else Rejected(data[next..], e)
  }

  lemma BadLengthIff(data: seq<byte>, e: ParseError, incomplete: ParseError, invalid: ParseError)
    requires data != []
    ensures BadLength(data, e, incomplete, invalid) <==>
              || (IndexCrlf(data[1..]) == -1 && e == incomplete)
              || (IndexCrlf(data[1..]) != -1 && e == invalid && Atoi(data[1..1 + IndexCrlf(data[1..])]).None?)
  {
    hide IndexCrlf, BadLength;
    if IndexCrlf(data[1..]) != -1 {
      BadLengthOfLine(data, e, incomplete, invalid);
    } else {
      LineIff(data, data[0], []);
      NoLine(data);
      BadLengthMissing(data, e, incomplete, invalid);
    }
  }

  lemma BadLengthMissing(data: seq<byte>, e: ParseError, incomplete: ParseError, invalid: ParseError)
    requires data != [] && NoCrlf(data[1..]) && forall text :: !StartsLine(data, data[0], text)
    ensures BadLength(data, e, incomplete, invalid) <==> e == incomplete
  {
    hide NoCrlf, StartsLine, SpellsNothing;
  }

  lemma BadLengthOfLine(data: seq<byte>, e: ParseError, incomplete: ParseError, invalid: ParseError)
    requires data != [] && IndexCrlf(data[1..]) != -1
    ensures BadLength(data, e, incomplete, invalid)
            <==> e == invalid && Atoi(data[1..1 + IndexCrlf(data[1..])]).None?
  {
    hide IndexCrlf, Atoi, SpellsNothing, NoCrlf, StartsLine;
    LineIff(data, data[0], []);
    var text := FirstLine(data);
    NothingSpelt(text);
  }

  lemma NoLine(data: seq<byte>)
    requires data != [] && IndexCrlf(data[1..]) == -1
    ensures forall text :: !StartsLine(data, data[0], text)
  {
    hide IndexCrlf, StartsLine;
    forall text ensures !StartsLine(data, data[0], text) {
      if StartsLine(data, data[0], text) { NoLineNoText(data, data[0], text); }
    }
  }

  lemma NothingSpelt(text: seq<byte>)
    ensures SpellsNothing(text) <==> Atoi(text).None?
  {
    hide Atoi, Spells;
    if Atoi(text).Some? { AtoiIff(text, Atoi(text).value); }
    forall n | -TWO_63 <= n <= MAX_INT && Spells(text, n) ensures Atoi(text).Some? {
      AtoiIff(text, n);
    }
  }

  lemma BulkRejectedIff(data: seq<byte>, e: ParseError)
    requires data != [] && data[0] == DOLLAR && |data| <= MAX_LEN
    ensures ParseBulk(data) == Fail(e) <==> Rejected(data, e)
  {
    hide IndexCrlf, Atoi, Spells, NoCrlf, BadLength;
    BadLengthIff(data, e, IncompleteBulkLength, InvalidBulkLength);
    if exists text, n :: CutShort(data, text, n) {
      var text, n :| CutShort(data, text, n);
      DeclaredBulk(data, text, n);
    }
    if ParseBulk(data) == Fail(IncompleteBulkData) {
      var text := FirstLine(data);
      AtoiIff(text, Atoi(text).value);
      DeclaredBulk(data, text, Atoi(text).value);
      assert CutShort(data, text, Atoi(text).value);
    }
  }

  lemma LineRejectedIff(data: seq<byte>, kind: LineKind, e: ParseError)
    requires data != [] && data[0] == Tag(kind)
    ensures ParseLine(kind, data) == Fail(e) <==> Rejected(data, e)
  {
    LineIff(data, Tag(kind), []);
    hide IndexCrlf, NoCrlf;
  }

  lemma ScalarRejectedIff(data: seq<byte>, e: ParseError)
    requires |data| <= MAX_LEN && (data == [] || data[0] != STAR)
    ensures ParseScalar(data) == Fail(e) <==> Rejected(data, e)
  {
    hide ParseLine, ParseBulk, NoCrlf, BadLength;
    if data != [] {
      if data[0] == DOLLAR { BulkRejectedIff(data, e); }
      if data[0] == PLUS { LineRejectedIff(data, SimpleString, e); }
      if data[0] == MINUS { LineRejectedIff(data, ErrorString, e); }
      if data[0] == COLON { LineRejectedIff(data, IntegerString, e); }
    }
  }

  /** On every input: the parser reports an error exactly when it is the first thing wrong. */
  lemma {:induction false} RejectedIff(data: seq<byte>, e: ParseError)
    requires |data| <= MAX_LEN
    ensures Parse(data) == Fail(e) <==> Rejected(data, e)
    decreases |data|, 2, 0
  {
    if data == [] || data[0] != STAR {
      ScalarRejectedIff(data, e);
      hide ParseScalar, Rejected;
    } else {
      ArrayRejectedIff(data, e);
    }
  }

  lemma HeaderFailsIff(data: seq<byte>, e: ParseError)
    requires data != [] && data[0] == STAR
    ensures ArrayHeader(data) == Fail(e) <==> BadLength(data, e, IncompleteArrayLength, InvalidArrayLength)
  {
    BadLengthIff(data, e, IncompleteArrayLength, InvalidArrayLength);
    hide IndexCrlf, Atoi, BadLength;
  }

  lemma {:induction false} ArrayRejectedIff(data: seq<byte>, e: ParseError)
    requires |data| <= MAX_LEN && data != [] && data[0] == STAR
    ensures Parse(data) == Fail(e) <==> Rejected(data, e)
    decreases |data|, 1, 0
  {
    hide ArrayHeader, ParseElems, ElemRejected, BadLength, Spells, NoCrlf, StartsLine;
    HeaderFailsIff(data, e);
    if ArrayHeader(data).Ok? {
      var text := HeaderText(data);
      var count := ArrayHeader(data).value.1;
      if count >= 0 {
        ElemsRejectedIff(data, |text| + 3, count, [], e);
      }
    }
    if exists text, n :: Declares(data, STAR, text, n) && n <= MAX_CAPACITY && ElemRejected(data, |text| + 3, n, e) {
      var text, n :| Declares(data, STAR, text, n) && n <= MAX_CAPACITY && ElemRejected(data, |text| + 3, n, e);
      ElemRejectedCounts(data, |text| + 3, n, e);
      HeaderIff(data, text, n);
    }
  }

  lemma ElemRejectedCounts(data: seq<byte>, offset: nat, count: int, e: ParseError)
    requires offset > 0 && ElemRejected(data, offset, count, e)
    ensures count > 0
  {
  }

  lemma {:induction false} ElemsRejectedIff(data: seq<byte>, offset: nat, count: nat, done: seq<Value>, e: ParseError)
    requires |data| <= MAX_LEN && offset > 0
    ensures ParseElems(data, offset, count, done) == Fail(e) <==> ElemRejected(data, offset, count, e)
    decreases |data|, 0, count
  {
    hide Parse, AcceptedAll, Rejected, ElemRejected, Size;
    if count == 0 {
      NoneLeft(data, offset, e);
    } else {
      if offset < |data| {
        RejectedIff(data[offset..], e);
        if Parse(data[offset..]).Ok? {
          var elem := Parse(data[offset..]).value;
          ElemsRejectedIff(data, offset + Size(elem), count - 1, done + [elem], e);
          FirstElemShifts(data, offset, count, elem, e);
        } else {
          NoFirstElem(data, offset, count, e);
        }
      } else {
        NoFirstElem(data, offset, count, e);
      }
    }
  }

  lemma NoneLeft(data: seq<byte>, offset: nat, e: ParseError)
    requires offset > 0
    ensures !ElemRejected(data, offset, 0, e)
  {
  }

  lemma NoFirstElem(data: seq<byte>, offset: nat, count: nat, e: ParseError)
    requires |data| <= MAX_LEN && offset > 0 && count > 0 && (offset < |data| ==> !Parse(data[offset..]).Ok?)
    ensures ElemRejected(data, offset, count, e) <==> StopsAt(data, offset, e)
  {
    hide Parse, Accepted, StopsAt;
    assert AcceptedAll(data, offset, []) && SizeAll([]) == 0;
    forall vs | vs != [] ensures !AcceptedAll(data, offset, vs) {
      if offset < |data| { AcceptedIff(data[offset..], vs[0]); }
    }
  }

  lemma FirstElemShifts(data: seq<byte>, offset: nat, count: nat, elem: Value, e: ParseError)
    requires |data| <= MAX_LEN && 0 < offset < |data| && count > 0 && Parse(data[offset..]) == Ok(elem)
    requires !StopsAt(data, offset, e)
    ensures ElemRejected(data, offset, count, e) <==> ElemRejected(data, offset + Size(elem), count - 1, e)
  {
    hide Parse, AcceptedAll, StopsAt, Size, SizeAll;
    if ElemRejected(data, offset, count, e) {
      var vs :| |vs| < count && AcceptedAll(data, offset, vs) && StopsAt(data, offset + SizeAll(vs), e);
      NoneTakesNothing(vs);
      DropElem(data, offset, elem, vs);
    }
    if ElemRejected(data, offset + Size(elem), count - 1, e) {
      var vs :| |vs| < count - 1 && AcceptedAll(data, offset + Size(elem), vs)
                && StopsAt(data, offset + Size(elem) + SizeAll(vs), e);
      AddElem(data, offset, elem, vs);
    }
  }

  lemma NoneTakesNothing(vs: seq<Value>)
    ensures vs == [] ==> SizeAll(vs) == 0
  {
  }

  lemma DropElem(data: seq<byte>, offset: nat, elem: Value, vs: seq<Value>)
    requires |data| <= MAX_LEN && 0 < offset < |data| && Parse(data[offset..]) == Ok(elem)
    requires vs != [] && AcceptedAll(data, offset, vs)
    ensures AcceptedAll(data, offset + Size(elem), vs[1..]) && SizeAll(vs) == Size(elem) + SizeAll(vs[1..])
  {
    hide Parse, Accepted;
    AcceptedIff(data[offset..], vs[0]);
  }

  lemma AddElem(data: seq<byte>, offset: nat, elem: Value, vs: seq<Value>)
    requires |data| <= MAX_LEN && 0 < offset < |data| && Parse(data[offset..]) == Ok(elem)
    requires AcceptedAll(data, offset + Size(elem), vs)
    ensures AcceptedAll(data, offset, [elem] + vs) && SizeAll([elem] + vs) == Size(elem) + SizeAll(vs)
  {
    hide Parse, Accepted;
    AcceptedIff(data[offset..], elem);
    assert ([elem] + vs)[1..] == vs;
  }

  // ---------------------------------------------------------------------------
  // ParseRedisCommand
  // ---------------------------------------------------------------------------

  datatype Command = Command(name: seq<byte>, args: seq<seq<byte>>, raw: seq<byte>)

  datatype CommandError = Packet(error: ParseError) | NotArray | InvalidArrayValue | EmptyCommand | InvalidName

  /** The Go string held by a value, if it holds one. */
  function StringOf(v: Value): Option<seq<byte>>
  {
    match v
    case Line(_, text) => Some(text)
    case Bulk(bytes) => Some(bytes)
    case _ => None
  }

  function Strings(vs: seq<Value>): (r: seq<seq<byte>>)
  {
    if vs == [] then []
    else (match StringOf(vs[0]) case Some(s) => [s] case None => []) + Strings(vs[1..])
  }

  lemma {:induction false} StringsAppend(vs: seq<Value>, v: Value)
    ensures Strings(vs + [v]) == Strings(vs) + (match StringOf(v) case Some(s) => [s] case None => [])
  {
    hide StringOf;
    if vs == [] {
      assert vs + [v] == [v] && [v][1..] == [];
    } else {
      StringsAppend(vs[1..], v);
      assert (vs + [v])[1..] == vs[1..] + [v];
    }
  }

  lemma StringOfIff(v: Value, s: seq<byte>)
    ensures StringOf(v) == Some(s) <==> v == Bulk(s) || exists kind :: v == Line(kind, s)
  {
  }

  /** `upper` stands for strings.ToUpper. */
  method ParseRedisCommand(data: seq<byte>, upper: seq<byte> -> seq<byte>)
      returns (r: Outcome<Command, CommandError>)
    requires |data| <= MAX_LEN
    ensures r.Panic? <==> Parse(data).Panic?
    ensures r.Ok? <==> Parse(data).Ok? && Parse(data).value.Array? && Parse(data).value.elems != []
                       && StringOf(Parse(data).value.elems[0]).Some?
    ensures forall e :: Parse(data) == Fail(e) ==> r == Fail(Packet(e))
    ensures Parse(data) == Ok(NullArray) ==> r == Fail(InvalidArrayValue)
    ensures Parse(data) == Ok(Array([])) ==> r == Fail(EmptyCommand)
    ensures r.Fail? && Parse(data).Ok? && !Parse(data).value.NullArray? && !Parse(data).value.Array? ==>
              r.error == NotArray
    ensures r.Fail? && Parse(data).Ok? && Parse(data).value.Array? && Parse(data).value.elems != [] ==>
              r.error == InvalidName
    ensures r.Ok? ==> var elems := Parse(data).value.elems;
                      r.value == Command(upper(StringOf(elems[0]).value), Strings(elems[1..]), data)
  {
    hide Parse, Size, WellFormed;
    var resp := ParseRedisPacket(data);
    if resp.Panic? { return Panic; }
    if resp.Fail? { return Fail(Packet(resp.error)); }
    if resp.value.NullArray? { return Fail(InvalidArrayValue); }
    if !resp.value.Array? { return Fail(NotArray); }
    var elems := resp.value.elems;
    if elems == [] { return Fail(EmptyCommand); }
    var name := StringOf(elems[0]);
    if name.None? { return Fail(InvalidName); }
    var args := [];
    for i := 1 to |elems|
      invariant args == Strings(elems[1..i])
    {
      var arg := StringOf(elems[i]);
      StringsAppend(elems[1..i], elems[i]);
      assert elems[1..i] + [elems[i]] == elems[1..i + 1];
      if arg.Some? { args := args + [arg.value]; }
    }
    assert elems[1..|elems|] == elems[1..];
    r := Ok(Command(upper(name.value), args, data));
  }

  function Bulks(words: seq<seq<byte>>): seq<Value>
  {
    seq(|words|, i requires 0 <= i < |words| => Bulk(words[i]))
  }

  lemma {:induction false} BulksAreStrings(words: seq<seq<byte>>)
    ensures Strings(Bulks(words)) == words && NullsAll(Bulks(words)) == 0
  {
    if words != [] {
      BulksAreStrings(words[1..]);
      assert Bulks(words)[1..] == Bulks(words[1..]);
    }
  }

  /** A client command, an array of bulk strings, comes back with its words in order. */
  method CommandRoundTrip(words: seq<seq<byte>>, suffix: seq<byte>, upper: seq<byte> -> seq<byte>)
      returns (r: Outcome<Command, CommandError>)
    requires words != [] && |words| <= MAX_CAPACITY && |Encode(Array(Bulks(words))) + suffix| <= MAX_LEN
    ensures r == Ok(Command(upper(words[0]), words[1..], Encode(Array(Bulks(words))) + suffix))
  {
    hide Parse, Encode;
    BulksAreStrings(words);
    BulksAreStrings(words[1..]);
    RoundTrip(Array(Bulks(words)), suffix);
    assert Bulks(words)[1..] == Bulks(words[1..]);
    r := ParseRedisCommand(Encode(Array(Bulks(words))) + suffix, upper);
  }
}
