/** Round trips through the RESP parser, and independence from how the network cuts the bytes. */
module RespTheorems {
  import opened Wrappers
  import opened Decimal
  import opened Bytes
  import opened Resp

  // ---- What a server sends ----

  /** A reply on the wire. `*` and `$` each have a null form, and both read back as `Nil`. */
  datatype Wire =
    | SimpleLine(line: string)
    | IntegerLine(n: int)
    | BulkString(bytes: string)
    | NullBulk
    | NullArray
    | ArrayOf(items: seq<Wire>)

  function Header(kind: char, n: int): string {
    [kind] + (IntText(n) + CRLF)
  }

  function Encode(w: Wire): string
    decreases w, 1
  {
    match w
    case SimpleLine(line) => "+" + (line + CRLF)
    case IntegerLine(n) => Header(':', n)
    case BulkString(bytes) => Header('$', |bytes|) + (bytes + CRLF)
    case NullBulk => Header('$', -1)
    case NullArray => Header('*', -1)
    case ArrayOf(items) => Header('*', |items|) + EncodeAll(items)
  }

  function EncodeAll(ws: seq<Wire>): string
    decreases ws, 0
  {
    if ws == [] then "" else Encode(ws[0]) + EncodeAll(ws[1..])
  }

  function ValueOf(w: Wire): Reply
    decreases w, 1
  {
    match w
    case SimpleLine(line) => Text(line)
    case IntegerLine(n) => Integer(n)
    case BulkString(bytes) => Text(bytes)
    case NullBulk | NullArray => Nil
    case ArrayOf(items) => List(ValuesOf(items))
  }

  function ValuesOf(ws: seq<Wire>): (values: seq<Reply>)
    ensures |values| == |ws|
    decreases ws, 0
  {
    if ws == [] then [] else [ValueOf(ws[0])] + ValuesOf(ws[1..])
  }

  /** How many elements the parser counts for it. */
  function Elements(w: Wire): nat
    decreases w, 1
  {
    1 + if w.ArrayOf? then ElementsOf(w.items) else 0
  }

  function ElementsOf(ws: seq<Wire>): nat
    decreases ws, 0
  {
    if ws == [] then 0 else Elements(ws[0]) + ElementsOf(ws[1..])
  }

  predicate NumberFits(n: int, l: Limits) {
    SafeInteger(n) && |IntText(n)| <= l.maxLineBytes
  }

  /** Within every limit except the shared element count. */
  predicate Fits(w: Wire, depth: nat, l: Limits)
    decreases w
  {
    && depth <= l.maxDepth
    && match w
       case SimpleLine(line) => HasNoCrlf(line) && |line| <= l.maxLineBytes
       case IntegerLine(n) => NumberFits(n, l)
       case BulkString(bytes) => NumberFits(|bytes|, l) && |bytes| <= l.maxBulkBytes
       case NullBulk | NullArray => NumberFits(-1, l)
       case ArrayOf(items) =>
         && NumberFits(|items|, l)
         && |items| <= l.maxArrayLength
         && forall x :: x in items ==> Fits(x, depth + 1, l)
  }

  /** The whole response fits: its bytes, its elements, and each reply. */
  predicate StreamFits(ws: seq<Wire>, l: Limits) {
    && |EncodeAll(ws)| <= l.maxResponseBytes
    && ElementsOf(ws) <= l.maxElements
    && forall x :: x in ws ==> Fits(x, 0, l)
  }

  // ---- Reading back what was printed ----

  lemma LineReads(buf: string, offset: nat, line: string, elements: nat, l: Limits)
    requires At(buf, line + CRLF, offset) && HasNoCrlf(line) && |line| <= l.maxLineBytes
    ensures offset <= |buf|
    ensures ReadLine(buf, offset, elements, l) == Done(line, offset + |line| + 2, elements)
  {
    AtSplit(buf, line, CRLF, offset);
    AtCrlf(buf, offset + |line|);
    LineEnd(buf, offset, line);
  }

  lemma IntegerOfText(n: int)
    requires SafeInteger(n)
    ensures IntegerOf(IntText(n)) == Some(n)
  {
    if n < 0 {
      assert IntText(n)[1..] == NatText(-n);
    } else {
      assert IsDigit(NatText(n)[0]);
    }
  }

  lemma HeaderReads(buf: string, offset: nat, kind: char, n: int, elements: nat, l: Limits)
    requires At(buf, Header(kind, n), offset) && NumberFits(n, l)
    ensures offset < |buf| && buf[offset] == kind
    ensures ReadInteger(buf, offset + 1, elements, l) == Done(n, offset + |Header(kind, n)|, elements)
  {
    AtSplit(buf, [kind], IntText(n) + CRLF, offset);
    assert buf[offset..offset + 1][0] == buf[offset];
    DigitsHaveNoCrlf(n);
    LineReads(buf, offset + 1, IntText(n), elements, l);
    IntegerOfText(n);
  }

  lemma BulkReads(buf: string, offset: nat, bytes: string, elements: nat, l: Limits)
    requires At(buf, Header('$', |bytes|) + (bytes + CRLF), offset) && NumberFits(|bytes|, l)
    requires |bytes| <= l.maxBulkBytes
    ensures offset < |buf| && buf[offset] == '$'
    ensures ReadBulk(buf, offset + 1, elements, l)
         == Done(Text(bytes), offset + |Header('$', |bytes|)| + |bytes| + 2, elements)
  {
    hide Header, ReadInteger;
    var header := Header('$', |bytes|);
    AtSplit(buf, header, bytes + CRLF, offset);
    AtSplit(buf, bytes, CRLF, offset + |header|);
    AtCrlf(buf, offset + |header| + |bytes|);
    HeaderReads(buf, offset, '$', |bytes|, elements, l);
  }

  lemma LineReplyReads(buf: string, offset: nat, line: string, elements: nat, l: Limits)
    requires At(buf, "+" + (line + CRLF), offset) && HasNoCrlf(line) && |line| <= l.maxLineBytes
    ensures offset < |buf| && buf[offset] == '+'
    ensures ReadLine(buf, offset + 1, elements, l) == Done(line, offset + 1 + |line| + 2, elements)
  {
    hide ReadLine;
    AtSplit(buf, "+", line + CRLF, offset);
    assert buf[offset..offset + 1][0] == buf[offset];
    LineReads(buf, offset + 1, line, elements, l);
  }

  /** Printing then parsing gives the reply back, consumes exactly its bytes and counts its elements. */
  lemma {:induction false} RoundTrip(buf: string, offset: nat, w: Wire, elements: nat, depth: nat, l: Limits)
    requires At(buf, Encode(w), offset) && Fits(w, depth, l) && elements + Elements(w) <= l.maxElements
    ensures offset <= |buf|
    ensures ParseOne(buf, offset, elements, depth, l)
         == Done(ValueOf(w), offset + |Encode(w)|, elements + Elements(w))
    decreases w, 1
  {
    hide Header, ReadLine, ReadInteger, HasNoCrlf, NumberFits, ParseMany;
    match w
    case SimpleLine(line) =>
      LineReplyReads(buf, offset, line, elements + 1, l);
    case IntegerLine(n) =>
      HeaderReads(buf, offset, ':', n, elements + 1, l);
    case BulkString(bytes) =>
      BulkReads(buf, offset, bytes, elements + 1, l);
    case NullBulk =>
      HeaderReads(buf, offset, '$', -1, elements + 1, l);
    case NullArray =>
      HeaderReads(buf, offset, '*', -1, elements + 1, l);
    case ArrayOf(items) =>
      var header := Header('*', |items|);
      AtSplit(buf, header, EncodeAll(items), offset);
      HeaderReads(buf, offset, '*', |items|, elements + 1, l);
      RoundTripMany(buf, offset + |header|, items, elements + 1, depth + 1, l);
  }

  lemma {:induction false} RoundTripMany(buf: string, offset: nat, ws: seq<Wire>, elements: nat, depth: nat, l: Limits)
    requires At(buf, EncodeAll(ws), offset) && elements + ElementsOf(ws) <= l.maxElements && depth <= l.maxDepth + 1
    requires forall x :: x in ws ==> Fits(x, depth, l)
    ensures offset <= |buf|
    ensures ParseMany(buf, offset, elements, depth, |ws|, l)
         == Done(ValuesOf(ws), offset + |EncodeAll(ws)|, elements + ElementsOf(ws))
    decreases ws, 0
  {
    hide ParseOne, Fits, Encode, ValueOf, Elements;
    if ws != [] {
      AtSplit(buf, Encode(ws[0]), EncodeAll(ws[1..]), offset);
      RoundTrip(buf, offset, ws[0], elements, depth, l);
      RoundTripMany(buf, offset + |Encode(ws[0])|, ws[1..], elements + Elements(ws[0]), depth, l);
    }
  }

  lemma {:induction false} EncodeNotEmpty(w: Wire)
    ensures |Encode(w)| >= 3
  {
  }

  lemma {:induction false} LoopReadsAll(buf: string, offset: nat, elements: nat, got: seq<Reply>, ws: seq<Wire>,
                                        l: Limits)
    requires At(buf, EncodeAll(ws), offset) && offset + |EncodeAll(ws)| == |buf|
    requires elements + ElementsOf(ws) <= l.maxElements
    requires forall x :: x in ws ==> Fits(x, 0, l)
    ensures ParseFrom(buf, offset, elements, got, |got| + |ws|, l) == Parsed(got + ValuesOf(ws), true)
    decreases |ws|
  {
    hide ParseOne, Fits, Encode, ValueOf, Elements, At;
    if ws == [] {
      assert got + [] == got;
    } else {
      AtSplit(buf, Encode(ws[0]), EncodeAll(ws[1..]), offset);
      EncodeNotEmpty(ws[0]);
      RoundTrip(buf, offset, ws[0], elements, 0, l);
      ValuesFirst(got, ws);
      var offset' := offset + |Encode(ws[0])|;
      WithinBuffer(buf, EncodeAll(ws[1..]), offset');
      hide EncodeAll, ElementsOf, ValuesOf;
      LoopReadsAll(buf, offset', elements + Elements(ws[0]), got + [ValueOf(ws[0])], ws[1..], l);
    }
  }

  lemma WithinBuffer(buf: string, pattern: string, offset: nat)
    requires At(buf, pattern, offset)
    ensures offset + |pattern| <= |buf|
  {
  }

  lemma ValuesFirst(got: seq<Reply>, ws: seq<Wire>)
    requires ws != []
    ensures got + [ValueOf(ws[0])] + ValuesOf(ws[1..]) == got + ValuesOf(ws)
  {
  }

  /** A whole response parses, complete, to the values of its replies. */
  lemma ResponseParses(ws: seq<Wire>, l: Limits)
    requires StreamFits(ws, l)
    ensures ParseReplies(EncodeAll(ws), |ws|, l) == Parsed(ValuesOf(ws), true)
  {
    hide ParseFrom, EncodeAll, ValuesOf, ElementsOf, Fits;
    LoopReadsAll(EncodeAll(ws), 0, 0, [], ws, l);
    assert [] + ValuesOf(ws) == ValuesOf(ws);
  }

  // ---- Whatever is read keeps to the limits ----

  /** The reply a server means by some wire reply within the limits, of so many elements and at most so many bytes. */
  ghost predicate Meant(value: Reply, elements: int, bytes: int, depth: nat, l: Limits) {
    exists w :: Fits(w, depth, l) && ValueOf(w) == value && Elements(w) == elements && |Encode(w)| <= bytes
  }

  predicate AllFit(ws: seq<Wire>, depth: nat, l: Limits) {
    forall x :: x in ws ==> Fits(x, depth, l)
  }

  ghost predicate AllMeant(values: seq<Reply>, elements: int, bytes: int, depth: nat, l: Limits) {
    exists ws ::
      AllFit(ws, depth, l) && ValuesOf(ws) == values && ElementsOf(ws) == elements && |EncodeAll(ws)| <= bytes
  }

  lemma LineWithin(buf: string, offset: nat, elements: nat, l: Limits)
    requires offset <= |buf| && ReadLine(buf, offset, elements, l).Done?
    ensures var r := ReadLine(buf, offset, elements, l);
      && HasNoCrlf(r.value) && |r.value| <= l.maxLineBytes
      && r.offset == offset + |r.value| + 2 && r.elements == elements
  {
    var end := IndexOf(buf, CRLF, offset).value;
    IndexOfIsFirst(buf, CRLF, offset);
    var line := buf[offset..end];
    forall i | 0 <= i < |line| - 1 ensures !(line[i] == CR && line[i + 1] == LF) {
      AtCrlf(buf, offset + i);
    }
  }

  /** Leading zeros only make a numeral longer. */
  lemma {:induction false} ShortestNumeral(s: string)
    requires s != "" && AllDigits(s)
    ensures |NatText(DigitsValue(s))| <= |s|
  {
    if |s| > 1 {
      ShortestNumeral(s[..|s| - 1]);
    }
  }

  lemma IntegerWithin(buf: string, offset: nat, elements: nat, l: Limits)
    requires offset <= |buf| && ReadInteger(buf, offset, elements, l).Done?
    ensures var r := ReadInteger(buf, offset, elements, l);
      NumberFits(r.value, l) && offset + |IntText(r.value)| + 2 <= r.offset && r.elements == elements
  {
    hide ReadLine, HasNoCrlf, IntegerOf, IntText;
    LineWithin(buf, offset, elements, l);
    NumeralWithin(ReadLine(buf, offset, elements, l).value);
  }

  lemma NumeralWithin(raw: string)
    requires IntegerOf(raw).Some?
    ensures SafeInteger(IntegerOf(raw).value) && |IntText(IntegerOf(raw).value)| <= |raw|
  {
    hide NatText;
    var digits := if raw[0] == '-' then raw[1..] else raw;
    ShortestNumeral(digits);
  }

  lemma BulkWithin(buf: string, offset: nat, elements: nat, l: Limits)
    requires offset <= |buf| && ReadBulk(buf, offset, elements, l).Done?
    ensures var r := ReadBulk(buf, offset, elements, l);
      && r.elements == elements
      && if r.value.Nil? then NumberFits(-1, l) && offset + |IntText(-1)| + 2 <= r.offset
         else
           && r.value.Text? && NumberFits(|r.value.bytes|, l) && |r.value.bytes| <= l.maxBulkBytes
           && offset + |IntText(|r.value.bytes|)| + 2 + |r.value.bytes| + 2 <= r.offset
  {
    hide ReadInteger, NumberFits, IntText;
    IntegerWithin(buf, offset, elements, l);
  }

  /** The converse of the round trip: whatever is read was meant by some wire reply within every limit, and no
      more elements are counted than may be. */
  lemma {:induction false} ReadsWithin(buf: string, offset: nat, elements: nat, depth: nat, l: Limits)
    requires offset <= |buf| && ParseOne(buf, offset, elements, depth, l).Done?
    ensures var r := ParseOne(buf, offset, elements, depth, l);
      r.elements <= l.maxElements && Meant(r.value, r.elements - elements, r.offset - offset, depth, l)
    decreases l.maxDepth + 1 - depth, 0
  {
    if buf[offset] == '*' {
      ArrayReadsWithin(buf, offset, elements, depth, l);
    } else {
      LeafReadsWithin(buf, offset, elements, depth, l);
    }
  }

  lemma LeafReadsWithin(buf: string, offset: nat, elements: nat, depth: nat, l: Limits)
    requires offset <= |buf| && ParseOne(buf, offset, elements, depth, l).Done? && buf[offset] != '*'
    ensures var r := ParseOne(buf, offset, elements, depth, l);
      && r.elements == elements + 1 && r.elements <= l.maxElements
      && Meant(r.value, 1, r.offset - offset, depth, l)
  {
    hide ReadLine, ReadInteger, ReadBulk, ParseMany, IntText, NumberFits, HasNoCrlf, Meant;
    var r := ParseOne(buf, offset, elements, depth, l);
    var kind, bytes := buf[offset], r.offset - offset;
    if kind == '+' {
      LineWithin(buf, offset + 1, elements + 1, l);
      LineMeant(r.value.bytes, bytes, depth, l);
    } else if kind == ':' {
      IntegerWithin(buf, offset + 1, elements + 1, l);
      IntegerMeant(r.value.n, bytes, depth, l);
    } else {
      BulkWithin(buf, offset + 1, elements + 1, l);
      BulkMeant(r.value, bytes, depth, l);
    }
  }

  lemma {:induction false} ArrayReadsWithin(buf: string, offset: nat, elements: nat, depth: nat, l: Limits)
    requires offset <= |buf| && ParseOne(buf, offset, elements, depth, l).Done? && buf[offset] == '*'
    ensures var r := ParseOne(buf, offset, elements, depth, l);
      r.elements <= l.maxElements && Meant(r.value, r.elements - elements, r.offset - offset, depth, l)
    decreases l.maxDepth + 1 - depth, 0, 0
  {
    hide ReadLine, ReadInteger, ReadBulk, ParseMany, IntText, NumberFits, Meant, AllMeant;
    var r := ParseOne(buf, offset, elements, depth, l);
    var header, bytes := ReadInteger(buf, offset + 1, elements + 1, l), r.offset - offset;
    IntegerWithin(buf, offset + 1, elements + 1, l);
    if header.value == -1 {
      NilMeant(bytes, depth, l);
    } else {
      ManyWithin(buf, header.offset, header.elements, depth + 1, header.value, l);
      ArrayMeant(r.value.items, r.elements - elements - 1, r.offset - header.offset, bytes, depth, l);
    }
  }

  lemma LineMeant(line: string, bytes: int, depth: nat, l: Limits)
    requires HasNoCrlf(line) && |line| <= l.maxLineBytes && depth <= l.maxDepth && |line| + 3 <= bytes
    ensures Meant(Text(line), 1, bytes, depth, l)
  {
    MeantBy(SimpleLine(line), 1, bytes, depth, l);
  }

  lemma IntegerMeant(n: int, bytes: int, depth: nat, l: Limits)
    requires NumberFits(n, l) && depth <= l.maxDepth && |IntText(n)| + 3 <= bytes
    ensures Meant(Integer(n), 1, bytes, depth, l)
  {
    hide IntText;
    MeantBy(IntegerLine(n), 1, bytes, depth, l);
  }

  lemma NilMeant(bytes: int, depth: nat, l: Limits)
    requires NumberFits(-1, l) && depth <= l.maxDepth && |IntText(-1)| + 3 <= bytes
    ensures Meant(Nil, 1, bytes, depth, l)
  {
    hide IntText;
    MeantBy(NullArray, 1, bytes, depth, l);
  }

  lemma BulkMeant(value: Reply, bytes: int, depth: nat, l: Limits)
    requires depth <= l.maxDepth
    requires if value.Nil? then NumberFits(-1, l) && |IntText(-1)| + 3 <= bytes
             else
               && value.Text? && NumberFits(|value.bytes|, l) && |value.bytes| <= l.maxBulkBytes
               && |IntText(|value.bytes|)| + 2 + |value.bytes| + 3 <= bytes
    ensures Meant(value, 1, bytes, depth, l)
  {
    hide IntText;
    if value.Nil? {
      NilMeant(bytes, depth, l);
    } else {
      MeantBy(BulkString(value.bytes), 1, bytes, depth, l);
    }
  }

  lemma MeantBy(w: Wire, elements: int, bytes: int, depth: nat, l: Limits)
    requires Fits(w, depth, l) && Elements(w) == elements && |Encode(w)| <= bytes
    ensures Meant(ValueOf(w), elements, bytes, depth, l)
  {
  }

  lemma ArrayMeant(values: seq<Reply>, elements: int, bytes: int, whole: int, depth: nat, l: Limits)
    requires AllMeant(values, elements, bytes, depth + 1, l) && depth <= l.maxDepth
    requires NumberFits(|values|, l) && |values| <= l.maxArrayLength && |IntText(|values|)| + 3 + bytes <= whole
    ensures Meant(List(values), elements + 1, whole, depth, l)
  {
    hide IntText, NumberFits;
    var ws :|
      AllFit(ws, depth + 1, l) && ValuesOf(ws) == values && ElementsOf(ws) == elements && |EncodeAll(ws)| <= bytes;
    MeantBy(ArrayOf(ws), elements + 1, whole, depth, l);
  }

  lemma {:induction false} ManyWithin(buf: string, offset: nat, elements: nat, depth: nat, count: nat, l: Limits)
    requires offset <= |buf| && depth <= l.maxDepth + 1 && elements <= l.maxElements
    requires ParseMany(buf, offset, elements, depth, count, l).Done?
    ensures var r := ParseMany(buf, offset, elements, depth, count, l);
      && r.elements <= l.maxElements && |r.value| == count
      && AllMeant(r.value, r.elements - elements, r.offset - offset, depth, l)
    decreases l.maxDepth + 1 - depth, count + 1
  {
    hide ParseOne;
    var r := ParseMany(buf, offset, elements, depth, count, l);
    if count == 0 {
      NoneMeant(depth, l);
    } else {
      var first := ParseOne(buf, offset, elements, depth, l);
      var rest := ParseMany(buf, first.offset, first.elements, depth, count - 1, l);
      ReadsWithin(buf, offset, elements, depth, l);
      ManyWithin(buf, first.offset, first.elements, depth, count - 1, l);
      OneMoreMeant(first.value, rest.value, first.elements - elements, rest.elements - first.elements,
        first.offset - offset, rest.offset - first.offset, depth, l);
    }
  }

  lemma NoneMeant(depth: nat, l: Limits)
    ensures AllMeant([], 0, 0, depth, l)
  {
    assert AllFit([], depth, l) && ValuesOf([]) == [] && ElementsOf([]) == 0 && |EncodeAll([])| <= 0;
  }

  lemma OneMoreMeant(first: Reply, rest: seq<Reply>, m: int, n: int, b: int, c: int, depth: nat, l: Limits)
    requires Meant(first, m, b, depth, l) && AllMeant(rest, n, c, depth, l)
    ensures AllMeant([first] + rest, m + n, b + c, depth, l)
  {
    hide Fits, Encode, ValueOf, Elements;
    var w :| Fits(w, depth, l) && ValueOf(w) == first && Elements(w) == m && |Encode(w)| <= b;
    var ws :| AllFit(ws, depth, l) && ValuesOf(ws) == rest && ElementsOf(ws) == n && |EncodeAll(ws)| <= c;
    var all := [w] + ws;
    assert all[1..] == ws;
    assert AllFit(all, depth, l) && ValuesOf(all) == [first] + rest && ElementsOf(all) == m + n;
    assert |EncodeAll(all)| <= b + c;
  }

  /** All meant, with no more elements than may still be counted. */
  ghost predicate AllCounted(values: seq<Reply>, elements: nat, bytes: int, l: Limits) {
    exists n: nat :: AllMeant(values, n, bytes, 0, l) && elements + n <= l.maxElements
  }

  lemma {:induction false} LoopWithin(buf: string, offset: nat, elements: nat, got: seq<Reply>, expected: nat,
                                      l: Limits)
    requires offset <= |buf| && elements <= l.maxElements && |got| <= expected
    requires ParseFrom(buf, offset, elements, got, expected, l).Parsed?
    ensures var r := ParseFrom(buf, offset, elements, got, expected, l);
      && got <= r.replies && |r.replies| <= expected && (r.complete <==> |r.replies| == expected)
      && AllCounted(r.replies[|got|..], elements, |buf| - offset, l)
    decreases |buf| - offset
  {
    hide ParseOne, AllMeant, AllCounted;
    var r := ParseFrom(buf, offset, elements, got, expected, l);
    if offset < |buf| && |got| < expected {
      var first := ParseOne(buf, offset, elements, 0, l);
      ReadsWithin(buf, offset, elements, 0, l);
      LoopWithin(buf, first.offset, first.elements, got + [first.value], expected, l);
      CountsElements(first.value, first.elements - elements, first.offset - offset, l);
      OneMoreCounted(first.value, r.replies[|got| + 1..], elements, first.elements, first.offset - offset,
        |buf| - first.offset, l);
      assert r.replies[|got|..] == [first.value] + r.replies[|got| + 1..];
    } else {
      assert r.replies[|got|..] == [];
      NoneCounted(elements, |buf| - offset, l);
    }
  }

  lemma NoneCounted(elements: nat, bytes: int, l: Limits)
    requires elements <= l.maxElements && 0 <= bytes
    ensures AllCounted([], elements, bytes, l)
  {
    NoneMeant(0, l);
    assert AllMeant([], 0, bytes, 0, l) && elements + 0 <= l.maxElements;
  }

  lemma OneMoreCounted(first: Reply, rest: seq<Reply>, e: nat, e': nat, b: int, c: int, l: Limits)
    requires Meant(first, e' - e, b, 0, l) && e < e' && AllCounted(rest, e', c, l)
    ensures AllCounted([first] + rest, e, b + c, l)
  {
    hide Meant, AllMeant;
    var n: nat :| AllMeant(rest, n, c, 0, l) && e' + n <= l.maxElements;
    OneMoreMeant(first, rest, e' - e, n, b, c, 0, l);
    assert e + (e' - e + n) <= l.maxElements;
  }

  lemma CountsElements(value: Reply, elements: int, bytes: int, l: Limits)
    requires Meant(value, elements, bytes, 0, l)
    ensures elements >= 1
  {
  }

  /** Replies can be read, complete, from some input exactly when some stream within every limit means them: no
      limit is dropped, and none keeps out what fits. */
  lemma ReadableExactly(replies: seq<Reply>, l: Limits)
    ensures (exists buf :: ParseReplies(buf, |replies|, l) == Parsed(replies, true))
            <==> exists ws :: StreamFits(ws, l) && ValuesOf(ws) == replies
  {
    hide ParseFrom, StreamFits, ValuesOf, AllMeant;
    if buf :| ParseReplies(buf, |replies|, l) == Parsed(replies, true) {
      LoopWithin(buf, 0, 0, [], |replies|, l);
      var n: nat :| AllMeant(replies[0..], n, |buf|, 0, l) && 0 + n <= l.maxElements;
      assert replies[0..] == replies;
      StreamMeant(replies, n, |buf|, l);
    }
    if ws :| StreamFits(ws, l) && ValuesOf(ws) == replies {
      ResponseParses(ws, l);
      assert ParseReplies(EncodeAll(ws), |replies|, l) == Parsed(replies, true);
    }
  }

  lemma StreamMeant(replies: seq<Reply>, n: nat, bytes: int, l: Limits)
    requires AllMeant(replies, n, bytes, 0, l) && n <= l.maxElements && bytes <= l.maxResponseBytes
    ensures exists ws :: StreamFits(ws, l) && ValuesOf(ws) == replies
  {
    hide Fits, EncodeAll, ElementsOf, ValuesOf;
    var ws :| AllFit(ws, 0, l) && ValuesOf(ws) == replies && ElementsOf(ws) == n && |EncodeAll(ws)| <= bytes;
    assert StreamFits(ws, l);
  }

  // ---- Verdicts on a prefix stand for the whole ----

  /** On a prefix of a longer buffer the parser waits, or decides as it would on the whole, or gives
      up on a line cut before its CRLF. */
  ghost predicate Stable<T>(p: string, onPrefix: Parse<T>, onWhole: Parse<T>) {
    || onPrefix == Fail(Incomplete)
    || onPrefix == onWhole
    || (onPrefix == Fail(LimitExceeded) && !EndsWithCrlf(p))
  }

  lemma LineStable(p: string, buf: string, offset: nat, elements: nat, l: Limits)
    requires p <= buf && offset <= |p| && ValidLimits(l)
    ensures Stable(p, ReadLine(p, offset, elements, l), ReadLine(buf, offset, elements, l))
  {
    IndexOfInPrefix(p, buf, CRLF, offset);
    IndexOfIsFirst(p, CRLF, offset);
    if |p| >= 2 {
      AtCrlf(p, |p| - 2);
      assert EndsWithCrlf(p) ==> At(p, CRLF, |p| - 2);
    }
    var found := IndexOf(p, CRLF, offset);
    hide IndexOf, At, EndsWithCrlf;
    if found.Some? {
      assert p[offset..found.value] == buf[offset..found.value];
    }
  }

  lemma IntegerStable(p: string, buf: string, offset: nat, elements: nat, l: Limits)
    requires p <= buf && offset <= |p| && ValidLimits(l)
    ensures Stable(p, ReadInteger(p, offset, elements, l), ReadInteger(buf, offset, elements, l))
  {
    hide ReadLine, EndsWithCrlf, IntegerOf;
    LineStable(p, buf, offset, elements, l);
  }

  lemma BulkStable(p: string, buf: string, offset: nat, elements: nat, l: Limits)
    requires p <= buf && offset <= |p| && ValidLimits(l)
    ensures Stable(p, ReadBulk(p, offset, elements, l), ReadBulk(buf, offset, elements, l))
  {
    hide ReadInteger, EndsWithCrlf;
    IntegerStable(p, buf, offset, elements, l);
    var header := ReadInteger(p, offset, elements, l);
    if header.Done? && 0 <= header.value && header.offset + header.value + 2 <= |p| {
      var end := header.offset + header.value;
      assert p[header.offset..end] == buf[header.offset..end];
      assert p[end] == buf[end] && p[end + 1] == buf[end + 1];
    }
  }

  lemma {:induction false} OneStable(p: string, buf: string, offset: nat, elements: nat, depth: nat, l: Limits)
    requires p <= buf && offset <= |p| && ValidLimits(l)
    ensures Stable(p, ParseOne(p, offset, elements, depth, l), ParseOne(buf, offset, elements, depth, l))
    decreases l.maxDepth + 1 - depth, 0
  {
    hide ReadLine, ReadInteger, ReadBulk, ParseMany, EndsWithCrlf;
    if depth <= l.maxDepth && offset < |p| {
      assert p[offset] == buf[offset];
      LineStable(p, buf, offset + 1, elements + 1, l);
      IntegerStable(p, buf, offset + 1, elements + 1, l);
      BulkStable(p, buf, offset + 1, elements + 1, l);
      var header := ReadInteger(p, offset + 1, elements + 1, l);
      if header.Done? && 0 <= header.value <= l.maxArrayLength {
        ManyStable(p, buf, header.offset, header.elements, depth + 1, header.value, l);
      }
    }
  }

  lemma {:induction false} ManyStable(p: string, buf: string, offset: nat, elements: nat, depth: nat, count: nat,
                                      l: Limits)
    requires p <= buf && offset <= |p| && depth <= l.maxDepth + 1 && ValidLimits(l)
    ensures Stable(p, ParseMany(p, offset, elements, depth, count, l),
            ParseMany(buf, offset, elements, depth, count, l))
    decreases l.maxDepth + 1 - depth, count + 1
  {
    hide ParseOne, EndsWithCrlf;
    if count > 0 {
      OneStable(p, buf, offset, elements, depth, l);
      var first := ParseOne(p, offset, elements, depth, l);
      if first.Done? {
        ManyStable(p, buf, first.offset, first.elements, depth, count - 1, l);
      }
    }
  }

  /** If the loop finishes on a strict prefix, the whole buffer is refused; if it fails there other
      than by waiting, so does the whole. */
  lemma {:induction false} LoopStable(p: string, buf: string, offset: nat, elements: nat, got: seq<Reply>,
                                      expected: nat, l: Limits)
    requires p < buf && offset <= |p| && ValidLimits(l)
    ensures var r := ParseFrom(p, offset, elements, got, expected, l);
      || r == Failed(Incomplete)
      || (r.Parsed? && !r.complete)
      || (r == Failed(LimitExceeded) && !EndsWithCrlf(p))
      || ParseFrom(buf, offset, elements, got, expected, l).Failed?
    decreases |p| - offset
  {
    hide ParseOne, EndsWithCrlf;
    if offset < |p| && |got| < expected {
      OneStable(p, buf, offset, elements, 0, l);
      var reply := ParseOne(p, offset, elements, 0, l);
      if reply.Done? {
        LoopStable(p, buf, reply.offset, reply.elements, got + [reply.value], expected, l);
      }
    }
  }

  /** No strict prefix of a response parses as complete, and one that ends at a CRLF just waits. */
  lemma PrefixFree(ws: seq<Wire>, p: string, l: Limits)
    requires StreamFits(ws, l) && ValidLimits(l) && p < EncodeAll(ws)
    ensures var r := ParseReplies(p, |ws|, l);
      && !(r.Parsed? && r.complete)
      && (EndsWithCrlf(p) ==> r == Failed(Incomplete) || (r.Parsed? && !r.complete))
  {
    ResponseParses(ws, l);
    LoopStable(p, EncodeAll(ws), 0, 0, [], |ws|, l);
  }

  // ---- Buffering ----

  /** The `data` handler of `redisCommand`: a growing buffer and the first outcome it settled on. */
  class Response {
    const expected: nat
    const limits: Limits
    var buffer: string
    var settled: Option<Result<Reply>>

    constructor (expected: nat, limits: Limits)
      ensures this.expected == expected && this.limits == limits && buffer == "" && settled == None
    {
      this.expected := expected;
      this.limits := limits;
      buffer, settled := "", None;
    }

    method OnData(chunk: string)
      requires expected >= 1
      modifies this
      ensures (buffer, settled) == Receive(old(buffer), old(settled), chunk, expected, limits)
    {
      if settled.Some? {
        return;
      }
      if |buffer| + |chunk| > limits.maxResponseBytes {
        settled := Some(Err(LimitExceeded));
        return;
      }
      buffer := buffer + chunk;
      if !EndsWithCrlf(buffer) {
        return;
      }
      var parsed := ParseRespReplies(buffer, expected, limits);
      CompleteHasAll(buffer, 0, 0, [], expected, limits);
      if parsed.Parsed? {
        if parsed.complete {
          settled := Some(Ok(parsed.replies[|parsed.replies| - 1]));
        }
      } else if parsed.why != Incomplete {
        settled := Some(Err(parsed.why));
      }
    }
  }

  lemma {:induction false} CompleteHasAll(buf: string, offset: nat, elements: nat, got: seq<Reply>, expected: nat,
                                          l: Limits)
    requires offset <= |buf|
    ensures var r := ParseFrom(buf, offset, elements, got, expected, l);
      r.Parsed? && r.complete ==> |r.replies| >= expected
    decreases |buf| - offset
  {
    if offset < |buf| && |got| < expected {
      var reply := ParseOne(buf, offset, elements, 0, l);
      if reply.Done? {
        CompleteHasAll(buf, reply.offset, reply.elements, got + [reply.value], expected, l);
      }
    }
  }

  /** What one chunk does to the buffer and the outcome. */
  function Receive(buffer: string, settled: Option<Result<Reply>>, chunk: string, expected: nat, l: Limits)
    : (string, Option<Result<Reply>>)
    requires expected >= 1
  {
    if settled.Some? then (buffer, settled)
    else if |buffer| + |chunk| > l.maxResponseBytes then (buffer, Some(Err(LimitExceeded)))
    else
      var whole := buffer + chunk;
      if !EndsWithCrlf(whole) then (whole, None)
      else
        CompleteHasAll(whole, 0, 0, [], expected, l);
        match ParseReplies(whole, expected, l)
        case Parsed(replies, complete) => (whole, if complete then Some(Ok(replies[|replies| - 1])) else None)
        case Failed(why) => (whole, if why == Incomplete then None else Some(Err(why)))
  }

  function ReceiveAll(chunks: seq<string>, expected: nat, l: Limits): (string, Option<Result<Reply>>)
    requires expected >= 1
    decreases |chunks|
  {
    if chunks == [] then ("", None)
    else
      var (buffer, settled) := ReceiveAll(chunks[..|chunks| - 1], expected, l);
      Receive(buffer, settled, chunks[|chunks| - 1], expected, l)
  }

  lemma {:induction false} EndsAtCrlf(w: Wire)
    ensures EndsWithCrlf(Encode(w))
    decreases w, 1
  {
    match w
    case ArrayOf(items) =>
      if items != [] {
        AllEndAtCrlf(items);
      }
    case _ =>
  }

  lemma {:induction false} AllEndAtCrlf(ws: seq<Wire>)
    requires ws != []
    ensures EndsWithCrlf(EncodeAll(ws))
    decreases ws, 0
  {
    EndsAtCrlf(ws[0]);
    if |ws| > 1 {
      AllEndAtCrlf(ws[1..]);
    } else {
      assert EncodeAll(ws) == Encode(ws[0]) + "";
    }
  }

  /** However an error-free response is cut into chunks, nothing is settled before its last byte and
      the last command's reply is settled on with it. */
  lemma {:induction false} ChunkingInvisible(ws: seq<Wire>, chunks: seq<string>, l: Limits)
    requires ws != [] && StreamFits(ws, l) && ValidLimits(l) && Concat(chunks) <= EncodeAll(ws)
    ensures ReceiveAll(chunks, |ws|, l)
         == (Concat(chunks), if Concat(chunks) == EncodeAll(ws) then Some(Ok(ValueOf(ws[|ws| - 1]))) else None)
    decreases |chunks|
  {
    AllEndAtCrlf(ws);
    if chunks != [] {
      var front, last := chunks[..|chunks| - 1], chunks[|chunks| - 1];
      assert chunks == front + [last];
      ConcatAppend(front, last);
      ChunkingInvisible(ws, front, l);
      if Concat(front) == EncodeAll(ws) {
        assert last == "";
        assert Concat(front) + last == Concat(front);
      } else if Concat(chunks) == EncodeAll(ws) {
        ResponseParses(ws, l);
        LastValue(ws);
      } else {
        PrefixFree(ws, Concat(chunks), l);
      }
    }
  }

  // ---- Responses that end in an error reply ----

  function ErrorLine(line: string): string {
    "-" + (line + CRLF)
  }

  /** The replies before the error, and the error, within the limits. */
  predicate ErrorFits(ws: seq<Wire>, line: string, l: Limits) {
    && HasNoCrlf(line) && |line| <= l.maxLineBytes && ElementsOf(ws) + 1 <= l.maxElements
    && forall x :: x in ws ==> Fits(x, 0, l)
  }

  lemma ErrorReads(buf: string, offset: nat, line: string, elements: nat, l: Limits)
    requires At(buf, ErrorLine(line), offset) && HasNoCrlf(line) && |line| <= l.maxLineBytes
    requires elements + 1 <= l.maxElements
    ensures offset < |buf| && buf[offset] == '-'
    ensures ReadLine(buf, offset + 1, elements + 1, l) == Done(line, offset + |ErrorLine(line)|, elements + 1)
    ensures ParseOne(buf, offset, elements, 0, l) == Fail(RedisError(line))
  {
    hide ReadLine;
    AtSplit(buf, "-", line + CRLF, offset);
    assert buf[offset..offset + 1][0] == buf[offset];
    LineReads(buf, offset + 1, line, elements + 1, l);
  }

  /** Whatever follows an error reply, the loop fails with it. */
  lemma {:induction false} LoopAtError(buf: string, offset: nat, elements: nat, got: seq<Reply>, ws: seq<Wire>,
                                       line: string,
                                       expected: nat, l: Limits)
    requires At(buf, EncodeAll(ws) + ErrorLine(line), offset) && |got| + |ws| < expected
    requires HasNoCrlf(line) && |line| <= l.maxLineBytes && elements + ElementsOf(ws) + 1 <= l.maxElements
    requires forall x :: x in ws ==> Fits(x, 0, l)
    ensures offset <= |buf| && ParseFrom(buf, offset, elements, got, expected, l) == Failed(RedisError(line))
    decreases |ws|
  {
    hide ParseOne, Fits, Encode, ValueOf, Elements, ErrorLine;
    if ws == [] {
      assert EncodeAll(ws) + ErrorLine(line) == ErrorLine(line);
      ErrorReads(buf, offset, line, elements, l);
    } else {
      Associates(Encode(ws[0]), EncodeAll(ws[1..]), ErrorLine(line));
      AtSplit(buf, Encode(ws[0]), EncodeAll(ws[1..]) + ErrorLine(line), offset);
      EncodeNotEmpty(ws[0]);
      RoundTrip(buf, offset, ws[0], elements, 0, l);
      LoopAtError(buf, offset + |Encode(ws[0])|, elements + Elements(ws[0]), got + [ValueOf(ws[0])], ws[1..], line,
        expected, l);
    }
  }

  /** What the loop may come to on a strict prefix, from where it waits for more bytes. */
  ghost predicate Waits(p: string, r: Parsed) {
    r == Failed(Incomplete) || (r.Parsed? && !r.complete) || (r == Failed(LimitExceeded) && !EndsWithCrlf(p))
  }

  lemma {:induction false} ErrorCut(p: string, buf: string, offset: nat, line: string, elements: nat, l: Limits)
    requires p < buf && offset < |p| && ValidLimits(l) && At(buf, ErrorLine(line), offset)
    requires offset + |ErrorLine(line)| == |buf|
    requires HasNoCrlf(line) && |line| <= l.maxLineBytes && elements + 1 <= l.maxElements
    ensures var r := ParseOne(p, offset, elements, 0, l);
      r == Fail(Incomplete) || (r == Fail(LimitExceeded) && !EndsWithCrlf(p))
  {
    ErrorReads(buf, offset, line, elements, l);
    LineStable(p, buf, offset + 1, elements + 1, l);
    hide ReadLine, EndsWithCrlf;
  }

  /** Before the last byte of an error reply the loop waits. */
  lemma {:induction false} LoopBeforeError(p: string, buf: string, offset: nat, elements: nat, got: seq<Reply>,
                                           ws: seq<Wire>,
                                           line: string, expected: nat, l: Limits)
    requires p < buf && offset <= |p| && ValidLimits(l) && |got| + |ws| < expected
    requires At(buf, EncodeAll(ws) + ErrorLine(line), offset) && offset + |EncodeAll(ws) + ErrorLine(line)| == |buf|
    requires HasNoCrlf(line) && |line| <= l.maxLineBytes && elements + ElementsOf(ws) + 1 <= l.maxElements
    requires forall x :: x in ws ==> Fits(x, 0, l)
    ensures Waits(p, ParseFrom(p, offset, elements, got, expected, l))
    decreases |ws|
  {
    hide ParseOne, Fits, Encode, ValueOf, Elements, ErrorLine, EndsWithCrlf;
    if offset < |p| {
      if ws == [] {
        assert EncodeAll(ws) + ErrorLine(line) == ErrorLine(line);
        ErrorCut(p, buf, offset, line, elements, l);
      } else {
        Associates(Encode(ws[0]), EncodeAll(ws[1..]), ErrorLine(line));
        AtSplit(buf, Encode(ws[0]), EncodeAll(ws[1..]) + ErrorLine(line), offset);
        RoundTrip(buf, offset, ws[0], elements, 0, l);
        OneStable(p, buf, offset, elements, 0, l);
        if ParseOne(p, offset, elements, 0, l).Done? {
          LoopBeforeError(p, buf, offset + |Encode(ws[0])|, elements + Elements(ws[0]), got + [ValueOf(ws[0])], ws[1..],
            line,
                          expected, l);
        }
      }
    }
  }

  /** However a response with an error reply is cut into chunks, nothing is settled before the last byte of
      the error line, nothing but that error is ever settled, and it is settled when a CRLF ends what has
      arrived. */
  lemma {:induction false} ErrorChunkingInvisible(ws: seq<Wire>, line: string, rest: string, chunks: seq<string>,
                                                  expected: nat,
                                                  l: Limits)
    requires |ws| < expected && ErrorFits(ws, line, l) && ValidLimits(l)
    requires |EncodeAll(ws) + ErrorLine(line) + rest| <= l.maxResponseBytes
    requires Concat(chunks) <= EncodeAll(ws) + ErrorLine(line) + rest
    ensures var settled := ReceiveAll(chunks, expected, l).1;
      && (settled == None || settled == Some(Err(RedisError(line))))
      && (|Concat(chunks)| < |EncodeAll(ws) + ErrorLine(line)| ==> settled == None)
      && (|Concat(chunks)| >= |EncodeAll(ws) + ErrorLine(line)| && EndsWithCrlf(Concat(chunks)) ==> settled != None)
    ensures ReceiveAll(chunks, expected, l).1 == None ==> ReceiveAll(chunks, expected, l).0 == Concat(chunks)
    decreases |chunks|
  {
    hide EncodeAll, ErrorLine, ParseReplies;
    if chunks != [] {
      var front, last := chunks[..|chunks| - 1], chunks[|chunks| - 1];
      assert chunks == front + [last];
      ConcatAppend(front, last);
      ErrorChunkingInvisible(ws, line, rest, front, expected, l);
      ErrorBuffered(ws, line, rest, Concat(chunks), expected, l);
    }
  }

  lemma ErrorBuffered(ws: seq<Wire>, line: string, rest: string, p: string, expected: nat, l: Limits)
    requires |ws| < expected && ErrorFits(ws, line, l) && ValidLimits(l)
    requires |EncodeAll(ws) + ErrorLine(line) + rest| <= l.maxResponseBytes
    requires p <= EncodeAll(ws) + ErrorLine(line) + rest
    ensures |p| < |EncodeAll(ws) + ErrorLine(line)| ==> Waits(p, ParseReplies(p, expected, l))
    ensures |p| >= |EncodeAll(ws) + ErrorLine(line)| ==> ParseReplies(p, expected, l) == Failed(RedisError(line))
  {
    var upToError := EncodeAll(ws) + ErrorLine(line);
    hide EncodeAll, ErrorLine, ElementsOf, Fits;
    if |p| < |upToError| {
      assert p < upToError;
      LoopBeforeError(p, upToError, 0, 0, [], ws, line, expected, l);
    } else {
      assert p[..|upToError|] == upToError;
      LoopAtError(p, 0, 0, [], ws, line, expected, l);
    }
  }

  lemma LastValue(ws: seq<Wire>)
    requires ws != []
    ensures ValuesOf(ws)[|ws| - 1] == ValueOf(ws[|ws| - 1])
  {
  }

  // ---- The command printer ----

  function Bulks(args: seq<string>): (ws: seq<Wire>)
    ensures |ws| == |args|
  {
    if args == [] then [] else [BulkString(args[0])] + Bulks(args[1..])
  }

  method EncodeRedisCommand(args: seq<string>) returns (out: string)
    ensures out == Encode(ArrayOf(Bulks(args)))
  {
    hide Bulks, IntText;
    out := "*" + (IntText(|args|) + CRLF);
    NoBulks();
    assert out + "" == out;
    for i := 0 to |args|
      invariant out == Header('*', |args|) + EncodeAll(Bulks(args[..i]))
    {
      PrintedBulk(args[i]);
      BulksAppend(args[..i], args[i]);
      assert args[..i + 1] == args[..i] + [args[i]];
      out := out + ("$" + IntText(|args[i]|) + CRLF + args[i] + CRLF);
      Associates(Header('*', |args|), EncodeAll(Bulks(args[..i])), Encode(BulkString(args[i])));
    }
    assert args[..|args|] == args;
  }

  lemma NoBulks()
    ensures EncodeAll(Bulks([])) == ""
  {
  }

  lemma PrintedBulk(arg: string)
    ensures "$" + IntText(|arg|) + CRLF + arg + CRLF == Encode(BulkString(arg))
  {
    hide IntText;
    var n := IntText(|arg|);
    Associates("$", n, CRLF);
    Associates("$" + n + CRLF, arg, CRLF);
  }

  lemma {:induction false} BulksAppend(args: seq<string>, arg: string)
    ensures EncodeAll(Bulks(args + [arg])) == EncodeAll(Bulks(args)) + Encode(BulkString(arg))
  {
    if args == [] {
      assert args + [arg] == [arg];
      assert Bulks([arg])[1..] == [];
    } else {
      assert (args + [arg])[1..] == args[1..] + [arg];
      BulksAppend(args[1..], arg);
      assert Bulks(args)[1..] == Bulks(args[1..]) && Bulks(args + [arg])[1..] == Bulks(args[1..] + [arg]);
    }
  }

  function Texts(args: seq<string>): seq<Reply> {
    if args == [] then [] else [Text(args[0])] + Texts(args[1..])
  }

  /** A printed command within the limits parses to the list of its arguments. */
  lemma CommandParses(args: seq<string>, l: Limits)
    requires StreamFits([ArrayOf(Bulks(args))], l)
    ensures ParseReplies(Encode(ArrayOf(Bulks(args))), 1, l) == Parsed([List(Texts(args))], true)
  {
    var w := ArrayOf(Bulks(args));
    ResponseParses([w], l);
    assert EncodeAll([w]) == Encode(w) + "" == Encode(w);
    BulkValues(args);
    assert ValuesOf([w]) == [ValueOf(w)];
  }

  lemma {:induction false} BulkValues(args: seq<string>)
    ensures ValuesOf(Bulks(args)) == Texts(args)
  {
    if args != [] {
      BulkValues(args[1..]);
      assert Bulks(args)[1..] == Bulks(args[1..]);
    }
  }
}
