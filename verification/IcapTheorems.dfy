/** Chunk coding round trips, and independence of ICAP extraction from how the network cuts the bytes. */
module IcapTheorems {
  import opened Wrappers
  import opened Decimal
  import opened Bytes
  import opened Icap

  lemma SliceOfPrefix(p: string, buf: string, i: nat, j: nat)
    requires p <= buf && i <= j <= |p|
    ensures p[i..j] == buf[i..j]
  {
  }

  // ---- A decided body stays decided ----

  /** Once the decoder has the whole body, or knows it is too large, later bytes change nothing. */
  lemma {:induction false} DecidedBodyStands(p: string, buf: string, pos: nat, total: nat, body: string, maxBytes: nat)
    requires p <= buf && pos <= |p|
    requires var r := DecodeFrom(p, pos, total, body, maxBytes); r.ChunkedBody? || r.TooLarge?
    ensures DecodeFrom(buf, pos, total, body, maxBytes) == DecodeFrom(p, pos, total, body, maxBytes)
    decreases |p| - pos
  {
    hide IndexOf, ChunkSize, HasIeof;
    IndexOfInPrefix(p, buf, CRLF, pos);
    var lineEnd := IndexOf(p, CRLF, pos).value;
    SliceOfPrefix(p, buf, pos, lineEnd);
    var size := ChunkSize(p[pos..lineEnd]).value;
    if size > 0 && total + size <= maxBytes {
      var next := lineEnd + 2 + size + 2;
      SliceOfPrefix(p, buf, lineEnd + 2, lineEnd + 2 + size);
      DecidedBodyStands(p, buf, next, total + size, body + p[lineEnd + 2..lineEnd + 2 + size], maxBytes);
    }
  }

  /** Every size line read while decoding is under 64 bytes. */
  predicate ShortLines(buf: string, pos: nat)
    requires pos <= |buf|
    decreases |buf| - pos
  {
    match IndexOf(buf, CRLF, pos)
    case None => true
    case Some(lineEnd) =>
      && lineEnd - pos < MAX_SIZE_LINE
      && match ChunkSize(buf[pos..lineEnd])
         case None => true
         case Some(size) =>
           size > 0 && lineEnd + 2 + size + 2 <= |buf| ==> ShortLines(buf, lineEnd + 2 + size + 2)
  }

  /** Short of the end of a body with short size lines, the decoder asks for more. */
  lemma {:induction false} PartialBodyWaits(p: string, buf: string, pos: nat, total: nat, body: string, maxBytes: nat)
    requires p <= buf && pos <= |p| && ShortLines(buf, pos)
    requires DecodeFrom(buf, pos, total, body, maxBytes).ChunkedBody?
    requires |p| < DecodeFrom(buf, pos, total, body, maxBytes).end
    ensures DecodeFrom(p, pos, total, body, maxBytes) == NeedMore
    decreases |p| - pos
  {
    hide IndexOf, ChunkSize, HasIeof;
    IndexOfInPrefix(p, buf, CRLF, pos);
    if IndexOf(p, CRLF, pos).Some? {
      var lineEnd := IndexOf(p, CRLF, pos).value;
      SliceOfPrefix(p, buf, pos, lineEnd);
      var size := ChunkSize(p[pos..lineEnd]).value;
      var next := lineEnd + 2 + size + 2;
      if size > 0 && next <= |p| {
        SliceOfPrefix(p, buf, lineEnd + 2, lineEnd + 2 + size);
        PartialBodyWaits(p, buf, next, total + size, body + p[lineEnd + 2..lineEnd + 2 + size], maxBytes);
      }
    }
  }

  // ---- Decoding any well-formed split of a body ----

  /** A chunk as sent: its size line, extensions and letter case included, and its data. */
  datatype Chunk = Chunk(line: string, data: string)

  predicate SizeLine(line: string, n: nat) {
    HasNoCrlf(line) && |line| <= MAX_SIZE_LINE && ChunkSize(line) == Some(n)
  }

  predicate WellFormedChunks(chunks: seq<Chunk>) {
    forall c :: c in chunks ==> c.data != "" && SizeLine(c.line, |c.data|)
  }

  function EncodeChunks(chunks: seq<Chunk>, last: string): string {
    if chunks == [] then last + (CRLF + CRLF)
    else (chunks[0].line + CRLF) + ((chunks[0].data + CRLF) + EncodeChunks(chunks[1..], last))
  }

  function Data(chunks: seq<Chunk>): string {
    if chunks == [] then "" else chunks[0].data + Data(chunks[1..])
  }

  /** Whatever precedes and follows it, a well-formed split of a body decodes to the body and its
      exact end, or is too large exactly when the body is. */
  lemma {:induction false} SplitBodyDecodes(buf: string, pos: nat, chunks: seq<Chunk>, last: string, total: nat,
                                            body: string, maxBytes: nat)
    requires WellFormedChunks(chunks) && SizeLine(last, 0)
    requires At(buf, EncodeChunks(chunks, last), pos) && total <= maxBytes
    ensures pos <= |buf|
    ensures DecodeFrom(buf, pos, total, body, maxBytes)
         == if total + |Data(chunks)| > maxBytes then TooLarge
            else ChunkedBody(body + Data(chunks), pos + |EncodeChunks(chunks, last)|, HasIeof(last))
    decreases |chunks|
  {
    hide IndexOf, DecodeFrom, HasIeof, SizeLine;
    if chunks == [] {
      LastChunkDecodes(buf, pos, last, total, body, maxBytes);
      assert body + Data(chunks) == body;
    } else {
      var c := chunks[0];
      assert c in chunks;
      ChunkDecodes(buf, pos, c, EncodeChunks(chunks[1..], last), total, body, maxBytes);
      assert body + Data(chunks) == body + c.data + Data(chunks[1..]);
      if total + |c.data| <= maxBytes {
        var next := pos + |c.line| + 2 + |c.data| + 2;
        SplitBodyDecodes(buf, next, chunks[1..], last, total + |c.data|, body + c.data, maxBytes);
      }
    }
  }

  lemma LastChunkDecodes(buf: string, pos: nat, last: string, total: nat, body: string, maxBytes: nat)
    requires SizeLine(last, 0) && At(buf, last + (CRLF + CRLF), pos)
    ensures pos <= |buf|
    ensures DecodeFrom(buf, pos, total, body, maxBytes) == ChunkedBody(body, pos + |last| + 4, HasIeof(last))
  {
    hide IndexOf, ChunkSize, HasIeof, HasNoCrlf;
    AtSplit(buf, last, CRLF + CRLF, pos);
    AtSplit(buf, CRLF, CRLF, pos + |last|);
    AtCrlf(buf, pos + |last|);
    AtCrlf(buf, pos + |last| + 2);
    LineEnd(buf, pos, last);
  }

  lemma ChunkDecodes(buf: string, pos: nat, c: Chunk, rest: string, total: nat, body: string, maxBytes: nat)
    requires c.data != "" && SizeLine(c.line, |c.data|)
    requires At(buf, (c.line + CRLF) + ((c.data + CRLF) + rest), pos)
    ensures var next := pos + |c.line| + 2 + |c.data| + 2;
      && At(buf, rest, next) && next <= |buf|
      && DecodeFrom(buf, pos, total, body, maxBytes)
           == if total + |c.data| > maxBytes then TooLarge
             else DecodeFrom(buf, next, total + |c.data|, body + c.data, maxBytes)
  {
    hide IndexOf, ChunkSize, HasIeof, HasNoCrlf, At;
    ChunkParts(buf, pos, c, rest);
    LineEnd(buf, pos, c.line);
  }

  lemma ChunkParts(buf: string, pos: nat, c: Chunk, rest: string)
    requires At(buf, (c.line + CRLF) + ((c.data + CRLF) + rest), pos)
    ensures var dataStart := pos + |c.line| + 2;
      && dataStart + |c.data| + 2 <= |buf|
      && buf[pos..pos + |c.line|] == c.line
      && buf[pos + |c.line|] == CR && buf[pos + |c.line| + 1] == LF
      && buf[dataStart..dataStart + |c.data|] == c.data
      && At(buf, rest, dataStart + |c.data| + 2)
  {
    AtSplit(buf, c.line + CRLF, (c.data + CRLF) + rest, pos);
    AtSplit(buf, c.line, CRLF, pos);
    AtCrlf(buf, pos + |c.line|);
    AtSplit(buf, c.data + CRLF, rest, pos + |c.line| + 2);
    AtSplit(buf, c.data, CRLF, pos + |c.line| + 2);
  }

  // ---- The printed size line ----

  function Power16(k: nat): nat {
    if k == 0 then 1 else 16 * Power16(k - 1)
  }

  lemma {:induction false} HexLength(n: nat, k: nat)
    requires k >= 1 && n < Power16(k)
    ensures |HexText(n)| <= k
    decreases k
  {
    if n >= 16 {
      assert Power16(k) == 16 * Power16(k - 1);
      HexLength(n / 16, k - 1);
    }
  }

  predicate AllHex(s: string) {
    forall i :: 0 <= i < |s| ==> HexValue(s[i]).Some?
  }

  lemma HexDigitValue(n: nat)
    requires n < 16
    ensures HexValue(HexDigit(n)) == Some(n)
  {
  }

  lemma {:induction false} HexTextDigits(n: nat)
    ensures HexText(n) != "" && AllHex(HexText(n))
  {
    HexDigitValue(n % 16);
    if n >= 16 {
      HexTextDigits(n / 16);
    }
  }

  lemma {:induction false} HexRunAppend(s: string, c: char, acc: nat)
    requires AllHex(s) && HexValue(c).Some?
    ensures HexRun(s + [c], acc) == HexRun(s, acc) * 16 + HexValue(c).value
  {
    if s == "" {
      assert s + [c] == [c];
      assert [c][1..] == "";
    } else {
      assert (s + [c])[0] == s[0] && (s + [c])[1..] == s[1..] + [c];
      HexRunAppend(s[1..], c, acc * 16 + HexValue(s[0]).value);
    }
  }

  lemma {:induction false} HexRunOfText(n: nat)
    ensures HexRun(HexText(n), 0) == n
  {
    HexDigitValue(n % 16);
    if n < 16 {
      assert HexText(n)[1..] == "";
    } else {
      HexRunOfText(n / 16);
      HexTextDigits(n / 16);
      HexRunAppend(HexText(n / 16), HexDigit(n % 16), 0);
    }
  }

  lemma NoSeparator(s: string, separator: char)
    requires forall i :: 0 <= i < |s| ==> s[i] != separator
    ensures Split(s, [separator]) == [s]
  {
    IndexOfIsFirst(s, [separator], 0);
    forall i: nat ensures !At(s, [separator], i) {
      AtChar(s, separator, i);
    }
  }

  lemma AtChar(s: string, c: char, i: nat)
    ensures At(s, [c], i) <==> i < |s| && s[i] == c
  {
    if i < |s| {
      assert s[i..i + 1] == [s[i]];
    }
  }

  lemma TrimsToItself(s: string)
    requires s != "" ==> !IsSpace(s[0]) && !IsSpace(s[|s| - 1])
    ensures Trim(s) == s
  {
  }

  /** The size line `n.toString(16)` reads back as n. */
  lemma HexSizeLine(n: nat)
    requires n < Power16(MAX_SIZE_LINE)
    ensures SizeLine(HexText(n), n)
  {
    hide Split, Trim, HexText, HexRun, Power16;
    var s := HexText(n);
    HexTextDigits(n);
    HexLength(n, MAX_SIZE_LINE);
    HexRunOfText(n);
    NoSeparator(s, ';');
    TrimsToItself(s);
  }

  // ---- Message extraction ----

  function Decided(r: Extraction): bool {
    r.Extracted? || r.BodyTooLarge?
  }

  lemma ExtractStands(p: string, buf: string, bodyStart: nat, head: Head, cfg: Config)
    requires p <= buf && bodyStart <= |p| && Decided(Extract(p, bodyStart, head, cfg))
    ensures Extract(buf, bodyStart, head, cfg) == Extract(p, bodyStart, head, cfg)
  {
    hide Encapsulated, DecodeFrom;
    var enc := Encapsulated(EncapsulatedHeader(head)).value;
    if |enc| == 2 && bodyStart + enc[1].offset <= |p| {
      var hdrEnd := bodyStart + enc[1].offset;
      SliceOfPrefix(p, buf, bodyStart, hdrEnd);
      var r := DecodeFrom(p, hdrEnd, 0, "", cfg.maxBodyBytes);
      if r.ChunkedBody? || r.TooLarge? {
        DecidedBodyStands(p, buf, hdrEnd, 0, "", cfg.maxBodyBytes);
      }
    }
  }

  /** A message once extracted, or refused as too large, is what any longer buffer gives. */
  lemma ExtractionStands(p: string, buf: string, cfg: Config)
    requires p <= buf && Decided(TryExtract(p, cfg))
    ensures TryExtract(buf, cfg) == TryExtract(p, cfg)
  {
    hide IndexOf, HeaderBlock, Extract;
    IndexOfInPrefix(p, buf, HEAD_END, 0);
    var headerEnd := IndexOf(p, HEAD_END, 0).value;
    SliceOfPrefix(p, buf, 0, headerEnd);
    assert p[0..headerEnd] == p[..headerEnd] && buf[0..headerEnd] == buf[..headerEnd];
    ExtractStands(p, buf, headerEnd + 4, HeaderBlock(p[..headerEnd], cfg.maxHeaders).value, cfg);
  }

  /** Where the chunked body of a message starts, once its head is in. */
  function BodyStart(head: Head, bodyStart: nat): nat {
    match Encapsulated(EncapsulatedHeader(head))
    case Some(enc) => if |enc| == 2 then bodyStart + enc[1].offset else bodyStart
    case None => bodyStart
  }

  predicate ShortBodyLines(m: string, bodyStart: nat, head: Head) {
    BodyStart(head, bodyStart) <= |m| ==> ShortLines(m, BodyStart(head, bodyStart))
  }

  /** One whole message, with its head at most `maxHeaderBytes` - 3 bytes and short chunk size lines. */
  predicate WellFormedMessage(m: string, cfg: Config) {
    && TryExtract(m, cfg).Extracted?
    && TryExtract(m, cfg).end == |m|
    && var headerEnd := IndexOf(m, HEAD_END, 0).value;
    && headerEnd + 3 <= cfg.maxHeaderBytes
    && ShortBodyLines(m, headerEnd + 4, HeaderBlock(m[..headerEnd], cfg.maxHeaders).value)
  }

  lemma PartialExtractWaits(p: string, m: string, bodyStart: nat, head: Head, cfg: Config)
    requires p < m && bodyStart <= |p|
    requires Extract(m, bodyStart, head, cfg).Extracted? && Extract(m, bodyStart, head, cfg).end == |m|
    requires ShortBodyLines(m, bodyStart, head)
    ensures Extract(p, bodyStart, head, cfg) == Waiting
  {
    hide Encapsulated, DecodeFrom, ShortLines;
    var enc := Encapsulated(EncapsulatedHeader(head)).value;
    if |enc| == 2 && bodyStart + enc[1].offset <= |p| && enc[1].name == "req-body" {
      PartialBodyWaits(p, m, bodyStart + enc[1].offset, 0, "", cfg.maxBodyBytes);
    }
  }

  lemma PrefixWaits(p: string, m: string, cfg: Config)
    requires WellFormedMessage(m, cfg) && p < m
    ensures TryExtract(p, cfg) == Waiting
  {
    hide IndexOf, HeaderBlock, Extract, ShortBodyLines;
    var headerEnd := IndexOf(m, HEAD_END, 0).value;
    IndexOfInPrefix(p, m, HEAD_END, 0);
    if IndexOf(p, HEAD_END, 0).Some? {
      SliceOfPrefix(p, m, 0, headerEnd);
      assert p[0..headerEnd] == p[..headerEnd] && m[0..headerEnd] == m[..headerEnd];
      PartialExtractWaits(p, m, headerEnd + 4, HeaderBlock(m[..headerEnd], cfg.maxHeaders).value, cfg);
    }
  }

  // ---- The head of a message, printed and read ----

  datatype Field = Field(name: string, value: string)

  function LineText(f: Field): string {
    f.name + (":" + (" " + f.value))
  }

  function LinesText(fields: seq<Field>): string {
    if fields == [] then "" else CRLF + (LineText(fields[0]) + LinesText(fields[1..]))
  }

  function RequestLine(method_: string, uri: string, version: string): string {
    method_ + (" " + (uri + (" " + version)))
  }

  function HeadText(method_: string, uri: string, version: string, fields: seq<Field>): string {
    RequestLine(method_, uri, version) + LinesText(fields)
  }

  /** The header map of the fields: names in lower case, the last of a name standing. */
  function HeaderMap(fields: seq<Field>): map<string, string> {
    if fields == [] then map[]
    else
      var front, last := fields[..|fields| - 1], fields[|fields| - 1];
      HeaderMap(front)[Lower(last.name) := last.value]
  }

  predicate NoCr(s: string) {
    forall i :: 0 <= i < |s| ==> s[i] != CR
  }

  predicate IsWord(s: string) {
    s != "" && NoCr(s) && forall i :: 0 <= i < |s| ==> s[i] != ' '
  }

  /** No white space at either end. */
  predicate Trimmed(s: string) {
    s != "" ==> !IsSpace(s[0]) && !IsSpace(s[|s| - 1])
  }

  predicate IsField(f: Field) {
    && f.name != "" && NoCr(f.name) && Trimmed(f.name) && (forall i :: 0 <= i < |f.name| ==> f.name[i] != ':')
    && NoCr(f.value) && Trimmed(f.value)
  }

  lemma SplitAtCrlf(front: string, back: string)
    requires NoCr(front)
    ensures Split(front + (CRLF + back), CRLF) == [front] + Split(back, CRLF)
  {
    var s := front + (CRLF + back);
    AtSplit(s, front, CRLF + back, 0);
    assert s[..|s|] == s;
    AtSplit(s, CRLF, back, |front|);
    forall j | 0 <= j < |front| ensures !At(s, CRLF, j) {
      AtCrlf(s, j);
      assert s[j] == front[j];
    }
    IndexOfUnique(s, CRLF, 0, |front|);
    assert s[..|front|] == front && s[|front| + 2..] == back;
  }

  lemma OneLine(s: string)
    requires NoCr(s)
    ensures Split(s, CRLF) == [s]
  {
    IndexOfIsFirst(s, CRLF, 0);
    forall i: nat ensures !At(s, CRLF, i) {
      AtCrlf(s, i);
    }
  }

  function LineTexts(fields: seq<Field>): (lines: seq<string>)
    ensures |lines| == |fields|
  {
    if fields == [] then [] else [LineText(fields[0])] + LineTexts(fields[1..])
  }

  lemma {:induction false} LinesSplit(first: string, fields: seq<Field>)
    requires NoCr(first) && forall f :: f in fields ==> IsField(f)
    ensures Split(first + LinesText(fields), CRLF) == [first] + LineTexts(fields)
    decreases |fields|
  {
    hide Split;
    if fields == [] {
      assert first + LinesText(fields) == first;
      OneLine(first);
    } else {
      var f := fields[0];
      assert f in fields;
      assert NoCr(LineText(f));
      SplitAtCrlf(first, LineText(f) + LinesText(fields[1..]));
      LinesSplit(LineText(f), fields[1..]);
    }
  }

  lemma RequestReads(method_: string, uri: string, version: string)
    requires IsWord(method_) && IsWord(uri) && IsWord(version)
    ensures NotEmpty(Split(RequestLine(method_, uri, version), " ")) == [method_, uri, version]
    ensures NoCr(RequestLine(method_, uri, version))
  {
    hide Split;
    assert [' '] == " ";
    SplitAt(method_, ' ', uri + (" " + version));
    SplitAt(uri, ' ', version);
    NoSeparator(version, ' ');
    assert Split(RequestLine(method_, uri, version), " ") == [method_] + ([uri] + [version]);
    assert [method_] + ([uri] + [version]) == [method_, uri, version];
    ThreeWords(method_, uri, version);
  }

  lemma ThreeWords(a: string, b: string, c: string)
    requires a != "" && b != "" && c != ""
    ensures NotEmpty([a, b, c]) == [a, b, c]
  {
    assert [a, b, c][1..] == [b, c] && [b, c][1..] == [c] && [c][1..] == [];
    assert NotEmpty([c]) == [c] && NotEmpty([b, c]) == [b] + [c];
    assert [a] + [b, c] == [a, b, c];
  }

  lemma LineReadsBack(f: Field)
    requires IsField(f)
    ensures var line := LineText(f);
      && line != "" && IndexOf(line, ":", 0) == Some(|f.name|) && |f.name| > 0
      && Trim(line[..|f.name|]) == f.name && Trim(line[|f.name| + 1..]) == f.value
  {
    hide Trim, IndexOf;
    var line := LineText(f);
    FindChar(line, ':', |f.name|);
    assert line[..|f.name|] == f.name && line[|f.name| + 1..] == " " + f.value;
    TrimsToItself(f.name);
    if f.value == "" {
      OnlySpace();
      assert " " + f.value == " ";
    } else {
      TrimLeading(f.value);
    }
  }

  lemma OnlySpace()
    ensures Trim(" ") == ""
  {
    assert " "[1..] == "";
    assert TrimStart(" ") == "";
  }

  function Onto(headers: map<string, string>, fields: seq<Field>): map<string, string>
    decreases |fields|
  {
    if fields == [] then headers else Onto(headers[Lower(fields[0].name) := fields[0].value], fields[1..])
  }

  lemma {:induction false} OntoMap(front: seq<Field>, fields: seq<Field>)
    ensures Onto(HeaderMap(front), fields) == HeaderMap(front + fields)
    decreases |fields|
  {
    if fields == [] {
      assert front + fields == front;
    } else {
      var more := front + [fields[0]];
      assert more[..|more| - 1] == front;
      OntoMap(more, fields[1..]);
      assert more + fields[1..] == front + fields;
    }
  }

  lemma {:induction false} FieldsRead(fields: seq<Field>, headers: map<string, string>)
    requires forall f :: f in fields ==> IsField(f)
    ensures HeaderLines(LineTexts(fields), headers) == Some(Onto(headers, fields))
    decreases |fields|
  {
    hide IndexOf, Trim, Lower, LineText;
    if fields != [] {
      var f := fields[0];
      assert f in fields;
      LineReadsBack(f);
      FieldsRead(fields[1..], headers[Lower(f.name) := f.value]);
      assert LineTexts(fields)[1..] == LineTexts(fields[1..]);
    }
  }

  /** A printed head reads back as what it was printed from, if it has no more fields than may be. */
  lemma HeadReads(method_: string, uri: string, version: string, fields: seq<Field>, maxHeaders: nat)
    requires IsWord(method_) && IsWord(uri) && IsWord(version) && forall f :: f in fields ==> IsField(f)
    ensures HeaderBlock(HeadText(method_, uri, version, fields), maxHeaders)
         == if |fields| > maxHeaders then None else Some(Head(Upper(method_), uri, version, HeaderMap(fields)))
  {
    hide Split, LinesText, LineTexts, RequestLine, Upper, IsWord, IsField;
    var request := RequestLine(method_, uri, version);
    RequestReads(method_, uri, version);
    LinesSplit(request, fields);
    assert ([request] + LineTexts(fields))[1..] == LineTexts(fields);
    FieldsRead(fields, map[]);
    OntoMap([], fields);
    assert [] + fields == fields;
  }

  /** Two bytes after every line end there is another byte, and it starts no line end. */
  predicate NoBlankLine(s: string) {
    forall j :: 0 <= j < |s| && s[j] == CR ==> j + 2 < |s| && s[j + 2] != CR
  }

  lemma {:induction false} NoneBlank(first: string, fields: seq<Field>)
    requires NoCr(first) && forall f :: f in fields ==> IsField(f)
    ensures NoBlankLine(first + LinesText(fields))
    decreases |fields|
  {
    if fields == [] {
      assert first + LinesText(fields) == first;
    } else {
      var f := fields[0];
      assert f in fields;
      var line := LineText(f);
      assert NoCr(line) && line != "";
      NoneBlank(line, fields[1..]);
      var rest := line + LinesText(fields[1..]);
      assert rest[0] == line[0];
      hide LineText, LinesText;
      AfterLine(first, rest);
    }
  }

  lemma AfterLine(first: string, rest: string)
    requires NoCr(first) && NoBlankLine(rest) && rest != "" && rest[0] != CR
    ensures NoBlankLine(first + (CRLF + rest))
  {
    var s := first + (CRLF + rest);
    assert forall j :: 0 <= j < |first| ==> s[j] == first[j];
    forall j | 0 <= j < |s| && s[j] == CR ensures j + 2 < |s| && s[j + 2] != CR {
      if j >= |first| + 2 {
        var k := j - |first| - 2;
        assert s[j] == rest[k];
        assert s[j + 2] == rest[k + 2];
      }
    }
  }

  /** So a printed head ends where its text does. */
  lemma HeadEnds(method_: string, uri: string, version: string, fields: seq<Field>)
    requires IsWord(method_) && IsWord(uri) && IsWord(version) && forall f :: f in fields ==> IsField(f)
    ensures var text := HeadText(method_, uri, version, fields);
      IndexOf(text + HEAD_END, HEAD_END, 0) == Some(|text|)
  {
    hide Split, LinesText, RequestLine, NotEmpty;
    var text := HeadText(method_, uri, version, fields);
    RequestReads(method_, uri, version);
    NoneBlank(RequestLine(method_, uri, version), fields);
    var s := text + HEAD_END;
    assert At(s, HEAD_END, |text|);
    forall j | 0 <= j < |text| ensures !At(s, HEAD_END, j) {
      assert s[j] == text[j];
      if s[j] == CR && j + 4 <= |s| {
        assert s[j..j + 4][2] == s[j + 2] == text[j + 2];
      } else if j + 4 <= |s| {
        assert s[j..j + 4][0] == s[j];
      }
    }
    IndexOfUnique(s, HEAD_END, 0, |text|);
  }

  // ---- What a client sends ----

  /** What follows the head: nothing, an embedded header block alone, or one with a body in any split. */
  datatype Payload =
    | NoPayload
    | HeaderOnly(reqHdr: string)
    | WithBody(reqHdr: string, chunks: seq<Chunk>, last: string)

  /** A message as sent: the text of its head, what that says, and what follows. */
  datatype Sent = Sent(headText: string, head: Head, payload: Payload)

  function PayloadText(payload: Payload): string {
    match payload
    case NoPayload => ""
    case HeaderOnly(reqHdr) => reqHdr
    case WithBody(reqHdr, chunks, last) => reqHdr + EncodeChunks(chunks, last)
  }

  function Wire(w: Sent): string {
    (w.headText + HEAD_END) + PayloadText(w.payload)
  }

  function HeaderIn(payload: Payload): string {
    if payload.NoPayload? then "" else payload.reqHdr
  }

  function BodyIn(payload: Payload): string {
    if payload.WithBody? then Data(payload.chunks) else ""
  }

  /** What the sender means. */
  function Meaning(w: Sent): Message {
    Message(w.head, HeaderIn(w.payload), BodyIn(w.payload))
  }

  predicate ShortSizeLines(chunks: seq<Chunk>, last: string) {
    |last| < MAX_SIZE_LINE && forall c :: c in chunks ==> |c.line| < MAX_SIZE_LINE
  }

  lemma {:induction false} SplitBodyShort(buf: string, pos: nat, chunks: seq<Chunk>, last: string)
    requires WellFormedChunks(chunks) && SizeLine(last, 0) && ShortSizeLines(chunks, last)
    requires At(buf, EncodeChunks(chunks, last), pos)
    ensures pos <= |buf| && ShortLines(buf, pos)
    decreases |chunks|
  {
    hide At, SizeLine, ShortLines, ShortSizeLines, WellFormedChunks;
    ShortParts(chunks, last);
    if chunks == [] {
      LastLineShort(buf, pos, last);
    } else {
      var c := chunks[0];
      ChunkParts(buf, pos, c, EncodeChunks(chunks[1..], last));
      SplitBodyShort(buf, pos + |c.line| + 2 + |c.data| + 2, chunks[1..], last);
      LineShort(buf, pos, c);
    }
  }

  lemma ShortParts(chunks: seq<Chunk>, last: string)
    requires WellFormedChunks(chunks) && ShortSizeLines(chunks, last)
    ensures |last| < MAX_SIZE_LINE
    ensures chunks != [] ==>
      var c := chunks[0];
      && c.data != "" && SizeLine(c.line, |c.data|) && |c.line| < MAX_SIZE_LINE
      && WellFormedChunks(chunks[1..]) && ShortSizeLines(chunks[1..], last)
  {
    hide SizeLine;
    if chunks != [] {
      assert chunks[0] in chunks;
    }
  }

  lemma LastLineShort(buf: string, pos: nat, last: string)
    requires SizeLine(last, 0) && |last| < MAX_SIZE_LINE && At(buf, last + (CRLF + CRLF), pos)
    ensures pos <= |buf| && ShortLines(buf, pos)
  {
    hide IndexOf, ChunkSize, HasNoCrlf;
    AtSplit(buf, last, CRLF + CRLF, pos);
    AtSplit(buf, CRLF, CRLF, pos + |last|);
    AtCrlf(buf, pos + |last|);
    LineEnd(buf, pos, last);
  }

  lemma LineShort(buf: string, pos: nat, c: Chunk)
    requires c.data != "" && SizeLine(c.line, |c.data|) && |c.line| < MAX_SIZE_LINE
    requires pos + |c.line| + 2 + |c.data| + 2 <= |buf| && buf[pos..pos + |c.line|] == c.line
    requires buf[pos + |c.line|] == CR && buf[pos + |c.line| + 1] == LF
    requires ShortLines(buf, pos + |c.line| + 2 + |c.data| + 2)
    ensures ShortLines(buf, pos)
  {
    hide IndexOf, ChunkSize, HasNoCrlf;
    LineEnd(buf, pos, c.line);
  }

  /** The head text ends where the first empty line begins, and is read as this head. */
  predicate HeadSent(headText: string, head: Head, cfg: Config) {
    && IndexOf(headText + HEAD_END, HEAD_END, 0) == Some(|headText|)
    && HeaderBlock(headText, cfg.maxHeaders) == Some(head) && "ICAP/" <= head.version
  }

  /** The head announces what follows. */
  predicate Announced(head: Head, payload: Payload) {
    var enc := Encapsulated(EncapsulatedHeader(head));
    match payload
    case NoPayload => (head.method_ == "OPTIONS" && enc.Some?) || enc == Some([Section("null-body", 0)])
    case HeaderOnly(reqHdr) =>
      head.method_ != "OPTIONS" && enc == Some([Section("req-hdr", 0), Section("null-body", |reqHdr|)])
    case WithBody(reqHdr, chunks, last) =>
      && head.method_ != "OPTIONS" && enc == Some([Section("req-hdr", 0), Section("req-body", |reqHdr|)])
      && WellFormedChunks(chunks) && SizeLine(last, 0)
  }

  predicate Sendable(w: Sent, cfg: Config) {
    HeadSent(w.headText, w.head, cfg) && Announced(w.head, w.payload)
  }

  /** What must become of it: it is refused for the first limit it exceeds, or for a preview that does not hold
      the whole body, and else it is taken as meant, to its last byte. */
  function Due(w: Sent, cfg: Config): Extraction {
    if |w.headText| > cfg.maxHeaderBytes then Malformed(IcapHeaderOverflow)
    else if |HeaderIn(w.payload)| > cfg.maxHeaderBytes then Malformed(HttpHeaderOverflow)
    else if |BodyIn(w.payload)| > cfg.maxBodyBytes then BodyTooLarge
    else if w.payload.WithBody? && "preview" in w.head.headers && !HasIeof(w.payload.last) then
      Malformed(PreviewUnsupported)
    else Extracted(Meaning(w), |Wire(w)|)
  }

  lemma AssembledOutcome(w: Sent, cfg: Config)
    requires Sendable(w, cfg)
    ensures TryExtract(Wire(w), cfg) == Due(w, cfg)
  {
    hide IndexOf, HeaderBlock, Encapsulated, EncapsulatedHeader, Extract, Announced, PayloadText, HeaderIn, BodyIn,
      HasIeof;
    var m, at := Wire(w), |w.headText| + 4;
    WireParts(w);
    IndexOfInPrefix(w.headText + HEAD_END, m, HEAD_END, 0);
    if |w.headText| <= cfg.maxHeaderBytes {
      PayloadOutcome(m, at, w, cfg);
    }
  }

  lemma WireParts(w: Sent)
    ensures var m, at := Wire(w), |w.headText| + 4;
      && w.headText + HEAD_END <= m && at <= |m|
      && m[..|w.headText|] == w.headText && m[at..] == PayloadText(w.payload)
  {
    hide PayloadText;
  }

  lemma PayloadOutcome(m: string, at: nat, w: Sent, cfg: Config)
    requires Announced(w.head, w.payload) && at <= |m| && m[at..] == PayloadText(w.payload) && m == Wire(w)
    requires |w.headText| <= cfg.maxHeaderBytes
    ensures Extract(m, at, w.head, cfg) == Due(w, cfg)
  {
    hide Encapsulated, EncapsulatedHeader, EncodeChunks, Data, SizeLine, At, DecodeFrom, WellFormedChunks, HasIeof,
      IndexOf, Wire;
    match w.payload {
      case NoPayload =>
      case HeaderOnly(reqHdr) =>
        assert m[at..at + |reqHdr|] == m[at..];
      case WithBody(reqHdr, chunks, last) =>
        BodyParts(m, at, reqHdr, EncodeChunks(chunks, last));
        SplitBodyDecodes(m, at + |reqHdr|, chunks, last, 0, "", cfg.maxBodyBytes);
        assert "" + Data(chunks) == Data(chunks);
    }
  }

  /** Every limit kept, with three bytes to spare for the head and short chunk size lines. */
  predicate WellSent(w: Sent, cfg: Config) {
    && Sendable(w, cfg) && Due(w, cfg).Extracted? && |w.headText| + 3 <= cfg.maxHeaderBytes
    && (w.payload.WithBody? ==> ShortSizeLines(w.payload.chunks, w.payload.last))
  }

  /** Then it is well formed, whole only at its last byte, and taken as meant. */
  lemma AssembledMessage(w: Sent, cfg: Config)
    requires WellSent(w, cfg)
    ensures TryExtract(Wire(w), cfg) == Extracted(Meaning(w), |Wire(w)|)
    ensures WellFormedMessage(Wire(w), cfg)
  {
    hide IndexOf, HeaderBlock, Encapsulated, EncapsulatedHeader, TryExtract, Announced, ShortBodyLines, PayloadText,
      HeaderIn, BodyIn, HasIeof, ShortSizeLines, Wire;
    AssembledOutcome(w, cfg);
    WireParts(w);
    IndexOfInPrefix(w.headText + HEAD_END, Wire(w), HEAD_END, 0);
    PayloadShort(Wire(w), |w.headText| + 4, w.head, w.payload);
  }

  lemma PayloadShort(m: string, at: nat, head: Head, payload: Payload)
    requires Announced(head, payload) && at <= |m| && m[at..] == PayloadText(payload)
    requires payload.WithBody? ==> ShortSizeLines(payload.chunks, payload.last)
    ensures ShortBodyLines(m, at, head)
  {
    hide Encapsulated, EncapsulatedHeader, EncodeChunks, SizeLine, At, ShortLines, WellFormedChunks, ShortSizeLines;
    NothingShort(m);
    if payload.WithBody? {
      BodyParts(m, at, payload.reqHdr, EncodeChunks(payload.chunks, payload.last));
      SplitBodyShort(m, at + |payload.reqHdr|, payload.chunks, payload.last);
    }
  }

  lemma NothingShort(m: string)
    ensures ShortLines(m, |m|)
  {
  }

  /** Before a message sent within the limits is whole, nothing is extracted and nothing is refused. */
  lemma PartialMessageWaits(p: string, w: Sent, cfg: Config)
    requires WellSent(w, cfg) && p < Wire(w)
    ensures TryExtract(p, cfg) == Waiting
  {
    hide TryExtract, Wire, WellFormedMessage;
    AssembledMessage(w, cfg);
    PrefixWaits(p, Wire(w), cfg);
  }

  lemma BodyParts(m: string, at: nat, reqHdr: string, wire: string)
    requires at <= |m| && m[at..] == reqHdr + wire
    ensures at + |reqHdr| + |wire| == |m| && m[at..at + |reqHdr|] == reqHdr && At(m, wire, at + |reqHdr|)
  {
    assert m[at..at + |reqHdr|] == m[at..][..|reqHdr|];
    assert m[at + |reqHdr|..] == m[at..][|reqHdr|..];
  }

  // ---- A connection under any interleaving of chunks and finished handlers ----

  datatype Event = Arrives(chunk: string) | Handled(response: string)

  function Step(s: State, e: Event, cfg: Config): State {
    match e
    case Arrives(chunk) => Receive(s, chunk, cfg)
    case Handled(response) => Finish(s, response, cfg)
  }

  const NEW_CONNECTION := State("", false, false, [], [])

  function Run(events: seq<Event>, cfg: Config): State {
    if events == [] then NEW_CONNECTION else Step(Run(events[..|events| - 1], cfg), events[|events| - 1], cfg)
  }

  function Received(events: seq<Event>): string {
    if events == [] then "" else Received(events[..|events| - 1]) + ChunkOf(events[|events| - 1])
  }

  function ChunkOf(e: Event): string {
    if e.Arrives? then e.chunk else ""
  }

  /** No chunk ever took the buffer past `maxRawBytes`. */
  predicate WithinRaw(events: seq<Event>, cfg: Config) {
    events == [] ||
    (var front, last := events[..|events| - 1], events[|events| - 1];
     WithinRaw(front, cfg) && (last.Arrives? ==> |Run(front, cfg).buffer| + |last.chunk| <= cfg.maxRawBytes))
  }

  predicate WellSentStream(sent: seq<Sent>, cfg: Config) {
    forall w :: w in sent ==> WellSent(w, cfg)
  }

  function Wires(sent: seq<Sent>): (ms: seq<string>)
    ensures |ms| == |sent| && forall i :: 0 <= i < |sent| ==> ms[i] == Wire(sent[i])
  {
    if sent == [] then [] else [Wire(sent[0])] + Wires(sent[1..])
  }

  function Meanings(sent: seq<Sent>): (xs: seq<Message>)
    ensures |xs| == |sent| && forall i :: 0 <= i < |sent| ==> xs[i] == Meaning(sent[i])
  {
    if sent == [] then [] else [Meaning(sent[0])] + Meanings(sent[1..])
  }

  /** The bytes taken out of the buffer are exactly the first messages sent, which were delivered in order as
      meant, and all but the one in flight have been answered. */
  predicate InStep(s: State, sent: seq<Sent>, received: string) {
    && !s.dead
    && |s.delivered| <= |sent|
    && s.delivered == Meanings(sent)[..|s.delivered|]
    && Concat(Wires(sent)[..|s.delivered|]) + s.buffer == received
    && |s.delivered| == |s.answered| + (if s.busy then 1 else 0)
  }

  /** Idle means waiting: no whole message is left in the buffer. */
  predicate Drained(s: State, sent: seq<Sent>) {
    !s.busy ==> |s.delivered| == |sent| || (|s.delivered| < |sent| && |s.buffer| < |Wire(sent[|s.delivered|])|)
  }

  lemma {:induction false} ConcatSplit(ms: seq<string>, k: nat)
    requires k < |ms|
    ensures Concat(ms[..k + 1]) == Concat(ms[..k]) + ms[k]
    ensures Concat(ms[..k]) + ms[k] <= Concat(ms)
  {
    assert ms[..k + 1] == ms[..k] + [ms[k]];
    ConcatAppend(ms[..k], ms[k]);
    ConcatJoin(ms[..k + 1], ms[k + 1..]);
    assert ms == ms[..k + 1] + ms[k + 1..];
  }

  lemma {:induction false} ConcatJoin(a: seq<string>, b: seq<string>)
    ensures Concat(a + b) == Concat(a) + Concat(b)
  {
    if a == [] {
      assert a + b == b;
    } else {
      assert (a + b)[1..] == a[1..] + b;
      ConcatJoin(a[1..], b);
    }
  }

  /** Two prefixes of one text are comparable. */
  lemma Comparable(a: string, x: string, m: string, whole: string)
    requires a + x <= whole && a + m <= whole
    ensures if |x| < |m| then x < m else m <= x
  {
    assert forall i :: 0 <= i < |x| ==> x[i] == (a + x)[|a| + i] == whole[|a| + i];
    assert forall i :: 0 <= i < |m| ==> m[i] == (a + m)[|a| + i] == whole[|a| + i];
  }

  lemma ProcessKeepsStep(s: State, sent: seq<Sent>, received: string, cfg: Config)
    requires WellSentStream(sent, cfg) && InStep(s, sent, received) && received <= Concat(Wires(sent))
    ensures InStep(Process(s, cfg), sent, received) && Drained(Process(s, cfg), sent)
  {
    hide WellFormedMessage, WellSent, TryExtract, Wires, Meanings, Wire, Meaning;
    var k, ms := |s.delivered|, Wires(sent);
    if !s.busy {
      if k == |sent| {
        assert ms[..k] == ms;
        assert s.buffer == "";
        NothingExtracts(cfg);
      } else {
        ConcatSplit(ms, k);
        Comparable(Concat(ms[..k]), s.buffer, ms[k], Concat(ms));
        assert sent[k] in sent;
        if |s.buffer| < |ms[k]| {
          PartialMessageWaits(s.buffer, sent[k], cfg);
        } else {
          AssembledMessage(sent[k], cfg);
          ExtractionStands(ms[k], s.buffer, cfg);
          assert s.buffer == ms[k] + s.buffer[|ms[k]|..];
          Associates(Concat(ms[..k]), ms[k], s.buffer[|ms[k]|..]);
        }
      }
    }
  }

  lemma NothingExtracts(cfg: Config)
    ensures TryExtract("", cfg) == Waiting
  {
  }

  /** For a stream of messages sent within the limits, any cut into chunks and any timing of the handlers: the
      connection stays alive, delivers what was meant in order one at a time, answers each before the next is
      delivered, and leaves no whole message waiting while idle. */
  lemma {:induction false} FragmentationInvisible(sent: seq<Sent>, events: seq<Event>, cfg: Config)
    requires WellSentStream(sent, cfg) && Received(events) <= Concat(Wires(sent)) && WithinRaw(events, cfg)
    ensures InStep(Run(events, cfg), sent, Received(events)) && Drained(Run(events, cfg), sent)
    decreases |events|
  {
    hide WellSent, TryExtract, Wires, Meanings, Wire, Process, Concat;
    if events == [] {
      EmptyInStep(sent);
    } else {
      var front, last := events[..|events| - 1], events[|events| - 1];
      FragmentationInvisible(sent, front, cfg);
      var s := Run(front, cfg);
      var got := Concat(Wires(sent)[..|s.delivered|]);
      match last {
        case Arrives(chunk) =>
          Associates(got, s.buffer, chunk);
          ProcessKeepsStep(s.(buffer := s.buffer + chunk), sent, Received(events), cfg);
        case Handled(response) =>
          if s.busy {
            ProcessKeepsStep(s.(busy := false, answered := s.answered + [response]), sent, Received(events), cfg);
          }
      }
    }
  }

  lemma EmptyInStep(sent: seq<Sent>)
    ensures InStep(NEW_CONNECTION, sent, "") && Drained(NEW_CONNECTION, sent)
  {
  }

  /** When the whole stream has arrived and no handler is running, every message has been delivered as meant and
      answered, whatever the cut. */
  lemma WholeStreamDelivered(sent: seq<Sent>, events: seq<Event>, cfg: Config)
    requires WellSentStream(sent, cfg) && Received(events) == Concat(Wires(sent)) && WithinRaw(events, cfg)
    requires !Run(events, cfg).busy
    ensures Run(events, cfg).delivered == Meanings(sent) && |Run(events, cfg).answered| == |sent|
  {
    hide WellSent, TryExtract, Wires, Meanings, Wire, Process;
    FragmentationInvisible(sent, events, cfg);
    var s := Run(events, cfg);
    var k := |s.delivered|;
    if k < |sent| {
      ConcatSplit(Wires(sent), k);
      assert false;
    }
    assert Meanings(sent)[..|sent|] == Meanings(sent);
  }

  // ---- The echo ----

  /** The largest body the bridge can be configured to take. */
  const MAX_CONFIGURABLE_BODY := 33554432

  lemma ChunkedBodyRoundTrip(buf: string, pos: nat, body: string, maxBytes: nat)
    requires body != "" && |body| <= maxBytes <= MAX_CONFIGURABLE_BODY && At(buf, ChunkedBodyOf(body), pos)
    ensures pos <= |buf|
    ensures DecodeFrom(buf, pos, 0, "", maxBytes) == ChunkedBody(body, pos + |ChunkedBodyOf(body)|, false)
  {
    hide IndexOf, DecodeFrom, HexText, ChunkSize;
    Power16Grows(7, MAX_SIZE_LINE);
    assert Power16(7) > MAX_CONFIGURABLE_BODY;
    HexSizeLine(|body|);
    ZeroLine();
    var chunk := Chunk(HexText(|body|), body);
    var tail := "0" + (CRLF + CRLF);
    assert EncodeChunks([], "0") == tail;
    assert [chunk][1..] == [];
    Associates(body, CRLF, tail);
    assert EncodeChunks([chunk], "0") == ChunkedBodyOf(body);
    SplitBodyDecodes(buf, pos, [chunk], "0", 0, "", maxBytes);
    assert Data([chunk]) == body + "" == body;
    assert "" + body == body;
  }

  lemma {:induction false} Power16Grows(j: nat, k: nat)
    requires j <= k
    ensures Power16(j) <= Power16(k)
    decreases k - j
  {
    if j < k {
      Power16Grows(j, k - 1);
    }
  }

  lemma ZeroLine()
    ensures SizeLine("0", 0) && !HasIeof("0")
  {
    assert HexText(0) == "0";
    Power16Grows(0, MAX_SIZE_LINE);
    HexSizeLine(0);
  }

  predicate BodySection(name: string) {
    name == "req-body" || name == "null-body"
  }

  lemma EncapsulatedReads(name: string, n: nat)
    requires BodySection(name)
    ensures Encapsulated("req-hdr=0, " + (name + ("=" + NatText(n)))) == Some([Section("req-hdr", 0), Section(name, n)])
  {
    hide NatText, Trim, OffsetOf, Lower, Sections, IndexOf, Split;
    var second := " " + (name + ("=" + NatText(n)));
    assert "req-hdr=0, " + (name + ("=" + NatText(n))) == "req-hdr=0" + ("," + second);
    SplitAt("req-hdr=0", ',', second);
    assert forall i :: 0 <= i < |second| ==> second[i] != ',';
    NoSeparator(second, ',');
    FirstSection();
    SecondSection(name, n);
    TwoSections("req-hdr=0", 7, Section("req-hdr", 0), second, |name| + 1, Section(name, n));
  }

  /** What a head without an Encapsulated header announces. */
  lemma NullBodyReads()
    ensures Encapsulated("null-body=0") == Some([Section("null-body", 0)])
  {
    hide Trim, OffsetOf, Lower, Sections, IndexOf, Split;
    var s := "null-body=0";
    NoSeparator(s, ',');
    FindChar(s, '=', 9);
    TrimsToItself(s);
    assert s[10..] == "0" && s[..9] == "null-body";
    TrimsToItself("0");
    TrimsToItself("null-body");
    LowerFixed("null-body");
    assert NatText(0) == "0";
    OffsetOfDigits(0);
    OneSection(s, 9, Section("null-body", 0));
  }

  lemma OneSection(a: string, eq: nat, pair: Section)
    requires ReadsAs(a, eq, pair)
    ensures Sections([a]) == Some([pair])
  {
    assert [a][1..] == [];
    assert [pair] + [] == [pair];
  }

  predicate ReadsAs(part: string, eq: nat, pair: Section) {
    && Trim(part) != ""
    && IndexOf(part, "=", 0) == Some(eq) && eq < |part|
    && OffsetOf(Trim(part[eq + 1..])) == Some(pair.offset)
    && Lower(Trim(part[..eq])) == pair.name
  }

  lemma TwoSections(a: string, eqA: nat, pairA: Section, b: string, eqB: nat, pairB: Section)
    requires ReadsAs(a, eqA, pairA) && ReadsAs(b, eqB, pairB)
    ensures Sections([a] + [b]) == Some([pairA, pairB])
  {
    hide Trim, IndexOf, OffsetOf, Lower;
    assert ([a] + [b])[0] == a && ([a] + [b])[1..] == [b] && [b][1..] == [];
    assert [pairB] + [] == [pairB];
    assert Sections([b]) == Some([pairB]);
    assert [pairA] + [pairB] == [pairA, pairB];
  }

  lemma SplitAt(front: string, separator: char, back: string)
    requires forall i :: 0 <= i < |front| ==> front[i] != separator
    ensures Split(front + ([separator] + back), [separator]) == [front] + Split(back, [separator])
  {
    var s := front + ([separator] + back);
    FindChar(s, separator, |front|);
    assert s[..|front|] == front && s[|front| + 1..] == back;
  }

  lemma FindChar(s: string, c: char, at: nat)
    requires at < |s| && s[at] == c && forall i :: 0 <= i < at ==> s[i] != c
    ensures IndexOf(s, [c], 0) == Some(at)
  {
    AtChar(s, c, at);
    forall j | 0 <= j < at ensures !At(s, [c], j) {
      AtChar(s, c, j);
    }
    IndexOfUnique(s, [c], 0, at);
  }

  lemma FirstSection()
    ensures Trim("req-hdr=0") != "" && IndexOf("req-hdr=0", "=", 0) == Some(7)
    ensures OffsetOf(Trim("req-hdr=0"[8..])) == Some(0) && Lower(Trim("req-hdr=0"[..7])) == "req-hdr"
  {
    hide IndexOf, Trim, Lower, OffsetOf;
    FindChar("req-hdr=0", '=', 7);
    TrimsToItself("req-hdr=0");
    assert "req-hdr=0"[8..] == "0" && "req-hdr=0"[..7] == "req-hdr";
    TrimsToItself("0");
    TrimsToItself("req-hdr");
    LowerFixed("req-hdr");
    assert NatText(0) == "0";
    OffsetOfDigits(0);
  }

  lemma OffsetOfDigits(n: nat)
    ensures OffsetOf(NatText(n)) == Some(n)
  {
    hide NatText;
    assert IsDigit(NatText(n)[0]);
  }

  lemma SecondSection(name: string, n: nat)
    requires BodySection(name)
    ensures ReadsAs(" " + (name + ("=" + NatText(n))), |name| + 1, Section(name, n))
  {
    hide NatText, IndexOf, Trim, Lower, OffsetOf;
    var digits := NatText(n);
    OffsetOfDigits(n);
    var s := " " + (name + ("=" + digits));
    FindChar(s, '=', |name| + 1);
    assert s[|name| + 2..] == digits;
    assert s[..|name| + 1] == " " + name;
    assert IsDigit(digits[0]) && IsDigit(digits[|digits| - 1]);
    TrimsToItself(digits);
    TrimLeading(name);
    LowerFixed(name);
    TrimLeading(name + ("=" + digits));
  }

  lemma TrimLeading(s: string)
    requires s != "" && !IsSpace(s[0]) && !IsSpace(s[|s| - 1])
    ensures Trim(" " + s) == s
  {
    var spaced := " " + s;
    assert spaced[0] == ' ' && spaced[1..] == s;
    assert TrimStart(spaced) == s;
  }

  /** Unless the client offered 204, the echo of an extracted message reads back, to its last byte, as the same
      header block and the same body, or none. */
  lemma EchoRoundTrip(message: Message, cfg: Config)
    requires !Offers204(message)
    requires |message.reqHdr| <= cfg.maxHeaderBytes && |message.body| <= cfg.maxBodyBytes <= MAX_CONFIGURABLE_BODY
    ensures var echo := AllowResponse(message);
      var head := Head("REQMOD", "", "", map["encapsulated" := echo.encapsulated]);
      Extract(echo.payload, 0, head, cfg)
        == Extracted(Message(head, message.reqHdr, message.body), |echo.payload|)
  {
    hide Encapsulated, DecodeFrom, ChunkedBodyOf, Offers204, NatText;
    var n := |message.reqHdr|;
    var payload := AllowResponse(message).payload;
    assert payload[0..n] == message.reqHdr;
    if message.body != "" {
      assert payload[n..n + |ChunkedBodyOf(message.body)|] == ChunkedBodyOf(message.body);
      ChunkedBodyRoundTrip(payload, n, message.body, cfg.maxBodyBytes);
      assert "req-hdr=0, " + ("req-body" + ("=" + NatText(n))) == "req-hdr=0, req-body=" + NatText(n);
      EncapsulatedReads("req-body", n);
    } else {
      assert "req-hdr=0, " + ("null-body" + ("=" + NatText(n))) == "req-hdr=0, null-body=" + NatText(n);
      EncapsulatedReads("null-body", n);
    }
  }

  lemma {:induction false} TrimmedAt(parts: seq<string>)
    ensures |TrimAll(parts)| == |parts| && forall i :: 0 <= i < |parts| ==> TrimAll(parts)[i] == Trim(parts[i])
  {
    hide Trim;
    if parts != [] {
      TrimmedAt(parts[1..]);
    }
  }

  /** The answer is 204 exactly when an entry of the client's Allow list is 204. */
  lemma AnswersExactly(message: Message)
    ensures AllowResponse(message).status[..3] == "204"
            <==> "allow" in message.head.headers
                 && var allowed := Split(message.head.headers["allow"], ",");
                 exists i :: 0 <= i < |allowed| && Trim(allowed[i]) == "204"
  {
    hide Split, Trim, ChunkedBodyOf, NatText;
    assert "200 OK"[2] == '0' && "204 No Content"[..3] == "204";
    if "allow" in message.head.headers {
      TrimmedAt(Split(message.head.headers["allow"], ","));
    }
  }

  /** The last size line of a preview that holds the whole body, and the plain one, which ends any other body. */
  lemma PreviewEnds()
    ensures SizeLine("0; ieof", 0) && HasIeof("0; ieof") && SizeLine("0", 0) && !HasIeof("0")
  {
    hide IndexOf, Split, HexText;
    ZeroLine();
    assert "0; ieof" == "0" + ([';'] + " ieof");
    SplitAt("0", ';', " ieof");
    assert [';'] == ";";
    NoSeparator("0", ';');
    assert ChunkSize("0; ieof") == ChunkSize("0");
    assert " ieof"[1..] == "ieof" && TrimStart(" ieof") == "ieof";
    LowerFixed("ieof");
    assert "0; ieof"[2..] == " ieof";
    assert "0; ieof"[1] == ';';
  }
}
