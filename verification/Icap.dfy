/**
 The ICAP side of scripts/squid-icap-bridge.js: header blocks, the Encapsulated list, chunked bodies,
 message extraction from a socket buffer, and the echo of an allowed request.
 */
module Icap {
  import opened Wrappers
  import opened Decimal
  import opened Bytes

  // ---- Text helpers ----

  predicate IsSpace(c: char) {
    c == ' ' || '\t' <= c <= '\r' || c as int == 160
  }

  function TrimStart(s: string): string {
    if s != "" && IsSpace(s[0]) then TrimStart(s[1..]) else s
  }

  function TrimEnd(s: string): string {
    if s != "" && IsSpace(s[|s| - 1]) then TrimEnd(s[..|s| - 1]) else s
  }

  function Trim(s: string): string {
    TrimEnd(TrimStart(s))
  }

  function Upper(s: string): string {
    if s == "" then "" else [if 'a' <= s[0] <= 'z' then s[0] - 'a' + 'A' else s[0]] + Upper(s[1..])
  }

  function Split(s: string, separator: string): (parts: seq<string>)
    requires separator != ""
    ensures parts != []
    decreases |s|
  {
    match IndexOf(s, separator, 0)
    case None => [s]
    case Some(i) => [s[..i]] + Split(s[i + |separator|..], separator)
  }

  function NotEmpty(parts: seq<string>): seq<string> {
    if parts == [] then []
    else (if parts[0] == "" then [] else [parts[0]]) + NotEmpty(parts[1..])
  }

  // ---- Heads ----

  datatype Head = Head(method_: string, uri: string, version: string, headers: map<string, string>)

  /** `Name: value` lines after the request line; a line without a name is a malformation. */
  function HeaderLines(lines: seq<string>, headers: map<string, string>): Option<map<string, string>> {
    if lines == [] then Some(headers)
    else if lines[0] == "" then HeaderLines(lines[1..], headers)
    else
      match IndexOf(lines[0], ":", 0)
      case None => None
      case Some(i) =>
        if i == 0 then None
        else HeaderLines(lines[1..], headers[Lower(Trim(lines[0][..i])) := Trim(lines[0][i + 1..])])
  }

  function HeaderBlock(text: string, maxHeaders: nat): Option<Head> {
    var lines := Split(text, CRLF);
    var request := NotEmpty(Split(lines[0], " "));
    if |request| != 3 || |lines| - 1 > maxHeaders then None
    else
      match HeaderLines(lines[1..], map[])
      case None => None
      case Some(headers) => Some(Head(Upper(request[0]), request[1], request[2], headers))
  }

  method ParseHeaderBlock(text: string, maxHeaders: nat) returns (head: Option<Head>)
    ensures head == HeaderBlock(text, maxHeaders)
  {
    var lines := Split(text, CRLF);
    var request := NotEmpty(Split(lines[0], " "));
    if |request| != 3 || |lines| - 1 > maxHeaders {
      return None;
    }
    var headers: map<string, string> := map[];
    for i := 1 to |lines|
      invariant HeaderLines(lines[1..], map[]) == HeaderLines(lines[i..], headers)
    {
      assert lines[i..][1..] == lines[i + 1..];
      if lines[i] == "" {
        continue;
      }
      var colon := IndexOf(lines[i], ":", 0);
      if colon.None? || colon.value == 0 {
        return None;
      }
      headers := headers[Lower(Trim(lines[i][..colon.value])) := Trim(lines[i][colon.value + 1..])];
    }
    return Some(Head(Upper(request[0]), request[1], request[2], headers));
  }

  /** `Number(text)` for decimal integers; the empty text is 0, a negative value is none. */
  function OffsetOf(text: string): Option<nat> {
    if text == "" then Some(0)
    else
      var signed := text[0] == '-' || text[0] == '+';
      var digits := if signed then text[1..] else text;
      if digits == "" || !AllDigits(digits) then None
      else if text[0] == '-' && DigitsValue(digits) != 0 then None
      else Some(DigitsValue(digits))
  }

  datatype Section = Section(name: string, offset: nat)

  function Sections(parts: seq<string>): Option<seq<Section>> {
    if parts == [] then Some([])
    else if Trim(parts[0]) == "" then Sections(parts[1..])
    else
      match IndexOf(parts[0], "=", 0)
      case None => None
      case Some(eq) =>
        match (OffsetOf(Trim(parts[0][eq + 1..])), Sections(parts[1..]))
        case (Some(offset), Some(rest)) => Some([Section(Lower(Trim(parts[0][..eq])), offset)] + rest)
        case _ => None
  }

  function Encapsulated(value: string): Option<seq<Section>> {
    Sections(Split(value, ","))
  }

  function Front(pairs: seq<Section>, rest: Option<seq<Section>>): Option<seq<Section>> {
    if rest.None? then None else Some(pairs + rest.value)
  }

  lemma FrontNothing(rest: Option<seq<Section>>)
    ensures Front([], rest) == rest
  {
    assert rest.Some? ==> [] + rest.value == rest.value;
  }

  lemma FrontStep(pairs: seq<Section>, pair: Section, rest: Option<seq<Section>>)
    ensures Front(pairs, Front([pair], rest)) == Front(pairs + [pair], rest)
  {
    assert rest.Some? ==> pairs + ([pair] + rest.value) == pairs + [pair] + rest.value;
  }

  method ParseEncapsulated(value: string) returns (out: Option<seq<Section>>)
    ensures out == Encapsulated(value)
  {
    hide Trim, Lower, OffsetOf, IndexOf, Split;
    var parts := Split(value, ",");
    var pairs: seq<Section> := [];
    FrontNothing(Sections(parts));
    for i := 0 to |parts|
      invariant Sections(parts) == Front(pairs, Sections(parts[i..]))
    {
      assert parts[i..][1..] == parts[i + 1..];
      if Trim(parts[i]) == "" {
        continue;
      }
      var eq := IndexOf(parts[i], "=", 0);
      if eq.None? {
        return None;
      }
      var offset := OffsetOf(Trim(parts[i][eq.value + 1..]));
      if offset.None? {
        return None;
      }
      var pair := Section(Lower(Trim(parts[i][..eq.value])), offset.value);
      FrontStep(pairs, pair, Sections(parts[i + 1..]));
      pairs := pairs + [pair];
    }
    assert pairs + [] == pairs;
    return Some(pairs);
  }

  // ---- Chunked bodies ----

  const MAX_SIZE_LINE := 64

  function HexValue(c: char): Option<nat> {
    if '0' <= c <= '9' then Some(c as nat - '0' as nat)
    else if 'a' <= c <= 'f' then Some(c as nat - 'a' as nat + 10)
    else if 'A' <= c <= 'F' then Some(c as nat - 'A' as nat + 10)
    else None
  }

  /** The longest run of hex digits, read after `acc`. */
  function HexRun(s: string, acc: nat): nat {
    if s == "" || HexValue(s[0]).None? then acc else HexRun(s[1..], acc * 16 + HexValue(s[0]).value)
  }

  /** `Number.parseInt(text, 16)` */
  function ParseHex(text: string): Option<int> {
    var s := TrimStart(text);
    var signed := s != "" && (s[0] == '-' || s[0] == '+');
    var body := if signed then s[1..] else s;
    var digits := if |body| >= 2 && body[0] == '0' && (body[1] == 'x' || body[1] == 'X') then body[2..] else body;
    if digits == "" || HexValue(digits[0]).None? then None
    else Some((if signed && s[0] == '-' then -1 else 1) * HexRun(digits, 0))
  }

  function ChunkSize(line: string): Option<int> {
    ParseHex(Trim(Split(line, ";")[0]))
  }

  /** `/;\s*ieof/i` */
  predicate HasIeof(line: string) {
    exists i :: 0 <= i < |line| && line[i] == ';' && "ieof" <= Lower(TrimStart(line[i + 1..]))
  }

  datatype Chunked =
    | NeedMore
    | ChunkError
    | TooLarge
    | ChunkedBody(body: string, end: nat, ieof: bool)

  /** Decoding from `pos` with `total` bytes announced and `body` gathered so far. */
  function DecodeFrom(buf: string, pos: nat, total: nat, body: string, maxBytes: nat): (r: Chunked)
    requires pos <= |buf|
    ensures r.ChunkedBody? ==> pos < r.end <= |buf|
    decreases |buf| - pos
  {
    match IndexOf(buf, CRLF, pos)
    case None => if |buf| - pos > MAX_SIZE_LINE then ChunkError else NeedMore
    case Some(lineEnd) =>
      if lineEnd - pos > MAX_SIZE_LINE then ChunkError
      else
        var line := buf[pos..lineEnd];
        match ChunkSize(line)
        case None => ChunkError
        case Some(size) =>
          if size < 0 then ChunkError
          else if size == 0 then
            if |buf| < lineEnd + 4 then NeedMore
            else if buf[lineEnd + 2] != CR || buf[lineEnd + 3] != LF then ChunkError
            else ChunkedBody(body, lineEnd + 4, HasIeof(line))
          else if total + size > maxBytes then TooLarge
          else if |buf| < lineEnd + 2 + size + 2 then NeedMore
          else
            DecodeFrom(buf, lineEnd + 2 + size + 2, total + size, body + buf[lineEnd + 2..lineEnd + 2 + size], maxBytes)
  }

  method DecodeChunked(buffer: string, offset: nat, maxBytes: nat) returns (r: Chunked)
    requires offset <= |buffer|
    ensures r == DecodeFrom(buffer, offset, 0, "", maxBytes)
  {
    hide IndexOf, ChunkSize, HasIeof;
    var parts: seq<string> := [];
    var pos, total: nat := offset, 0;
    while true
      invariant offset <= pos <= |buffer|
      invariant DecodeFrom(buffer, offset, 0, "", maxBytes) == DecodeFrom(buffer, pos, total, Concat(parts), maxBytes)
      decreases |buffer| - pos
    {
      var lineEnd := IndexOf(buffer, CRLF, pos);
      if lineEnd.None? {
        return if |buffer| - pos > MAX_SIZE_LINE then ChunkError else NeedMore;
      }
      var at := lineEnd.value;
      if at - pos > MAX_SIZE_LINE {
        return ChunkError;
      }
      var sizeLine := buffer[pos..at];
      var size := ChunkSize(sizeLine);
      if size.None? || size.value < 0 {
        return ChunkError;
      }
      if size.value == 0 {
        if |buffer| < at + 4 {
          return NeedMore;
        }
        if buffer[at + 2] != CR || buffer[at + 3] != LF {
          return ChunkError;
        }
        return ChunkedBody(Concat(parts), at + 4, HasIeof(sizeLine));
      }
      total := total + size.value;
      if total > maxBytes {
        return TooLarge;
      }
      var dataStart := at + 2;
      if |buffer| < dataStart + size.value + 2 {
        return NeedMore;
      }
      var data := buffer[dataStart..dataStart + size.value];
      ConcatAppend(parts, data);
      parts := parts + [data];
      pos := dataStart + size.value + 2;
    }
  }

  /** `n.toString(16)` */
  function HexText(n: nat): string {
    if n < 16 then [HexDigit(n)] else HexText(n / 16) + [HexDigit(n % 16)]
  }

  function ChunkedBodyOf(body: string): string {
    (HexText(|body|) + CRLF) + (body + (CRLF + ("0" + (CRLF + CRLF))))
  }

  // ---- Messages ----

  datatype Config = Config(maxBodyBytes: nat, maxHeaderBytes: nat, maxHeaders: nat, maxRawBytes: nat)

  datatype Message = Message(head: Head, reqHdr: string, body: string)

  datatype Reason =
    | IcapHeaderOverflow | IcapMalformed | HttpHeaderOverflow | IcapChunkMalformed | PreviewUnsupported

  datatype Extraction =
    | Waiting
    | Malformed(reason: Reason)
    | BodyTooLarge
    | Extracted(message: Message, end: nat)

  function EncapsulatedHeader(head: Head): string {
    if "encapsulated" in head.headers && head.headers["encapsulated"] != "" then head.headers["encapsulated"]
    else "null-body=0"
  }

  function Extract(buf: string, bodyStart: nat, head: Head, cfg: Config): (r: Extraction)
    requires bodyStart <= |buf|
    ensures r.Extracted? ==> bodyStart <= r.end <= |buf|
  {
    match Encapsulated(EncapsulatedHeader(head))
    case None => Malformed(IcapMalformed)
    case Some(enc) => ExtractSections(buf, bodyStart, head, enc, cfg)
  }

  function ExtractSections(buf: string, bodyStart: nat, head: Head, enc: seq<Section>, cfg: Config): (r: Extraction)
    requires bodyStart <= |buf|
    ensures r.Extracted? ==> bodyStart <= r.end <= |buf|
  {
    if head.method_ == "OPTIONS" || enc == [Section("null-body", 0)] then
      Extracted(Message(head, "", ""), bodyStart)
    else if |enc| != 2 || enc[0] != Section("req-hdr", 0) then Malformed(IcapMalformed)
    else
      var hdrLen := enc[1].offset;
      if hdrLen > cfg.maxHeaderBytes then Malformed(HttpHeaderOverflow)
      else if |buf| < bodyStart + hdrLen then Waiting
      else
        var reqHdr := buf[bodyStart..bodyStart + hdrLen];
        if enc[1].name == "null-body" then Extracted(Message(head, reqHdr, ""), bodyStart + hdrLen)
        else if enc[1].name != "req-body" then Malformed(IcapMalformed)
        else
          match DecodeFrom(buf, bodyStart + hdrLen, 0, "", cfg.maxBodyBytes)
          case NeedMore => Waiting
          case TooLarge => BodyTooLarge
          case ChunkError => Malformed(IcapChunkMalformed)
          case ChunkedBody(body, end, ieof) =>
            if "preview" in head.headers && !ieof then Malformed(PreviewUnsupported)
            else Extracted(Message(head, reqHdr, body), end)
  }

  const HEAD_END := "\r\n\r\n"

  function TryExtract(buf: string, cfg: Config): (r: Extraction)
    ensures r.Extracted? ==> 0 < r.end <= |buf|
  {
    match IndexOf(buf, HEAD_END, 0)
    case None => if |buf| > cfg.maxHeaderBytes then Malformed(IcapHeaderOverflow) else Waiting
    case Some(headerEnd) =>
      if headerEnd > cfg.maxHeaderBytes then Malformed(IcapHeaderOverflow)
      else
        match HeaderBlock(buf[..headerEnd], cfg.maxHeaders)
        case None => Malformed(IcapMalformed)
        case Some(head) =>
          if !("ICAP/" <= head.version) then Malformed(IcapMalformed)
          else Extract(buf, headerEnd + 4, head, cfg)
  }

  method TryExtractMessage(buffer: string, cfg: Config) returns (r: Extraction)
    ensures r == TryExtract(buffer, cfg)
  {
    var found := IndexOf(buffer, HEAD_END, 0);
    if found.None? {
      return if |buffer| > cfg.maxHeaderBytes then Malformed(IcapHeaderOverflow) else Waiting;
    }
    var headerEnd := found.value;
    if headerEnd > cfg.maxHeaderBytes {
      return Malformed(IcapHeaderOverflow);
    }
    var head := ParseHeaderBlock(buffer[..headerEnd], cfg.maxHeaders);
    if head.None? || !("ICAP/" <= head.value.version) {
      return Malformed(IcapMalformed);
    }
    r := ExtractEncapsulated(buffer, headerEnd + 4, head.value, cfg);
  }

  method ExtractEncapsulated(buffer: string, bodyStart: nat, head: Head, cfg: Config) returns (r: Extraction)
    requires bodyStart <= |buffer|
    ensures r == Extract(buffer, bodyStart, head, cfg)
  {
    hide Encapsulated, EncapsulatedHeader, DecodeFrom;
    var enc := ParseEncapsulated(EncapsulatedHeader(head));
    if enc.None? {
      return Malformed(IcapMalformed);
    }
    var sections := enc.value;
    if head.method_ == "OPTIONS" || sections == [Section("null-body", 0)] {
      return Extracted(Message(head, "", ""), bodyStart);
    }
    if |sections| != 2 || sections[0] != Section("req-hdr", 0) {
      return Malformed(IcapMalformed);
    }
    var hdrLen := sections[1].offset;
    if hdrLen > cfg.maxHeaderBytes {
      return Malformed(HttpHeaderOverflow);
    }
    if |buffer| < bodyStart + hdrLen {
      return Waiting;
    }
    var reqHdr := buffer[bodyStart..bodyStart + hdrLen];
    if sections[1].name == "null-body" {
      return Extracted(Message(head, reqHdr, ""), bodyStart + hdrLen);
    }
    if sections[1].name != "req-body" {
      return Malformed(IcapMalformed);
    }
    var decoded := DecodeChunked(buffer, bodyStart + hdrLen, cfg.maxBodyBytes);
    match decoded
    case NeedMore => return Waiting;
    case TooLarge => return BodyTooLarge;
    case ChunkError => return Malformed(IcapChunkMalformed);
    case ChunkedBody(body, end, ieof) =>
      if "preview" in head.headers && !ieof {
        return Malformed(PreviewUnsupported);
      }
      return Extracted(Message(head, reqHdr, body), end);
  }

  // ---- One connection ----

  /** The socket state, with what it has handed to the message handler and written back. */
  datatype State = State(
    buffer: string, busy: bool, dead: bool, delivered: seq<Message>, answered: seq<string>)

  /** `processBuffer` */
  function Process(s: State, cfg: Config): State {
    if s.dead || s.busy then s
    else
      match TryExtract(s.buffer, cfg)
      case Waiting => s
      case Malformed(_) => s.(dead := true)
      case BodyTooLarge => s.(dead := true)
      case Extracted(message, end) =>
        s.(buffer := s.buffer[end..], busy := true, delivered := s.delivered + [message])
  }

  /** `onSocketData` */
  function Receive(s: State, chunk: string, cfg: Config): State {
    if s.dead then s
    else
      var s' := s.(buffer := s.buffer + chunk);
      if |s'.buffer| > cfg.maxRawBytes then s'.(dead := true) else Process(s', cfg)
  }

  /** The handler of the message in flight writes its one response and hands the socket back. */
  function Finish(s: State, response: string, cfg: Config): State {
    if !s.busy then s else Process(s.(busy := false, answered := s.answered + [response]), cfg)
  }

  class Connection {
    const cfg: Config
    var buffer: string
    var busy: bool
    var dead: bool
    ghost var delivered: seq<Message>
    ghost var answered: seq<string>

    ghost function Abstract(): State
      reads this
    {
      State(buffer, busy, dead, delivered, answered)
    }

    constructor (cfg: Config)
      ensures this.cfg == cfg && Abstract() == State("", false, false, [], [])
    {
      this.cfg := cfg;
      buffer, busy, dead, delivered, answered := "", false, false, [], [];
    }

    method ProcessBuffer() returns (inFlight: Option<Message>)
      modifies this
      ensures Abstract() == Process(old(Abstract()), cfg)
      ensures inFlight.Some? <==> delivered != old(delivered)
      ensures inFlight.Some? ==> delivered == old(delivered) + [inFlight.value]
    {
      if dead || busy {
        return None;
      }
      var result := TryExtractMessage(buffer, cfg);
      match result
      case Waiting => return None;
      case Malformed(_) =>
        dead := true;
        return None;
      case BodyTooLarge =>
        dead := true;
        return None;
      case Extracted(message, end) =>
        buffer := buffer[end..];
        busy := true;
        delivered := delivered + [message];
        return Some(message);
    }

    method OnSocketData(chunk: string)
      modifies this
      ensures Abstract() == Receive(old(Abstract()), chunk, cfg)
    {
      if dead {
        return;
      }
      buffer := buffer + chunk;
      if |buffer| > cfg.maxRawBytes {
        dead := true;
        return;
      }
      var _ := ProcessBuffer();
    }

    method OnHandled(response: string)
      modifies this
      ensures Abstract() == Finish(old(Abstract()), response, cfg)
    {
      if !busy {
        return;
      }
      busy := false;
      answered := answered + [response];
      var _ := ProcessBuffer();
    }
  }

  // ---- The echo of an allowed request ----

  function Offers204(message: Message): bool {
    "allow" in message.head.headers && "204" in TrimAll(Split(message.head.headers["allow"], ","))
  }

  function TrimAll(parts: seq<string>): seq<string> {
    if parts == [] then [] else [Trim(parts[0])] + TrimAll(parts[1..])
  }

  datatype Response = Response(status: string, encapsulated: string, payload: string)

  function AllowResponse(message: Message): Response {
    if Offers204(message) then Response("204 No Content", "null-body=0", "")
    else if message.body != "" then
      Response("200 OK", "req-hdr=0, req-body=" + NatText(|message.reqHdr|),
               message.reqHdr + ChunkedBodyOf(message.body))
    else
      Response("200 OK", "req-hdr=0, null-body=" + NatText(|message.reqHdr|), message.reqHdr)
  }
}
