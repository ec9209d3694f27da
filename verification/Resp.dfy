/**
 The bounded RESP reply parser of scripts/ai-gateway-rate-limiter.js, the command printer beside it,
 and the buffering that feeds the parser from socket chunks.
 */
module Resp {
  import opened Wrappers
  import opened Decimal
  import opened Bytes

  datatype Limits = Limits(
    maxResponseBytes: nat, maxLineBytes: nat, maxBulkBytes: nat,
    maxArrayLength: nat, maxDepth: nat, maxElements: nat)

  predicate ValidLimits(l: Limits) {
    l.maxLineBytes >= 1 && l.maxDepth >= 1 && l.maxElements >= 1
  }

  datatype Reply = Text(bytes: string) | Integer(n: int) | Nil | List(items: seq<Reply>)

  datatype Failure = Incomplete | Malformed | LimitExceeded | RedisError(message: string)

  datatype Parse<T> =
    | Done(value: T, offset: nat, elements: nat)
    | Fail(why: Failure)

  // ---- What one parse step reads, on the whole buffer ----

  function ReadLine(buf: string, offset: nat, elements: nat, l: Limits): (r: Parse<string>)
    requires offset <= |buf|
    ensures r.Done? ==> offset < r.offset <= |buf|
  {
    match IndexOf(buf, CRLF, offset)
    case None => Fail(if |buf| - offset > l.maxLineBytes then LimitExceeded else Incomplete)
    case Some(end) =>
      if end - offset > l.maxLineBytes then Fail(LimitExceeded) else Done(buf[offset..end], end + 2, elements)
  }

  /** `/^-?\d+$/` and a safe integer value */
  function IntegerOf(raw: string): Option<int> {
    var negative := raw != "" && raw[0] == '-';
    var digits := if negative then raw[1..] else raw;
    if digits == "" || !AllDigits(digits) then None
    else
      var value := (if negative then -1 else 1) * DigitsValue(digits);
      if SafeInteger(value) then Some(value) else None
  }

  function ReadInteger(buf: string, offset: nat, elements: nat, l: Limits): (r: Parse<int>)
    requires offset <= |buf|
    ensures r.Done? ==> offset < r.offset <= |buf|
  {
    match ReadLine(buf, offset, elements, l)
    case Fail(why) => Fail(why)
    case Done(raw, next, e) =>
      match IntegerOf(raw)
      case None => Fail(Malformed)
      case Some(n) => Done(n, next, e)
  }

  function ReadBulk(buf: string, offset: nat, elements: nat, l: Limits): (r: Parse<Reply>)
    requires offset <= |buf|
    ensures r.Done? ==> offset < r.offset <= |buf|
  {
    match ReadInteger(buf, offset, elements, l)
    case Fail(why) => Fail(why)
    case Done(length, next, e) =>
      if length == -1 then Done(Nil, next, e)
      else if length < 0 then Fail(Malformed)
      else if length > l.maxBulkBytes then Fail(LimitExceeded)
      else if next + length + 2 > |buf| then Fail(Incomplete)
      else if buf[next + length] != CR || buf[next + length + 1] != LF then Fail(Malformed)
      else Done(Text(buf[next..next + length]), next + length + 2, e)
  }

  function ParseOne(buf: string, offset: nat, elements: nat, depth: nat, l: Limits): (r: Parse<Reply>)
    requires offset <= |buf|
    ensures r.Done? ==> offset < r.offset <= |buf|
    decreases l.maxDepth + 1 - depth, 0
  {
    if depth > l.maxDepth then Fail(LimitExceeded)
    else if elements + 1 > l.maxElements then Fail(LimitExceeded)
    else if offset + 1 > |buf| then Fail(Incomplete)
    else
      var kind := buf[offset];
      if kind == '+' then
        match ReadLine(buf, offset + 1, elements + 1, l)
        case Fail(why) => Fail(why)
        case Done(line, next, e) => Done(Text(line), next, e)
      else if kind == ':' then
        match ReadInteger(buf, offset + 1, elements + 1, l)
        case Fail(why) => Fail(why)
        case Done(n, next, e) => Done(Integer(n), next, e)
      else if kind == '-' then
        match ReadLine(buf, offset + 1, elements + 1, l)
        case Fail(why) => Fail(why)
        case Done(line, _, _) => Fail(RedisError(line))
      else if kind == '$' then ReadBulk(buf, offset + 1, elements + 1, l)
      else if kind == '*' then
        match ReadInteger(buf, offset + 1, elements + 1, l)
        case Fail(why) => Fail(why)
        case Done(length, next, e) =>
          if length == -1 then Done(Nil, next, e)
          else if length < 0 then Fail(Malformed)
          else if length > l.maxArrayLength then Fail(LimitExceeded)
          else
            match ParseMany(buf, next, e, depth + 1, length, l)
            case Fail(why) => Fail(why)
            case Done(items, after, e') => Done(List(items), after, e')
      else Fail(Malformed)
  }

  function ParseMany(buf: string, offset: nat, elements: nat, depth: nat, count: nat, l: Limits): (r: Parse<seq<Reply>>)
    requires offset <= |buf| && depth <= l.maxDepth + 1
    ensures r.Done? ==> offset <= r.offset <= |buf|
    decreases l.maxDepth + 1 - depth, count + 1
  {
    if count == 0 then Done([], offset, elements)
    else
      match ParseOne(buf, offset, elements, depth, l)
      case Fail(why) => Fail(why)
      case Done(first, next, e) =>
        match ParseMany(buf, next, e, depth, count - 1, l)
        case Fail(why) => Fail(why)
        case Done(rest, after, e') => Done([first] + rest, after, e')
  }

  datatype Parsed = Parsed(replies: seq<Reply>, complete: bool) | Failed(why: Failure)

  /** The reply loop, from some offset with some replies already read. */
  function ParseFrom(buf: string, offset: nat, elements: nat, got: seq<Reply>, expected: nat, l: Limits): Parsed
    requires offset <= |buf|
    decreases |buf| - offset
  {
    if offset < |buf| && |got| < expected then
      match ParseOne(buf, offset, elements, 0, l)
      case Fail(why) => Failed(why)
      case Done(reply, next, e) => ParseFrom(buf, next, e, got + [reply], expected, l)
    else if |got| >= expected && offset < |buf| then Failed(Malformed)
    else Parsed(got, |got| >= expected)
  }

  function ParseReplies(buf: string, expected: nat, l: Limits): Parsed {
    if |buf| > l.maxResponseBytes then Failed(LimitExceeded) else ParseFrom(buf, 0, 0, [], expected, l)
  }

  // ---- The parser itself: one cursor and one element count, moved as it reads ----

  datatype Result<T> = Ok(value: T) | Err(why: Failure)

  class Reader {
    const buffer: string
    const limits: Limits
    var offset: nat
    var elements: nat

    constructor (buffer: string, limits: Limits)
      ensures this.buffer == buffer && this.limits == limits && offset == 0 && elements == 0
    {
      this.buffer := buffer;
      this.limits := limits;
      offset, elements := 0, 0;
    }

    /** The outcome and the cursor are those of this step. */
    ghost predicate Follows<T>(r: Result<T>, step: Parse<T>)
      reads this
    {
      match step
      case Done(value, next, e) => r == Ok(value) && offset == next && elements == e && next <= |buffer|
      case Fail(why) => r == Err(why)
    }

    method TakeLine() returns (r: Result<string>)
      requires offset <= |buffer|
      modifies this`offset
      ensures Follows(r, ReadLine(buffer, old(offset), old(elements), limits))
      ensures elements == old(elements)
    {
      var end := IndexOf(buffer, CRLF, offset);
      if end.None? {
        return Err(if |buffer| - offset > limits.maxLineBytes then LimitExceeded else Incomplete);
      }
      if end.value - offset > limits.maxLineBytes {
        return Err(LimitExceeded);
      }
      r := Ok(buffer[offset..end.value]);
      offset := end.value + 2;
    }

    method TakeInteger() returns (r: Result<int>)
      requires offset <= |buffer|
      modifies this`offset
      ensures Follows(r, ReadInteger(buffer, old(offset), old(elements), limits))
      ensures elements == old(elements)
    {
      var raw := TakeLine();
      if raw.Err? {
        return Err(raw.why);
      }
      var n := IntegerOf(raw.value);
      if n.None? {
        return Err(Malformed);
      }
      return Ok(n.value);
    }

    method TakeBulk() returns (r: Result<Reply>)
      requires offset <= |buffer|
      modifies this`offset
      ensures Follows(r, ReadBulk(buffer, old(offset), old(elements), limits))
      ensures elements == old(elements)
    {
      var header := TakeInteger();
      if header.Err? {
        return Err(header.why);
      }
      var length := header.value;
      if length == -1 {
        return Ok(Nil);
      }
      if length < 0 {
        return Err(Malformed);
      }
      if length > limits.maxBulkBytes {
        return Err(LimitExceeded);
      }
      if offset + length + 2 > |buffer| {
        return Err(Incomplete);
      }
      if buffer[offset + length] != CR || buffer[offset + length + 1] != LF {
        return Err(Malformed);
      }
      r := Ok(Text(buffer[offset..offset + length]));
      offset := offset + length + 2;
    }

    method TakeOne(depth: nat) returns (r: Result<Reply>)
      requires offset <= |buffer|
      modifies this`offset, this`elements
      ensures Follows(r, ParseOne(buffer, old(offset), old(elements), depth, limits))
      decreases limits.maxDepth + 1 - depth, 1
    {
      if depth > limits.maxDepth {
        return Err(LimitExceeded);
      }
      elements := elements + 1;
      if elements > limits.maxElements {
        return Err(LimitExceeded);
      }
      if offset + 1 > |buffer| {
        return Err(Incomplete);
      }
      var kind := buffer[offset];
      offset := offset + 1;
      if kind == '+' {
        var line := TakeLine();
        return if line.Ok? then Ok(Text(line.value)) else Err(line.why);
      }
      if kind == ':' {
        var n := TakeInteger();
        return if n.Ok? then Ok(Integer(n.value)) else Err(n.why);
      }
      if kind == '-' {
        var line := TakeLine();
        return Err(if line.Ok? then RedisError(line.value) else line.why);
      }
      if kind == '$' {
        r := TakeBulk();
        return;
      }
      if kind == '*' {
        r := TakeArray(depth);
        return;
      }
      return Err(Malformed);
    }

    /** The `*` branch, after its type byte. */
    method TakeArray(depth: nat) returns (r: Result<Reply>)
      requires 0 < offset <= |buffer| && buffer[offset - 1] == '*'
      requires depth <= limits.maxDepth && 0 < elements <= limits.maxElements
      modifies this`offset, this`elements
      ensures Follows(r, ParseOne(buffer, old(offset) - 1, old(elements) - 1, depth, limits))
      decreases limits.maxDepth + 1 - depth, 0
    {
      var header := TakeInteger();
      if header.Err? {
        return Err(header.why);
      }
      var length := header.value;
      if length == -1 {
        return Ok(Nil);
      }
      if length < 0 {
        return Err(Malformed);
      }
      if length > limits.maxArrayLength {
        return Err(LimitExceeded);
      }
      var items := TakeItems(depth + 1, length);
      return if items.Ok? then Ok(List(items.value)) else Err(items.why);
    }

    method TakeItems(depth: nat, count: nat) returns (r: Result<seq<Reply>>)
      requires offset <= |buffer| && depth <= limits.maxDepth + 1
      modifies this`offset, this`elements
      ensures Follows(r, ParseMany(buffer, old(offset), old(elements), depth, count, limits))
      decreases limits.maxDepth + 1 - depth, 2
    {
      hide ParseOne, ParseMany, Prepend;
      var values: seq<Reply> := [];
      PrependNothing(ParseMany(buffer, offset, elements, depth, count, limits));
      for i := 0 to count
        invariant offset <= |buffer|
        invariant ParseMany(buffer, old(offset), old(elements), depth, count, limits)
               == Prepend(values, ParseMany(buffer, offset, elements, depth, count - i, limits))
      {
        ManyStep(values, buffer, offset, elements, depth, count - i, limits);
        var item := TakeOne(depth);
        if item.Err? {
          return Err(item.why);
        }
        values := values + [item.value];
      }
      NoneLeft(values, buffer, offset, elements, depth, limits);
      return Ok(values);
    }
  }

  /** One more item read, after those in front. */
  lemma ManyStep(front: seq<Reply>, buf: string, offset: nat, elements: nat, depth: nat, count: nat, l: Limits)
    requires offset <= |buf| && depth <= l.maxDepth + 1 && count > 0
    ensures var first := ParseOne(buf, offset, elements, depth, l);
      Prepend(front, ParseMany(buf, offset, elements, depth, count, l))
      == if first.Fail? then Fail(first.why)
         else Prepend(front + [first.value], ParseMany(buf, first.offset, first.elements, depth, count - 1, l))
  {
    var first := ParseOne(buf, offset, elements, depth, l);
    hide ParseOne;
    if first.Done? {
      PrependStep(front, first.value, ParseMany(buf, first.offset, first.elements, depth, count - 1, l));
    }
  }

  lemma NoneLeft(front: seq<Reply>, buf: string, offset: nat, elements: nat, depth: nat, l: Limits)
    requires offset <= |buf| && depth <= l.maxDepth + 1
    ensures Prepend(front, ParseMany(buf, offset, elements, depth, 0, l)) == Done(front, offset, elements)
  {
    assert front + [] == front;
  }

  function Prepend(front: seq<Reply>, rest: Parse<seq<Reply>>): Parse<seq<Reply>> {
    match rest
    case Fail(why) => Fail(why)
    case Done(items, offset, elements) => Done(front + items, offset, elements)
  }

  lemma PrependNothing(rest: Parse<seq<Reply>>)
    ensures Prepend([], rest) == rest
  {
    if rest.Done? {
      assert [] + rest.value == rest.value;
    }
  }

  lemma PrependStep(front: seq<Reply>, item: Reply, rest: Parse<seq<Reply>>)
    ensures Prepend(front, Prepend([item], rest)) == Prepend(front + [item], rest)
  {
    if rest.Done? {
      assert front + ([item] + rest.value) == front + [item] + rest.value;
    }
  }

  method ParseRespReplies(input: string, expected: nat, limits: Limits) returns (result: Parsed)
    ensures result == ParseReplies(input, expected, limits)
  {
    if |input| > limits.maxResponseBytes {
      return Failed(LimitExceeded);
    }
    var reader := new Reader(input, limits);
    var replies: seq<Reply> := [];
    while reader.offset < |input| && |replies| < expected
      invariant reader.buffer == input && reader.limits == limits && reader.offset <= |input|
      invariant ParseReplies(input, expected, limits)
             == ParseFrom(input, reader.offset, reader.elements, replies, expected, limits)
      decreases |input| - reader.offset
    {
      var reply := reader.TakeOne(0);
      if reply.Err? {
        return Failed(reply.why);
      }
      replies := replies + [reply.value];
    }
    if |replies| >= expected && reader.offset < |input| {
      return Failed(Malformed);
    }
    return Parsed(replies, |replies| >= expected);
  }
}
