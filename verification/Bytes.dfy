/** Byte strings and searching in them. A byte is a character of a `string`. */
module Bytes {
  import opened Wrappers
  import opened Decimal

  const CR := '\r'
  const LF := '\n'
  const CRLF := "\r\n"

  /** `buf.indexOf(pattern, from)` */
  function IndexOf(buf: string, pattern: string, from: nat): (r: Option<nat>)
    requires from <= |buf|
    ensures r.Some? ==> from <= r.value && r.value + |pattern| <= |buf|
    decreases |buf| - from
  {
    if from + |pattern| > |buf| then None
    else if buf[from..from + |pattern|] == pattern then Some(from)
    else if from == |buf| then None
    else IndexOf(buf, pattern, from + 1)
  }

  predicate At(buf: string, pattern: string, i: nat) {
    i + |pattern| <= |buf| && buf[i..i + |pattern|] == pattern
  }

  lemma AtSplit(buf: string, a: string, b: string, i: nat)
    ensures At(buf, a + b, i) <==> At(buf, a, i) && At(buf, b, i + |a|)
  {
    if i + |a| + |b| <= |buf| {
      assert buf[i..i + |a| + |b|] == buf[i..i + |a|] + buf[i + |a|..i + |a| + |b|];
      assert (a + b)[..|a|] == a && (a + b)[|a|..] == b;
    }
  }

  lemma IndexOfIsFirst(buf: string, pattern: string, from: nat)
    requires from <= |buf|
    ensures IndexOf(buf, pattern, from).Some? ==> At(buf, pattern, IndexOf(buf, pattern, from).value)
    ensures forall i :: from <= i && At(buf, pattern, i) ==>
      IndexOf(buf, pattern, from).Some? && IndexOf(buf, pattern, from).value <= i
    decreases |buf| - from
  {
    if from + |pattern| <= |buf| && buf[from..from + |pattern|] != pattern && from < |buf| {
      IndexOfIsFirst(buf, pattern, from + 1);
    }
  }

  lemma IndexOfUnique(buf: string, pattern: string, from: nat, i: nat)
    requires from <= i && At(buf, pattern, i) && from <= |buf|
    requires forall j :: from <= j < i ==> !At(buf, pattern, j)
    ensures IndexOf(buf, pattern, from) == Some(i)
  {
    IndexOfIsFirst(buf, pattern, from);
  }

  /** Looking in a prefix: what it finds is what the whole has, and what it misses ends beyond it. */
  lemma IndexOfInPrefix(p: string, buf: string, pattern: string, from: nat)
    requires p <= buf && from <= |p|
    ensures IndexOf(p, pattern, from).Some? ==> IndexOf(buf, pattern, from) == IndexOf(p, pattern, from)
    ensures IndexOf(p, pattern, from).None? && IndexOf(buf, pattern, from).Some? ==>
      |p| < IndexOf(buf, pattern, from).value + |pattern|
    decreases |p| - from
  {
    if from + |pattern| <= |p| {
      assert p[from..from + |pattern|] == buf[from..from + |pattern|];
      if p[from..from + |pattern|] != pattern && from < |p| {
        IndexOfInPrefix(p, buf, pattern, from + 1);
      }
    } else if IndexOf(buf, pattern, from).Some? {
      assert from <= IndexOf(buf, pattern, from).value;
    }
  }

  predicate EndsWithCrlf(buf: string) {
    |buf| >= 2 && buf[|buf| - 2] == CR && buf[|buf| - 1] == LF
  }

  predicate HasNoCrlf(line: string) {
    forall i :: 0 <= i < |line| - 1 ==> !(line[i] == CR && line[i + 1] == LF)
  }

  lemma AtCrlf(buf: string, i: nat)
    ensures At(buf, CRLF, i) <==> i + 2 <= |buf| && buf[i] == CR && buf[i + 1] == LF
  {
    if i + 2 <= |buf| {
      assert buf[i..i + 2] == [buf[i], buf[i + 1]];
    }
  }

  /** A line without a CRLF of its own ends at the first CRLF after it. */
  lemma LineEnd(buf: string, offset: nat, line: string)
    requires HasNoCrlf(line) && offset + |line| + 2 <= |buf|
    requires buf[offset..offset + |line|] == line
    requires buf[offset + |line|] == CR && buf[offset + |line| + 1] == LF
    ensures IndexOf(buf, CRLF, offset) == Some(offset + |line|)
  {
    var end := offset + |line|;
    AtCrlf(buf, end);
    forall j | offset <= j < end ensures !At(buf, CRLF, j) {
      AtCrlf(buf, j);
      assert buf[j] == line[j - offset];
      assert j + 1 < end ==> buf[j + 1] == line[j + 1 - offset];
    }
    IndexOfUnique(buf, CRLF, offset, end);
  }

  lemma DigitsHaveNoCrlf(n: int)
    ensures HasNoCrlf(IntText(n))
  {
    assert forall i :: 0 <= i < |IntText(n)| ==> IntText(n)[i] == '-' || IsDigit(IntText(n)[i]);
  }

  function Concat(parts: seq<string>): string {
    if parts == [] then "" else parts[0] + Concat(parts[1..])
  }

  lemma {:induction false} ConcatAppend(parts: seq<string>, last: string)
    ensures Concat(parts + [last]) == Concat(parts) + last
  {
    if parts == [] {
      assert parts + [last] == [last];
    } else {
      assert (parts + [last])[1..] == parts[1..] + [last];
      ConcatAppend(parts[1..], last);
    }
  }
}
