/**
 JSON values and the deterministic printer that every audit hash and MAC is taken over.

 An object keeps its members in insertion order, as a JavaScript object does. Reading objects as
 maps is a separate notion, `Same`. A number too large for a double, such as `1e400`, is parsed as an
 infinity and printed as `null`, so printing cannot tell the two apart; `Equiv` is `Same` but for that.
 The theorems of this module are that two values print the same exactly when they are `Equiv`, and that
 a value is told apart from every other exactly when it holds no `null` and no infinity.
 */
module CanonicalJson {
  import opened Decimal

  /** `Num` carries the shortest decimal text of a finite number, which determines the number; the two zeros
      are one. */
  datatype Json =
    | Null
    | Bool(b: bool)
    | Num(token: string)
    | Infinite(negative: bool)
    | Str(text: string)
    | Arr(items: seq<Json>)
    | Obj(fields: seq<Field>)

  datatype Field = Field(key: string, value: Json)

  // ---- Objects as key-value collections ----

  function Keys(fields: seq<Field>): (keys: seq<string>)
    ensures |keys| == |fields|
    ensures forall i :: 0 <= i < |fields| ==> keys[i] == fields[i].key
  {
    if fields == [] then [] else [fields[0].key] + Keys(fields[1..])
  }

  predicate Distinct(keys: seq<string>) {
    forall i, j :: 0 <= i < j < |keys| ==> keys[i] != keys[j]
  }

  predicate HasKey(fields: seq<Field>, key: string) {
    exists i :: 0 <= i < |fields| && fields[i].key == key
  }

  /** The value of the first member with this key. */
  function Lookup(fields: seq<Field>, key: string): (value: Json)
    requires HasKey(fields, key)
    ensures Field(key, value) in fields
  {
    if fields[0].key == key then fields[0].value else Lookup(fields[1..], key)
  }

  /** `const { key, ...rest } = fields` */
  function Without(fields: seq<Field>, key: string): seq<Field> {
    if fields == [] then []
    else if fields[0].key == key then Without(fields[1..], key)
    else [fields[0]] + Without(fields[1..], key)
  }

  lemma WithoutMembers(fields: seq<Field>, key: string)
    ensures forall f :: f in Without(fields, key) <==> f in fields && f.key != key
  {
  }

  /** `{ ...fields, key: value }` */
  function With(fields: seq<Field>, key: string, value: Json): seq<Field> {
    Without(fields, key) + [Field(key, value)]
  }

  // ---- Well-formed values: everything JSON.parse delivers is one ----

  predicate IsNumberChar(c: char) {
    '0' <= c <= '9' || c == '-' || c == '+' || c == '.' || c == 'e' || c == 'E'
  }

  predicate IsNumberToken(s: string) {
    s != "" && (s[0] == '-' || '0' <= s[0] <= '9') && forall c :: c in s ==> IsNumberChar(c)
  }

  predicate WellFormed(v: Json) {
    match v
    case Num(token) => IsNumberToken(token)
    case Arr(items) => forall x :: x in items ==> WellFormed(x)
    case Obj(fields) => Distinct(Keys(fields)) && forall f :: f in fields ==> WellFormed(f.value)
    case _ => true
  }

  /** `null`, or what is printed as `null`. */
  predicate Nullish(v: Json) {
    v.Null? || v.Infinite?
  }

  /** Equality of JSON values, with objects read as maps. */
  ghost predicate Same(v: Json, w: Json) {
    match v
    case Arr(items) =>
      && w.Arr?
      && |items| == |w.items|
      && forall i :: 0 <= i < |items| ==> Same(items[i], w.items[i])
    case Obj(fields) =>
      && w.Obj?
      && (forall k :: HasKey(fields, k) <==> HasKey(w.fields, k))
      && forall k :: HasKey(fields, k) && HasKey(w.fields, k) ==> Same(Lookup(fields, k), Lookup(w.fields, k))
    case _ => v == w
  }

  /** The same, with infinities read as `null`. */
  ghost predicate Equiv(v: Json, w: Json) {
    match v
    case Arr(items) =>
      && w.Arr?
      && |items| == |w.items|
      && forall i :: 0 <= i < |items| ==> Equiv(items[i], w.items[i])
    case Obj(fields) =>
      && w.Obj?
      && (forall k :: HasKey(fields, k) <==> HasKey(w.fields, k))
      && forall k :: HasKey(fields, k) && HasKey(w.fields, k) ==> Equiv(Lookup(fields, k), Lookup(w.fields, k))
    case _ => v == w || (Nullish(v) && Nullish(w))
  }

  // ---- The printer ----

  function EscapeChar(c: char): (s: string)
    ensures s != "" && s[0] != '\"'
  {
    if c == '\"' then "\\\""
    else if c == '\\' then "\\\\"
    else if c == 8 as char then "\\b"
    else if c == 12 as char then "\\f"
    else if c == '\n' then "\\n"
    else if c == '\r' then "\\r"
    else if c == '\t' then "\\t"
    else if c < ' ' then "\\u00" + [HexDigit(c as nat / 16), HexDigit(c as nat % 16)]
    else [c]
  }

  function Escape(s: string): string {
    if s == "" then "" else EscapeChar(s[0]) + Escape(s[1..])
  }

  function Quote(s: string): string {
    "\"" + Escape(s) + "\""
  }

  predicate Less(a: string, b: string) {
    b != "" && (a == "" || a[0] < b[0] || (a[0] == b[0] && Less(a[1..], b[1..])))
  }

  function Insert(key: string, sorted: seq<string>): seq<string> {
    if sorted == [] || !Less(sorted[0], key) then [key] + sorted
    else [sorted[0]] + Insert(key, sorted[1..])
  }

  function Sort(keys: seq<string>): seq<string> {
    if keys == [] then [] else Insert(keys[0], Sort(keys[1..]))
  }

  function Join(parts: seq<string>): string {
    if |parts| == 0 then ""
    else if |parts| == 1 then parts[0]
    else parts[0] + "," + Join(parts[1..])
  }

  /** Deterministic JSON: object keys sorted recursively. */
  function Canonical(v: Json): string
    decreases v, 1
  {
    match v
    case Null => "null"
    case Bool(b) => if b then "true" else "false"
    case Num(token) => token
    case Infinite(_) => "null"
    case Str(text) => Quote(text)
    case Arr(items) => "[" + Join(CanonicalItems(items)) + "]"
    case Obj(fields) =>
      SortElements(Keys(fields));
      "{" + Join(CanonicalMembers(v, Sort(Keys(fields)))) + "}"
  }

  function CanonicalItems(items: seq<Json>): (parts: seq<string>)
    ensures |parts| == |items|
    decreases items
  {
    if items == [] then [] else [Canonical(items[0])] + CanonicalItems(items[1..])
  }

  function CanonicalMember(obj: Json, key: string): string
    requires obj.Obj? && HasKey(obj.fields, key)
    decreases obj, 0, 0
  {
    Quote(key) + ":" + Canonical(Lookup(obj.fields, key))
  }

  function CanonicalMembers(obj: Json, keys: seq<string>): (parts: seq<string>)
    requires obj.Obj? && forall k :: k in keys ==> HasKey(obj.fields, k)
    ensures |parts| == |keys|
    decreases obj, 0, |keys|
  {
    if keys == [] then []
    else [CanonicalMember(obj, keys[0])] + CanonicalMembers(obj, keys[1..])
  }

  // ---- Sorting distinct keys gives the one strictly increasing list of them ----

  lemma LessTotal(a: string, b: string)
    ensures Less(a, b) || a == b || Less(b, a)
    ensures !(Less(a, b) && Less(b, a)) && !Less(a, a)
  {
    if a != "" && b != "" {
      LessTotal(a[1..], b[1..]);
      assert a == [a[0]] + a[1..] && b == [b[0]] + b[1..];
    }
  }

  lemma LessTransitive(a: string, b: string, c: string)
    requires Less(a, b) && Less(b, c)
    ensures Less(a, c)
  {
    if a != "" && a[0] == b[0] == c[0] {
      LessTransitive(a[1..], b[1..], c[1..]);
    }
  }

  lemma InsertElements(key: string, sorted: seq<string>)
    ensures forall k :: k in Insert(key, sorted) <==> k == key || k in sorted
  {
  }

  lemma SortElements(keys: seq<string>)
    ensures forall k :: k in Sort(keys) <==> k in keys
  {
    if keys != [] {
      SortElements(keys[1..]);
      InsertElements(keys[0], Sort(keys[1..]));
    }
  }

  predicate Increasing(keys: seq<string>) {
    forall i, j :: 0 <= i < j < |keys| ==> Less(keys[i], keys[j])
  }

  lemma InsertIncreasing(key: string, sorted: seq<string>)
    requires Increasing(sorted) && key !in sorted
    ensures Increasing(Insert(key, sorted))
  {
    if sorted != [] {
      LessTotal(sorted[0], key);
      if Less(sorted[0], key) {
        var tail := Insert(key, sorted[1..]);
        InsertIncreasing(key, sorted[1..]);
        InsertElements(key, sorted[1..]);
        assert forall k :: k in tail ==> Less(sorted[0], k);
        assert Insert(key, sorted) == [sorted[0]] + tail;
      } else {
        forall i | 0 < i < |sorted| ensures Less(key, sorted[i]) {
          LessTransitive(key, sorted[0], sorted[i]);
        }
      }
    }
  }

  lemma SortIncreasing(keys: seq<string>)
    requires Distinct(keys)
    ensures Increasing(Sort(keys))
  {
    if keys != [] {
      SortIncreasing(keys[1..]);
      SortElements(keys[1..]);
      InsertIncreasing(keys[0], Sort(keys[1..]));
    }
  }

  lemma IncreasingUnique(a: seq<string>, b: seq<string>)
    requires Increasing(a) && Increasing(b)
    requires forall k :: k in a <==> k in b
    ensures a == b
  {
    assert a == [] <==> b == [] by {
      assert a != [] ==> a[0] in a;
      assert b != [] ==> b[0] in b;
    }
    if a != [] {
      assert a[0] in b && b[0] in a;
      LessTotal(a[0], b[0]);
      assert a[0] == b[0];
      forall k ensures k in a[1..] <==> k in b[1..] {
        LessTotal(a[0], a[0]);
        assert k in a <==> k == a[0] || k in a[1..];
        assert k in b <==> k == b[0] || k in b[1..];
      }
      IncreasingUnique(a[1..], b[1..]);
    }
  }

  lemma KeysMembership(fields: seq<Field>)
    ensures forall k :: k in Keys(fields) <==> HasKey(fields, k)
  {
    forall k ensures k in Keys(fields) <==> HasKey(fields, k) {
      if HasKey(fields, k) {
        var i :| 0 <= i < |fields| && fields[i].key == k;
        assert Keys(fields)[i] == k;
      }
    }
  }

  /** The printed key order depends only on which keys an object has. */
  lemma SortedKeysAgree(fs: seq<Field>, gs: seq<Field>)
    requires Distinct(Keys(fs)) && Distinct(Keys(gs))
    requires forall k :: HasKey(fs, k) <==> HasKey(gs, k)
    ensures Sort(Keys(fs)) == Sort(Keys(gs))
  {
    KeysMembership(fs);
    KeysMembership(gs);
    SortElements(Keys(fs));
    SortElements(Keys(gs));
    SortIncreasing(Keys(fs));
    SortIncreasing(Keys(gs));
    IncreasingUnique(Sort(Keys(fs)), Sort(Keys(gs)));
  }

  // ---- Equivalent values print the same ----

  lemma {:induction false} EquivPrintsSame(v: Json, w: Json)
    requires WellFormed(v) && WellFormed(w) && Equiv(v, w)
    ensures Canonical(v) == Canonical(w)
    decreases v, 1, 0
  {
    match v
    case Arr(items) => ItemsPrintSame(items, w.items);
    case Obj(fields) =>
      SortedKeysAgree(fields, w.fields);
      SortElements(Keys(fields));
      SortElements(Keys(w.fields));
      KeysMembership(fields);
      KeysMembership(w.fields);
      MembersPrintSame(v, w, Sort(Keys(fields)));
    case _ =>
  }

  lemma {:induction false} ItemsPrintSame(a: seq<Json>, b: seq<Json>)
    requires |a| == |b|
    requires forall i :: 0 <= i < |a| ==> WellFormed(a[i]) && WellFormed(b[i]) && Equiv(a[i], b[i])
    ensures CanonicalItems(a) == CanonicalItems(b)
    decreases a, 0, 0
  {
    if a != [] {
      EquivPrintsSame(a[0], b[0]);
      ItemsPrintSame(a[1..], b[1..]);
    }
  }

  lemma {:induction false} MembersPrintSame(v: Json, w: Json, keys: seq<string>)
    requires v.Obj? && w.Obj? && WellFormed(v) && WellFormed(w) && Equiv(v, w)
    requires forall k :: k in keys ==> HasKey(v.fields, k) && HasKey(w.fields, k)
    ensures CanonicalMembers(v, keys) == CanonicalMembers(w, keys)
    decreases v, 0, |keys|
  {
    if keys != [] {
      EquivPrintsSame(Lookup(v.fields, keys[0]), Lookup(w.fields, keys[0]));
      MembersPrintSame(v, w, keys[1..]);
    }
  }

  // ---- Every printed form is self-delimiting ----

  lemma EscapeCharDelimits(c: char, d: char, x: string, y: string)
    requires EscapeChar(c) + x == EscapeChar(d) + y
    ensures c == d && x == y
  {
    var p, q := EscapeChar(c), EscapeChar(d);
    var whole := p + x;
    assert whole[0] == p[0] == q[0];
    if p[0] == '\\' {
      assert whole[1] == p[1] && whole[1] == q[1];
      if p[1] == 'u' {
        assert whole[4] == p[4] && whole[4] == q[4];
        assert whole[5] == p[5] && whole[5] == q[5];
      }
    }
    assert p == q;
    assert whole[|p|..] == x && whole[|q|..] == y;
  }

  /** What is printed from inside a string literal to the end of the text. */
  function EscapeThen(s: string, rest: string): (r: string)
    ensures r != "" && (r[0] == '\"' <==> s == "")
  {
    if s == "" then "\"" + rest else EscapeChar(s[0]) + EscapeThen(s[1..], rest)
  }

  lemma {:induction false} QuoteThen(s: string, rest: string)
    ensures Escape(s) + ("\"" + rest) == EscapeThen(s, rest)
    ensures Quote(s) + rest == "\"" + EscapeThen(s, rest)
  {
    if s != "" {
      QuoteThen(s[1..], rest);
      Associates(EscapeChar(s[0]), Escape(s[1..]), "\"" + rest);
    }
    Associates("\"" + Escape(s), "\"", rest);
    Associates("\"", Escape(s), "\"" + rest);
  }

  lemma {:induction false} EscapeDelimits(s: string, t: string, x: string, y: string)
    requires EscapeThen(s, x) == EscapeThen(t, y)
    ensures s == t && x == y
  {
    if s == "" {
      assert x == EscapeThen(s, x)[1..] && y == EscapeThen(t, y)[1..];
    } else {
      EscapeCharDelimits(s[0], t[0], EscapeThen(s[1..], x), EscapeThen(t[1..], y));
      EscapeDelimits(s[1..], t[1..], x, y);
      assert s == [s[0]] + s[1..] && t == [t[0]] + t[1..];
    }
  }

  lemma QuoteDelimits(s: string, t: string, x: string, y: string)
    requires Quote(s) + x == Quote(t) + y
    ensures s == t && x == y
  {
    QuoteThen(s, x);
    QuoteThen(t, y);
    assert (Quote(s) + x)[1..] == EscapeThen(s, x);
    assert (Quote(t) + y)[1..] == EscapeThen(t, y);
    EscapeDelimits(s, t, x, y);
  }

  /** What may follow a value inside a larger print. */
  predicate Stops(rest: string) {
    rest == "" || rest[0] == ',' || rest[0] == ']' || rest[0] == '}'
  }

  /** How many characters a number at the start of the text takes. */
  function NumberSpan(text: string): nat {
    if text != "" && IsNumberChar(text[0]) then 1 + NumberSpan(text[1..]) else 0
  }

  lemma {:induction false} NumberSpanIsToken(s: string, x: string)
    requires (forall c :: c in s ==> IsNumberChar(c)) && Stops(x)
    ensures NumberSpan(s + x) == |s|
  {
    if s == "" {
      assert s + x == x;
    } else {
      assert (s + x)[0] == s[0] && (s + x)[1..] == s[1..] + x;
      NumberSpanIsToken(s[1..], x);
    }
  }

  lemma NumberDelimits(s: string, t: string, x: string, y: string)
    requires forall c :: c in s ==> IsNumberChar(c)
    requires forall c :: c in t ==> IsNumberChar(c)
    requires s + x == t + y && Stops(x) && Stops(y)
    ensures s == t && x == y
  {
    NumberSpanIsToken(s, x);
    NumberSpanIsToken(t, y);
    assert (s + x)[..|s|] == s && (t + y)[..|t|] == t;
    assert (s + x)[|s|..] == x && (t + y)[|t|..] == y;
  }

  lemma FirstChar(v: Json)
    requires WellFormed(v)
    ensures Canonical(v) != ""
    ensures var c := Canonical(v)[0];
      match v
      case Null => c == 'n'
      case Infinite(_) => c == 'n'
      case Bool(b) => c == if b then 't' else 'f'
      case Num(_) => c == '-' || '0' <= c <= '9'
      case Str(_) => c == '\"'
      case Arr(_) => c == '['
      case Obj(_) => c == '{'
  {
  }

  /** A bracketed list from its first element to the end of the text. */
  function Listed(parts: seq<string>, close: char, rest: string): string {
    if parts == [] then [close] + rest else parts[0] + Continued(parts[1..], close, rest)
  }

  function Continued(parts: seq<string>, close: char, rest: string): string {
    if parts == [] then [close] + rest else "," + (parts[0] + Continued(parts[1..], close, rest))
  }

  /** Two continuations that are the same text end together or go on with the same text. */
  lemma {:induction false} ContinuedAlike(a: seq<string>, b: seq<string>, close: char, x: string, y: string)
    requires close != ',' && Continued(a, close, x) == Continued(b, close, y)
    ensures (a == []) == (b == []) && (a == [] ==> x == y)
    ensures a != [] ==> a[0] + Continued(a[1..], close, x) == b[0] + Continued(b[1..], close, y)
  {
    var p, q := Continued(a, close, x), Continued(b, close, y);
    assert p[0] == q[0] && p[1..] == q[1..];
    if a == [] {
      assert p[1..] == x && q[1..] == y;
    } else {
      assert p[1..] == a[0] + Continued(a[1..], close, x);
    }
  }

  lemma {:induction false} ContinuedStops(parts: seq<string>, close: char, rest: string)
    requires close == '}' || close == ']'
    ensures Stops(Continued(parts, close, rest))
  {
  }

  lemma {:induction false} MembersStep(v: Json, keys: seq<string>)
    requires v.Obj? && keys != [] && forall k :: k in keys ==> HasKey(v.fields, k)
    ensures HasKey(v.fields, keys[0]) && forall k :: k in keys[1..] ==> HasKey(v.fields, k)
    ensures CanonicalMembers(v, keys)[0] == CanonicalMember(v, keys[0])
    ensures CanonicalMembers(v, keys)[1..] == CanonicalMembers(v, keys[1..])
  {
  }

  lemma {:induction false} JoinThen(parts: seq<string>, close: char, rest: string)
    ensures Join(parts) + ([close] + rest) == Listed(parts, close, rest)
  {
    if |parts| > 1 {
      JoinThen(parts[1..], close, rest);
      Associates(parts[0] + ",", Join(parts[1..]), [close] + rest);
      Associates(parts[0], ",", Join(parts[1..]) + ([close] + rest));
    }
  }

  /** The same list between its opening bracket and the end of the text. */
  lemma Bracketed(open: char, parts: seq<string>, close: char, rest: string)
    ensures [open] + Join(parts) + [close] + rest == [open] + Listed(parts, close, rest)
    ensures ([open] + Join(parts) + [close] + rest)[1..] == Listed(parts, close, rest)
  {
    JoinThen(parts, close, rest);
    Associates([open] + Join(parts), [close], rest);
    Associates([open], Join(parts), [close] + rest);
  }

  lemma ItemsListed(items: seq<Json>, rest: string)
    requires forall v :: v in items ==> WellFormed(v)
    ensures var text := Listed(CanonicalItems(items), ']', rest);
      text != "" && (text[0] == ']' <==> items == [])
  {
    if items != [] {
      FirstChar(items[0]);
    }
  }

  lemma SortedKeysAreKeys(v: Json)
    requires v.Obj?
    ensures forall k :: k in Sort(Keys(v.fields)) <==> HasKey(v.fields, k)
  {
    SortElements(Keys(v.fields));
    KeysMembership(v.fields);
  }

  lemma {:induction false} Delimits(v: Json, w: Json, x: string, y: string)
    requires WellFormed(v) && WellFormed(w) && Stops(x) && Stops(y)
    requires Canonical(v) + x == Canonical(w) + y
    ensures Equiv(v, w) && x == y
    decreases v, 1, 0
  {
    FirstChar(v);
    FirstChar(w);
    assert (Canonical(v) + x)[0] == Canonical(v)[0] && (Canonical(w) + y)[0] == Canonical(w)[0];
    match v
    case Null | Infinite(_) | Bool(_) =>
      assert v == w || (Nullish(v) && Nullish(w));
      assert (Canonical(v) + x)[|Canonical(v)|..] == x && (Canonical(w) + y)[|Canonical(w)|..] == y;
    case Num(token) => NumberDelimits(token, w.token, x, y);
    case Str(text) => QuoteDelimits(text, w.text, x, y);
    case Arr(items) => ArraysDelimit(v, w, x, y);
    case Obj(fields) => ObjectsDelimit(v, w, x, y);
  }

  lemma {:induction false} ArraysDelimit(v: Json, w: Json, x: string, y: string)
    requires v.Arr? && w.Arr? && WellFormed(v) && WellFormed(w) && Stops(x) && Stops(y)
    requires Canonical(v) + x == Canonical(w) + y
    ensures Equiv(v, w) && x == y
    decreases v, 0, 0
  {
    Bracketed('[', CanonicalItems(v.items), ']', x);
    Bracketed('[', CanonicalItems(w.items), ']', y);
    ItemsListed(v.items, x);
    ItemsListed(w.items, y);
    if v.items == [] {
      assert ([']'] + x)[1..] == x && ([']'] + y)[1..] == y;
    } else {
      var x', y' := Continued(CanonicalItems(v.items[1..]), ']', x), Continued(CanonicalItems(w.items[1..]), ']', y);
      assert CanonicalItems(v.items)[1..] == CanonicalItems(v.items[1..]);
      assert CanonicalItems(w.items)[1..] == CanonicalItems(w.items[1..]);
      Delimits(v.items[0], w.items[0], x', y');
      ItemsDelimit(v.items[1..], w.items[1..], x, y);
      assert forall i :: 0 < i < |v.items| ==> v.items[i] == v.items[1..][i - 1] && w.items[i] == w.items[1..][i - 1];
    }
  }

  lemma {:induction false} ItemsDelimit(a: seq<Json>, b: seq<Json>, x: string, y: string)
    requires forall v :: v in a ==> WellFormed(v)
    requires forall v :: v in b ==> WellFormed(v)
    requires Stops(x) && Stops(y)
    requires Continued(CanonicalItems(a), ']', x) == Continued(CanonicalItems(b), ']', y)
    ensures |a| == |b| && x == y
    ensures forall i :: 0 <= i < |a| ==> i < |b| && Equiv(a[i], b[i])
    decreases a, 0, 0
  {
    var p, q := Continued(CanonicalItems(a), ']', x), Continued(CanonicalItems(b), ']', y);
    if p[0] == ']' {
      assert p[1..] == x && q[1..] == y;
    } else {
      var x', y' := Continued(CanonicalItems(a[1..]), ']', x), Continued(CanonicalItems(b[1..]), ']', y);
      assert p[1..] == Canonical(a[0]) + x' && q[1..] == Canonical(b[0]) + y';
      Delimits(a[0], b[0], x', y');
      ItemsDelimit(a[1..], b[1..], x, y);
    }
  }

  lemma {:induction false} ObjectsDelimit(v: Json, w: Json, x: string, y: string)
    requires v.Obj? && w.Obj? && WellFormed(v) && WellFormed(w) && Stops(x) && Stops(y)
    requires Canonical(v) + x == Canonical(w) + y
    ensures Equiv(v, w) && x == y
    decreases v, 0, |v.fields| + 2
  {
    SortedKeysAreKeys(v);
    SortedKeysAreKeys(w);
    var ks, ls := Sort(Keys(v.fields)), Sort(Keys(w.fields));
    Bracketed('{', CanonicalMembers(v, ks), '}', x);
    Bracketed('{', CanonicalMembers(w, ls), '}', y);
    SortLength(Keys(v.fields));
    assert ks == [] <==> Listed(CanonicalMembers(v, ks), '}', x)[0] == '}';
    assert ls == [] <==> Listed(CanonicalMembers(w, ls), '}', y)[0] == '}';
    if ks == [] {
      assert (['}'] + x)[1..] == x && (['}'] + y)[1..] == y;
      assert forall k :: HasKey(v.fields, k) <==> HasKey(w.fields, k);
    } else {
      var x', y' := Continued(CanonicalMembers(v, ks[1..]), '}', x), Continued(CanonicalMembers(w, ls[1..]), '}', y);
      hide Continued, Listed, Canonical, CanonicalMembers, CanonicalMember, Equiv, WellFormed, Lookup, MembersEquiv;
      MemberDelimits(v, w, ks[0], ls[0], x', y');
      MembersDelimit(v, w, ks[1..], ls[1..], x, y);
      OneMoreMember(v, w, ks, ls);
      MembersMakeEquiv(v, w, ks);
    }
  }

  lemma {:induction false} MembersMakeEquiv(v: Json, w: Json, ks: seq<string>)
    requires v.Obj? && w.Obj? && MembersEquiv(v, w, ks)
    requires forall k :: k in ks <==> HasKey(v.fields, k)
    requires forall k :: k in ks <==> HasKey(w.fields, k)
    ensures Equiv(v, w)
  {
  }

  lemma SortLength(keys: seq<string>)
    ensures |Sort(keys)| == |keys|
  {
    if keys != [] {
      SortLength(keys[1..]);
      InsertLength(keys[0], Sort(keys[1..]));
    }
  }

  lemma InsertLength(key: string, sorted: seq<string>)
    ensures |Insert(key, sorted)| == |sorted| + 1
  {
  }

  /** Under each of these keys the two objects hold equivalent values. */
  ghost predicate MembersEquiv(v: Json, w: Json, keys: seq<string>)
    requires v.Obj? && w.Obj?
  {
    forall k :: k in keys ==>
      HasKey(v.fields, k) && HasKey(w.fields, k) && Equiv(Lookup(v.fields, k), Lookup(w.fields, k))
  }

  lemma {:induction false} OneMoreMember(v: Json, w: Json, ks: seq<string>, ls: seq<string>)
    requires v.Obj? && w.Obj? && ks != [] && ls != [] && ks[0] == ls[0] && ks[1..] == ls[1..]
    requires HasKey(v.fields, ks[0]) && HasKey(w.fields, ks[0])
    requires Equiv(Lookup(v.fields, ks[0]), Lookup(w.fields, ks[0])) && MembersEquiv(v, w, ks[1..])
    ensures ks == ls && MembersEquiv(v, w, ks)
  {
    assert ks == [ks[0]] + ks[1..] && ls == [ls[0]] + ls[1..];
  }

  lemma {:induction false} MembersDelimit(v: Json, w: Json, ks: seq<string>, ls: seq<string>, x: string, y: string)
    requires v.Obj? && w.Obj? && WellFormed(v) && WellFormed(w) && Stops(x) && Stops(y)
    requires forall k :: k in ks ==> HasKey(v.fields, k)
    requires forall l :: l in ls ==> HasKey(w.fields, l)
    requires Continued(CanonicalMembers(v, ks), '}', x) == Continued(CanonicalMembers(w, ls), '}', y)
    ensures ks == ls && x == y && MembersEquiv(v, w, ks)
    decreases v, 0, |ks| + 1
  {
    ContinuedAlike(CanonicalMembers(v, ks), CanonicalMembers(w, ls), '}', x, y);
    if ks != [] {
      MembersStep(v, ks);
      MembersStep(w, ls);
      hide Continued, Canonical, CanonicalMembers, CanonicalMember, Equiv, WellFormed, HasKey, Lookup, MembersEquiv;
      var x', y' := Continued(CanonicalMembers(v, ks[1..]), '}', x), Continued(CanonicalMembers(w, ls[1..]), '}', y);
      ContinuedStops(CanonicalMembers(v, ks[1..]), '}', x);
      ContinuedStops(CanonicalMembers(w, ls[1..]), '}', y);
      MemberDelimits(v, w, ks[0], ls[0], x', y');
      MembersDelimit(v, w, ks[1..], ls[1..], x, y);
      OneMoreMember(v, w, ks, ls);
    }
  }

  lemma {:induction false} MemberDelimits(v: Json, w: Json, k: string, l: string, x: string, y: string)
    requires v.Obj? && w.Obj? && WellFormed(v) && WellFormed(w)
    requires HasKey(v.fields, k) && HasKey(w.fields, l) && Stops(x) && Stops(y)
    requires CanonicalMember(v, k) + x == CanonicalMember(w, l) + y
    ensures k == l && x == y && Equiv(Lookup(v.fields, k), Lookup(w.fields, l))
    decreases v, 0, 0
  {
    var p, q := Canonical(Lookup(v.fields, k)), Canonical(Lookup(w.fields, l));
    MemberThen(k, p, x);
    MemberThen(l, q, y);
    QuoteDelimits(k, l, ":" + (p + x), ":" + (q + y));
    assert (":" + (p + x))[1..] == p + x && (":" + (q + y))[1..] == q + y;
    Delimits(Lookup(v.fields, k), Lookup(w.fields, l), x, y);
  }

  lemma MemberThen(key: string, value: string, rest: string)
    ensures Quote(key) + ":" + value + rest == Quote(key) + (":" + (value + rest))
  {
    Associates(Quote(key) + ":", value, rest);
    Associates(Quote(key), ":", value + rest);
  }

  /** Two JSON values print the same exactly when they are equal with objects read as maps and infinities read
      as `null`. */
  lemma CanonicalExact(v: Json, w: Json)
    requires WellFormed(v) && WellFormed(w)
    ensures Canonical(v) == Canonical(w) <==> Equiv(v, w)
  {
    if Equiv(v, w) {
      EquivPrintsSame(v, w);
    }
    if Canonical(v) == Canonical(w) {
      assert Canonical(v) + "" == Canonical(v) && Canonical(w) + "" == Canonical(w);
      Delimits(v, w, "", "");
    }
  }

  // ---- Which values the print tells apart from all others ----

  /** No `null` and no infinity anywhere. */
  predicate NoNullish(v: Json) {
    match v
    case Arr(items) => forall x :: x in items ==> NoNullish(x)
    case Obj(fields) => forall f :: f in fields ==> NoNullish(f.value)
    case _ => !Nullish(v)
  }

  lemma {:induction false} SameEquiv(v: Json, w: Json)
    ensures Same(v, w) ==> Equiv(v, w)
    ensures NoNullish(v) && Equiv(v, w) ==> Same(v, w)
    decreases v
  {
    match v
    case Arr(items) =>
      if w.Arr? && |items| == |w.items| {
        forall i | 0 <= i < |items|
          ensures Same(items[i], w.items[i]) ==> Equiv(items[i], w.items[i])
          ensures NoNullish(items[i]) && Equiv(items[i], w.items[i]) ==> Same(items[i], w.items[i])
        {
          SameEquiv(items[i], w.items[i]);
        }
      }
    case Obj(fields) =>
      if w.Obj? {
        forall k | HasKey(fields, k) && HasKey(w.fields, k)
          ensures var x, y := Lookup(fields, k), Lookup(w.fields, k);
            (Same(x, y) ==> Equiv(x, y)) && (NoNullish(x) && Equiv(x, y) ==> Same(x, y))
          ensures Field(k, Lookup(fields, k)) in fields
        {
          SameEquiv(Lookup(fields, k), Lookup(w.fields, k));
        }
      }
    case _ =>
  }

  /** Every `null` and every infinity replaced. */
  function Blanked(v: Json, leaf: Json): Json {
    match v
    case Arr(items) => Arr(BlankedItems(items, leaf))
    case Obj(fields) => Obj(BlankedFields(fields, leaf))
    case _ => if Nullish(v) then leaf else v
  }

  function BlankedItems(items: seq<Json>, leaf: Json): (r: seq<Json>)
    ensures |r| == |items|
  {
    if items == [] then [] else [Blanked(items[0], leaf)] + BlankedItems(items[1..], leaf)
  }

  function BlankedFields(fields: seq<Field>, leaf: Json): (r: seq<Field>)
    ensures |r| == |fields|
  {
    if fields == [] then []
    else [Field(fields[0].key, Blanked(fields[0].value, leaf))] + BlankedFields(fields[1..], leaf)
  }

  lemma {:induction false} BlankedAt(items: seq<Json>, leaf: Json, i: nat)
    requires i < |items|
    ensures BlankedItems(items, leaf)[i] == Blanked(items[i], leaf)
  {
    if i > 0 {
      BlankedAt(items[1..], leaf, i - 1);
    }
  }

  lemma {:induction false} BlankedKeys(fields: seq<Field>, leaf: Json)
    ensures Keys(BlankedFields(fields, leaf)) == Keys(fields)
  {
    if fields != [] {
      BlankedKeys(fields[1..], leaf);
    }
  }

  lemma {:induction false} BlankedLookup(fields: seq<Field>, leaf: Json, k: string)
    ensures HasKey(BlankedFields(fields, leaf), k) <==> HasKey(fields, k)
    ensures HasKey(fields, k) ==> Lookup(BlankedFields(fields, leaf), k) == Blanked(Lookup(fields, k), leaf)
  {
    BlankedKeys(fields, leaf);
    KeysMembership(fields);
    KeysMembership(BlankedFields(fields, leaf));
    if HasKey(fields, k) && fields[0].key != k {
      var i :| 0 <= i < |fields| && fields[i].key == k;
      assert fields[1..][i - 1].key == k;
      BlankedLookup(fields[1..], leaf, k);
      assert BlankedFields(fields, leaf)[1..] == BlankedFields(fields[1..], leaf);
    }
  }

  lemma {:induction false} BlankedField(fields: seq<Field>, leaf: Json, i: nat)
    requires i < |fields|
    ensures BlankedFields(fields, leaf)[i] == Field(fields[i].key, Blanked(fields[i].value, leaf))
  {
    if i > 0 {
      BlankedField(fields[1..], leaf, i - 1);
    }
  }

  lemma {:induction false} BlankedWellFormed(v: Json, leaf: Json)
    requires WellFormed(v) && Nullish(leaf)
    ensures WellFormed(Blanked(v, leaf)) && Equiv(v, Blanked(v, leaf))
    decreases v
  {
    match v
    case Arr(items) =>
      forall i | 0 <= i < |items|
        ensures WellFormed(BlankedItems(items, leaf)[i]) && Equiv(items[i], BlankedItems(items, leaf)[i])
      {
        BlankedWellFormed(items[i], leaf);
        BlankedAt(items, leaf, i);
      }
    case Obj(fields) => BlankedObject(fields, leaf);
    case _ =>
  }

  lemma {:induction false} BlankedObject(fields: seq<Field>, leaf: Json)
    requires WellFormed(Obj(fields)) && Nullish(leaf)
    ensures WellFormed(Obj(BlankedFields(fields, leaf))) && Equiv(Obj(fields), Obj(BlankedFields(fields, leaf)))
    decreases fields
  {
    BlankedKeys(fields, leaf);
    forall i | 0 <= i < |fields| ensures WellFormed(BlankedFields(fields, leaf)[i].value) {
      BlankedField(fields, leaf, i);
      BlankedWellFormed(fields[i].value, leaf);
    }
    forall k
      ensures HasKey(fields, k) <==> HasKey(BlankedFields(fields, leaf), k)
      ensures HasKey(fields, k) ==> Equiv(Lookup(fields, k), Lookup(BlankedFields(fields, leaf), k))
    {
      BlankedLookup(fields, leaf, k);
      if HasKey(fields, k) {
        BlankedWellFormed(Lookup(fields, k), leaf);
      }
    }
  }

  /** A value the same however its `null`s and infinities are replaced has none. */
  lemma {:induction false} BlankedTwice(v: Json, a: Json, b: Json)
    requires WellFormed(v) && a != b && Same(v, Blanked(v, a)) && Same(v, Blanked(v, b))
    ensures NoNullish(v)
    decreases v
  {
    match v
    case Arr(items) =>
      forall x | x in items ensures NoNullish(x) {
        var i :| 0 <= i < |items| && items[i] == x;
        BlankedAt(items, a, i);
        BlankedAt(items, b, i);
        BlankedTwice(x, a, b);
      }
    case Obj(fields) =>
      forall f | f in fields ensures NoNullish(f.value) {
        LookupOf(fields, f);
        BlankedLookup(fields, a, f.key);
        BlankedLookup(fields, b, f.key);
        BlankedTwice(f.value, a, b);
      }
    case _ =>
  }

  lemma LookupOf(fields: seq<Field>, f: Field)
    requires Distinct(Keys(fields)) && f in fields
    ensures HasKey(fields, f.key) && Lookup(fields, f.key) == f.value
  {
    var i :| 0 <= i < |fields| && fields[i] == f;
    assert HasKey(fields, f.key);
    hide Lookup, HasKey;
    var g := Field(f.key, Lookup(fields, f.key));
    var j :| 0 <= j < |fields| && fields[j] == g;
    assert Keys(fields)[i] == Keys(fields)[j];
    assert i == j;
  }

  /** `JSON.parse(JSON.stringify(v))`: infinities are written as `null`. */
  function Stored(v: Json): Json {
    Blanked(v, Null)
  }

  /** The print determines a value exactly when the value holds no `null` and no infinity. */
  lemma PinnedExactly(v: Json)
    requires WellFormed(v)
    ensures (forall w :: WellFormed(w) && Canonical(w) == Canonical(v) ==> Same(v, w)) <==> NoNullish(v)
  {
    if NoNullish(v) {
      forall w | WellFormed(w) && Canonical(w) == Canonical(v) ensures Same(v, w) {
        CanonicalExact(v, w);
        SameEquiv(v, w);
      }
    } else {
      var a, b := Null, Infinite(false);
      BlankedWellFormed(v, a);
      BlankedWellFormed(v, b);
      CanonicalExact(v, Blanked(v, a));
      CanonicalExact(v, Blanked(v, b));
      if Same(v, Blanked(v, a)) && Same(v, Blanked(v, b)) {
        BlankedTwice(v, a, b);
      }
    }
  }

  /** `{"x": null}` and `{"x": 1e400}` are different values that print the same. */
  lemma InfiniteExample()
    ensures var v, w := Obj([Field("x", Null)]), Obj([Field("x", Infinite(false))]);
      WellFormed(v) && WellFormed(w) && !Same(v, w) && Canonical(v) == Canonical(w)
  {
    var fs, gs := [Field("x", Null)], [Field("x", Infinite(false))];
    assert fs[0].key == "x" && gs[0].key == "x";
    assert HasKey(fs, "x") && HasKey(gs, "x");
    assert |Keys(fs)| == 1;
    assert Blanked(Obj(fs), Infinite(false)) == Obj(gs);
    BlankedWellFormed(Obj(fs), Infinite(false));
    CanonicalExact(Obj(fs), Obj(gs));
    assert Lookup(fs, "x") != Lookup(gs, "x");
  }
}
