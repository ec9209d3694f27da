/**
 A reader of JSON text without white space between tokens (RFC 8259, sections 3 to 7), and the theorem that it
 reads every canonical print back.
 */
module JsonReader {
  import opened Decimal
  import opened Wrappers
  import opened CanonicalJson

  datatype Reading<T> = Read(value: T, rest: string) | Unreadable

  // ---- Strings ----

  function HexOf(c: char): Option<nat> {
    if '0' <= c <= '9' then Some(c as nat - 48)
    else if 'a' <= c <= 'f' then Some(c as nat - 87)
    else if 'A' <= c <= 'F' then Some(c as nat - 55)
    else None
  }

  /** The code unit of four hex digits. */
  function CodeUnit(a: char, b: char, c: char, d: char): Option<nat> {
    match (HexOf(a), HexOf(b), HexOf(c), HexOf(d))
    case (Some(w), Some(x), Some(y), Some(z)) => Some(w * 4096 + x * 256 + y * 16 + z)
    case _ => None
  }

  /** What a one-letter escape stands for. */
  function Unescaped(letter: char): Option<char> {
    if letter == '\"' then Some(34 as char)
    else if letter == '\\' then Some(92 as char)
    else if letter == '/' then Some(47 as char)
    else if letter == 'b' then Some(8 as char)
    else if letter == 'f' then Some(12 as char)
    else if letter == 'n' then Some(10 as char)
    else if letter == 'r' then Some(13 as char)
    else if letter == 't' then Some(9 as char)
    else None
  }

  /** One character of a string; surrogates are not part of this model. */
  function ReadChar(text: string): (r: Reading<char>)
    ensures r.Read? ==> |r.rest| < |text|
  {
    if text == "" || text[0] as nat < 32 then Unreadable
    else if text[0] != '\\' then Read(text[0], text[1..])
    else if |text| < 2 then Unreadable
    else if text[1] != 'u' then
      match Unescaped(text[1])
      case Some(c) => Read(c, text[2..])
      case None => Unreadable
    else if |text| < 6 then Unreadable
    else
      match CodeUnit(text[2], text[3], text[4], text[5])
      case Some(code) => if code < 0xD800 || 0xE000 <= code < 0x10000 then Read(code as char, text[6..]) else Unreadable
      case None => Unreadable
  }

  /** The rest of a string, after its opening quote. */
  function ReadString(text: string): (r: Reading<string>)
    ensures r.Read? ==> |r.rest| < |text|
    decreases |text|
  {
    if text == "" then Unreadable
    else if text[0] == '\"' then Read("", text[1..])
    else
      match ReadChar(text)
      case Unreadable => Unreadable
      case Read(c, rest) =>
        match ReadString(rest)
        case Unreadable => Unreadable
        case Read(s, end) => Read([c] + s, end)
  }

  // ---- Values ----

  function ReadWord(word: string, value: Json, text: string): Reading<Json> {
    if word <= text then Read(value, text[|word|..]) else Unreadable
  }

  /** The characters of a number at the start of the text, and what follows them. */
  function ReadNumber(text: string): (r: Reading<string>)
    ensures r.Read? && |r.rest| <= |text|
    ensures text != "" && IsNumberChar(text[0]) ==> |r.rest| < |text|
  {
    if text != "" && IsNumberChar(text[0]) then
      var r := ReadNumber(text[1..]);
      Read([text[0]] + r.value, r.rest)
    else Read("", text)
  }

  function ReadValue(text: string): (r: Reading<Json>)
    ensures r.Read? ==> |r.rest| < |text|
    decreases |text|, 0
  {
    if text == "" then Unreadable
    else if text[0] == 'n' then ReadWord("null", Null, text)
    else if text[0] == 't' then ReadWord("true", Bool(true), text)
    else if text[0] == 'f' then ReadWord("false", Bool(false), text)
    else if text[0] == '\"' then
      match ReadString(text[1..])
      case Read(s, rest) => Read(Str(s), rest)
      case Unreadable => Unreadable
    else if text[0] == '[' then
      if |text| >= 2 && text[1] == ']' then Read(Arr([]), text[2..])
      else
        match ReadItems(text[1..])
        case Read(items, rest) => Read(Arr(items), rest)
        case Unreadable => Unreadable
    else if text[0] == '{' then
      if |text| >= 2 && text[1] == '}' then Read(Obj([]), text[2..])
      else
        match ReadMembers(text[1..])
        case Read(fields, rest) => Read(Obj(fields), rest)
        case Unreadable => Unreadable
    else if text[0] == '-' || '0' <= text[0] <= '9' then
      var r := ReadNumber(text);
      Read(Num(r.value), r.rest)
    else Unreadable
  }

  function ReadItems(text: string): (r: Reading<seq<Json>>)
    ensures r.Read? ==> |r.rest| < |text|
    decreases |text|, 1
  {
    match ReadValue(text)
    case Unreadable => Unreadable
    case Read(first, after) =>
      if after != "" && after[0] == ']' then Read([first], after[1..])
      else if after == "" || after[0] != ',' then Unreadable
      else
        match ReadItems(after[1..])
        case Read(items, rest) => Read([first] + items, rest)
        case Unreadable => Unreadable
  }

  function ReadMember(text: string): (r: Reading<Field>)
    ensures r.Read? ==> |r.rest| < |text|
    decreases |text|, 1
  {
    if text == "" || text[0] != '\"' then Unreadable
    else
      match ReadString(text[1..])
      case Unreadable => Unreadable
      case Read(key, after) =>
        if after == "" || after[0] != ':' then Unreadable
        else
          match ReadValue(after[1..])
          case Read(value, rest) => Read(Field(key, value), rest)
          case Unreadable => Unreadable
  }

  function ReadMembers(text: string): (r: Reading<seq<Field>>)
    ensures r.Read? ==> |r.rest| < |text|
    decreases |text|, 2
  {
    match ReadMember(text)
    case Unreadable => Unreadable
    case Read(first, after) =>
      if after != "" && after[0] == '}' then Read([first], after[1..])
      else if after == "" || after[0] != ',' then Unreadable
      else
        match ReadMembers(after[1..])
        case Read(fields, rest) => Read([first] + fields, rest)
        case Unreadable => Unreadable
  }

  // ---- What the print of a value says ----

  /** The value with its keys in order and its infinities as `null`. */
  function Normal(v: Json): Json
    decreases v, 1
  {
    match v
    case Infinite(_) => Null
    case Arr(items) => Arr(NormalItems(items))
    case Obj(fields) =>
      SortElements(Keys(fields));
      Obj(NormalMembers(v, Sort(Keys(fields))))
    case _ => v
  }

  function NormalItems(items: seq<Json>): (r: seq<Json>)
    ensures |r| == |items|
    decreases items
  {
    if items == [] then [] else [Normal(items[0])] + NormalItems(items[1..])
  }

  function NormalMembers(obj: Json, keys: seq<string>): (r: seq<Field>)
    requires obj.Obj? && forall k :: k in keys ==> HasKey(obj.fields, k)
    ensures |r| == |keys|
    decreases obj, 0, |keys|
  {
    if keys == [] then []
    else [Field(keys[0], Normal(Lookup(obj.fields, keys[0])))] + NormalMembers(obj, keys[1..])
  }

  // ---- Reading strings back ----

  lemma HexDigitReads(n: nat)
    requires n < 16
    ensures HexOf(HexDigit(n)) == Some(n)
  {
  }

  lemma EscapedReads(c: char, x: string)
    ensures ReadChar(EscapeChar(c) + x) == Read(c, x)
  {
    var p := EscapeChar(c);
    var text := p + x;
    assert text[|p|..] == x && text[0] == p[0];
    if |p| > 1 {
      assert text[1] == p[1];
    }
    if |p| == 6 {
      HexDigitReads(c as nat / 16);
      HexDigitReads(c as nat % 16);
      assert text[2] == p[2] && text[3] == p[3] && text[4] == p[4] && text[5] == p[5];
    }
  }

  lemma {:induction false} StringReads(s: string, rest: string)
    ensures ReadString(EscapeThen(s, rest)) == Read(s, rest)
  {
    if s == "" {
      assert ("\"" + rest)[1..] == rest;
    } else {
      StringReads(s[1..], rest);
      EscapedReads(s[0], EscapeThen(s[1..], rest));
      assert [s[0]] + s[1..] == s;
    }
  }

  lemma {:induction false} NumberReads(token: string, rest: string)
    requires (forall c :: c in token ==> IsNumberChar(c)) && Stops(rest)
    ensures ReadNumber(token + rest) == Read(token, rest)
  {
    var text := token + rest;
    if token == "" {
      assert text == rest;
      assert rest == "" || !IsNumberChar(rest[0]);
      assert ReadNumber(rest) == Read("", rest);
    } else {
      assert text[0] == token[0] && text[1..] == token[1..] + rest;
      assert token[0] in token;
      NumberReads(token[1..], rest);
      assert ReadNumber(text) == Read([token[0]] + token[1..], rest);
      assert [token[0]] + token[1..] == token;
    }
  }

  // ---- Reading values back ----

  lemma {:induction false} ValueReads(v: Json, rest: string)
    requires WellFormed(v) && Stops(rest)
    ensures ReadValue(Canonical(v) + rest) == Read(Normal(v), rest)
    decreases v, 1, 0
  {
    FirstChar(v);
    var text := Canonical(v) + rest;
    assert text[0] == Canonical(v)[0];
    match v
    case Null | Infinite(_) | Bool(_) =>
      assert Canonical(v) <= text && text[|Canonical(v)|..] == rest;
    case Num(token) =>
      NumberReads(token, rest);
    case Str(s) =>
      QuoteThen(s, rest);
      assert text[1..] == EscapeThen(s, rest);
      StringReads(s, rest);
    case Arr(items) => ArrayReads(v, rest);
    case Obj(fields) => ObjectReads(v, rest);
  }

  lemma {:induction false} ArrayReads(v: Json, rest: string)
    requires v.Arr? && WellFormed(v) && Stops(rest)
    ensures ReadValue(Canonical(v) + rest) == Read(Normal(v), rest)
    decreases v, 0, 0
  {
    var tail := Listed(CanonicalItems(v.items), ']', rest);
    Bracketed('[', CanonicalItems(v.items), ']', rest);
    ItemsListed(v.items, rest);
    assert Canonical(v) + rest == "[" + tail;
    if v.items != [] {
      ItemsRead(v.items, rest);
    }
    ArrayRead(tail, rest, NormalItems(v.items));
  }

  lemma ArrayRead(tail: string, rest: string, items: seq<Json>)
    requires if items == [] then tail == "]" + rest
             else tail != "" && tail[0] != ']' && ReadItems(tail) == Read(items, rest)
    ensures ReadValue("[" + tail) == Read(Arr(items), rest)
  {
    hide ReadItems;
    var text := "[" + tail;
    assert text[1..] == tail && text[1] == tail[0];
    assert text[2..] == tail[1..];
  }

  lemma {:induction false} ItemsRead(items: seq<Json>, rest: string)
    requires items != [] && Stops(rest) && forall v :: v in items ==> WellFormed(v)
    ensures ReadItems(Listed(CanonicalItems(items), ']', rest)) == Read(NormalItems(items), rest)
    decreases items, 0, 0
  {
    var more := Continued(CanonicalItems(items[1..]), ']', rest);
    ContinuedStops(CanonicalItems(items[1..]), ']', rest);
    assert CanonicalItems(items)[1..] == CanonicalItems(items[1..]);
    ValueReads(items[0], more);
    if items[1..] == [] {
      assert more[1..] == rest;
      assert NormalItems(items) == [Normal(items[0])] + [] == [Normal(items[0])];
    } else {
      assert CanonicalItems(items[1..])[1..] == CanonicalItems(items[1..][1..]);
      assert more[1..] == Listed(CanonicalItems(items[1..]), ']', rest);
      ItemsRead(items[1..], rest);
    }
  }

  lemma {:induction false} ObjectReads(v: Json, rest: string)
    requires v.Obj? && WellFormed(v) && Stops(rest)
    ensures ReadValue(Canonical(v) + rest) == Read(Normal(v), rest)
    decreases v, 0, |v.fields| + 2
  {
    SortedKeysAreKeys(v);
    SortLength(Keys(v.fields));
    var keys := Sort(Keys(v.fields));
    var tail := Listed(CanonicalMembers(v, keys), '}', rest);
    Bracketed('{', CanonicalMembers(v, keys), '}', rest);
    assert Canonical(v) + rest == "{" + tail;
    if keys != [] {
      MembersRead(v, keys, rest);
    }
    ObjectRead(tail, rest, NormalMembers(v, keys));
  }

  lemma ObjectRead(tail: string, rest: string, fields: seq<Field>)
    requires if fields == [] then tail == "}" + rest
             else tail != "" && tail[0] == '\"' && ReadMembers(tail) == Read(fields, rest)
    ensures ReadValue("{" + tail) == Read(Obj(fields), rest)
  {
    hide ReadMembers;
    var text := "{" + tail;
    assert text[1..] == tail && text[1] == tail[0];
    assert text[2..] == tail[1..];
  }

  lemma {:induction false} MembersRead(v: Json, keys: seq<string>, rest: string)
    requires v.Obj? && WellFormed(v) && Stops(rest) && keys != [] && forall k :: k in keys ==> HasKey(v.fields, k)
    ensures ReadMembers(Listed(CanonicalMembers(v, keys), '}', rest)) == Read(NormalMembers(v, keys), rest)
    ensures Listed(CanonicalMembers(v, keys), '}', rest)[0] == '\"'
    decreases v, 0, |keys| + 1
  {
    MembersStep(v, keys);
    var more := Continued(CanonicalMembers(v, keys[1..]), '}', rest);
    ContinuedStops(CanonicalMembers(v, keys[1..]), '}', rest);
    MemberReads(v, keys[0], more);
    if keys[1..] == [] {
      assert more[1..] == rest;
      var first := Field(keys[0], Normal(Lookup(v.fields, keys[0])));
      assert NormalMembers(v, keys) == [first] + [] == [first];
    } else {
      MembersStep(v, keys[1..]);
      assert more[1..] == Listed(CanonicalMembers(v, keys[1..]), '}', rest);
      MembersRead(v, keys[1..], rest);
    }
  }

  lemma {:induction false} MemberReads(v: Json, key: string, rest: string)
    requires v.Obj? && WellFormed(v) && Stops(rest) && HasKey(v.fields, key)
    ensures ReadMember(CanonicalMember(v, key) + rest) == Read(Field(key, Normal(Lookup(v.fields, key))), rest)
    ensures (CanonicalMember(v, key) + rest)[0] == '\"'
    decreases v, 0, 0
  {
    var value := Canonical(Lookup(v.fields, key));
    var text := CanonicalMember(v, key) + rest;
    MemberThen(key, value, rest);
    QuoteThen(key, ":" + (value + rest));
    assert text[1..] == EscapeThen(key, ":" + (value + rest));
    StringReads(key, ":" + (value + rest));
    assert (":" + (value + rest))[1..] == value + rest;
    ValueReads(Lookup(v.fields, key), rest);
  }

  // ---- The value read is the one printed ----

  /** `a` comes before `b`: at the first place where they differ it ends or holds the smaller character. */
  predicate Before(a: string, b: string) {
    exists i :: 0 <= i <= |a| && DifferAt(a, b, i)
  }

  predicate DifferAt(a: string, b: string, i: nat)
    requires i <= |a|
  {
    i < |b| && a[..i] == b[..i] && (i == |a| || a[i] < b[i])
  }

  lemma {:induction false} LessIsBefore(a: string, b: string)
    requires Less(a, b)
    ensures Before(a, b)
  {
    if a == "" || a[0] < b[0] {
      assert DifferAt(a, b, 0);
    } else {
      LessIsBefore(a[1..], b[1..]);
      var i :| 0 <= i <= |a[1..]| && DifferAt(a[1..], b[1..], i);
      assert a[..i + 1] == [a[0]] + a[1..][..i] && b[..i + 1] == [b[0]] + b[1..][..i];
      assert DifferAt(a, b, i + 1);
    }
  }

  /** Every object has its keys in order, each once. */
  predicate InOrder(v: Json) {
    match v
    case Arr(items) => forall x :: x in items ==> InOrder(x)
    case Obj(fields) =>
      && (forall i, j :: 0 <= i < j < |fields| ==> Before(fields[i].key, fields[j].key))
      && forall f :: f in fields ==> InOrder(f.value)
    case _ => true
  }

  lemma {:induction false} NormalItemAt(items: seq<Json>, i: nat)
    requires i < |items|
    ensures NormalItems(items)[i] == Normal(items[i])
  {
    if i > 0 {
      NormalItemAt(items[1..], i - 1);
    }
  }

  lemma {:induction false} NormalMemberAt(obj: Json, keys: seq<string>, i: nat)
    requires obj.Obj? && i < |keys| && forall k :: k in keys ==> HasKey(obj.fields, k)
    ensures NormalMembers(obj, keys)[i] == Field(keys[i], Normal(Lookup(obj.fields, keys[i])))
    decreases |keys|
  {
    if i > 0 {
      NormalMemberAt(obj, keys[1..], i - 1);
    }
  }

  lemma {:induction false} NormalLookup(obj: Json, keys: seq<string>, k: string)
    requires obj.Obj? && forall l :: l in keys ==> HasKey(obj.fields, l)
    ensures HasKey(NormalMembers(obj, keys), k) <==> k in keys
    ensures k in keys ==> Lookup(NormalMembers(obj, keys), k) == Normal(Lookup(obj.fields, k))
    decreases |keys|
  {
    var fields := NormalMembers(obj, keys);
    if k in keys {
      var i :| 0 <= i < |keys| && keys[i] == k;
      NormalMemberAt(obj, keys, i);
      assert fields[i].key == k;
      if keys[0] != k {
        NormalLookup(obj, keys[1..], k);
        assert fields[1..] == NormalMembers(obj, keys[1..]);
      }
    } else if HasKey(fields, k) {
      var i :| 0 <= i < |fields| && fields[i].key == k;
      NormalMemberAt(obj, keys, i);
    }
  }

  lemma {:induction false} NormalIs(v: Json)
    requires WellFormed(v)
    ensures Equiv(v, Normal(v)) && InOrder(Normal(v))
    decreases v
  {
    match v
    case Arr(items) =>
      forall i | 0 <= i < |items| ensures Equiv(items[i], NormalItems(items)[i]) && InOrder(NormalItems(items)[i]) {
        NormalItemAt(items, i);
        NormalIs(items[i]);
      }
    case Obj(fields) => NormalObject(v);
    case _ =>
  }

  lemma {:induction false} NormalObject(v: Json)
    requires WellFormed(v) && v.Obj?
    ensures Equiv(v, Normal(v)) && InOrder(Normal(v))
    decreases v, 0
  {
    SortedKeysAreKeys(v);
    SortIncreasing(Keys(v.fields));
    var keys := Sort(Keys(v.fields));
    var sorted := NormalMembers(v, keys);
    forall i, j | 0 <= i < j < |sorted| ensures Before(sorted[i].key, sorted[j].key) {
      NormalMemberAt(v, keys, i);
      NormalMemberAt(v, keys, j);
      LessIsBefore(keys[i], keys[j]);
    }
    forall i | 0 <= i < |sorted| ensures InOrder(sorted[i].value) {
      NormalMemberAt(v, keys, i);
      NormalIs(Lookup(v.fields, keys[i]));
    }
    forall k
      ensures HasKey(v.fields, k) <==> HasKey(sorted, k)
      ensures HasKey(v.fields, k) ==> Equiv(Lookup(v.fields, k), Lookup(sorted, k))
    {
      NormalLookup(v, keys, k);
      if HasKey(v.fields, k) {
        NormalIs(Lookup(v.fields, k));
      }
    }
  }

  /** Read as JSON, the print of a value is the value, up to infinities written as `null`, with the keys of every
      object in order; and it is read to its end. */
  lemma CanonicalReads(v: Json)
    requires WellFormed(v)
    ensures ReadValue(Canonical(v)).Read? && ReadValue(Canonical(v)).rest == ""
    ensures Equiv(v, ReadValue(Canonical(v)).value) && InOrder(ReadValue(Canonical(v)).value)
  {
    ValueReads(v, "");
    assert Canonical(v) + "" == Canonical(v);
    NormalIs(v);
  }
}
