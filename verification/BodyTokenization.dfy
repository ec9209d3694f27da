/**
 Tokenizing a whole request body with one mapper (gateway/server.js lines 28 to 59, gateway/canonical.js
 lines 56 to 73), and the theorem that substituting the map back restores the body.
 */
module BodyTokenization {
  import opened Wrappers
  import opened CanonicalJson
  import opened Tokenizer

  // ---- What tokenizing means, given the final assignment of tokens ----

  /** What the detector is asked for: nothing on the empty string. */
  function Scan(analyze: string -> seq<Finding>, text: string): seq<Finding> {
    if text == "" then [] else LastFirst(analyze(text))
  }

  ghost function Atoms(analyze: string -> seq<Finding>, byValue: map<string, string>, text: string): seq<Atom>
    requires Detector(analyze)
  {
    SortedStacked(text, analyze(text));
    Woven(text, Scan(analyze, text), byValue)
  }

  ghost function Tokenized(analyze: string -> seq<Finding>, byValue: map<string, string>, text: string): string
    requires Detector(analyze)
  {
    Render(Atoms(analyze, byValue, text))
  }

  /** Every value found in the text has a token. */
  predicate Covered(analyze: string -> seq<Finding>, byValue: map<string, string>, text: string) {
    forall f :: f in Scan(analyze, text) ==> f.value in byValue
  }

  /** So every finding of the text is replaced, and nothing else. */
  lemma TokenizedRedacts(analyze: string -> seq<Finding>, byValue: map<string, string>, text: string)
    requires Detector(analyze) && Covered(analyze, byValue, text)
    ensures Redacts(text, analyze(text), byValue, Tokenized(analyze, byValue, text))
  {
    assert Sensible(text, analyze(text));
    SortedStacked(text, analyze(text));
    hide Sensible, Stacked, Redacts, Render;
    if analyze(text) != [] {
      FoundSomewhere(text, analyze(text));
    }
    WovenRedacts(text, analyze(text), byValue);
  }

  lemma FoundSomewhere(text: string, fs: seq<Finding>)
    requires Sensible(text, fs) && fs != []
    ensures text != ""
  {
    assert Spanned(text, fs[0]);
  }

  lemma TokenizedStays(analyze: string -> seq<Finding>, before: map<string, string>, now: map<string, string>,
                       text: string)
    requires Detector(analyze) && Extends(now, before) && Covered(analyze, before, text)
    ensures Tokenized(analyze, now, text) == Tokenized(analyze, before, text)
  {
    SortedStacked(text, analyze(text));
    TailStays(text, Scan(analyze, text), before, now);
  }

  // ---- Mapping over the strings of a body ----

  function Texts(v: Json): set<string> {
    match v
    case Str(text) => {text}
    case Arr(items) => ItemTexts(items)
    case Obj(fields) => FieldTexts(fields)
    case _ => {}
  }

  function ItemTexts(items: seq<Json>): set<string> {
    if items == [] then {} else ItemTexts(items[..|items| - 1]) + Texts(items[|items| - 1])
  }

  function FieldTexts(fields: seq<Field>): set<string> {
    if fields == [] then {} else FieldTexts(fields[..|fields| - 1]) + Texts(fields[|fields| - 1].value)
  }

  /** `mapStrings` where the depth limit is not reached: keys, lengths and other leaves stay. */
  function MapTexts(v: Json, f: string -> string): Json {
    match v
    case Str(text) => Str(f(text))
    case Arr(items) => Arr(MapItems(items, f))
    case Obj(fields) => Obj(MapFields(fields, f))
    case _ => v
  }

  function MapItems(items: seq<Json>, f: string -> string): seq<Json> {
    if items == [] then [] else MapItems(items[..|items| - 1], f) + [MapTexts(items[|items| - 1], f)]
  }

  function MapFields(fields: seq<Field>, f: string -> string): seq<Field> {
    if fields == [] then []
    else
      var last := fields[|fields| - 1];
      MapFields(fields[..|fields| - 1], f) + [Field(last.key, MapTexts(last.value, f))]
  }

  /** `depth > MAX_TEXT_DEPTH` somewhere. */
  predicate TooDeep(v: Json, depth: nat) {
    || depth > MAX_TEXT_DEPTH
    || match v
       case Arr(items) => exists x :: x in items && TooDeep(x, depth + 1)
       case Obj(fields) => exists x :: x in fields && TooDeep(x.value, depth + 1)
       case _ => false
  }

  /** Mapping strings changes nothing else. */
  lemma {:induction false} MapAgrees(v: Json, f: string -> string, g: string -> string)
    requires forall s :: s in Texts(v) ==> f(s) == g(s)
    ensures MapTexts(v, f) == MapTexts(v, g)
  {
    match v
    case Arr(items) => MapItemsAgree(items, f, g);
    case Obj(fields) => MapFieldsAgree(fields, f, g);
    case _ =>
  }

  lemma {:induction false} MapItemsAgree(items: seq<Json>, f: string -> string, g: string -> string)
    requires forall s :: s in ItemTexts(items) ==> f(s) == g(s)
    ensures MapItems(items, f) == MapItems(items, g)
  {
    if items != [] {
      MapItemsAgree(items[..|items| - 1], f, g);
      MapAgrees(items[|items| - 1], f, g);
    }
  }

  lemma {:induction false} MapFieldsAgree(fields: seq<Field>, f: string -> string, g: string -> string)
    requires forall s :: s in FieldTexts(fields) ==> f(s) == g(s)
    ensures MapFields(fields, f) == MapFields(fields, g)
  {
    if fields != [] {
      MapFieldsAgree(fields[..|fields| - 1], f, g);
      MapAgrees(fields[|fields| - 1].value, f, g);
    }
  }

  /** A second mapping undoes the first on the body exactly when it does so on every string of the body. */
  lemma {:induction false} MapUndone(v: Json, f: string -> string, g: string -> string)
    ensures MapTexts(MapTexts(v, f), g) == v <==> forall s :: s in Texts(v) ==> g(f(s)) == s
  {
    match v
    case Arr(items) => MapItemsUndone(items, f, g);
    case Obj(fields) => MapFieldsUndone(fields, f, g);
    case _ =>
  }

  lemma LastSplits<T>(a: seq<T>, x: T, b: seq<T>)
    requires b != []
    ensures a + [x] == b <==> a == b[..|b| - 1] && x == b[|b| - 1]
  {
    assert b == b[..|b| - 1] + [b[|b| - 1]];
    if a + [x] == b {
      assert (a + [x])[..|a|] == a && (a + [x])[|a|] == x;
    }
  }

  lemma {:induction false} MapItemsUndone(items: seq<Json>, f: string -> string, g: string -> string)
    ensures MapItems(MapItems(items, f), g) == items <==> forall s :: s in ItemTexts(items) ==> g(f(s)) == s
  {
    if items != [] {
      var front, last := items[..|items| - 1], items[|items| - 1];
      MapItemsUndone(front, f, g);
      MapUndone(last, f, g);
      assert (MapItems(front, f) + [MapTexts(last, f)])[..|MapItems(front, f)|] == MapItems(front, f);
      LastSplits(MapItems(MapItems(front, f), g), MapTexts(MapTexts(last, f), g), items);
    }
  }

  lemma {:induction false} MapFieldsUndone(fields: seq<Field>, f: string -> string, g: string -> string)
    ensures MapFields(MapFields(fields, f), g) == fields <==> forall s :: s in FieldTexts(fields) ==> g(f(s)) == s
  {
    if fields != [] {
      var front, last := fields[..|fields| - 1], fields[|fields| - 1];
      MapFieldsUndone(front, f, g);
      MapUndone(last.value, f, g);
      var mapped := MapFields(front, f);
      assert (mapped + [Field(last.key, MapTexts(last.value, f))])[..|mapped|] == mapped;
      LastSplits(MapFields(mapped, g), Field(last.key, MapTexts(MapTexts(last.value, f), g)), fields);
    }
  }

  /** The body with every string blanked: its keys, its array lengths, its other leaves. */
  function Skeleton(v: Json): Json {
    MapTexts(v, s => "")
  }

  lemma {:induction false} SkeletonKept(v: Json, f: string -> string)
    ensures Skeleton(MapTexts(v, f)) == Skeleton(v)
  {
    match v
    case Arr(items) => ItemSkeletonsKept(items, f);
    case Obj(fields) => FieldSkeletonsKept(fields, f);
    case _ =>
  }

  lemma {:induction false} ItemSkeletonsKept(items: seq<Json>, f: string -> string)
    ensures MapItems(MapItems(items, f), s => "") == MapItems(items, s => "")
  {
    if items != [] {
      var front, last := items[..|items| - 1], items[|items| - 1];
      ItemSkeletonsKept(front, f);
      SkeletonKept(last, f);
      assert (MapItems(front, f) + [MapTexts(last, f)])[..|MapItems(front, f)|] == MapItems(front, f);
    }
  }

  lemma {:induction false} FieldSkeletonsKept(fields: seq<Field>, f: string -> string)
    ensures MapFields(MapFields(fields, f), s => "") == MapFields(fields, s => "")
  {
    if fields != [] {
      var front, last := fields[..|fields| - 1], fields[|fields| - 1];
      FieldSkeletonsKept(front, f);
      SkeletonKept(last.value, f);
      var mapped := MapFields(front, f);
      assert (mapped + [Field(last.key, MapTexts(last.value, f))])[..|mapped|] == mapped;
    }
  }

  // ---- A redacted body ----

  /** Every string of the body has all that the detector finds in it replaced by tokens, and the body is otherwise
      as it was. */
  ghost predicate BodyRedacted(analyze: string -> seq<Finding>, byValue: map<string, string>, v: Json, w: Json) {
    match v
    case Str(text) => w.Str? && Redacts(text, analyze(text), byValue, w.text)
    case Arr(items) =>
      && w.Arr? && |w.items| == |items|
      && forall i :: 0 <= i < |items| ==> BodyRedacted(analyze, byValue, items[i], w.items[i])
    case Obj(fields) =>
      && w.Obj? && |w.fields| == |fields|
      && forall i :: 0 <= i < |fields| ==>
           w.fields[i].key == fields[i].key && BodyRedacted(analyze, byValue, fields[i].value, w.fields[i].value)
    case _ => w == v
  }

  lemma {:induction false} MapItemAt(items: seq<Json>, f: string -> string, i: nat)
    requires i < |items|
    ensures |MapItems(items, f)| == |items| && MapItems(items, f)[i] == MapTexts(items[i], f)
    ensures Texts(items[i]) <= ItemTexts(items)
  {
    if i < |items| - 1 {
      MapItemAt(items[..|items| - 1], f, i);
    } else if i > 0 {
      MapItemAt(items[..|items| - 1], f, i - 1);
    }
  }

  lemma {:induction false} MapFieldAt(fields: seq<Field>, f: string -> string, i: nat)
    requires i < |fields|
    ensures |MapFields(fields, f)| == |fields|
    ensures MapFields(fields, f)[i] == Field(fields[i].key, MapTexts(fields[i].value, f))
    ensures Texts(fields[i].value) <= FieldTexts(fields)
  {
    if i < |fields| - 1 {
      MapFieldAt(fields[..|fields| - 1], f, i);
    } else if i > 0 {
      MapFieldAt(fields[..|fields| - 1], f, i - 1);
    }
  }

  /** Redacting every string redacts the body. */
  lemma {:induction false} MapRedacts(analyze: string -> seq<Finding>, byValue: map<string, string>, v: Json,
                                      f: string -> string)
    requires forall s :: s in Texts(v) ==> Redacts(s, analyze(s), byValue, f(s))
    ensures BodyRedacted(analyze, byValue, v, MapTexts(v, f))
    decreases v
  {
    hide Redacts;
    match v
    case Arr(items) =>
      assert items == [] ==> MapItems(items, f) == [];
      forall i | 0 <= i < |items|
        ensures |MapItems(items, f)| == |items| && BodyRedacted(analyze, byValue, items[i], MapItems(items, f)[i])
      {
        MapItemAt(items, f, i);
        MapRedacts(analyze, byValue, items[i], f);
      }
    case Obj(fields) =>
      assert fields == [] ==> MapFields(fields, f) == [];
      forall i | 0 <= i < |fields|
        ensures |MapFields(fields, f)| == |fields| && MapFields(fields, f)[i].key == fields[i].key
        ensures BodyRedacted(analyze, byValue, fields[i].value, MapFields(fields, f)[i].value)
      {
        MapFieldAt(fields, f, i);
        MapRedacts(analyze, byValue, fields[i].value, f);
      }
    case _ =>
  }

  /** The token was issued for this value by the type of a finding with that value in one of these texts. */
  ghost predicate Named(analyze: string -> seq<Finding>, texts: set<string>, value: string, t: string) {
    exists s, f, n ::
      s in texts && f in analyze(s) && f.value == value && Plain(f.kind) && t == TokenText(f.kind, n)
  }

  ghost predicate NewNamed(analyze: string -> seq<Finding>, texts: set<string>, before: map<string, string>,
                           now: map<string, string>) {
    forall v :: v in now && v !in before ==> Named(analyze, texts, v, now[v])
  }

  lemma NoneNamed(analyze: string -> seq<Finding>, texts: set<string>, m: map<string, string>)
    ensures NewNamed(analyze, texts, m, m)
  {
  }

  /** Issuing a token for the i-th finding scanned. */
  lemma FoundNamed(analyze: string -> seq<Finding>, text: string, i: nat, first: map<string, string>,
                   before: map<string, string>, now: map<string, string>)
    requires Detector(analyze) && i < |Scan(analyze, text)| && NewNamed(analyze, {text}, first, before)
    requires Extends(now, before)
    requires var f := Scan(analyze, text)[i];
      && (forall v :: v in now ==> v in before || v == f.value)
      && (f.value in now && f.value !in before ==> exists n :: now[f.value] == TokenText(f.kind, n))
    ensures NewNamed(analyze, {text}, first, now)
  {
    var f := Scan(analyze, text)[i];
    SortedStacked(text, analyze(text));
    assert f in Scan(analyze, text);
    assert Spanned(text, f) by {
      assert Sensible(text, analyze(text));
    }
    hide Detector, Scan, Spanned, TokenText, Plain;
    if f.value in now && f.value !in before {
      var n :| now[f.value] == TokenText(f.kind, n);
      assert Named(analyze, {text}, f.value, now[f.value]);
    }
  }

  lemma NamedAmong(analyze: string -> seq<Finding>, some: set<string>, all: set<string>, before: map<string, string>,
                   now: map<string, string>)
    requires NewNamed(analyze, some, before, now) && some <= all
    ensures NewNamed(analyze, all, before, now)
  {
  }

  lemma {:induction false} ItemTextsGrow(items: seq<Json>, i: nat)
    requires i <= |items|
    ensures ItemTexts(items[..i]) <= ItemTexts(items)
  {
    if i < |items| {
      ItemTextsGrow(items[..|items| - 1], i);
      assert items[..|items| - 1][..i] == items[..i];
    } else {
      assert items[..i] == items;
    }
  }

  lemma {:induction false} FieldTextsGrow(fields: seq<Field>, i: nat)
    requires i <= |fields|
    ensures FieldTexts(fields[..i]) <= FieldTexts(fields)
  {
    if i < |fields| {
      FieldTextsGrow(fields[..|fields| - 1], i);
      assert fields[..|fields| - 1][..i] == fields[..i];
    } else {
      assert fields[..i] == fields;
    }
  }

  lemma NamedFurther(analyze: string -> seq<Finding>, some: set<string>, more: set<string>,
                     first: map<string, string>, second: map<string, string>, third: map<string, string>)
    requires NewNamed(analyze, some, first, second) && NewNamed(analyze, more, second, third) && Extends(third, second)
    ensures NewNamed(analyze, some + more, first, third)
  {
  }

  // ---- The mapper ----

  /** `t` is the n-th token of its type, for an n the counter has reached. */
  predicate Numbered(t: string, kind: string, n: nat, counters: map<string, nat>) {
    Plain(kind) && kind in counters && 1 <= n <= counters[kind] && t == TokenText(kind, n)
  }

  ghost predicate Issued(t: string, counters: map<string, nat>) {
    exists kind, n :: Numbered(t, kind, n, counters)
  }

  /** `byValue` and the map handed out undo each other, so distinct values have distinct tokens. */
  predicate Inverse(byValue: map<string, string>, tokens: map<string, string>) {
    && (forall v :: v in byValue ==> byValue[v] in tokens && tokens[byValue[v]] == v)
    && (forall t :: t in tokens ==> tokens[t] in byValue && byValue[tokens[t]] == t)
  }

  lemma IssuedHasShape(t: string, counters: map<string, nat>)
    requires Issued(t, counters)
    ensures TokenShape(t)
  {
    var kind, n :| Numbered(t, kind, n, counters);
    TokenHasShape(kind, n);
  }

  /** The next number of a type gives a token never issued before. */
  lemma NextIsFresh(kind: string, counters: map<string, nat>, next: nat)
    requires next == (if kind in counters then counters[kind] else 0) + 1
    ensures !Issued(TokenText(kind, next), counters)
  {
    forall kind', n | Numbered(TokenText(kind, next), kind', n, counters) ensures false {
      TokenInjective(kind, next, kind', n);
    }
  }

  lemma InverseGrows(byValue: map<string, string>, tokens: map<string, string>, value: string, t: string)
    requires Inverse(byValue, tokens) && value !in byValue && t !in tokens
    ensures Inverse(byValue[value := t], tokens[t := value])
  {
  }

  /** Issuing the next token of a type. */
  lemma OneMoreIssued(tokens: map<string, string>, counters: map<string, nat>, kind: string, next: nat)
    requires (forall t :: t in tokens ==> Issued(t, counters)) && Plain(kind)
    requires next == (if kind in counters then counters[kind] else 0) + 1
    ensures TokenText(kind, next) !in tokens
    ensures forall t :: t in tokens ==> Issued(t, counters[kind := next])
    ensures Issued(TokenText(kind, next), counters[kind := next])
  {
    NextIsFresh(kind, counters, next);
    assert Numbered(TokenText(kind, next), kind, next, counters[kind := next]);
    forall t | t in tokens ensures Issued(t, counters[kind := next]) {
      var kind', n :| Numbered(t, kind', n, counters);
      assert Numbered(t, kind', n, counters[kind := next]);
    }
  }

  /** The right-hand findings, from the i-th in the list back, are replaced; the text to their left is not. */
  ghost predicate Progress(text: string, fs: seq<Finding>, i: nat, byValue: map<string, string>, out: string) {
    && i <= |fs| && Stacked(text, fs) && Stacked(text, fs[..i])
    && (forall j :: 0 <= j < i ==> fs[j].value in byValue)
    && out == text[..From(text, fs[..i])] + Render(Tail(text, fs[..i], byValue))
  }

  lemma {:induction false} NothingReplaced(text: string, fs: seq<Finding>, byValue: map<string, string>)
    requires Stacked(text, fs)
    ensures Progress(text, fs, 0, byValue, text)
  {
    assert fs[..0] == [] && text[..|text|] == text;
  }

  lemma {:induction false} AllReplaced(text: string, fs: seq<Finding>, byValue: map<string, string>, out: string)
    requires Progress(text, fs, |fs|, byValue, out)
    ensures Stacked(text, fs) && out == Render(Woven(text, fs, byValue))
    ensures forall f :: f in fs ==> f.value in byValue
  {
    assert fs[..|fs|] == fs;
    hide Tail;
    Joined(Chars(text[..From(text, fs)]), Tail(text, fs, byValue));
    CharsPlain(text[..From(text, fs)]);
  }

  lemma {:induction false} OneReplaced(text: string, fs: seq<Finding>, i: nat, before: map<string, string>,
                                       byValue: map<string, string>, out: string)
    requires i < |fs| && Progress(text, fs, i, before, out) && Extends(byValue, before) && fs[i].value in byValue
    ensures fs[i].start <= fs[i].end <= |out|
    ensures Progress(text, fs, i + 1, byValue, out[..fs[i].start] + byValue[fs[i].value] + out[fs[i].end..])
  {
    StackedPrefix(text, fs, i);
    TailStays(text, fs[..i], before, byValue);
    hide Tail, Render;
    Spliced(text, fs, i, byValue);
  }

  lemma ScanStacked(analyze: string -> seq<Finding>, text: string)
    requires Detector(analyze)
    ensures Stacked(text, Scan(analyze, text))
    ensures forall i :: 0 <= i < |Scan(analyze, text)| ==> Plain(Scan(analyze, text)[i].kind)
  {
    SortedStacked(text, analyze(text));
  }

  lemma AtomsWoven(analyze: string -> seq<Finding>, byValue: map<string, string>, text: string)
    requires Detector(analyze) && Stacked(text, Scan(analyze, text))
    ensures Tokenized(analyze, byValue, text) == Render(Woven(text, Scan(analyze, text), byValue))
  {
  }

  lemma ExtendsItself(m: map<string, string>)
    ensures Extends(m, m)
  {
  }

  lemma ExtendsFurther(first: map<string, string>, second: map<string, string>, third: map<string, string>)
    requires Extends(second, first) && Extends(third, second)
    ensures Extends(third, first)
  {
  }

  /** `tokenizingMapper` */
  class Mapper {
    const analyze: string -> seq<Finding>
    var byValue: map<string, string>
    var tokens: map<string, string>
    var counters: map<string, nat>

    ghost predicate Valid()
      reads this
    {
      && Detector(analyze) && Inverse(byValue, tokens)
      && forall t :: t in tokens ==> Issued(t, counters)
    }

    constructor (analyze: string -> seq<Finding>)
      requires Detector(analyze)
      ensures Valid() && this.analyze == analyze && byValue == map[] && tokens == map[]
    {
      this.analyze, byValue, tokens, counters := analyze, map[], map[], map[];
    }

    /** `tokenFor`, lines 32 to 38. */
    method TokenFor(kind: string, value: string) returns (t: string)
      requires Valid() && Plain(kind)
      modifies this
      ensures Valid() && Extends(byValue, old(byValue)) && value in byValue && t == byValue[value]
      ensures forall v :: v in byValue ==> v in old(byValue) || v == value
      ensures value !in old(byValue) ==> t !in old(tokens)
      ensures value !in old(byValue) ==> exists n :: t == TokenText(kind, n)
    {
      hide Detector;
      if value in byValue {
        return byValue[value];
      }
      hide Inverse, TokenText, Issued, Plain;
      var n := (if kind in counters then counters[kind] else 0) + 1;
      t := TokenText(kind, n);
      OneMoreIssued(tokens, counters, kind, n);
      InverseGrows(byValue, tokens, value, t);
      counters := counters[kind := n];
      byValue, tokens := byValue[value := t], tokens[t := value];
    }

    /** `tokenizeText`, lines 39 to 48. */
    method TokenizeText(text: string) returns (out: string)
      requires Valid()
      modifies this
      ensures Valid() && Extends(byValue, old(byValue))
      ensures Covered(analyze, byValue, text) && out == Tokenized(analyze, byValue, text)
      ensures Redacts(text, analyze(text), byValue, out) && NewNamed(analyze, {text}, old(byValue), byValue)
    {
      var fs := Scan(analyze, text);
      ScanStacked(analyze, text);
      out := text;
      hide Valid, Progress, Stacked, Spanned, Extends, Scan, Plain, Atoms, Redacts, Named, NewNamed, TokenText;
      NothingReplaced(text, fs, byValue);
      ExtendsItself(byValue);
      NoneNamed(analyze, {text}, byValue);
      for i := 0 to |fs|
        invariant Valid() && Extends(byValue, old(byValue)) && Progress(text, fs, i, byValue, out)
        invariant NewNamed(analyze, {text}, old(byValue), byValue)
      {
        var f := fs[i];
        ghost var before := byValue;
        var t := TokenFor(f.kind, f.value);
        ExtendsFurther(old(byValue), before, byValue);
        FoundNamed(analyze, text, i, old(byValue), before, byValue);
        OneReplaced(text, fs, i, before, byValue, out);
        out := out[..f.start] + t + out[f.end..];
      }
      AllReplaced(text, fs, byValue, out);
      AtomsWoven(analyze, byValue, text);
      TokenizedRedacts(analyze, byValue, text);
    }

    /** `canonical.mapStrings(body, mapper.tokenizeText)`; None is the nesting error. */
    method MapStrings(v: Json, depth: nat) returns (r: Option<Json>)
      requires Valid()
      modifies this
      ensures Valid() && Extends(byValue, old(byValue))
      ensures r.None? <==> TooDeep(v, depth)
      ensures r.Some? ==> BodyCovered(v) && r.value == MapTexts(v, Tokenizing(analyze, byValue))
      ensures r.Some? ==> BodyRedacted(analyze, byValue, v, r.value)
      ensures NewNamed(analyze, Texts(v), old(byValue), byValue)
      decreases v
    {
      NoneNamed(analyze, Texts(v), byValue);
      if depth > MAX_TEXT_DEPTH {
        return None;
      }
      hide Detector, Inverse, Issued, Covered, Extends, NewNamed, Redacts;
      match v {
        case Str(text) =>
          var t := TokenizeText(text);
          r := Some(Str(t));
        case Arr(items) =>
          var mapped := MapArray(items, depth);
          r := if mapped.None? then None else Some(Arr(mapped.value));
        case Obj(fields) =>
          var mapped := MapObject(fields, depth);
          r := if mapped.None? then None else Some(Obj(mapped.value));
        case _ =>
          assert Extends(byValue, old(byValue));
          r := Some(v);
      }
      if r.Some? {
        hide MapTexts, Texts, Tokenizing, BodyRedacted;
        CoveredRedacts(analyze, byValue, v);
      }
    }

    lemma Detecting()
      requires Valid()
      ensures Detector(analyze)
    {
    }

    method MapArray(items: seq<Json>, depth: nat) returns (r: Option<seq<Json>>)
      requires Valid()
      modifies this
      ensures Valid() && Extends(byValue, old(byValue))
      ensures r.None? <==> exists x :: x in items && TooDeep(x, depth + 1)
      ensures NewNamed(analyze, ItemTexts(items), old(byValue), byValue)
      ensures r.Some? ==>
        && (forall s :: s in ItemTexts(items) ==> Covered(analyze, byValue, s))
        && r.value == MapItems(items, Tokenizing(analyze, byValue))
      decreases items, 0
    {
      hide Detector, Inverse, Issued, Covered, TooDeep, Tokenizing, NewNamed, Extends, Valid;
      Detecting();
      NoneNamed(analyze, {}, byValue);
      ExtendsItself(byValue);
      var mapped: seq<Json> := [];
      var i := 0;
      while i < |items|
        invariant 0 <= i <= |items| && Valid() && Extends(byValue, old(byValue))
        invariant forall j :: 0 <= j < i ==> !TooDeep(items[j], depth + 1)
        invariant forall s :: s in ItemTexts(items[..i]) ==> Covered(analyze, byValue, s)
        invariant mapped == MapItems(items[..i], Tokenizing(analyze, byValue))
        invariant NewNamed(analyze, ItemTexts(items[..i]), old(byValue), byValue)
      {
        ghost var before := byValue;
        var one := MapStrings(items[i], depth + 1);
        assert items[..i + 1][..i] == items[..i];
        ExtendsFurther(old(byValue), before, byValue);
        NamedFurther(analyze, ItemTexts(items[..i]), Texts(items[i]), old(byValue), before, byValue);
        if one.None? {
          assert items[i] in items;
          ItemTextsGrow(items, i + 1);
          NamedAmong(analyze, ItemTexts(items[..i + 1]), ItemTexts(items), old(byValue), byValue);
          return None;
        }
        ItemsStay(items[..i], before);
        mapped := mapped + [one.value];
        i := i + 1;
      }
      assert items[..i] == items;
      r := Some(mapped);
    }

    method MapObject(fields: seq<Field>, depth: nat) returns (r: Option<seq<Field>>)
      requires Valid()
      modifies this
      ensures Valid() && Extends(byValue, old(byValue))
      ensures r.None? <==> exists x :: x in fields && TooDeep(x.value, depth + 1)
      ensures NewNamed(analyze, FieldTexts(fields), old(byValue), byValue)
      ensures r.Some? ==>
        && (forall s :: s in FieldTexts(fields) ==> Covered(analyze, byValue, s))
        && r.value == MapFields(fields, Tokenizing(analyze, byValue))
      decreases fields, 0
    {
      hide Detector, Inverse, Issued, Covered, TooDeep, Tokenizing, NewNamed, Extends, Valid;
      Detecting();
      NoneNamed(analyze, {}, byValue);
      ExtendsItself(byValue);
      var mapped: seq<Field> := [];
      var i := 0;
      while i < |fields|
        invariant 0 <= i <= |fields| && Valid() && Extends(byValue, old(byValue))
        invariant forall j :: 0 <= j < i ==> !TooDeep(fields[j].value, depth + 1)
        invariant forall s :: s in FieldTexts(fields[..i]) ==> Covered(analyze, byValue, s)
        invariant mapped == MapFields(fields[..i], Tokenizing(analyze, byValue))
        invariant NewNamed(analyze, FieldTexts(fields[..i]), old(byValue), byValue)
      {
        ghost var before := byValue;
        var one := MapStrings(fields[i].value, depth + 1);
        assert fields[..i + 1][..i] == fields[..i];
        ExtendsFurther(old(byValue), before, byValue);
        NamedFurther(analyze, FieldTexts(fields[..i]), Texts(fields[i].value), old(byValue), before, byValue);
        if one.None? {
          FieldTextsGrow(fields, i + 1);
          NamedAmong(analyze, FieldTexts(fields[..i + 1]), FieldTexts(fields), old(byValue), byValue);
          return None;
        }
        FieldsStay(fields[..i], before);
        mapped := mapped + [Field(fields[i].key, one.value)];
        i := i + 1;
      }
      assert fields[..i] == fields;
      r := Some(mapped);
    }

    ghost predicate BodyCovered(v: Json)
      reads this
    {
      forall s :: s in Texts(v) ==> Covered(analyze, byValue, s)
    }

    lemma ItemsStay(items: seq<Json>, before: map<string, string>)
      requires Valid() && Extends(byValue, before) && forall s :: s in ItemTexts(items) ==> Covered(analyze, before, s)
      ensures MapItems(items, Tokenizing(analyze, byValue)) == MapItems(items, Tokenizing(analyze, before))
      ensures forall s :: s in ItemTexts(items) ==> Covered(analyze, byValue, s)
    {
      forall s | s in ItemTexts(items) ensures Tokenizing(analyze, byValue)(s) == Tokenizing(analyze, before)(s) {
        TokenizedStays(analyze, before, byValue, s);
      }
      MapItemsAgree(items, Tokenizing(analyze, byValue), Tokenizing(analyze, before));
    }

    lemma FieldsStay(fields: seq<Field>, before: map<string, string>)
      requires Valid() && Extends(byValue, before) && forall s :: s in FieldTexts(fields) ==>
        Covered(analyze, before, s)
      ensures MapFields(fields, Tokenizing(analyze, byValue)) == MapFields(fields, Tokenizing(analyze, before))
      ensures forall s :: s in FieldTexts(fields) ==> Covered(analyze, byValue, s)
    {
      forall s | s in FieldTexts(fields) ensures Tokenizing(analyze, byValue)(s) == Tokenizing(analyze, before)(s) {
        TokenizedStays(analyze, before, byValue, s);
      }
      MapFieldsAgree(fields, Tokenizing(analyze, byValue), Tokenizing(analyze, before));
    }
  }

  ghost function Tokenizing(analyze: string -> seq<Finding>, byValue: map<string, string>): string -> string
    requires Detector(analyze)
  {
    text => if Detector(analyze) then Tokenized(analyze, byValue, text) else text
  }

  lemma CoveredRedacts(analyze: string -> seq<Finding>, byValue: map<string, string>, v: Json)
    requires Detector(analyze) && forall s :: s in Texts(v) ==> Covered(analyze, byValue, s)
    ensures BodyRedacted(analyze, byValue, v, MapTexts(v, Tokenizing(analyze, byValue)))
  {
    hide Detector, Covered, Redacts, Tokenized, MapTexts, BodyRedacted;
    forall s | s in Texts(v) ensures Redacts(s, analyze(s), byValue, Tokenizing(analyze, byValue)(s)) {
      TokenizedRedacts(analyze, byValue, s);
    }
    MapRedacts(analyze, byValue, v, Tokenizing(analyze, byValue));
  }

  // ---- Reversibility ----

  lemma {:induction false} TailBacked(text: string, fs: seq<Finding>, byValue: map<string, string>,
                                      tokens: map<string, string>)
    requires Stacked(text, fs) && Inverse(byValue, tokens) && (forall t :: t in tokens ==> TokenShape(t))
    requires forall f :: f in fs ==> f.value in byValue
    ensures Backed(Tail(text, fs, byValue), tokens)
  {
    if fs != [] {
      var f, right := fs[|fs| - 1], fs[..|fs| - 1];
      TailBacked(text, right, byValue, tokens);
      CharsPlain(text[f.end..From(text, right)]);
      var gap := Chars(text[f.end..From(text, right)]);
      assert forall i :: 0 <= i < |gap| ==> gap[i] in gap;
    }
  }

  lemma {:induction false} AtomsBacked(analyze: string -> seq<Finding>, byValue: map<string, string>,
                                       tokens: map<string, string>, text: string)
    requires Detector(analyze) && Inverse(byValue, tokens) && Covered(analyze, byValue, text)
    requires forall t :: t in tokens ==> TokenShape(t)
    ensures Backed(Atoms(analyze, byValue, text), tokens) && Original(Atoms(analyze, byValue, text)) == text
  {
    SortedStacked(text, analyze(text));
    var fs := Scan(analyze, text);
    TailBacked(text, fs, byValue, tokens);
    CharsPlain(text[..From(text, fs)]);
    var front := Chars(text[..From(text, fs)]);
    assert forall i :: 0 <= i < |front| ==> front[i] in front;
    WovenOriginal(text, fs, byValue);
  }

  predicate AllTokens(order: seq<string>, tokens: map<string, string>) {
    && (forall t :: t in order ==> t in tokens)
    && (forall t :: t in tokens ==> t in order)
  }

  /** In the tokenized text each token, when its turn comes, shows only where the mapper put it. */
  ghost predicate TextClean(analyze: string -> seq<Finding>, byValue: map<string, string>, order: seq<string>,
                            text: string)
  {
    Detector(analyze) && PutsBackCleanly(Atoms(analyze, byValue, text), order)
  }

  /** One string: tokenizing it and substituting the map back, in any order of all the tokens, gives the
      string again if every token is put back cleanly; and only if, where the values found have fewer than two
      opening brackets. */
  lemma {:induction false} TextRestored(analyze: string -> seq<Finding>, byValue: map<string, string>,
                                        tokens: map<string, string>, order: seq<string>, text: string)
    requires Detector(analyze) && Inverse(byValue, tokens) && Covered(analyze, byValue, text)
    requires AllTokens(order, tokens) && forall t :: t in tokens ==> TokenShape(t)
    ensures TextClean(analyze, byValue, order, text) ==>
      Detokenize(Tokenized(analyze, byValue, text), order, tokens) == text
    ensures FewBrackets(order, tokens) && Detokenize(Tokenized(analyze, byValue, text), order, tokens) == text ==>
      TextClean(analyze, byValue, order, text)
    ensures (forall t :: t in tokens ==> Absent(text, t)) ==> TextClean(analyze, byValue, order, text)
  {
    var atoms := Atoms(analyze, byValue, text);
    AtomsBacked(analyze, byValue, tokens, text);
    TokensPutBack(atoms, order, tokens);
    hide Atoms, Inverse, Backed, PutBack, Detokenize, TokenShape, Absent, Brackets;
    if PutsBackCleanly(atoms, order) {
      AllPutBack(atoms, order, tokens);
    }
    if FewBrackets(order, tokens) {
      RestoredExactly(atoms, order, tokens);
    }
    if forall t :: t in tokens ==> Absent(text, t) {
      AbsentClean(atoms, order, tokens);
    }
  }

  lemma TokensPutBack(atoms: seq<Atom>, order: seq<string>, tokens: map<string, string>)
    requires Backed(atoms, tokens) && AllTokens(order, tokens)
    ensures PutBack(atoms, order)
  {
  }

  function Detokenizing(order: seq<string>, tokens: map<string, string>): string -> string {
    text => Detokenize(text, order, tokens)
  }

  /** No token of the map occurs in any string of the body. */
  predicate TokenFree(v: Json, tokens: map<string, string>) {
    forall s, t :: s in Texts(v) && t in tokens ==> Absent(s, t)
  }

  ghost predicate BodyClean(analyze: string -> seq<Finding>, byValue: map<string, string>, order: seq<string>,
                            v: Json) {
    forall s :: s in Texts(v) ==> TextClean(analyze, byValue, order, s)
  }

  /** Substituting the map back into every string of the redacted body, in this order, gives the body if every
      string is put back cleanly; and only if, where the values have fewer than two opening brackets. A body in
      which no token occurs is put back cleanly. */
  ghost predicate Undoes(analyze: string -> seq<Finding>, byValue: map<string, string>, body: Json, redacted: Json,
                         order: seq<string>, tokens: map<string, string>)
  {
    var restored := MapTexts(redacted, Detokenizing(order, tokens)) == body;
    && (BodyClean(analyze, byValue, order, body) ==> restored)
    && (FewBrackets(order, tokens) && restored ==> BodyClean(analyze, byValue, order, body))
    && (TokenFree(body, tokens) ==> BodyClean(analyze, byValue, order, body))
  }

  /** The body theorem, for a body tokenized by one mapper and any order of its tokens. */
  lemma {:induction false} BodyRestored(analyze: string -> seq<Finding>, byValue: map<string, string>,
                                        tokens: map<string, string>, v: Json, order: seq<string>)
    requires Detector(analyze) && Inverse(byValue, tokens) && forall t :: t in tokens ==> TokenShape(t)
    requires forall s :: s in Texts(v) ==> Covered(analyze, byValue, s)
    requires AllTokens(order, tokens)
    ensures Undoes(analyze, byValue, v, MapTexts(v, Tokenizing(analyze, byValue)), order, tokens)
  {
    hide Inverse, Covered, Detokenize, TextClean, Absent, TokenShape, FewBrackets, Tokenized, MapTexts;
    MapUndone(v, Tokenizing(analyze, byValue), Detokenizing(order, tokens));
    forall s | s in Texts(v)
      ensures var same := Detokenizing(order, tokens)(Tokenizing(analyze, byValue)(s)) == s;
        && (TextClean(analyze, byValue, order, s) ==> same)
        && (FewBrackets(order, tokens) && same ==> TextClean(analyze, byValue, order, s))
        && ((forall t :: t in tokens ==> Absent(s, t)) ==> TextClean(analyze, byValue, order, s))
    {
      TextRestored(analyze, byValue, tokens, order, s);
    }
  }

  /** `redactBodyLocally`, lines 55 to 59: the redacted body, and the map that undoes it. */
  method RedactBodyLocally(analyze: string -> seq<Finding>, body: Json)
    returns (r: Option<(Json, map<string, string>)>, ghost byValue: map<string, string>)
    requires Detector(analyze)
    ensures r.None? <==> TooDeep(body, 0)
    ensures r.Some? ==> Skeleton(r.value.0) == Skeleton(body) && Inverse(byValue, r.value.1)
    ensures r.Some? ==> BodyRedacted(analyze, byValue, body, r.value.0)
    ensures forall v :: v in byValue ==> Named(analyze, Texts(body), v, byValue[v])
    ensures r.Some? ==> forall order :: AllTokens(order, r.value.1) ==>
      Undoes(analyze, byValue, body, r.value.0, order, r.value.1)
  {
    hide Detector, Inverse, Issued, Covered, TooDeep, Texts, MapTexts, Detokenizing, Tokenizing, Undoes, Named,
      BodyRedacted;
    var mapper := new Mapper(analyze);
    var redacted := mapper.MapStrings(body, 0);
    byValue := mapper.byValue;
    if redacted.None? {
      return None, byValue;
    }
    r := Some((redacted.value, mapper.tokens));
    SkeletonKept(body, Tokenizing(analyze, mapper.byValue));
    forall t | t in mapper.tokens ensures TokenShape(t) {
      IssuedHasShape(t, mapper.counters);
    }
    forall order | AllTokens(order, mapper.tokens)
      ensures Undoes(analyze, byValue, body, redacted.value, order, mapper.tokens)
    {
      BodyRestored(analyze, mapper.byValue, mapper.tokens, body, order);
    }
  }
}
