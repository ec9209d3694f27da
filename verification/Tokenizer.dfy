/**
 Reversible tokenization of a whole JSON body: gateway/server.js lines 28 to 59 over `mapStrings` of
 gateway/canonical.js, and the substitution back of detection-engine/detect.js lines 1463 to 1470.
 */
module Tokenizer {
  import opened Decimal

  const MAX_TEXT_DEPTH := 64

  /** The text of a token, `[[TYPE_n]]`. */
  function TokenText(kind: string, n: nat): string {
    "[[" + kind + "_" + NatText(n) + "]]"
  }

  /** Detector names have no brackets. */
  predicate Plain(kind: string) {
    '[' !in kind && ']' !in kind
  }

  // ---- Findings ----

  datatype Finding = Finding(kind: string, start: nat, end: nat, value: string)

  predicate Spanned(text: string, f: Finding) {
    f.start < f.end <= |text| && f.value == text[f.start..f.end] && Plain(f.kind)
  }

  predicate Apart(f: Finding, g: Finding) {
    f.end <= g.start || g.end <= f.start
  }

  /** The detector reports non-empty, non-overlapping spans, each with the spanned text as its value. */
  predicate Sensible(text: string, fs: seq<Finding>) {
    && (forall i :: 0 <= i < |fs| ==> Spanned(text, fs[i]))
    && forall i, j :: 0 <= i < j < |fs| ==> Apart(fs[i], fs[j])
  }

  ghost predicate Detector(analyze: string -> seq<Finding>) {
    forall text :: Sensible(text, analyze(text))
  }

  /** Later spans come first, and none reaches into the one before it in the list. */
  predicate Stacked(text: string, fs: seq<Finding>) {
    && (forall i :: 0 <= i < |fs| ==> Spanned(text, fs[i]))
    && forall i, j :: 0 <= i < j < |fs| ==> fs[j].end <= fs[i].start
  }

  function Insert(f: Finding, fs: seq<Finding>): seq<Finding> {
    if fs == [] || f.start >= fs[0].start then [f] + fs else [fs[0]] + Insert(f, fs[1..])
  }

  /** `findings.slice().sort((a, b) => b.start - a.start)` */
  function LastFirst(fs: seq<Finding>): seq<Finding> {
    if fs == [] then [] else Insert(fs[0], LastFirst(fs[1..]))
  }

  lemma {:induction false} InsertMembers(f: Finding, fs: seq<Finding>)
    ensures forall g :: g in Insert(f, fs) <==> g == f || g in fs
  {
    if fs != [] && f.start < fs[0].start {
      InsertMembers(f, fs[1..]);
      assert fs == [fs[0]] + fs[1..];
    }
  }

  lemma {:induction false} InsertStacked(text: string, f: Finding, fs: seq<Finding>)
    requires Stacked(text, fs) && Spanned(text, f) && forall g :: g in fs ==> Apart(f, g)
    ensures Stacked(text, Insert(f, fs))
  {
    InsertMembers(f, fs);
    if fs != [] {
      assert fs[0] in fs;
      if f.start < fs[0].start {
        InsertStacked(text, f, fs[1..]);
        InsertMembers(f, fs[1..]);
        var rest := Insert(f, fs[1..]);
        forall j | 0 <= j < |rest| ensures rest[j].end <= fs[0].start {
          assert rest[j] in rest;
        }
      } else {
        assert forall j :: 0 <= j < |fs| ==> fs[j] in fs;
      }
    }
  }

  /** Sorting non-overlapping findings by start stacks them, and loses and adds none. */
  lemma {:induction false} SortedStacked(text: string, fs: seq<Finding>)
    requires Sensible(text, fs)
    ensures Stacked(text, LastFirst(fs)) && forall g :: g in LastFirst(fs) <==> g in fs
  {
    if fs != [] {
      SortedStacked(text, fs[1..]);
      InsertMembers(fs[0], LastFirst(fs[1..]));
      forall g | g in fs[1..] ensures Apart(fs[0], g) {
        var i :| 0 <= i < |fs[1..]| && fs[1..][i] == g;
        assert fs[i + 1] == g;
      }
      InsertStacked(text, fs[0], LastFirst(fs[1..]));
      assert fs == [fs[0]] + fs[1..];
    }
  }

  // ---- Tokenized text as a sequence of plain characters and whole tokens ----

  datatype Atom = Ch(c: char) | Tok(token: string, value: string)

  function Chars(text: string): (r: seq<Atom>)
    ensures |r| == |text|
  {
    if text == "" then [] else [Ch(text[0])] + Chars(text[1..])
  }

  function Render(atoms: seq<Atom>): string {
    if atoms == [] then "" else Shown(atoms[0]) + Render(atoms[1..])
  }

  function Shown(a: Atom): string {
    match a case Ch(c) => [c] case Tok(t, _) => t
  }

  function Original(atoms: seq<Atom>): string {
    if atoms == [] then "" else Meant(atoms[0]) + Original(atoms[1..])
  }

  function Meant(a: Atom): string {
    match a case Ch(c) => [c] case Tok(_, v) => v
  }

  lemma {:induction false} CharsPlain(text: string)
    ensures Render(Chars(text)) == text && Original(Chars(text)) == text
    ensures forall a :: a in Chars(text) ==> a.Ch?
  {
    if text != "" {
      CharsPlain(text[1..]);
      assert text == [text[0]] + text[1..];
    }
  }

  lemma {:induction false} Joined(a: seq<Atom>, b: seq<Atom>)
    ensures Render(a + b) == Render(a) + Render(b) && Original(a + b) == Original(a) + Original(b)
  {
    if a == [] {
      assert a + b == b;
    } else {
      Joined(a[1..], b);
      assert (a + b)[0] == a[0] && (a + b)[1..] == a[1..] + b;
      Associates(Shown(a[0]), Render(a[1..]), Render(b));
      Associates(Meant(a[0]), Original(a[1..]), Original(b));
    }
  }

  /** Where the part already worked on begins. */
  function From(text: string, fs: seq<Finding>): (from: nat)
    requires Stacked(text, fs)
    ensures from <= |text|
  {
    if fs == [] then |text| else fs[|fs| - 1].start
  }

  function TokenOf(byValue: map<string, string>, value: string): string {
    if value in byValue then byValue[value] else ""
  }

  /** The end of the text from the leftmost of these findings on, each finding replaced by its token. */
  function Tail(text: string, fs: seq<Finding>, byValue: map<string, string>): seq<Atom>
    requires Stacked(text, fs)
  {
    if fs == [] then [] else
      var f, right := fs[|fs| - 1], fs[..|fs| - 1];
      [Tok(TokenOf(byValue, f.value), f.value)] + Chars(text[f.end..From(text, right)]) + Tail(text, right, byValue)
  }

  /** The text with every finding replaced by its token. */
  function Woven(text: string, fs: seq<Finding>, byValue: map<string, string>): seq<Atom>
    requires Stacked(text, fs)
  {
    Chars(text[..From(text, fs)]) + Tail(text, fs, byValue)
  }

  lemma {:induction false} TailOriginal(text: string, fs: seq<Finding>, byValue: map<string, string>)
    requires Stacked(text, fs)
    ensures Original(Tail(text, fs, byValue)) == text[From(text, fs)..]
  {
    if fs != [] {
      var f, right := fs[|fs| - 1], fs[..|fs| - 1];
      TailOriginal(text, right, byValue);
      TailMeans(text, fs, byValue);
      hide Tail, Original;
      Cut(text, f.end, From(text, right));
      Cut(text, f.start, f.end);
      assert f.value == text[f.start..f.end];
    }
  }

  lemma Cut(text: string, a: nat, b: nat)
    requires a <= b <= |text|
    ensures text[a..] == text[a..b] + text[b..]
  {
  }

  lemma CutThrough(text: string, rest: string, a: nat, b: nat, from: nat)
    requires a <= b <= from <= |text|
    ensures (text[..from] + rest)[..a] == text[..a] && (text[..from] + rest)[b..] == text[b..from] + rest
  {
  }

  lemma {:induction false} TailMeans(text: string, fs: seq<Finding>, byValue: map<string, string>)
    requires fs != [] && Stacked(text, fs)
    ensures var f, right := fs[|fs| - 1], fs[..|fs| - 1];
            && f.end <= From(text, right)
            && Original(Tail(text, fs, byValue))
               == f.value + (text[f.end..From(text, right)] + Original(Tail(text, right, byValue)))
  {
    var f, right := fs[|fs| - 1], fs[..|fs| - 1];
    var token := [Tok(TokenOf(byValue, f.value), f.value)];
    var gap := Chars(text[f.end..From(text, right)]);
    Joined(token + gap, Tail(text, right, byValue));
    Joined(token, gap);
    CharsPlain(text[f.end..From(text, right)]);
    assert Original(token) == f.value + Original([]);
    Associates(f.value, text[f.end..From(text, right)], Original(Tail(text, right, byValue)));
  }

  lemma {:induction false} WovenOriginal(text: string, fs: seq<Finding>, byValue: map<string, string>)
    requires Stacked(text, fs)
    ensures Original(Woven(text, fs, byValue)) == text
  {
    hide Original, Tail, Stacked;
    TailOriginal(text, fs, byValue);
    Joined(Chars(text[..From(text, fs)]), Tail(text, fs, byValue));
    CharsPlain(text[..From(text, fs)]);
  }

  predicate Extends(now: map<string, string>, before: map<string, string>) {
    forall v :: v in before ==> v in now && now[v] == before[v]
  }

  lemma {:induction false} TailStays(text: string, fs: seq<Finding>, before: map<string, string>, now: map<string,
                                     string>)
    requires Stacked(text, fs) && Extends(now, before) && forall f :: f in fs ==> f.value in before
    ensures Tail(text, fs, now) == Tail(text, fs, before)
  {
    if fs != [] {
      TailStays(text, fs[..|fs| - 1], before, now);
    }
  }

  lemma {:induction false} StackedPrefix(text: string, fs: seq<Finding>, i: nat)
    requires i < |fs| && Stacked(text, fs)
    ensures Stacked(text, fs[..i]) && Stacked(text, fs[..i + 1]) && fs[i].start <= fs[i].end <= From(text, fs[..i])
  {
    assert i == 0 || fs[i - 1] == fs[..i][i - 1];
  }

  /** One splice: what was a plain stretch now holds the token and the stretch after it. */
  lemma {:induction false} Spliced(text: string, fs: seq<Finding>, i: nat, byValue: map<string, string>)
    requires i < |fs| && Stacked(text, fs) && fs[i].value in byValue
    requires Stacked(text, fs[..i]) && Stacked(text, fs[..i + 1]) && fs[i].start <= fs[i].end <= From(text, fs[..i])
    ensures var out := text[..From(text, fs[..i])] + Render(Tail(text, fs[..i], byValue));
            out[..fs[i].start] + byValue[fs[i].value] + out[fs[i].end..]
            == text[..From(text, fs[..i + 1])] + Render(Tail(text, fs[..i + 1], byValue))
  {
    hide Tail, Render, Stacked;
    var f, right := fs[i], fs[..i];
    assert fs[..i + 1][..i] == right;
    SplicedTail(text, fs[..i + 1], byValue);
    var from, rest := From(text, right), Render(Tail(text, right, byValue));
    CutThrough(text, rest, f.start, f.end, from);
    Associates(text[..f.start], byValue[f.value], text[f.end..from] + rest);
  }

  lemma {:induction false} SplicedTail(text: string, fs: seq<Finding>, byValue: map<string, string>)
    requires fs != [] && Stacked(text, fs) && fs[|fs| - 1].value in byValue
    ensures var f, right := fs[|fs| - 1], fs[..|fs| - 1];
            && f.end <= From(text, right)
            && Render(Tail(text, fs, byValue))
               == byValue[f.value] + (text[f.end..From(text, right)] + Render(Tail(text, right, byValue)))
  {
    var f, right := fs[|fs| - 1], fs[..|fs| - 1];
    var token := [Tok(byValue[f.value], f.value)];
    var gap := Chars(text[f.end..From(text, right)]);
    Joined(token + gap, Tail(text, right, byValue));
    Joined(token, gap);
    CharsPlain(text[f.end..From(text, right)]);
    assert Render(token) == byValue[f.value] + Render([]);
    Associates(byValue[f.value], text[f.end..From(text, right)], Render(Tail(text, right, byValue)));
  }

  // ---- What replacing every finding means, in any order of the findings ----

  /** A token put in for a value that stood here in the original. */
  datatype Put = Put(at: nat, token: string, value: string)

  function Puts(atoms: seq<Atom>, at: nat): seq<Put> {
    if atoms == [] then []
    else
      var rest := Puts(atoms[1..], at + |Meant(atoms[0])|);
      if atoms[0].Tok? then [Put(at, atoms[0].token, atoms[0].value)] + rest else rest
  }

  /** Where the original's characters stand that are left plain. */
  function Plains(atoms: seq<Atom>, at: nat): set<nat> {
    if atoms == [] then {}
    else (if atoms[0].Ch? then {at} else {}) + Plains(atoms[1..], at + |Meant(atoms[0])|)
  }

  /** Each of the findings stands among these as the token of its value. */
  predicate AllPut(puts: seq<Put>, fs: seq<Finding>, byValue: map<string, string>) {
    |puts| == |fs| && forall f :: f in fs ==> Put(f.start, TokenOf(byValue, f.value), f.value) in puts
  }

  /** None of these positions lies in the span of a finding. */
  ghost predicate NoneLeft(plains: set<nat>, fs: seq<Finding>) {
    forall f, i :: f in fs && f.start <= i < f.end ==> i !in plains
  }

  /** `out` is the text with every finding replaced: each stands there as the token of its value, in its place;
      no other token is put in; and no character of a found span is left. */
  ghost predicate Redacts(text: string, fs: seq<Finding>, byValue: map<string, string>, out: string) {
    exists atoms :: Render(atoms) == out && Original(atoms) == text && Replaced(atoms, fs, byValue)
  }

  ghost predicate Replaced(atoms: seq<Atom>, fs: seq<Finding>, byValue: map<string, string>) {
    && (forall f :: f in fs ==> f.value in byValue)
    && AllPut(Puts(atoms, 0), fs, byValue) && NoneLeft(Plains(atoms, 0), fs)
  }

  function PutOf(a: Atom, at: nat): seq<Put> {
    if a.Tok? then [Put(at, a.token, a.value)] else []
  }

  lemma FirstPut(a: seq<Atom>, b: seq<Atom>, at: nat)
    requires a != []
    ensures Puts(a + b, at) == PutOf(a[0], at) + Puts(a[1..] + b, at + |Meant(a[0])|)
    ensures Puts(a, at) == PutOf(a[0], at) + Puts(a[1..], at + |Meant(a[0])|)
    ensures |Original(a)| == |Meant(a[0])| + |Original(a[1..])|
  {
    hide Meant;
    assert (a + b)[0] == a[0] && (a + b)[1..] == a[1..] + b;
  }

  lemma NothingBefore(b: seq<Atom>, at: nat)
    ensures Puts([] + b, at) == Puts([], at) + Puts(b, at + |Original([])|)
  {
    assert [] + b == b;
  }

  lemma {:induction false} PutsJoined(a: seq<Atom>, b: seq<Atom>, at: nat)
    ensures Puts(a + b, at) == Puts(a, at) + Puts(b, at + |Original(a)|)
  {
    hide Puts, Original, Meant, PutOf;
    if a == [] {
      NothingBefore(b, at);
    } else {
      var next := at + |Meant(a[0])|;
      FirstPut(a, b, at);
      PutsJoined(a[1..], b, next);
      JoinStep(PutOf(a[0], at), Puts(a[1..], next), Puts(b, next + |Original(a[1..])|));
    }
  }

  lemma JoinStep<T>(a: seq<T>, b: seq<T>, c: seq<T>)
    ensures a + (b + c) == a + b + c
  {
  }

  lemma {:induction false} PlainsJoined(a: seq<Atom>, b: seq<Atom>, at: nat)
    ensures Plains(a + b, at) == Plains(a, at) + Plains(b, at + |Original(a)|)
  {
    if a == [] {
      assert a + b == b;
    } else {
      assert (a + b)[0] == a[0] && (a + b)[1..] == a[1..] + b;
      PlainsJoined(a[1..], b, at + |Meant(a[0])|);
    }
  }

  lemma {:induction false} CharsPut(text: string, at: nat)
    ensures Puts(Chars(text), at) == []
    ensures forall i :: i in Plains(Chars(text), at) <==> at <= i < at + |text|
  {
    if text != "" {
      CharsPut(text[1..], at + 1);
      assert Chars(text)[1..] == Chars(text[1..]);
    }
  }

  /** One finding more to the left: its token, then the gap, then what was there. */
  lemma {:induction false} TailPutsStep(text: string, fs: seq<Finding>, byValue: map<string, string>)
    requires fs != [] && Stacked(text, fs)
    ensures var f, right := fs[|fs| - 1], fs[..|fs| - 1];
      var from, tail := From(text, right), Tail(text, right, byValue);
      && f.end <= from
      && Puts(Tail(text, fs, byValue), f.start) == [Put(f.start, TokenOf(byValue, f.value), f.value)] + Puts(tail, from)
      && forall i :: i in Plains(Tail(text, fs, byValue), f.start) <==> f.end <= i < from || i in Plains(tail, from)
  {
    hide Tail, Stacked, From, Puts, Plains, TokenOf;
    var f, right := fs[|fs| - 1], fs[..|fs| - 1];
    LeftmostTail(text, fs, byValue);
    var from := From(text, right);
    TokenThenGap(TokenOf(byValue, f.value), f.value, text[f.end..from], Tail(text, right, byValue), f.start);
  }

  lemma LeftmostTail(text: string, fs: seq<Finding>, byValue: map<string, string>)
    requires fs != [] && Stacked(text, fs)
    ensures var f, right := fs[|fs| - 1], fs[..|fs| - 1];
      && Stacked(text, right) && f.start + |f.value| == f.end <= From(text, right)
      && Tail(text, fs, byValue)
         == [Tok(TokenOf(byValue, f.value), f.value)] + Chars(text[f.end..From(text, right)])
            + Tail(text, right, byValue)
  {
    StackedRight(text, fs);
  }

  lemma {:induction false} TokenThenGap(token: string, value: string, gap: string, tail: seq<Atom>, at: nat)
    ensures var atoms, mid := [Tok(token, value)] + Chars(gap) + tail, at + |value|;
      && Puts(atoms, at) == [Put(at, token, value)] + Puts(tail, mid + |gap|)
      && forall i :: i in Plains(atoms, at) <==> mid <= i < mid + |gap| || i in Plains(tail, mid + |gap|)
  {
    var first, chars := [Tok(token, value)], Chars(gap);
    OneToken(token, value, at);
    CharsPlain(gap);
    CharsPut(gap, at + |value|);
    Joined(first, chars);
    hide Puts, Plains, Original, Chars;
    PutsJoined(first + chars, tail, at);
    PutsJoined(first, chars, at);
    PlainsJoined(first + chars, tail, at);
    PlainsJoined(first, chars, at);
  }

  lemma OneToken(token: string, value: string, at: nat)
    ensures Puts([Tok(token, value)], at) == [Put(at, token, value)]
    ensures Plains([Tok(token, value)], at) == {} && Original([Tok(token, value)]) == value
  {
    assert [Tok(token, value)][1..] == [];
  }

  lemma OneMorePut(puts: seq<Put>, right: seq<Finding>, f: Finding, byValue: map<string, string>)
    requires AllPut(puts, right, byValue)
    ensures AllPut([Put(f.start, TokenOf(byValue, f.value), f.value)] + puts, right + [f], byValue)
  {
  }

  lemma OneMoreLeft(tail: set<nat>, plains: set<nat>, from: nat, right: seq<Finding>, f: Finding)
    requires NoneLeft(tail, right) && f.end <= from && (forall g :: g in right ==> from <= g.start)
    requires forall i :: i in tail ==> from <= i
    requires forall i :: i in plains <==> f.end <= i < from || i in tail
    ensures NoneLeft(plains, right + [f])
  {
  }

  lemma {:induction false} TailPuts(text: string, fs: seq<Finding>, byValue: map<string, string>)
    requires Stacked(text, fs)
    ensures AllPut(Puts(Tail(text, fs, byValue), From(text, fs)), fs, byValue)
    ensures NoneLeft(Plains(Tail(text, fs, byValue), From(text, fs)), fs)
    ensures forall i :: i in Plains(Tail(text, fs, byValue), From(text, fs)) ==> From(text, fs) <= i
  {
    hide Tail, Puts, Plains, Stacked, AllPut, NoneLeft, TokenOf, From;
    if fs == [] {
      NoTail(text, byValue);
    } else {
      var f, right := fs[|fs| - 1], fs[..|fs| - 1];
      StackedRight(text, fs);
      TailPutsStep(text, fs, byValue);
      TailPuts(text, right, byValue);
      FromIsLeft(text, right);
      assert fs == right + [f];
      var from := From(text, right);
      var tail := Tail(text, right, byValue);
      OneMorePut(Puts(tail, from), right, f, byValue);
      OneMoreLeft(Plains(tail, from), Plains(Tail(text, fs, byValue), f.start), from, right, f);
      LeftmostStart(text, fs);
    }
  }

  lemma NoTail(text: string, byValue: map<string, string>)
    ensures AllPut(Puts(Tail(text, [], byValue), From(text, [])), [], byValue)
    ensures Plains(Tail(text, [], byValue), From(text, [])) == {} && NoneLeft({}, [])
  {
  }

  lemma StackedRight(text: string, fs: seq<Finding>)
    requires fs != [] && Stacked(text, fs)
    ensures Stacked(text, fs[..|fs| - 1])
  {
  }

  lemma LeftmostStart(text: string, fs: seq<Finding>)
    requires fs != [] && Stacked(text, fs)
    ensures From(text, fs) == fs[|fs| - 1].start < fs[|fs| - 1].end
  {
  }

  lemma FromIsLeft(text: string, fs: seq<Finding>)
    requires Stacked(text, fs)
    ensures forall f :: f in fs ==> From(text, fs) <= f.start
  {
  }

  lemma {:induction false} WovenReplaced(text: string, fs: seq<Finding>, byValue: map<string, string>)
    requires Stacked(text, fs)
    ensures AllPut(Puts(Woven(text, fs, byValue), 0), fs, byValue)
    ensures NoneLeft(Plains(Woven(text, fs, byValue), 0), fs)
  {
    hide Tail, Puts, Plains, Stacked, AllPut;
    var front := text[..From(text, fs)];
    PutsJoined(Chars(front), Tail(text, fs, byValue), 0);
    PlainsJoined(Chars(front), Tail(text, fs, byValue), 0);
    CharsPlain(front);
    CharsPut(front, 0);
    TailPuts(text, fs, byValue);
    FromIsLeft(text, fs);
    assert [] + Puts(Tail(text, fs, byValue), From(text, fs)) == Puts(Tail(text, fs, byValue), From(text, fs));
  }

  lemma {:induction false} InsertLength(f: Finding, fs: seq<Finding>)
    ensures |Insert(f, fs)| == |fs| + 1
  {
    if fs != [] && f.start < fs[0].start {
      InsertLength(f, fs[1..]);
    }
  }

  lemma {:induction false} SortedLength(fs: seq<Finding>)
    ensures |LastFirst(fs)| == |fs|
  {
    if fs != [] {
      SortedLength(fs[1..]);
      InsertLength(fs[0], LastFirst(fs[1..]));
    }
  }

  /** So the text woven from the sorted findings has all of them, in whatever order they were reported, replaced. */
  lemma WovenRedacts(text: string, fs: seq<Finding>, byValue: map<string, string>)
    requires Sensible(text, fs) && Stacked(text, LastFirst(fs))
    requires forall f :: f in LastFirst(fs) ==> f.value in byValue
    ensures Redacts(text, fs, byValue, Render(Woven(text, LastFirst(fs), byValue)))
  {
    hide Woven, Puts, Plains, Render, Original, Stacked, LastFirst;
    SortedStacked(text, fs);
    SortedLength(fs);
    hide Sensible;
    var sorted := LastFirst(fs);
    var atoms := Woven(text, sorted, byValue);
    WovenReplaced(text, sorted, byValue);
    WovenOriginal(text, sorted, byValue);
    SameFindings(Puts(atoms, 0), Plains(atoms, 0), fs, sorted, byValue);
  }

  lemma SameFindings(puts: seq<Put>, plains: set<nat>, fs: seq<Finding>, sorted: seq<Finding>,
                     byValue: map<string, string>)
    requires AllPut(puts, sorted, byValue) && NoneLeft(plains, sorted)
    requires |sorted| == |fs| && forall f :: f in sorted <==> f in fs
    ensures AllPut(puts, fs, byValue) && NoneLeft(plains, fs)
  {
  }

  // ---- Tokens are distinct and recognisable ----

  predicate TokenShape(t: string) {
    && |t| >= 5 && t[0] == '[' && t[1] == '[' && t[|t| - 2] == ']' && t[|t| - 1] == ']'
    && forall j :: 2 <= j < |t| - 2 ==> t[j] != '[' && t[j] != ']'
  }

  lemma TokenHasShape(kind: string, n: nat)
    requires Plain(kind)
    ensures TokenShape(TokenText(kind, n))
  {
    var digits := NatText(n);
    forall j | 2 <= j < |TokenText(kind, n)| - 2
      ensures TokenText(kind, n)[j] != '[' && TokenText(kind, n)[j] != ']'
    {
      if j < 2 + |kind| {
        assert TokenText(kind, n)[j] == kind[j - 2];
      } else if j > 2 + |kind| {
        assert TokenText(kind, n)[j] == digits[j - 3 - |kind|];
        assert IsDigit(digits[j - 3 - |kind|]);
      }
    }
  }

  /** The last underscore splits a token, so type and number can be read back. */
  lemma TokenInjective(kind: string, n: nat, kind': string, n': nat)
    requires TokenText(kind, n) == TokenText(kind', n')
    ensures kind == kind' && n == n'
  {
    var t, d, d' := TokenText(kind, n), NatText(n), NatText(n');
    if |d| < |d'| {
      UnderscoreBefore(kind, n, kind', n');
    } else if |d'| < |d| {
      UnderscoreBefore(kind', n', kind, n);
    }
    assert t[2..|t| - 2] == kind + "_" + d == kind' + "_" + d';
    assert |kind| == |kind'|;
    assert kind == (kind + "_" + d)[..|kind|] && kind' == (kind' + "_" + d')[..|kind|];
    assert d == (kind + "_" + d)[|kind| + 1..] && d' == (kind' + "_" + d')[|kind| + 1..];
  }

  lemma UnderscoreBefore(kind: string, n: nat, kind': string, n': nat)
    requires TokenText(kind, n) == TokenText(kind', n')
    ensures |NatText(n)| >= |NatText(n')|
  {
    var t, d' := TokenText(kind, n), NatText(n');
    assert t[2 + |kind|] == '_';
    forall j | 2 + |kind'| < j < |t| - 2 ensures t[j] != '_' {
      assert t[j] == d'[j - 3 - |kind'|];
    }
  }

  // ---- Substituting the map back ----

  predicate StartsWith(s: string, t: string) {
    |t| <= |s| && s[..|t|] == t
  }

  /** `out.split(token).join(value)` */
  function Replace(s: string, t: string, v: string): string
    requires t != ""
  {
    if s == "" then ""
    else if StartsWith(s, t) then v + Replace(s[|t|..], t, v)
    else [s[0]] + Replace(s[1..], t, v)
  }

  /** Tokens one after another; the code takes the longest first. */
  function Detokenize(text: string, order: seq<string>, tokens: map<string, string>): string
    decreases order
  {
    if order == [] then text
    else if order[0] in tokens && order[0] != "" then
      Detokenize(Replace(text, order[0], tokens[order[0]]), order[1..], tokens)
    else Detokenize(text, order[1..], tokens)
  }

  predicate Absent(s: string, t: string) {
    forall i :: 0 <= i <= |s| ==> !StartsWith(s[i..], t)
  }

  /** Every token in it is one of the map, standing for the value the map gives. */
  predicate Backed(atoms: seq<Atom>, tokens: map<string, string>) {
    forall i :: 0 <= i < |atoms| && atoms[i].Tok? ==>
      TokenShape(atoms[i].token) && atoms[i].token in tokens && tokens[atoms[i].token] == atoms[i].value
  }

  predicate Shaped(atoms: seq<Atom>) {
    forall i :: 0 <= i < |atoms| && atoms[i].Tok? ==> TokenShape(atoms[i].token)
  }

  /** The token shows at no plain character. */
  predicate NoStray(atoms: seq<Atom>, t: string) {
    atoms == [] || (!(atoms[0].Ch? && StartsWith(Render(atoms), t)) && NoStray(atoms[1..], t))
  }

  /** Whenever the turn of a token comes, it shows nowhere but in its own places. */
  predicate PutsBackCleanly(atoms: seq<Atom>, order: seq<string>)
    decreases order
  {
    order == [] || (NoStray(atoms, order[0]) && PutsBackCleanly(Subst(atoms, order[0]), order[1..]))
  }

  /** One token put back. */
  function Subst(atoms: seq<Atom>, t: string): seq<Atom> {
    if atoms == [] then []
    else (if atoms[0].Tok? && atoms[0].token == t then Chars(atoms[0].value) else [atoms[0]]) + Subst(atoms[1..], t)
  }

  lemma {:induction false} StartsFurther(s: string, t: string)
    requires s != "" && t != ""
    ensures StartsWith(s, t) <==> s[0] == t[0] && StartsWith(s[1..], t[1..])
  {
    if |t| <= |s| {
      assert s[..|t|] == [s[0]] + s[1..][..|t| - 1] && t == [t[0]] + t[1..];
    }
  }

  lemma ShownFirst(atoms: seq<Atom>)
    requires atoms != [] && atoms[0].Ch?
    ensures Render(atoms) == [atoms[0].c] + Render(atoms[1..]) && Original(atoms) == [atoms[0].c] + Original(atoms[1..])
    ensures Render(atoms)[1..] == Render(atoms[1..]) && Original(atoms)[1..] == Original(atoms[1..])
  {
  }

  lemma CharsFirst(text: string)
    requires text != ""
    ensures Chars(text) == [Ch(text[0])] + Chars(text[1..])
  {
  }

  /** A text without opening brackets that shows at the start stands there in plain characters. */
  lemma {:induction false} PlainRun(atoms: seq<Atom>, s: string)
    requires Shaped(atoms) && '[' !in s && StartsWith(Render(atoms), s)
    ensures |s| <= |atoms| && atoms[..|s|] == Chars(s)
  {
    if s != "" {
      assert atoms[0].Ch? by {
        assert Render(atoms)[0] == s[0] != '[';
      }
      StartsFurther(Render(atoms), s);
      ShownFirst(atoms);
      PlainRun(atoms[1..], s[1..]);
      CharsFirst(s);
      assert atoms[..|s|] == [atoms[0]] + atoms[1..][..|s| - 1];
    }
  }

  lemma TokenOpens(t: string)
    requires TokenShape(t)
    ensures |t| >= 5 && t[0] == t[1..][0] == '[' && '[' !in t[1..][1..] && t == [t[0]] + t[1..]
  {
    forall j | 0 <= j < |t[1..][1..]| ensures t[1..][1..][j] != '[' {
      assert t[1..][1..][j] == t[j + 2];
    }
  }

  lemma PrefixGrows<T>(s: seq<T>, prefix: seq<T>)
    requires |prefix| < |s| && s[1..][..|prefix|] == prefix
    ensures s[..|prefix| + 1] == [s[0]] + prefix
  {
    forall j | 0 < j <= |prefix| ensures s[j] == prefix[j - 1] {
      assert s[1..][..|prefix|][j - 1] == s[j];
    }
  }

  lemma RunGrows(atoms: seq<Atom>, t: string)
    requires atoms != [] && t != "" && atoms[0] == Ch(t[0])
    requires |t| - 1 <= |atoms[1..]| && atoms[1..][..|t| - 1] == Chars(t[1..])
    ensures |t| <= |atoms| && atoms[..|t|] == Chars(t)
  {
    var rest := Chars(t[1..]);
    CharsFirst(t);
    hide Chars;
    PrefixGrows(atoms, rest);
  }

  lemma ShapedRest(atoms: seq<Atom>)
    requires Shaped(atoms) && atoms != []
    ensures Shaped(atoms[1..])
  {
  }

  /** A token that shows where a plain character stands is made of plain characters only. */
  lemma {:induction false} NotAtCharacter(atoms: seq<Atom>, t: string)
    requires Shaped(atoms) && TokenShape(t) && atoms != [] && atoms[0].Ch? && StartsWith(Render(atoms), t)
    ensures |t| <= |atoms| && atoms[..|t|] == Chars(t)
  {
    TokenOpens(t);
    ShapedRest(atoms);
    hide TokenShape, Shaped, Chars;
    StartsFurther(Render(atoms), t);
    ShownFirst(atoms);
    hide StartsWith, Render;
    SecondPlain(atoms[1..], t[1..]);
    RunGrows(atoms, t);
  }

  lemma {:induction false} SecondPlain(atoms: seq<Atom>, t: string)
    requires Shaped(atoms) && |t| >= 2 && '[' !in t[1..] && StartsWith(Render(atoms), t)
    ensures |t| <= |atoms| && atoms[..|t|] == Chars(t)
  {
    assert atoms[0].Ch? by {
      assert Render(atoms)[1] == t[1] == t[1..][0] != '[';
    }
    ShapedRest(atoms);
    hide Shaped, Chars;
    StartsFurther(Render(atoms), t);
    ShownFirst(atoms);
    hide StartsWith, Render;
    PlainRun(atoms[1..], t[1..]);
    RunGrows(atoms, t);
  }

  /** A token that shows from somewhere inside a token on is that token. */
  lemma {:induction false} TokenAligned(t: string, other: string, rest: string, k: nat)
    requires TokenShape(t) && TokenShape(other) && k < |other| && StartsWith(other[k..] + rest, t)
    ensures t == other
  {
    var s := other[k..] + rest;
    assert s[0] == t[0] && s[1] == t[1];
    assert s[0] == other[k];
    assert k < |other| - 1 ==> s[1] == other[k + 1];
    assert k == 0;
    assert forall j :: 0 <= j < |t| && j < |other| ==> s[j] == t[j] == other[j];
    assert |t| - 2 >= |other| - 2;
    assert |other| - 2 >= |t| - 2;
  }

  lemma {:induction false} ReplaceSkips(s: string, rest: string, t: string, v: string)
    requires t != "" && forall k :: 0 <= k < |s| ==> !StartsWith(s[k..] + rest, t)
    ensures Replace(s + rest, t, v) == s + Replace(rest, t, v)
  {
    if s == "" {
      assert s + rest == rest;
    } else {
      assert s[0..] == s && (s + rest)[1..] == s[1..] + rest;
      forall k | 0 <= k < |s[1..]| ensures !StartsWith(s[1..][k..] + rest, t) {
        assert s[1..][k..] == s[k + 1..];
      }
      ReplaceSkips(s[1..], rest, t, v);
      assert s == [s[0]] + s[1..];
      Associates([s[0]], s[1..], Replace(rest, t, v));
    }
  }

  /** What `split` and `join` make of the text: the token goes from its own places and from the stray ones. */
  function Strike(atoms: seq<Atom>, t: string, v: string): seq<Atom> {
    if atoms == [] then []
    else if atoms[0].Tok? && atoms[0].token == t then Chars(v) + Strike(atoms[1..], t, v)
    else if atoms[0].Ch? && StartsWith(Render(atoms), t) && 0 < |t| <= |atoms|
      then Chars(v) + Strike(atoms[|t|..], t, v)
    else [atoms[0]] + Strike(atoms[1..], t, v)
  }

  lemma CharsRender(v: string, rest: seq<Atom>)
    ensures Render(Chars(v) + rest) == v + Render(rest) && Original(Chars(v) + rest) == v + Original(rest)
  {
    Joined(Chars(v), rest);
    CharsPlain(v);
  }

  /** Dropping the plain characters of a stray token. */
  lemma {:induction false} StrayShown(atoms: seq<Atom>, t: string)
    requires Shaped(atoms) && TokenShape(t) && atoms != [] && atoms[0].Ch? && StartsWith(Render(atoms), t)
    ensures |t| <= |atoms| && Render(atoms) == t + Render(atoms[|t|..]) && Original(atoms) == t + Original(atoms[|t|..])
  {
    NotAtCharacter(atoms, t);
    assert atoms == Chars(t) + atoms[|t|..];
    CharsRender(t, atoms[|t|..]);
  }

  lemma ReplaceFirst(rest: string, t: string, v: string)
    requires t != ""
    ensures Replace(t + rest, t, v) == v + Replace(rest, t, v)
  {
    assert (t + rest)[..|t|] == t && (t + rest)[|t|..] == rest;
  }

  lemma {:induction false} ReplaceStrikes(atoms: seq<Atom>, t: string, v: string)
    requires Shaped(atoms) && TokenShape(t)
    ensures Replace(Render(atoms), t, v) == Render(Strike(atoms, t, v))
  {
    if atoms != [] {
      var a, rest := atoms[0], atoms[1..];
      if a.Tok? && a.token == t {
        ReplaceStrikes(rest, t, v);
        ReplaceFirst(Render(rest), t, v);
        CharsRender(v, Strike(rest, t, v));
      } else if a.Ch? && StartsWith(Render(atoms), t) {
        StrayShown(atoms, t);
        ReplaceStrikes(atoms[|t|..], t, v);
        ReplaceFirst(Render(atoms[|t|..]), t, v);
        CharsRender(v, Strike(atoms[|t|..], t, v));
      } else {
        ReplaceStrikes(rest, t, v);
        Joined([a], Strike(rest, t, v));
        assert Render([a]) == Shown(a) + Render([]);
        NoneStartsIn(atoms, t);
        hide Replace, Render;
        ReplaceSkips(Shown(a), Render(rest), t, v);
      }
    }
  }

  lemma {:induction false} NoneStartsIn(atoms: seq<Atom>, t: string)
    requires Shaped(atoms) && TokenShape(t) && atoms != []
    requires !(atoms[0].Tok? && atoms[0].token == t) && !(atoms[0].Ch? && StartsWith(Render(atoms), t))
    ensures forall k :: 0 <= k < |Shown(atoms[0])| ==> !StartsWith(Shown(atoms[0])[k..] + Render(atoms[1..]), t)
  {
    var a, rest := atoms[0], atoms[1..];
    forall k | 0 <= k < |Shown(a)| ensures !StartsWith(Shown(a)[k..] + Render(rest), t) {
      if a.Tok? {
        if StartsWith(Shown(a)[k..] + Render(rest), t) {
          TokenAligned(t, a.token, Render(rest), k);
        }
      } else {
        assert Shown(a)[0..] == Shown(a);
      }
    }
  }

  /** Where the token has no stray place, striking it is putting it back. */
  lemma {:induction false} StrikeSubsts(atoms: seq<Atom>, t: string, tokens: map<string, string>)
    requires Backed(atoms, tokens) && t in tokens && NoStray(atoms, t)
    ensures Strike(atoms, t, tokens[t]) == Subst(atoms, t)
  {
    if atoms != [] {
      StrikeSubsts(atoms[1..], t, tokens);
    }
  }

  /** Replacing a token in the text puts back exactly its occurrences as a token. */
  lemma {:induction false} ReplaceRendered(atoms: seq<Atom>, t: string, tokens: map<string, string>)
    requires Backed(atoms, tokens) && TokenShape(t) && t in tokens && NoStray(atoms, t)
    ensures Replace(Render(atoms), t, tokens[t]) == Render(Subst(atoms, t))
  {
    ReplaceStrikes(atoms, t, tokens[t]);
    StrikeSubsts(atoms, t, tokens);
  }

  lemma {:induction false} SubstKeeps(atoms: seq<Atom>, t: string, tokens: map<string, string>)
    requires Backed(atoms, tokens)
    ensures Original(Subst(atoms, t)) == Original(atoms) && Backed(Subst(atoms, t), tokens)
    ensures forall a :: a in Subst(atoms, t) && a.Tok? ==> a in atoms && a.token != t
  {
    SubstOriginal(atoms, t);
    SubstMembers(atoms, t);
    hide Subst, Original;
    var after := Subst(atoms, t);
    forall i | 0 <= i < |after| && after[i].Tok?
      ensures TokenShape(after[i].token) && after[i].token in tokens && tokens[after[i].token] == after[i].value
    {
      assert after[i] in after;
      var j :| 0 <= j < |atoms| && atoms[j] == after[i];
    }
  }

  lemma {:induction false} SubstOriginal(atoms: seq<Atom>, t: string)
    ensures Original(Subst(atoms, t)) == Original(atoms)
  {
    if atoms != [] {
      var a, rest := atoms[0], atoms[1..];
      SubstOriginal(rest, t);
      var head := if a.Tok? && a.token == t then Chars(a.value) else [a];
      Joined(head, Subst(rest, t));
      assert Original([a]) == Meant(a) + Original([]);
      if a.Tok? {
        CharsPlain(a.value);
      }
    }
  }

  lemma {:induction false} SubstMembers(atoms: seq<Atom>, t: string)
    ensures forall a :: a in Subst(atoms, t) && a.Tok? ==> a in atoms && a.token != t
  {
    if atoms != [] {
      SubstMembers(atoms[1..], t);
      if atoms[0].Tok? {
        CharsPlain(atoms[0].value);
      }
    }
  }

  predicate PutBack(atoms: seq<Atom>, order: seq<string>) {
    forall a :: a in atoms && a.Tok? ==> a.token in order
  }

  /** Substituting the map back, in an order that covers the tokens and puts each back cleanly, gives the
      original. */
  lemma {:induction false} AllPutBack(atoms: seq<Atom>, order: seq<string>, tokens: map<string, string>)
    requires Backed(atoms, tokens) && PutBack(atoms, order) && Ordered(order, tokens) && PutsBackCleanly(atoms, order)
    ensures Detokenize(Render(atoms), order, tokens) == Original(atoms)
    decreases order
  {
    if order == [] {
      NothingToPutBack(atoms);
    } else {
      ReplaceRendered(atoms, order[0], tokens);
      SubstKeeps(atoms, order[0], tokens);
      hide Subst, Render, Original, Backed, NoStray, TokenShape;
      AllPutBack(Subst(atoms, order[0]), order[1..], tokens);
    }
  }

  predicate Ordered(order: seq<string>, tokens: map<string, string>) {
    forall t :: t in order ==> TokenShape(t) && t in tokens
  }

  lemma {:induction false} NothingToPutBack(atoms: seq<Atom>)
    requires forall a :: a in atoms ==> a.Ch?
    ensures Render(atoms) == Original(atoms)
  {
    if atoms != [] {
      NothingToPutBack(atoms[1..]);
      assert atoms[0] in atoms;
    }
  }

  // ---- A token absent from the original is never stray ----

  lemma {:induction false} AbsentFurther(s: string, t: string, n: nat)
    requires Absent(s, t) && n <= |s|
    ensures Absent(s[n..], t)
  {
    forall i | 0 <= i <= |s[n..]| ensures !StartsWith(s[n..][i..], t) {
      assert s[n..][i..] == s[n + i..];
    }
  }

  lemma {:induction false} AbsentNoStray(atoms: seq<Atom>, t: string)
    requires Shaped(atoms) && TokenShape(t) && Absent(Original(atoms), t)
    ensures NoStray(atoms, t)
  {
    if atoms != [] {
      assert Original(atoms)[|Meant(atoms[0])|..] == Original(atoms[1..]);
      AbsentFurther(Original(atoms), t, |Meant(atoms[0])|);
      AbsentNoStray(atoms[1..], t);
      if atoms[0].Ch? && StartsWith(Render(atoms), t) {
        StrayShown(atoms, t);
        assert Original(atoms)[0..] == Original(atoms);
        assert StartsWith(Original(atoms)[0..], t);
      }
    }
  }

  /** Tokens that occur nowhere in the original are put back cleanly in any order. */
  lemma {:induction false} AbsentClean(atoms: seq<Atom>, order: seq<string>, tokens: map<string, string>)
    requires Backed(atoms, tokens) && Ordered(order, tokens)
    requires forall t :: t in order ==> Absent(Original(atoms), t)
    ensures PutsBackCleanly(atoms, order)
    decreases order
  {
    if order != [] {
      SubstKeeps(atoms, order[0], tokens);
      AbsentNoStray(atoms, order[0]);
      hide Subst, Original, Absent, NoStray, Backed, TokenShape;
      AbsentClean(Subst(atoms, order[0]), order[1..], tokens);
    }
  }

  // ---- Restored only if put back cleanly ----

  /** The number of opening brackets. */
  function Brackets(s: string): nat {
    if s == "" then 0 else (if s[0] == '[' then 1 else 0) + Brackets(s[1..])
  }

  lemma {:induction false} BracketsJoin(a: string, b: string)
    ensures Brackets(a + b) == Brackets(a) + Brackets(b)
  {
    if a == "" {
      assert a + b == b;
    } else {
      BracketsJoin(a[1..], b);
      assert (a + b)[1..] == a[1..] + b;
    }
  }

  lemma TokenBrackets(t: string)
    requires TokenShape(t)
    ensures Brackets(t) >= 2
  {
    assert t == ['['] + (['['] + t[2..]);
    BracketsJoin(['['], ['['] + t[2..]);
    BracketsJoin(['['], t[2..]);
    assert Brackets(['[']) == 1 + Brackets([]);
  }

  lemma {:induction false} CharsMeant(v: string, rest: seq<Atom>)
    ensures Brackets(Original(Chars(v) + rest)) == Brackets(v) + Brackets(Original(rest))
  {
    CharsRender(v, rest);
    BracketsJoin(v, Original(rest));
  }

  lemma {:induction false} MeantBrackets(atoms: seq<Atom>)
    requires atoms != []
    ensures Brackets(Original(atoms)) == Brackets(Meant(atoms[0])) + Brackets(Original(atoms[1..]))
  {
    BracketsJoin(Meant(atoms[0]), Original(atoms[1..]));
  }

  lemma {:induction false} StrayBrackets(atoms: seq<Atom>, t: string)
    requires Shaped(atoms) && TokenShape(t) && atoms != [] && atoms[0].Ch? && StartsWith(Render(atoms), t)
    ensures |t| <= |atoms| && Brackets(Original(atoms)) >= 2 + Brackets(Original(atoms[|t|..]))
  {
    StrayShown(atoms, t);
    TokenBrackets(t);
    BracketsJoin(t, Original(atoms[|t|..]));
  }

  /** Striking a token with a value poorer in brackets loses brackets wherever the token was stray. */
  lemma {:induction false} StrikeLoses(atoms: seq<Atom>, t: string, tokens: map<string, string>)
    requires Backed(atoms, tokens) && TokenShape(t) && t in tokens && Brackets(tokens[t]) < 2
    ensures Brackets(Original(Strike(atoms, t, tokens[t]))) <= Brackets(Original(atoms))
    ensures Brackets(Original(Strike(atoms, t, tokens[t]))) == Brackets(Original(atoms)) ==> NoStray(atoms, t)
  {
    if atoms != [] {
      var a, rest, v := atoms[0], atoms[1..], tokens[t];
      hide Brackets, Render, Original, StartsWith, TokenShape;
      if a.Ch? && StartsWith(Render(atoms), t) {
        StrayBrackets(atoms, t);
        StrikeLoses(atoms[|t|..], t, tokens);
        CharsMeant(v, Strike(atoms[|t|..], t, v));
      } else {
        StrikeLoses(rest, t, tokens);
        MeantBrackets(atoms);
        if a.Tok? && a.token == t {
          CharsMeant(v, Strike(rest, t, v));
        } else {
          MeantBrackets([a] + Strike(rest, t, v));
          assert ([a] + Strike(rest, t, v))[1..] == Strike(rest, t, v);
        }
      }
    }
  }

  /** No tokens are made by striking one, and that one is gone. */
  lemma {:induction false} StrikeMembers(atoms: seq<Atom>, t: string, v: string)
    ensures forall a :: a in Strike(atoms, t, v) && a.Tok? ==> a in atoms && a.token != t
  {
    if atoms != [] {
      StrikeMembers(atoms[1..], t, v);
      if 0 < |t| <= |atoms| {
        StrikeMembers(atoms[|t|..], t, v);
      }
      CharsPlain(v);
    }
  }

  lemma {:induction false} StrikeBacked(atoms: seq<Atom>, t: string, v: string, tokens: map<string, string>)
    requires Backed(atoms, tokens)
    ensures Backed(Strike(atoms, t, v), tokens)
  {
    StrikeMembers(atoms, t, v);
    hide Strike;
    var after := Strike(atoms, t, v);
    forall i | 0 <= i < |after| && after[i].Tok?
      ensures TokenShape(after[i].token) && after[i].token in tokens && tokens[after[i].token] == after[i].value
    {
      assert after[i] in after;
      var j :| 0 <= j < |atoms| && atoms[j] == after[i];
    }
  }

  /** Values poorer in opening brackets than a token. */
  predicate FewBrackets(order: seq<string>, tokens: map<string, string>) {
    forall t :: t in order && t in tokens ==> Brackets(tokens[t]) < 2
  }

  lemma {:induction false} DetokenizeLoses(atoms: seq<Atom>, order: seq<string>, tokens: map<string, string>)
    requires Backed(atoms, tokens) && PutBack(atoms, order) && Ordered(order, tokens) && FewBrackets(order, tokens)
    ensures Brackets(Detokenize(Render(atoms), order, tokens)) <= Brackets(Original(atoms))
    ensures Brackets(Detokenize(Render(atoms), order, tokens)) == Brackets(Original(atoms)) ==>
      PutsBackCleanly(atoms, order)
    decreases order
  {
    if order == [] {
      NothingToPutBack(atoms);
    } else {
      hide Strike, Subst, Render, Original, NoStray, Backed, TokenShape, Brackets, Replace;
      var t, v := order[0], tokens[order[0]];
      var after := Strike(atoms, t, v);
      ReplaceStrikes(atoms, t, v);
      StrikeLoses(atoms, t, tokens);
      StrikeBacked(atoms, t, v, tokens);
      StrikeMembers(atoms, t, v);
      if NoStray(atoms, t) {
        StrikeSubsts(atoms, t, tokens);
      }
      DetokenizeLoses(after, order[1..], tokens);
    }
  }

  /** The exact condition: where every value has fewer than two opening brackets, substituting the map back
      restores the original if and only if every token is put back cleanly. */
  lemma {:induction false} RestoredExactly(atoms: seq<Atom>, order: seq<string>, tokens: map<string, string>)
    requires Backed(atoms, tokens) && PutBack(atoms, order) && Ordered(order, tokens) && FewBrackets(order, tokens)
    ensures Detokenize(Render(atoms), order, tokens) == Original(atoms) <==> PutsBackCleanly(atoms, order)
  {
    DetokenizeLoses(atoms, order, tokens);
    if PutsBackCleanly(atoms, order) {
      AllPutBack(atoms, order, tokens);
    }
  }

  // ---- Texts that are not restored ----

  /** A text that holds a token of the map is not restored. */
  lemma CollisionExample()
    ensures var tokens := map["[[X_1]]" := "b"];
            var atoms := Chars("[[X_1]]") + [Tok("[[X_1]]", "b")];
            Backed(atoms, tokens) && Detokenize(Render(atoms), ["[[X_1]]"], tokens) != Original(atoms)
  {
    var t := "[[X_1]]";
    var atoms := Chars(t) + [Tok(t, "b")];
    LiteralStrays(t, Tok(t, "b"));
    ShapedExample(t);
    assert Brackets("b") == 0 + Brackets([]);
    hide Chars, Brackets, Render, NoStray, TokenShape, Original, Detokenize, Subst;
    assert map[t := "b"][t] == "b" && [t][0] == t;
    RestoredExactly(atoms, [t], map[t := "b"]);
  }

  lemma ShapedExample(t: string)
    requires t == "[[X_1]]" || t == "[[Y_1]]"
    ensures TokenShape(t)
  {
  }

  /** A token written out in the text, before the token itself. */
  lemma LiteralStrays(t: string, a: Atom)
    requires t != "" && a.Tok?
    ensures var atoms := Chars(t) + [a];
            !NoStray(atoms, t) && (forall i :: 0 <= i < |t| ==> atoms[i].Ch?) && Render(atoms) == t + a.token
            && Original(atoms) == t + a.value
  {
    CharsPlain(t);
    CharsRender(t, [a]);
    assert Render([a]) == a.token + Render([]) && Original([a]) == a.value + Original([]);
    assert Render([a]) == a.token && Original([a]) == a.value;
    assert Chars(t)[0] in Chars(t);
    assert Chars(t) + [a] != [];
    hide Chars, Render, Original;
    forall i | 0 <= i < |t| ensures (Chars(t) + [a])[i].Ch? {
      assert (Chars(t) + [a])[i] == Chars(t)[i] && Chars(t)[i] in Chars(t);
    }
    assert (t + a.token)[..|t|] == t;
  }

  lemma AtomStep(a: Atom, rest: seq<Atom>, t: string)
    ensures Render([a] + rest) == Shown(a) + Render(rest)
    ensures NoStray([a] + rest, t) <==> !(a.Ch? && StartsWith(Shown(a) + Render(rest), t)) && NoStray(rest, t)
    ensures Subst([a] + rest, t) == (if a.Tok? && a.token == t then Chars(a.value) else [a]) + Subst(rest, t)
  {
    assert ([a] + rest)[1..] == rest;
  }

  /** The plain characters `[[X_` before something else. */
  function Opening(rest: seq<Atom>): seq<Atom> {
    [Ch('[')] + ([Ch('[')] + ([Ch('X')] + ([Ch('_')] + rest)))
  }

  function OpeningText(rest: string): string {
    ['['] + (['['] + (['X'] + (['_'] + rest)))
  }

  lemma OpeningStep(rest: seq<Atom>, t: string)
    requires |t| == 7 && t[0] == '[' && t[1] == '['
    ensures Render(Opening(rest)) == OpeningText(Render(rest))
    ensures NoStray(Opening(rest), t) <==> !StartsWith(OpeningText(Render(rest)), t) && NoStray(rest, t)
    ensures Subst(Opening(rest), t) == Opening(Subst(rest, t))
  {
    hide Render, NoStray, Subst, Chars;
    var a3 := [Ch('_')] + rest;
    var a2 := [Ch('X')] + a3;
    var a1 := [Ch('[')] + a2;
    AtomStep(Ch('_'), rest, t);
    AtomStep(Ch('X'), a3, t);
    AtomStep(Ch('['), a2, t);
    AtomStep(Ch('['), a1, t);
  }

  function Crossing(x: string, middle: Atom): seq<Atom> {
    [Tok(x, "a")] + Opening([middle] + [Ch(']'), Ch(']')])
  }

  lemma CloseStep(t: string)
    requires |t| == 7
    ensures Render([Ch(']'), Ch(']')]) == "]]" && NoStray([Ch(']'), Ch(']')], t)
    ensures Subst([Ch(']'), Ch(']')], t) == [Ch(']'), Ch(']')]
  {
    assert [Ch(']'), Ch(']')] == [Ch(']')] + ([Ch(']')] + []);
    AtomStep(Ch(']'), [], t);
    AtomStep(Ch(']'), [Ch(']')] + [], t);
  }

  lemma CrossingStep(x: string, middle: Atom, t: string)
    requires |t| == 7 && t[0] == '[' && t[1] == '[' && middle != Ch('[')
    ensures NoStray(Crossing(x, middle), t) <==>
      !StartsWith(OpeningText(Shown(middle) + "]]"), t) && !(middle.Ch? && StartsWith(Shown(middle) + "]]", t))
    ensures x != t ==>
      Subst(Crossing(x, middle), t)
      == [Tok(x, "a")] + Opening((if middle.Tok? && middle.token == t then Chars(middle.value) else [middle])
                                 + [Ch(']'), Ch(']')])
  {
    var close := [Ch(']'), Ch(']')];
    CloseStep(t);
    hide Render, NoStray, Subst, Chars, StartsWith, Opening, OpeningText;
    AtomStep(middle, close, t);
    OpeningStep([middle] + close, t);
    AtomStep(Tok(x, "a"), Opening([middle] + close), t);
  }

  lemma CrossingBacked(x: string, y: string)
    requires x == "[[X_1]]" && y == "[[Y_1]]"
    ensures Backed(Crossing(x, Tok(y, "1")), map[x := "a", y := "1"]) && TokenShape(x) && TokenShape(y)
    ensures PutBack(Crossing(x, Tok(y, "1")), [y, x])
  {
    hide TokenShape;
    ShapedExample(x);
    ShapedExample(y);
    assert x[2] == 'X' && y[2] == 'Y';
  }

  /** Nothing stray shows at first, but putting one token back completes another across its edge. */
  lemma CrossingExample()
    ensures var x, y := "[[X_1]]", "[[Y_1]]";
            var tokens, atoms := map[x := "a", y := "1"], Crossing(x, Tok(y, "1"));
            Backed(atoms, tokens) && NoStray(atoms, x) && NoStray(atoms, y)
            && Detokenize(Render(atoms), [y, x], tokens) != Original(atoms)
  {
    var x, y := "[[X_1]]", "[[Y_1]]";
    var tokens, atoms := map[x := "a", y := "1"], Crossing(x, Tok(y, "1"));
    CrossingBacked(x, y);
    assert x[2] == 'X' && y[2] == 'Y' && x[4] == y[4] == '1';
    CrossingStrays(x, y);
    assert Brackets("a") == 0 + Brackets([]) && Brackets("1") == 0 + Brackets([]);
    hide Crossing, Subst, NoStray, Render, Original, Detokenize, Brackets, Backed, TokenShape, PutBack;
    assert tokens[x] == "a" && tokens[y] == "1";
    assert [y, x][0] == y && [y, x][1..] == [x] && [x][0] == x;
    RestoredExactly(atoms, [y, x], tokens);
  }

  lemma CrossingStrays(x: string, y: string)
    requires x == "[[X_1]]" && y == "[[Y_1]]"
    ensures var atoms := Crossing(x, Tok(y, "1"));
            NoStray(atoms, x) && NoStray(atoms, y) && !NoStray(Subst(atoms, y), x)
  {
    assert x != y by {
      assert x[2] != y[2];
    }
    assert OpeningText(y + "]]")[4] == '[';
    assert OpeningText(['1'] + "]]") == x;
    assert Chars("1") == [Ch('1')];
    hide Chars, NoStray, Subst, OpeningText;
    CrossingStep(x, Tok(y, "1"), x);
    CrossingStep(x, Tok(y, "1"), y);
    CrossingStep(x, Ch('1'), x);
  }

  /** A value with the brackets of a token can stand in for it: restored, though the token was stray. */
  lemma OwnValueExample()
    ensures var t := "[[X_1]]";
            var atoms := Chars(t) + [Tok(t, t)];
            Detokenize(Render(atoms), [t], map[t := t]) == Original(atoms) && !PutsBackCleanly(atoms, [t])
  {
    var t := "[[X_1]]";
    var atoms := Chars(t) + [Tok(t, t)];
    LiteralStrays(t, Tok(t, t));
    ReplaceFirst(t, t, t);
    ReplaceFirst("", t, t);
    assert t + "" == t;
    hide Chars, Replace, Render, Original, NoStray, Subst;
    assert [t][1..] == [] && [t][0] == t;
  }
}
