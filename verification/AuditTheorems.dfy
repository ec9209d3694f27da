/** What an accepted audit store guarantees, over any two stores and over appends. */
module AuditTheorems {
  import opened CanonicalJson
  import opened Wrappers
  import opened Decimal
  import opened AuditIntegrity

  /** Two different texts with the same hash. */
  predicate Collides(p: Primitives, a: string, b: string) {
    a != b && p.sha(a) == p.sha(b)
  }

  // ---- Prefix tamper evidence ----

  /** The entry as a value without its `mac` member. */
  function Unmacced(e: Json): Json {
    if e.Obj? then Obj(Without(e.fields, "mac")) else e
  }

  ghost predicate SamePrefix(a: seq<AuditRow>, b: seq<AuditRow>, n: nat) {
    n <= |a| && n <= |b| && forall i :: 0 <= i < n ==> Equiv(Unmacced(a[i].entry), Unmacced(b[i].entry))
  }

  /** Two entries at one position whose hashed texts collide. */
  ghost predicate CollisionBelow(p: Primitives, a: seq<AuditRow>, b: seq<AuditRow>, n: nat) {
    exists i :: 0 <= i < n <= |a| && n <= |b| && Collides(p, Canonical(Body(a[i].entry)), Canonical(Body(b[i].entry)))
  }

  lemma WithoutWellFormed(fields: seq<Field>, key: string)
    requires WellFormed(Obj(fields))
    ensures WellFormed(Obj(Without(fields, key)))
  {
    WithoutMembers(fields, key);
    WithoutDistinct(fields, key);
  }

  lemma {:induction false} WithoutDistinct(fields: seq<Field>, key: string)
    requires Distinct(Keys(fields))
    ensures Distinct(Keys(Without(fields, key)))
  {
    if fields != [] {
      assert Keys(fields)[1..] == Keys(fields[1..]);
      WithoutDistinct(fields[1..], key);
      WithoutHasKey(fields[1..], key, fields[0].key);
      KeysMembership(Without(fields[1..], key));
      KeysMembership(fields[1..]);
    }
  }

  lemma {:induction false} WithoutHasKey(fields: seq<Field>, key: string, k: string)
    ensures HasKey(Without(fields, key), k) <==> HasKey(fields, k) && k != key
    ensures HasKey(Without(fields, key), k) ==> Lookup(Without(fields, key), k) == Lookup(fields, k)
  {
    if fields != [] {
      var rest := Without(fields[1..], key);
      WithoutHasKey(fields[1..], key, k);
      HasKeyStep(fields, k);
      if fields[0].key != key {
        assert Without(fields, key) == [fields[0]] + rest;
        HasKeyStep(Without(fields, key), k);
        assert Without(fields, key)[1..] == rest;
      }
    }
  }

  lemma HasKeyStep(fields: seq<Field>, k: string)
    requires fields != []
    ensures HasKey(fields, k) <==> fields[0].key == k || HasKey(fields[1..], k)
  {
    if HasKey(fields, k) && fields[0].key != k {
      var i :| 0 <= i < |fields| && fields[i].key == k;
      assert fields[1..][i - 1].key == k;
    }
  }

  lemma BodyWellFormed(e: Json)
    requires WellFormed(e)
    ensures WellFormed(Body(e))
  {
    if e.Obj? {
      WithoutWellFormed(e.fields, "hash");
      WithoutWellFormed(Without(e.fields, "hash"), "mac");
    }
  }

  lemma BodyMember(e: Json, k: string)
    requires e.Obj?
    ensures HasKey(Body(e).fields, k) <==> HasKey(e.fields, k) && k != "hash" && k != "mac"
    ensures HasKey(Body(e).fields, k) ==> Lookup(Body(e).fields, k) == Lookup(e.fields, k)
  {
    WithoutHasKey(e.fields, "hash", k);
    WithoutHasKey(Without(e.fields, "hash"), "mac", k);
  }

  /** Entries whose bodies print alike and whose hashes are equal agree in everything but the mac. */
  lemma SameBodySameEntry(a: Json, b: Json)
    requires WellFormed(a) && WellFormed(b) && a.Obj? && b.Obj?
    requires Equiv(Body(a), Body(b)) && Get(a, "hash").Some? && Get(a, "hash") == Get(b, "hash")
    requires Get(a, "hash").value.Str?
    ensures Equiv(Unmacced(a), Unmacced(b))
  {
    forall k ensures HasKey(Unmacced(a).fields, k) <==> HasKey(Unmacced(b).fields, k) {
      WithoutHasKey(a.fields, "mac", k);
      WithoutHasKey(b.fields, "mac", k);
      BodyMember(a, k);
      BodyMember(b, k);
    }
    forall k | HasKey(Unmacced(a).fields, k) && HasKey(Unmacced(b).fields, k)
      ensures Equiv(Lookup(Unmacced(a).fields, k), Lookup(Unmacced(b).fields, k))
    {
      WithoutHasKey(a.fields, "mac", k);
      WithoutHasKey(b.fields, "mac", k);
      BodyMember(a, k);
      BodyMember(b, k);
    }
  }

  /** One link: the same recorded hash means entries that print alike and the same predecessor, or a collision. */
  lemma SameHashSameEntry(p: Primitives, a: Json, prevA: string, b: Json, prevB: string, i: nat, optsA: Options,
                          optsB: Options)
    requires WellFormed(a) && WellFormed(b)
    requires LinkFault(p, a, prevA, i, optsA).None? && LinkFault(p, b, prevB, i, optsB).None?
    requires HashOf(a) == HashOf(b)
    ensures (Equiv(Unmacced(a), Unmacced(b)) && prevA == prevB) || Collides(p, Canonical(Body(a)), Canonical(Body(b)))
  {
    hide Canonical, Equiv, ValidAuthenticatedEntry, Body, WellFormed, Unmacced;
    if Canonical(Body(a)) == Canonical(Body(b)) {
      BodyWellFormed(a);
      BodyWellFormed(b);
      CanonicalExact(Body(a), Body(b));
      SameBodySameEntry(a, b);
      SameBodySamePrev(a, b);
    }
  }

  lemma SameBodySamePrev(a: Json, b: Json)
    requires a.Obj? && b.Obj? && Equiv(Body(a), Body(b))
    requires Get(a, "prevHash").Some? && Get(a, "prevHash").value.Str? && Get(b, "prevHash").Some?
    ensures Get(a, "prevHash") == Get(b, "prevHash")
  {
    BodyMember(a, "prevHash");
    BodyMember(b, "prevHash");
  }

  lemma {:induction false} AgreeBackwards(p: Primitives, a: seq<AuditRow>, b: seq<AuditRow>, n: nat, optsA: Options,
                                          optsB: Options)
    requires n <= |a| && n <= |b| && Linked(p, a, optsA) && Linked(p, b, optsB)
    requires forall i :: 0 <= i < |a| ==> WellFormed(a[i].entry)
    requires forall i :: 0 <= i < |b| ==> WellFormed(b[i].entry)
    requires HeadAt(a, n) == HeadAt(b, n)
    ensures SamePrefix(a, b, n) || CollisionBelow(p, a, b, n)
  {
    hide LinkFault, WellFormed, Equiv, Canonical, Body, Unmacced, HashOf;
    if n > 0 {
      assert LinkOk(p, a, n - 1, optsA) && LinkOk(p, b, n - 1, optsB);
      SameHashSameEntry(p, a[n - 1].entry, HeadAt(a, n - 1), b[n - 1].entry, HeadAt(b, n - 1), n - 1, optsA, optsB);
      if !Collides(p, Canonical(Body(a[n - 1].entry)), Canonical(Body(b[n - 1].entry))) {
        AgreeBackwards(p, a, b, n - 1, optsA, optsB);
      }
    }
  }

  // ---- What a mac covers ----

  /** Two different texts with the same mac under one key. */
  predicate HmacCollides(p: Primitives, key: string, a: string, b: string) {
    a != b && p.hmac(key, a) == p.hmac(key, b)
  }

  /** The text a checkpoint's mac is taken over. */
  function CheckpointText(c: Checkpoint): string {
    Canonical(CheckpointBody(c.count, c.seq_, c.head))
  }

  /** Two checkpoints that say the same; the case of the head does not matter. */
  predicate SameCheckpoint(c: Checkpoint, d: Checkpoint) {
    c.count == d.count && c.seq_ == d.seq_ && Lower(c.head) == Lower(d.head)
  }

  /** A checkpoint's print is shared only by checkpoints that say the same. */
  lemma CheckpointTextPinned(c: Checkpoint, d: Checkpoint)
    requires CheckpointFields(c.count, c.seq_, c.head) && CheckpointFields(d.count, d.seq_, d.head)
    ensures CheckpointText(c) == CheckpointText(d) <==> SameCheckpoint(c, d)
  {
    hide Canonical, Equiv, WellFormed, HasKey, Lookup;
    if CheckpointText(c) == CheckpointText(d) {
      var b, e := CheckpointBody(c.count, c.seq_, c.head), CheckpointBody(d.count, d.seq_, d.head);
      CheckpointBodyMembers(c);
      CheckpointBodyMembers(d);
      CanonicalExact(b, e);
      SameLeaf(b, e, "count");
      SameLeaf(b, e, "seq");
      SameLeaf(b, e, "head");
      assert DigitsValue(NatText(c.count)) == DigitsValue(NatText(d.count));
      assert DigitsValue(NatText(c.seq_)) == DigitsValue(NatText(d.seq_));
    }
  }

  lemma SameLeaf(v: Json, w: Json, k: string)
    requires v.Obj? && w.Obj? && Equiv(v, w) && HasKey(v.fields, k) && HasKey(w.fields, k)
    requires Lookup(v.fields, k).Num? || Lookup(v.fields, k).Str?
    ensures Lookup(v.fields, k) == Lookup(w.fields, k)
  {
  }

  lemma CheckpointBodyMembers(c: Checkpoint)
    requires c.count >= 0 && c.seq_ >= 0
    ensures var body := CheckpointBody(c.count, c.seq_, c.head);
      && WellFormed(body) && body.Obj?
      && HasKey(body.fields, "count") && Lookup(body.fields, "count") == Num(NatText(c.count))
      && HasKey(body.fields, "seq") && Lookup(body.fields, "seq") == Num(NatText(c.seq_))
      && HasKey(body.fields, "head") && Lookup(body.fields, "head") == Str(Lower(c.head))
  {
    hide Lookup, Keys, HasKey, WellFormed;
    var body := CheckpointBody(c.count, c.seq_, c.head);
    var fields := body.fields;
    CheckpointKeys(c);
    LookupOf(fields, fields[1]);
    LookupOf(fields, fields[2]);
    LookupOf(fields, fields[3]);
  }

  lemma CheckpointKeys(c: Checkpoint)
    requires c.count >= 0 && c.seq_ >= 0
    ensures WellFormed(CheckpointBody(c.count, c.seq_, c.head))
    ensures Distinct(Keys(CheckpointBody(c.count, c.seq_, c.head).fields))
  {
    hide NatText, Lower, Keys;
    var fields := CheckpointBody(c.count, c.seq_, c.head).fields;
    assert Keys(fields) == ["version", "count", "seq", "head"];
    NumberText(c.count);
    NumberText(c.seq_);
    assert IsNumberToken("1");
  }

  lemma NumberText(n: nat)
    ensures IsNumberToken(NatText(n))
  {
    var s := NatText(n);
    assert IsDigit(s[0]);
  }

  /** The mac of a valid checkpoint stands under another exactly when that one says the same, or two texts
      collide under the key. */
  lemma CheckpointPinned(p: Primitives, c: Checkpoint, d: Checkpoint, key: string)
    requires Digests(p) && ValidCheckpoint(p, c, key)
    requires d.version == 1 && CheckpointFields(d.count, d.seq_, d.head)
    requires IsHex64(d.mac) && Lower(d.mac) == Lower(c.mac)
    ensures ValidCheckpoint(p, d, key)
            <==> SameCheckpoint(c, d) || HmacCollides(p, key, CheckpointText(c), CheckpointText(d))
  {
    CheckpointTextPinned(c, d);
    hide Canonical, CheckpointBody;
    LowerHexFixed(p.hmac(key, CheckpointText(c)));
    LowerHexFixed(p.hmac(key, CheckpointText(d)));
  }

  lemma LowerHexFixed(s: string)
    requires IsLowerHex64(s)
    ensures IsHex64(s) && Lower(s) == s
  {
    LowerFixed(s);
  }

  /** The text an entry's mac is taken over. */
  function EntryText(p: Primitives, e: Json): string {
    Canonical(WithHash(Body(e), p.sha(Canonical(Body(e)))))
  }

  /** The mac of an authenticated entry stands under another authenticated entry only if the two print alike in
      everything but the mac, the recorded hash included, or two texts collide under the key. */
  lemma EntryPinned(p: Primitives, e: Json, f: Json, key: string)
    requires Digests(p) && WellFormed(e) && WellFormed(f)
    requires ValidAuthenticatedEntry(p, e, key) && ValidAuthenticatedEntry(p, f, key)
    requires Lower(Get(e, "mac").value.text) == Lower(Get(f, "mac").value.text)
    ensures Equiv(Unmacced(e), Unmacced(f)) || HmacCollides(p, key, EntryText(p, e), EntryText(p, f))
  {
    hide Canonical, Equiv, WithHash, Unmacced, WellFormed;
    LowerHexFixed(p.hmac(key, EntryText(p, e)));
    LowerHexFixed(p.hmac(key, EntryText(p, f)));
    if EntryText(p, e) == EntryText(p, f) {
      HashedWellFormed(p, e);
      HashedWellFormed(p, f);
      CanonicalExact(WithHash(Body(e), p.sha(Canonical(Body(e)))), WithHash(Body(f), p.sha(Canonical(Body(f)))));
      HashedAsUnmacced(e, f, p.sha(Canonical(Body(e))), p.sha(Canonical(Body(f))));
    }
  }

  /** In an accepted store every entry beyond the checkpoint is authenticated, and every earlier one that carries
      a mac. */
  lemma EntryAuthenticated(p: Primitives, s: Store, key: string, opts: Options, i: nat)
    requires Accepted(p, s, opts) && opts.key == Some(key) && i < |s.audit|
    requires Truthy(Get(s.audit[i].entry, "mac")) || (opts.checkpoint.Some? && opts.checkpoint.value.count <= i)
    ensures ValidAuthenticatedEntry(p, s.audit[i].entry, key)
  {
    hide ValidAuthenticatedEntry, Canonical, Body, HeadAt, EvidenceCurrent, Anchored, CheckpointHeadMatches;
    assert LinkOk(p, s.audit, i, opts);
  }

  lemma HashedWellFormed(p: Primitives, e: Json)
    requires WellFormed(e) && e.Obj?
    ensures WellFormed(WithHash(Body(e), p.sha(Canonical(Body(e)))))
  {
    hide Canonical;
    BodyWellFormed(e);
    WithWellFormed(Body(e).fields, "hash", Str(p.sha(Canonical(Body(e)))));
  }

  /** An authenticated entry without its mac has the members its mac is taken over. */
  lemma HashedAsUnmacced(e: Json, f: Json, h: string, g: string)
    requires e.Obj? && f.Obj? && Get(e, "hash") == Some(Str(h)) && Get(f, "hash") == Some(Str(g))
    requires Equiv(WithHash(Body(e), h), WithHash(Body(f), g))
    ensures Equiv(Unmacced(e), Unmacced(f))
  {
    forall k
      ensures HasKey(Unmacced(e).fields, k) <==> HasKey(Unmacced(f).fields, k)
      ensures HasKey(Unmacced(e).fields, k) && HasKey(Unmacced(f).fields, k) ==>
        Equiv(Lookup(Unmacced(e).fields, k), Lookup(Unmacced(f).fields, k))
    {
      HashedMember(e, h, k);
      HashedMember(f, g, k);
    }
  }

  lemma HashedMember(e: Json, h: string, k: string)
    requires e.Obj? && Get(e, "hash") == Some(Str(h))
    ensures var hashed := WithHash(Body(e), h);
      && (HasKey(Unmacced(e).fields, k) <==> HasKey(hashed.fields, k))
      && (HasKey(hashed.fields, k) ==> Lookup(Unmacced(e).fields, k) == Lookup(hashed.fields, k))
  {
    WithoutHasKey(e.fields, "mac", k);
    BodyMember(e, k);
    WithMember(Body(e).fields, "hash", Str(h), k);
  }

  /** Two stores accepted with one key, each under a checkpoint with the same mac: the checkpoints say the same,
      or their texts collide under the key. Then the stores hold at least `count` entries each and agree on the
      first `count` of them apart from the mac, up to what prints alike, or two hashed entry texts collide. */
  lemma PrefixTamperEvident(p: Primitives, s: Store, t: Store, key: string, c: Checkpoint, d: Checkpoint,
                            optsS: Options, optsT: Options)
    requires Digests(p) && ValidStore(s) && ValidStore(t)
    requires optsS.key == optsT.key == Some(key) && optsS.checkpoint == Some(c) && optsT.checkpoint == Some(d)
    requires Lower(c.mac) == Lower(d.mac)
    requires Accepted(p, s, optsS) && Accepted(p, t, optsT)
    ensures 0 <= c.count <= |s.audit| && 0 <= d.count <= |t.audit|
    ensures HmacCollides(p, key, CheckpointText(c), CheckpointText(d))
            || (&& SameCheckpoint(c, d)
                && (SamePrefix(s.audit, t.audit, c.count) || CollisionBelow(p, s.audit, t.audit, c.count)))
  {
    CheckpointPinned(p, c, d, key);
    hide LinkOk, WellFormed, CheckpointBody, Canonical, CheckpointText, CheckpointFields;
    HeadIsLowerHex(p, s.audit, optsS, c.count);
    HeadIsLowerHex(p, t.audit, optsT, d.count);
    if SameCheckpoint(c, d) {
      AgreeBackwards(p, s.audit, t.audit, c.count, optsS, optsT);
    }
  }

  // ---- The checkpoint an accepted run hands on ----

  lemma ProducedIsValid(p: Primitives, audit: seq<AuditRow>, key: string, opts: Options)
    requires Digests(p) && Linked(p, audit, opts) && Representable(audit)
    ensures ValidCheckpoint(p, Produced(p, audit, key), key)
    ensures SameHex(Produced(p, audit, key).head, HeadAt(audit, |audit|))
  {
    hide LinkOk, Canonical, IntText;
    HeadIsLowerHex(p, audit, opts, |audit|);
    var mac := Produced(p, audit, key).mac;
    assert IsLowerHex64(mac);
  }

  /** The new checkpoint never counts fewer entries than the old one, verifying again with it
      succeeds and hands on the very same checkpoint. */
  lemma CheckpointAdvances(p: Primitives, s: Store, key: string, opts: Options)
    requires Digests(p) && ValidStore(s) && opts.key == Some(key)
    requires Accepted(p, s, opts) && Representable(s.audit)
    ensures var next := Produced(p, s.audit, key);
      && (opts.checkpoint.Some? ==> next.count >= opts.checkpoint.value.count)
      && Accepted(p, s, opts.(checkpoint := Some(next)))
  {
    var next := Produced(p, s.audit, key);
    assert next.count == |s.audit|;
    ProducedIsValid(p, s.audit, key, opts);
    AllCovered(p, s.audit, opts, next);
    hide ValidCheckpoint, Produced, SameHex, HeadAt, Linked, EvidenceCurrent, Anchored;
  }

  /** A checkpoint that covers the whole log asks no more of its entries. */
  lemma AllCovered(p: Primitives, audit: seq<AuditRow>, opts: Options, next: Checkpoint)
    requires Linked(p, audit, opts) && next.count >= |audit|
    ensures Linked(p, audit, opts.(checkpoint := Some(next)))
  {
    hide Canonical, ValidAuthenticatedEntry, Body;
    forall i | 0 <= i < |audit| ensures LinkOk(p, audit, i, opts.(checkpoint := Some(next))) {
      assert LinkOk(p, audit, i, opts);
    }
  }

  /** On a log with increasing sequence numbers, and for a checkpoint made for that log with the matching
      sequence number, the two verifiers accept the same stores. They throw on the same stores but for one case: both
      get as far as looking up the bound ids, and only one of them can bind these. The first can always represent
      the checkpoint it hands on. */
  lemma VerifiersAgree(p: Primitives, s: Store, key: string, head: string, n: nat)
    requires Digests(p) && SeqsIncrease(s.audit) && n <= |s.audit|
    ensures var c := CreateCheckpoint(p, n, head, key, SeqAt(s.audit, n));
            && (Accepted(p, s, ExactOptions(key, c)) <==> PgAccepted(p, s, key, c))
            && ((Breaks(p, s, ExactOptions(key, c)) <==> PgBreaks(p, s, key, c))
                <==> (ComesToLookup(p, s, ExactOptions(key, c)) ==>
                      var ids := BoundIds(s.audit);
                      AllTaken(p.takes, ids, 500) <==> AllTaken(p.takesArray, ids, 500)))
    ensures Representable(s.audit)
  {
    hide Linked, CheckpointHeadMatches, Anchored, EvidenceCurrent, CheckpointUsable, SeqsIncrease, PgAccepted,
      HeadExact, ThrowFirst, PgThrowFirst, AllTaken, BoundIds, Representable, Digests, CreateCheckpoint, SeqAt,
      ExactOptions;
    var c := CreateCheckpoint(p, n, head, key, SeqAt(s.audit, n));
    ExactHolds(p, s, key, c);
    ThrowsAgree(p, s.audit, ExactOptions(key, c));
    HeadsAgree(p, s.audit, key, head, n);
    SequencedProduces(p, s.audit, key);
    LinkedGoesOn(p, s.audit, ExactOptions(key, c));
  }

  /** Nothing is wrong with the store, up to the look-up of the bound ids. */
  ghost predicate ComesToLookup(p: Primitives, s: Store, opts: Options) {
    && CheckpointUsable(p, s.audit, opts) && Linked(p, s.audit, opts) && CheckpointHeadMatches(s.audit, opts)
    && Anchored(s.audit, s.queries)
  }

  /** For such a checkpoint a match up to case is an exact match. */
  lemma HeadsAgree(p: Primitives, audit: seq<AuditRow>, key: string, head: string, n: nat)
    requires Digests(p) && n <= |audit|
    ensures var c := CreateCheckpoint(p, n, head, key, SeqAt(audit, n));
      Linked(p, audit, ExactOptions(key, c)) ==>
      (CheckpointHeadMatches(audit, ExactOptions(key, c)) <==> HeadExact(audit, c))
  {
    var c := CreateCheckpoint(p, n, head, key, SeqAt(audit, n));
    var opts := ExactOptions(key, c);
    if Linked(p, audit, opts) {
      HeadIsLowerHex(p, audit, opts, n);
      hide Linked, HeadAt, Canonical, IntText, Digests;
      LowerTwice(head);
    }
  }

  /** Where the sequence is in order, the two loops throw at the same entries. */
  lemma ThrowsAgree(p: Primitives, audit: seq<AuditRow>, opts: Options)
    requires SeqsIncrease(audit)
    ensures ThrowFirst(p, audit, opts) <==> PgThrowFirst(p, audit, opts)
  {
    hide LinkOk, HeadAt, SeqOk, Links, ValidatingThrows;
    if i :| 0 <= i < |audit| && EntryThrows(p, audit[i].entry, HeadAt(audit, i), opts.key)
            && forall j :: 0 <= j < i ==> LinkOk(p, audit, j, opts) {
      assert PgThrowsAt(p, audit, i, opts.key);
    }
    if i :| 0 <= i < |audit| && PgThrowsAt(p, audit, i, opts.key)
            && forall j :: 0 <= j < i ==> LinkOk(p, audit, j, opts) && SeqOk(audit, j) {
      assert EntryThrows(p, audit[i].entry, HeadAt(audit, i), opts.key);
    }
  }

  lemma LowerTwice(s: string)
    ensures Lower(Lower(s)) == Lower(s)
  {
    if s != "" {
      LowerTwice(s[1..]);
      assert Lower(s)[1..] == Lower(s[1..]);
    }
  }

  /** A store accepted under the newer checkpoint still carries the older checkpoint's head. */
  lemma NewerCarriesOlder(p: Primitives, s: Store, t: Store, key: string, c: Checkpoint, optsS: Options, optsT: Options)
    requires Digests(p) && ValidStore(s) && ValidStore(t) && Representable(s.audit)
    requires optsS.key == optsT.key == Some(key) && optsS.checkpoint == Some(c)
    requires optsT.checkpoint == Some(Produced(p, s.audit, key))
    requires Accepted(p, s, optsS) && Accepted(p, t, optsT)
    ensures 0 <= c.count <= |s.audit| <= |t.audit|
    ensures SameHex(c.head, HeadAt(t.audit, c.count)) || CollisionBelow(p, s.audit, t.audit, |s.audit|)
  {
    hide LinkOk, WellFormed, CheckpointBody, Canonical, Equiv;
    CheckpointAdvances(p, s, key, optsS);
    var next := Produced(p, s.audit, key);
    PrefixTamperEvident(p, s, t, key, next, next, optsS.(checkpoint := Some(next)), optsT);
    if SamePrefix(s.audit, t.audit, |s.audit|) && c.count > 0 {
      HashesAgree(p, s.audit, t.audit, c.count, optsS, optsT);
    }
  }

  lemma HashesAgree(p: Primitives, a: seq<AuditRow>, b: seq<AuditRow>, n: nat, optsA: Options, optsB: Options)
    requires 0 < n <= |a| && n <= |b| && Linked(p, a, optsA) && Linked(p, b, optsB)
    requires Equiv(Unmacced(a[n - 1].entry), Unmacced(b[n - 1].entry))
    ensures HeadAt(a, n) == HeadAt(b, n)
  {
    hide Linked, Equiv, Unmacced;
    LinkedHash(p, a, n - 1, optsA);
    LinkedHash(p, b, n - 1, optsB);
    SameEntrySameHash(a[n - 1].entry, b[n - 1].entry);
  }

  lemma LinkedHash(p: Primitives, audit: seq<AuditRow>, i: nat, opts: Options)
    requires Linked(p, audit, opts) && i < |audit|
    ensures Get(audit[i].entry, "hash").Some? && Get(audit[i].entry, "hash").value.Str?
  {
    hide Canonical, ValidAuthenticatedEntry, Body, HeadAt;
    assert LinkOk(p, audit, i, opts);
  }

  lemma SameEntrySameHash(a: Json, b: Json)
    requires Equiv(Unmacced(a), Unmacced(b))
    requires Get(a, "hash").Some? && Get(a, "hash").value.Str? && Get(b, "hash").Some?
    ensures Get(a, "hash") == Get(b, "hash")
  {
    WithoutHasKey(a.fields, "mac", "hash");
    WithoutHasKey(b.fields, "mac", "hash");
  }

  // ---- Evidence ----

  /** The query rows are pinned by the log: two tables accepted with one log have the same ids, and
      the same data under each id, up to what prints alike, unless two row texts collide. */
  lemma EvidencePinned(p: Primitives, s: Store, t: Store, optsS: Options, optsT: Options, id: string)
    requires ValidStore(s) && ValidStore(t) && s.audit == t.audit
    requires Accepted(p, s, optsS) && Accepted(p, t, optsT)
    ensures HasRow(s.queries, id) <==> HasRow(t.queries, id)
    ensures HasRow(s.queries, id) && HasRow(t.queries, id) ==>
      var x, y := RowData(s.queries, id), RowData(t.queries, id);
      Equiv(x, y) || Collides(p, Canonical(x), Canonical(y))
  {
    hide Linked, CheckpointUsable, CheckpointHeadMatches, Canonical, Equiv;
    RowHash(p, s.queries, id);
    RowHash(p, t.queries, id);
    AnchoredIds(p, s, id);
    AnchoredIds(p, t, id);
    if HasRow(s.queries, id) && HasRow(t.queries, id) {
      var x, y := RowData(s.queries, id), RowData(t.queries, id);
      assert p.sha(Canonical(x)) == p.sha(Canonical(y));
      RowWellFormed(s.queries, id);
      RowWellFormed(t.queries, id);
      CanonicalExact(x, y);
    }
  }

  predicate HasRow(queries: seq<QueryRow>, id: string) {
    exists i :: 0 <= i < |queries| && queries[i].id == id
  }

  function RowData(queries: seq<QueryRow>, id: string): Json
    requires HasRow(queries, id)
  {
    if queries[0].id == id then queries[0].data else RowData(queries[1..], id)
  }

  lemma {:induction false} RowHash(p: Primitives, queries: seq<QueryRow>, id: string)
    ensures QueryContentHash(p, queries, id)
         == if HasRow(queries, id) then Some(ContentHash(p, RowData(queries, id))) else None
  {
    hide Canonical;
    if queries != [] && queries[0].id != id {
      RowHash(p, queries[1..], id);
      assert HasRow(queries[1..], id) ==> HasRow(queries, id) by {
        if HasRow(queries[1..], id) {
          var i :| 0 <= i < |queries[1..]| && queries[1..][i].id == id;
          assert queries[i + 1].id == id;
        }
      }
    }
  }

  lemma {:induction false} RowWellFormed(queries: seq<QueryRow>, id: string)
    requires HasRow(queries, id) && forall i :: 0 <= i < |queries| ==> WellFormed(queries[i].data)
    ensures WellFormed(RowData(queries, id))
  {
    hide WellFormed;
    if queries[0].id != id {
      RowWellFormed(queries[1..], id);
    }
  }

  /** The rows are precisely the ids with a latest bound entry, and each hashes to that entry's content hash. */
  lemma AnchoredIds(p: Primitives, s: Store, id: string)
    requires Anchored(s.audit, s.queries) && EvidenceCurrent(p, s.audit, s.queries)
    ensures HasRow(s.queries, id) <==> LatestHash(s.audit, Str(id)).Some?
    ensures HasRow(s.queries, id) ==>
      LatestHash(s.audit, Str(id)) == Some(Str(ContentHash(p, RowData(s.queries, id))))
  {
    hide Canonical, LatestHash;
    RowHash(p, s.queries, id);
    if LatestHash(s.audit, Str(id)).Some? {
      assert RowMatches(p, s.queries, Str(id), LatestHash(s.audit, Str(id)).value);
    }
  }

  // ---- What goes unnoticed ----

  lemma UnmaccedBodies(e: Json, f: Json)
    requires e.Obj? && f.Obj? && Equiv(Unmacced(e), Unmacced(f))
    ensures Body(e).Obj? && Body(f).Obj? && Equiv(Body(e), Body(f))
    ensures forall k :: k != "mac" ==> (HasKey(e.fields, k) <==> HasKey(f.fields, k))
    ensures forall k :: k != "mac" && HasKey(e.fields, k) && HasKey(f.fields, k) ==>
      Equiv(Lookup(e.fields, k), Lookup(f.fields, k))
  {
    forall k
      ensures HasKey(Body(e).fields, k) <==> HasKey(Body(f).fields, k)
      ensures k != "mac" ==> (HasKey(e.fields, k) <==> HasKey(f.fields, k))
      ensures k != "mac" && HasKey(e.fields, k) && HasKey(f.fields, k) ==>
        Equiv(Lookup(e.fields, k), Lookup(f.fields, k))
      ensures HasKey(Body(e).fields, k) && HasKey(Body(f).fields, k) ==>
        Equiv(Lookup(Body(e).fields, k), Lookup(Body(f).fields, k))
    {
      WithoutHasKey(e.fields, "mac", k);
      WithoutHasKey(f.fields, "mac", k);
      BodyMember(e, k);
      BodyMember(f, k);
    }
  }

  lemma HashedAlike(b: Json, c: Json, hash: string)
    requires b.Obj? && c.Obj? && WellFormed(b) && WellFormed(c) && Equiv(b, c)
    ensures Canonical(b) == Canonical(c) && Canonical(WithHash(b, hash)) == Canonical(WithHash(c, hash))
  {
    EquivPrintsSame(b, c);
    WithWellFormed(b.fields, "hash", Str(hash));
    WithWellFormed(c.fields, "hash", Str(hash));
    forall k
      ensures HasKey(WithHash(b, hash).fields, k) <==> HasKey(WithHash(c, hash).fields, k)
      ensures HasKey(WithHash(b, hash).fields, k) && HasKey(WithHash(c, hash).fields, k) ==>
        Equiv(Lookup(WithHash(b, hash).fields, k), Lookup(WithHash(c, hash).fields, k))
    {
      WithMember(b.fields, "hash", Str(hash), k);
      WithMember(c.fields, "hash", Str(hash), k);
    }
    EquivPrintsSame(WithHash(b, hash), WithHash(c, hash));
  }

  lemma TextsAlike(e: Json, f: Json, k: string, text: string)
    requires e.Obj? && f.Obj? && k != "mac" && Equiv(Unmacced(e), Unmacced(f))
    ensures Get(e, k) == Some(Str(text)) <==> Get(f, k) == Some(Str(text))
  {
    UnmaccedBodies(e, f);
  }

  /** Whether an entry links and authenticates is the same for two that differ only in what prints alike. */
  lemma EntryUnnoticed(p: Primitives, e: Json, f: Json, prev: string, i: nat, opts: Options)
    requires e.Obj? && f.Obj? && WellFormed(e) && WellFormed(f) && Equiv(Unmacced(e), Unmacced(f))
    requires Get(e, "mac") == Get(f, "mac")
    ensures LinkFault(p, e, prev, i, opts) == LinkFault(p, f, prev, i, opts)
    ensures LinkFault(p, e, prev, i, opts) == None ==> HashOf(e) == HashOf(f)
  {
    hide Canonical, Equiv, WellFormed, Body, WithHash, Unmacced, Get, HashOf, SameHex, Truthy, HasKey, Lookup;
    var hash := p.sha(Canonical(Body(e)));
    UnmaccedBodies(e, f);
    BodyWellFormed(e);
    BodyWellFormed(f);
    HashedAlike(Body(e), Body(f), hash);
    TextsAlike(e, f, "prevHash", prev);
    TextsAlike(e, f, "hash", hash);
    if Get(e, "hash") == Some(Str(hash)) {
      HashOfText(e, hash);
      HashOfText(f, hash);
    }
  }

  lemma HashOfText(e: Json, text: string)
    requires Get(e, "hash") == Some(Str(text))
    ensures HashOf(e) == text
  {
  }

  /** So in an accepted store any entry may be exchanged for another that differs only in what prints alike, such
      as an infinity for a `null`, if it binds the same evidence. */
  lemma EntryExchanged(p: Primitives, s: Store, i: nat, e: Json, opts: Options)
    requires ValidStore(s) && Accepted(p, s, opts) && i < |s.audit| && e.Obj? && WellFormed(e)
    requires s.audit[i].entry.Obj? && Equiv(Unmacced(s.audit[i].entry), Unmacced(e))
    requires forall k :: k == "mac" || k == "queryId" || k == "contentHash" ==> Get(s.audit[i].entry, k) == Get(e, k)
    ensures var s' := s.(audit := s.audit[i := s.audit[i].(entry := e)]);
      ValidStore(s') && Accepted(p, s', opts)
  {
    hide WellFormed, Equiv, Unmacced, Linked, CheckpointUsable, CheckpointHeadMatches, LatestHash, Get, HasKey,
      Anchored, EvidenceCurrent;
    var audit' := s.audit[i := s.audit[i].(entry := e)];
    ChainExchanged(p, s.audit, i, e, opts);
    forall q ensures LatestHash(audit', q) == LatestHash(s.audit, q) {
      BoundAlike(s.audit, audit', q);
    }
    EvidenceAlike(p, s.audit, audit', s.queries, s.queries);
  }

  lemma EvidenceAlike(p: Primitives, a: seq<AuditRow>, b: seq<AuditRow>, queries: seq<QueryRow>, rows: seq<QueryRow>)
    requires Anchored(a, queries) && EvidenceCurrent(p, a, queries)
    requires forall q :: LatestHash(b, q) == LatestHash(a, q)
    requires forall id :: QueryContentHash(p, rows, id) == QueryContentHash(p, queries, id)
    requires |rows| == |queries| && forall j :: 0 <= j < |rows| ==> rows[j].id == queries[j].id
    ensures Anchored(b, rows) && EvidenceCurrent(p, b, rows)
  {
    hide LatestHash, QueryContentHash;
    forall q | LatestHash(b, q).Some? ensures RowMatches(p, rows, q, LatestHash(b, q).value) {
      assert RowMatches(p, queries, q, LatestHash(a, q).value);
    }
  }

  lemma ChainExchanged(p: Primitives, audit: seq<AuditRow>, i: nat, e: Json, opts: Options)
    requires CheckpointUsable(p, audit, opts) && Linked(p, audit, opts) && CheckpointHeadMatches(audit, opts)
    requires i < |audit| && audit[i].entry.Obj? && WellFormed(audit[i].entry) && e.Obj? && WellFormed(e)
    requires Equiv(Unmacced(audit[i].entry), Unmacced(e)) && Get(audit[i].entry, "mac") == Get(e, "mac")
    ensures var audit' := audit[i := audit[i].(entry := e)];
      CheckpointUsable(p, audit', opts) && Linked(p, audit', opts) && CheckpointHeadMatches(audit', opts)
  {
    var audit' := audit[i := audit[i].(entry := e)];
    hide Equiv, WellFormed, Unmacced, LinkFault, Get, HashOf, ValidCheckpoint, SameHex;
    assert LinkOk(p, audit, i, opts);
    EntryUnnoticed(p, audit[i].entry, e, HeadAt(audit, i), i, opts);
    HeadsAlike(audit, audit');
    forall j | 0 <= j < |audit'| ensures LinkOk(p, audit', j, opts) {
      assert LinkOk(p, audit, j, opts);
    }
    hide HeadAt, Linked;
  }

  lemma HeadsAlike(a: seq<AuditRow>, b: seq<AuditRow>)
    requires |a| == |b| && forall j :: 0 <= j < |a| ==> HashOf(a[j].entry) == HashOf(b[j].entry)
    ensures forall n :: 0 <= n <= |a| ==> HeadAt(a, n) == HeadAt(b, n)
  {
    hide HashOf;
  }

  lemma {:induction false} BoundAlike(a: seq<AuditRow>, b: seq<AuditRow>, q: Json)
    requires |a| == |b|
    requires forall j, k :: 0 <= j < |a| && (k == "queryId" || k == "contentHash") ==>
      Get(a[j].entry, k) == Get(b[j].entry, k)
    ensures LatestHash(a, q) == LatestHash(b, q)
  {
    hide Get;
    if a != [] {
      BoundAlike(a[..|a| - 1], b[..|b| - 1], q);
      assert Get(a[|a| - 1].entry, "queryId") == Get(b[|b| - 1].entry, "queryId");
      assert Get(a[|a| - 1].entry, "contentHash") == Get(b[|b| - 1].entry, "contentHash");
    }
  }

  /** And so may the data of any row. */
  lemma RowExchanged(p: Primitives, s: Store, i: nat, data: Json, opts: Options)
    requires ValidStore(s) && Accepted(p, s, opts) && i < |s.queries| && WellFormed(data)
    requires Equiv(s.queries[i].data, data)
    ensures var s' := s.(queries := s.queries[i := s.queries[i].(data := data)]);
      ValidStore(s') && Accepted(p, s', opts)
  {
    hide Canonical, Equiv, WellFormed, Linked, CheckpointUsable, CheckpointHeadMatches, LatestHash, QueryContentHash,
      Anchored, EvidenceCurrent;
    var queries' := s.queries[i := s.queries[i].(data := data)];
    EquivPrintsSame(s.queries[i].data, data);
    forall id ensures QueryContentHash(p, queries', id) == QueryContentHash(p, s.queries, id) {
      HashedRowsAlike(p, s.queries, queries', id);
    }
    assert forall j :: 0 <= j < |queries'| ==> queries'[j].id == s.queries[j].id;
    EvidenceAlike(p, s.audit, s.audit, s.queries, queries');
  }

  lemma {:induction false} HashedRowsAlike(p: Primitives, a: seq<QueryRow>, b: seq<QueryRow>, id: string)
    requires |a| == |b|
    requires forall j :: 0 <= j < |a| ==> a[j].id == b[j].id && Canonical(a[j].data) == Canonical(b[j].data)
    ensures QueryContentHash(p, a, id) == QueryContentHash(p, b, id)
  {
    hide Canonical;
    if a != [] {
      HashedRowsAlike(p, a[1..], b[1..], id);
    }
  }

  // ---- Appending ----

  lemma WithoutAbsent(fields: seq<Field>, key: string)
    requires !HasKey(fields, key)
    ensures Without(fields, key) == fields
  {
    if fields != [] {
      HasKeyStep(fields, key);
      WithoutAbsent(fields[1..], key);
    }
  }

  lemma {:induction false} WithoutAppend(fields: seq<Field>, f: Field, key: string)
    ensures Without(fields + [f], key) == Without(fields, key) + (if f.key == key then [] else [f])
  {
    if fields == [] {
      assert fields + [f] == [f];
    } else {
      assert (fields + [f])[1..] == fields[1..] + [f];
      WithoutAppend(fields[1..], f, key);
    }
  }

  lemma WithMember(fields: seq<Field>, key: string, value: Json, k: string)
    ensures HasKey(With(fields, key, value), k) <==> k == key || HasKey(fields, k)
    ensures HasKey(With(fields, key, value), k) ==>
      Lookup(With(fields, key, value), k) == if k == key then value else Lookup(fields, k)
  {
    WithoutHasKey(fields, key, key);
    WithoutHasKey(fields, key, k);
    AppendMember(Without(fields, key), Field(key, value), k);
  }

  lemma {:induction false} AppendMember(fields: seq<Field>, f: Field, k: string)
    ensures HasKey(fields + [f], k) <==> HasKey(fields, k) || k == f.key
    ensures HasKey(fields + [f], k) ==>
      Lookup(fields + [f], k) == if HasKey(fields, k) then Lookup(fields, k) else f.value
  {
    HasKeyStep(fields + [f], k);
    if fields != [] {
      assert (fields + [f])[1..] == fields[1..] + [f];
      AppendMember(fields[1..], f, k);
      HasKeyStep(fields, k);
    } else {
      assert fields + [f] == [f];
    }
  }

  lemma WithWellFormed(fields: seq<Field>, key: string, value: Json)
    requires WellFormed(Obj(fields)) && WellFormed(value)
    ensures WellFormed(Obj(With(fields, key, value)))
  {
    WithoutWellFormed(fields, key);
    var rest := Without(fields, key);
    WithoutHasKey(fields, key, key);
    KeysMembership(rest);
    KeysAppend(rest, Field(key, value));
  }

  lemma {:induction false} KeysAppend(fields: seq<Field>, f: Field)
    ensures Keys(fields + [f]) == Keys(fields) + [f.key]
  {
    if fields == [] {
      assert fields + [f] == [f];
    } else {
      assert (fields + [f])[1..] == fields[1..] + [f];
      KeysAppend(fields[1..], f);
    }
  }

  function Unsigned(prevHash: string, body: Json): Json
    requires body.Obj?
  {
    Obj(With(body.fields, "prevHash", Str(prevHash)))
  }

  /** What the verifier hashes of a freshly made entry: the signed object less `hash` and `mac`. */
  lemma NewEntryBody(p: Primitives, prevHash: string, body: Json, key: string)
    requires body.Obj?
    ensures var e := AuthenticatedEntry(p, prevHash, body, key);
      Body(e) == Obj(Without(Without(Unsigned(prevHash, body).fields, "hash"), "mac"))
  {
    hide Canonical;
    var u := Unsigned(prevHash, body).fields;
    var h := Str(p.sha(Canonical(Obj(u))));
    var m := AuthenticatedEntry(p, prevHash, body, key).fields[|AuthenticatedEntry(p, prevHash, body, key).fields| - 1];
    var withHash := With(u, "hash", h);
    assert AuthenticatedEntry(p, prevHash, body, key).fields == Without(withHash, "mac") + [m];
    WithoutAppend(Without(withHash, "mac"), m, "hash");
    WithoutAppend(Without(Without(withHash, "mac"), "hash"), m, "mac");
    WithoutCommutes(withHash, "mac", "hash");
    WithoutTwice(Without(withHash, "hash"), "mac");
    WithoutAppend(Without(u, "hash"), Field("hash", h), "hash");
    WithoutTwice(u, "hash");
    assert Without(withHash, "hash") == Without(u, "hash");
  }

  lemma WithoutTwice(fields: seq<Field>, key: string)
    ensures Without(Without(fields, key), key) == Without(fields, key)
  {
  }

  lemma WithoutCommutes(fields: seq<Field>, a: string, b: string)
    ensures Without(Without(fields, a), b) == Without(Without(fields, b), a)
  {
  }

  /** `authenticatedEntry` makes an entry the verifier accepts next exactly when the body it was
      given carries no `hash` or `mac` of its own, unless the two hashed texts collide. */
  lemma NewEntryLinks(p: Primitives, prevHash: string, body: Json, key: string, index: nat, opts: Options)
    requires Digests(p) && body.Obj? && WellFormed(body) && opts.key == Some(key)
    ensures var e := AuthenticatedEntry(p, prevHash, body, key);
      var clean := !HasKey(body.fields, "hash") && !HasKey(body.fields, "mac");
      && WellFormed(e)
      && (clean ==> LinkFault(p, e, prevHash, index, opts).None?)
      && (!clean ==> LinkFault(p, e, prevHash, index, opts).Some?
                     || Collides(p, Canonical(Body(e)), Canonical(Unsigned(prevHash, body))))
  {
    hide Canonical, Equiv, LinkFault, AuthenticatedEntry;
    NewEntryWellFormed(p, prevHash, body, key);
    if !HasKey(body.fields, "hash") && !HasKey(body.fields, "mac") {
      CleanEntryLinks(p, prevHash, body, key, index, opts);
    } else {
      DirtyEntryFails(p, prevHash, body, key, index, opts);
    }
  }

  lemma CleanEntryLinks(p: Primitives, prevHash: string, body: Json, key: string, index: nat, opts: Options)
    requires Digests(p) && body.Obj? && opts.key == Some(key)
    requires !HasKey(body.fields, "hash") && !HasKey(body.fields, "mac")
    ensures LinkFault(p, AuthenticatedEntry(p, prevHash, body, key), prevHash, index, opts).None?
  {
    hide Canonical, AuthenticatedEntry, Body, WithHash;
    var e := AuthenticatedEntry(p, prevHash, body, key);
    var u := Unsigned(prevHash, body);
    var mac := p.hmac(key, Canonical(WithHash(u, p.sha(Canonical(u)))));
    NewEntryMembers(p, prevHash, body, key);
    NewEntryBody(p, prevHash, body, key);
    WithMember(body.fields, "prevHash", Str(prevHash), "hash");
    WithMember(body.fields, "prevHash", Str(prevHash), "mac");
    WithoutAbsent(u.fields, "hash");
    WithoutAbsent(u.fields, "mac");
    assert Body(e) == u;
    MacMatches(p, key, Canonical(WithHash(u, p.sha(Canonical(u)))));
  }

  lemma MacMatches(p: Primitives, key: string, text: string)
    requires Digests(p)
    ensures p.hmac(key, text) != "" && SameHex(p.hmac(key, text), p.hmac(key, text))
  {
    assert IsLowerHex64(p.hmac(key, text));
  }

  lemma DirtyEntryFails(p: Primitives, prevHash: string, body: Json, key: string, index: nat, opts: Options)
    requires body.Obj? && WellFormed(body)
    requires HasKey(body.fields, "hash") || HasKey(body.fields, "mac")
    ensures var e := AuthenticatedEntry(p, prevHash, body, key);
      || LinkFault(p, e, prevHash, index, opts).Some?
      || Collides(p, Canonical(Body(e)), Canonical(Unsigned(prevHash, body)))
  {
    hide Canonical, Equiv, AuthenticatedEntry, ValidAuthenticatedEntry, Body;
    var e := AuthenticatedEntry(p, prevHash, body, key);
    var u := Unsigned(prevHash, body);
    NewEntryWellFormed(p, prevHash, body, key);
    NewEntryMembers(p, prevHash, body, key);
    WithMember(body.fields, "prevHash", Str(prevHash), "hash");
    WithMember(body.fields, "prevHash", Str(prevHash), "mac");
    BodyWellFormed(e);
    CanonicalExact(Body(e), u);
    DroppedKeyShows(e, u);
  }

  lemma DroppedKeyShows(e: Json, u: Json)
    requires e.Obj? && u.Obj? && (HasKey(u.fields, "hash") || HasKey(u.fields, "mac"))
    ensures !Equiv(Body(e), u)
  {
    BodyMember(e, "hash");
    BodyMember(e, "mac");
  }

  lemma NewEntryWellFormed(p: Primitives, prevHash: string, body: Json, key: string)
    requires body.Obj? && WellFormed(body)
    ensures WellFormed(AuthenticatedEntry(p, prevHash, body, key)) && WellFormed(Unsigned(prevHash, body))
  {
    hide Canonical;
    var u := Unsigned(prevHash, body);
    var hash := p.sha(Canonical(u));
    WithWellFormed(body.fields, "prevHash", Str(prevHash));
    WithWellFormed(u.fields, "hash", Str(hash));
    WithWellFormed(With(u.fields, "hash", Str(hash)), "mac", Str(p.hmac(key, Canonical(WithHash(u, hash)))));
  }

  lemma NewEntryMembers(p: Primitives, prevHash: string, body: Json, key: string)
    requires body.Obj?
    ensures var e := AuthenticatedEntry(p, prevHash, body, key);
      var u := Unsigned(prevHash, body);
      var hash := p.sha(Canonical(u));
      && e.Obj?
      && Get(e, "prevHash") == Some(Str(prevHash))
      && Get(e, "hash") == Some(Str(hash))
      && Get(e, "mac") == Some(Str(p.hmac(key, Canonical(WithHash(u, hash)))))
      && forall k :: k != "prevHash" && k != "hash" && k != "mac" ==> Get(e, k) == Get(body, k)
  {
    hide Canonical;
    var u := Unsigned(prevHash, body);
    var hash := Str(p.sha(Canonical(u)));
    var mac := Str(p.hmac(key, Canonical(WithHash(u, hash.text))));
    forall k
      ensures var e := AuthenticatedEntry(p, prevHash, body, key);
        Get(e, k) == if k == "mac" then Some(mac) else if k == "hash" then Some(hash)
                     else if k == "prevHash" then Some(Str(prevHash)) else Get(body, k)
    {
      WithMember(body.fields, "prevHash", Str(prevHash), k);
      WithMember(u.fields, "hash", hash, k);
      WithMember(With(u.fields, "hash", hash), "mac", mac, k);
    }
  }

  /** Writing one query row, inserted or replaced. */
  function Upsert(queries: seq<QueryRow>, id: string, data: Json): seq<QueryRow> {
    if queries == [] then [QueryRow(id, data)]
    else if queries[0].id == id then [QueryRow(id, data)] + queries[1..]
    else [queries[0]] + Upsert(queries[1..], id, data)
  }

  lemma {:induction false} UpsertRows(p: Primitives, queries: seq<QueryRow>, id: string, data: Json, q: string)
    ensures QueryContentHash(p, Upsert(queries, id, data), q)
         == if q == id then Some(ContentHash(p, data)) else QueryContentHash(p, queries, q)
  {
    hide Canonical;
    if queries != [] && queries[0].id != id {
      UpsertRows(p, queries[1..], id, data, q);
    }
  }

  lemma {:induction false} UpsertValid(queries: seq<QueryRow>, id: string, data: Json)
    requires UniqueIds(queries) && WellFormed(data)
    requires forall i :: 0 <= i < |queries| ==> WellFormed(queries[i].data)
    ensures UniqueIds(Upsert(queries, id, data))
    ensures forall i :: 0 <= i < |Upsert(queries, id, data)| ==> WellFormed(Upsert(queries, id, data)[i].data)
    ensures forall i :: 0 <= i < |Upsert(queries, id, data)| ==>
      var r := Upsert(queries, id, data)[i];
      r.id == id || exists j :: 0 <= j < |queries| && queries[j].id == r.id
  {
    hide WellFormed;
    if queries != [] && queries[0].id != id {
      UpsertValid(queries[1..], id, data);
      var tail := Upsert(queries[1..], id, data);
      forall i | 0 <= i < |tail|
        ensures tail[i].id != queries[0].id
        ensures tail[i].id == id || exists j :: 0 <= j < |queries| && queries[j].id == tail[i].id
      {
        if tail[i].id != id {
          var j :| 0 <= j < |queries[1..]| && queries[1..][j].id == tail[i].id;
          assert queries[j + 1].id == tail[i].id;
        }
      }
    }
  }

  /** What is read back of a freshly made entry links as the entry does, and binds what it binds. */
  lemma StoredEntry(p: Primitives, e: Json, prev: string, i: nat, opts: Options)
    requires e.Obj? && WellFormed(e) && Get(e, "mac").Some? && Get(e, "mac").value.Str?
    ensures Stored(e).Obj? && WellFormed(Stored(e))
    ensures LinkFault(p, Stored(e), prev, i, opts) == LinkFault(p, e, prev, i, opts)
    ensures forall k, text :: Get(e, k) == Some(Str(text)) ==> Get(Stored(e), k) == Some(Str(text))
  {
    hide Equiv, WellFormed, Unmacced, LinkFault, Blanked, Stored, Get, HasKey;
    StoredMembers(e);
    UnmaccedAlike(e, Stored(e));
    EntryUnnoticed(p, e, Stored(e), prev, i, opts);
  }

  lemma StoredMembers(e: Json)
    requires e.Obj? && WellFormed(e)
    ensures Stored(e).Obj? && WellFormed(Stored(e)) && Equiv(e, Stored(e))
    ensures forall k, text :: Get(e, k) == Some(Str(text)) ==> Get(Stored(e), k) == Some(Str(text))
  {
    BlankedWellFormed(e, Null);
    hide Equiv, WellFormed;
    forall k, text | Get(e, k) == Some(Str(text)) ensures Get(Stored(e), k) == Some(Str(text)) {
      BlankedLookup(e.fields, Null, k);
    }
  }

  lemma UnmaccedAlike(e: Json, f: Json)
    requires e.Obj? && f.Obj? && Equiv(e, f)
    ensures Equiv(Unmacced(e), Unmacced(f))
  {
    forall k
      ensures HasKey(Unmacced(e).fields, k) <==> HasKey(Unmacced(f).fields, k)
      ensures HasKey(Unmacced(e).fields, k) && HasKey(Unmacced(f).fields, k) ==>
        Equiv(Lookup(Unmacced(e).fields, k), Lookup(Unmacced(f).fields, k))
    {
      WithoutHasKey(e.fields, "mac", k);
      WithoutHasKey(f.fields, "mac", k);
    }
  }

  lemma StoredHash(p: Primitives, data: Json)
    requires WellFormed(data)
    ensures WellFormed(Stored(data)) && ContentHash(p, Stored(data)) == ContentHash(p, data)
  {
    BlankedWellFormed(data, Null);
    EquivPrintsSame(data, Stored(data));
  }

  /** Writing a query row and appending an entry bound to it keeps an accepted store accepted, with one entry more;
      both are read back as they were stored. */
  lemma AppendKeepsAccepted(p: Primitives, s: Store, key: string, opts: Options, id: string, data: Json, body: Json,
                            seq_: int)
    requires Digests(p) && ValidStore(s) && opts.key == Some(key) && Accepted(p, s, opts)
    requires WellFormed(data) && WellFormed(body) && body.Obj? && id != ""
    requires !HasKey(body.fields, "hash") && !HasKey(body.fields, "mac")
    requires Get(body, "queryId") == Some(Str(id)) && Get(body, "contentHash") == Some(Str(ContentHash(p, data)))
    ensures var entry := AuthenticatedEntry(p, HeadAt(s.audit, |s.audit|), body, key);
      var s' := Store(s.audit + [AuditRow(seq_, Stored(entry))], Upsert(s.queries, id, Stored(data)));
      ValidStore(s') && Accepted(p, s', opts) && |s'.audit| == |s.audit| + 1
  {
    hide Canonical, AuthenticatedEntry, Linked, WellFormed, CheckpointUsable, CheckpointHeadMatches, Anchored,
      EvidenceCurrent, LinkFault, HeadAt, Get, UniqueIds, Upsert, Stored, ContentHash;
    var prev := HeadAt(s.audit, |s.audit|);
    var entry := AuthenticatedEntry(p, prev, body, key);
    NewEntryLinks(p, prev, body, key, |s.audit|, opts);
    NewEntryMembers(p, prev, body, key);
    StoredEntry(p, entry, prev, |s.audit|, opts);
    StoredHash(p, data);
    UpsertValid(s.queries, id, Stored(data));
    ChainAfterAppend(p, s.audit, AuditRow(seq_, Stored(entry)), opts);
    EvidenceAfterAppend(p, s, Stored(entry), seq_, id, Stored(data));
  }

  lemma ChainAfterAppend(p: Primitives, audit: seq<AuditRow>, row: AuditRow, opts: Options)
    requires CheckpointUsable(p, audit, opts) && Linked(p, audit, opts) && CheckpointHeadMatches(audit, opts)
    requires LinkFault(p, row.entry, HeadAt(audit, |audit|), |audit|, opts).None?
    ensures CheckpointUsable(p, audit + [row], opts)
    ensures Linked(p, audit + [row], opts)
    ensures CheckpointHeadMatches(audit + [row], opts)
  {
    hide LinkFault, ValidCheckpoint, SameHex, HashOf;
    forall i | 0 <= i < |audit + [row]| ensures LinkOk(p, audit + [row], i, opts) {
      assert i < |audit| ==> LinkOk(p, audit, i, opts);
    }
  }

  lemma EvidenceAfterAppend(p: Primitives, s: Store, entry: Json, seq_: int, id: string, data: Json)
    requires Digests(p) && ValidStore(s) && id != "" && WellFormed(data)
    requires Anchored(s.audit, s.queries) && EvidenceCurrent(p, s.audit, s.queries)
    requires Get(entry, "queryId") == Some(Str(id)) && Get(entry, "contentHash") == Some(Str(ContentHash(p, data)))
    ensures Anchored(s.audit + [AuditRow(seq_, entry)], Upsert(s.queries, id, data))
    ensures EvidenceCurrent(p, s.audit + [AuditRow(seq_, entry)], Upsert(s.queries, id, data))
  {
    hide Canonical, WellFormed, Get;
    var audit' := s.audit + [AuditRow(seq_, entry)];
    var queries' := Upsert(s.queries, id, data);
    assert audit'[..|s.audit|] == s.audit;
    assert IsLowerHex64(ContentHash(p, data));
    assert forall q :: LatestHash(audit', q) == if q == Str(id) then Some(Str(ContentHash(p, data)))
      else LatestHash(s.audit, q);
    UpsertValid(s.queries, id, data);
    forall i | 0 <= i < |queries'| ensures LatestHash(audit', Str(queries'[i].id)).Some? {
      if queries'[i].id != id {
        var j :| 0 <= j < |s.queries| && s.queries[j].id == queries'[i].id;
        assert LatestHash(s.audit, Str(s.queries[j].id)).Some?;
      }
    }
    forall q | LatestHash(audit', q).Some? ensures RowMatches(p, queries', q, LatestHash(audit', q).value) {
      if q == Str(id) {
        UpsertRows(p, s.queries, id, data, id);
      } else {
        assert RowMatches(p, s.queries, q, LatestHash(s.audit, q).value);
        UpsertRows(p, s.queries, id, data, q.text);
      }
    }
  }

  // ---- Whole histories of writes ----

  /** A row written together with the members of the audit entry that binds it. */
  datatype Write = Write(id: string, data: Json, fields: seq<Field>, seq_: int)

  predicate Binding(p: Primitives, w: Write) {
    var body := Obj(w.fields);
    && WellFormed(w.data) && WellFormed(body) && w.id != ""
    && !HasKey(w.fields, "hash") && !HasKey(w.fields, "mac")
    && Get(body, "queryId") == Some(Str(w.id)) && Get(body, "contentHash") == Some(Str(ContentHash(p, w.data)))
  }

  function Written(p: Primitives, key: string, writes: seq<Write>): Store {
    if writes == [] then Store([], [])
    else AfterWrite(p, key, Written(p, key, writes[..|writes| - 1]), writes[|writes| - 1])
  }

  function AfterWrite(p: Primitives, key: string, s: Store, w: Write): Store {
    var entry := AuthenticatedEntry(p, HeadAt(s.audit, |s.audit|), Obj(w.fields), key);
    Store(s.audit + [AuditRow(w.seq_, Stored(entry))], Upsert(s.queries, w.id, Stored(w.data)))
  }

  /** The checkpoint of the empty log. */
  function Genesis(p: Primitives, key: string): Options {
    Options(Some(key), Some(CreateCheckpoint(p, 0, ZERO_HASH, key, 0)), false, true)
  }

  /** A checkpoint made for a lower-case head is valid, and its head is that head. */
  lemma MadeIsValid(p: Primitives, key: string, count: int, head: string, seq_: int)
    requires Digests(p) && CheckpointFields(count, seq_, head) && Lower(head) == head
    ensures ValidCheckpoint(p, CreateCheckpoint(p, count, head, key, seq_), key)
    ensures SameHex(CreateCheckpoint(p, count, head, key, seq_).head, head)
  {
    var mac := p.hmac(key, Canonical(CheckpointBody(count, seq_, head)));
    hide Canonical, CheckpointBody;
    assert IsLowerHex64(mac);
  }

  lemma ZeroIsLowerHex()
    ensures IsHex64(ZERO_HASH) && Lower(ZERO_HASH) == ZERO_HASH
  {
    LowerFixed(ZERO_HASH);
  }

  lemma GenesisValid(p: Primitives, key: string)
    requires Digests(p)
    ensures ValidCheckpoint(p, CreateCheckpoint(p, 0, ZERO_HASH, key, 0), key)
    ensures SameHex(CreateCheckpoint(p, 0, ZERO_HASH, key, 0).head, ZERO_HASH)
  {
    hide Zeros, Lower, IsHex64, ValidCheckpoint, CreateCheckpoint, SameHex;
    ZeroIsLowerHex();
    MadeIsValid(p, key, 0, ZERO_HASH, 0);
  }

  lemma EmptyStoreClean(p: Primitives, opts: Options)
    ensures ValidStore(Store([], [])) && Linked(p, [], opts) && Anchored([], []) && EvidenceCurrent(p, [], [])
  {
  }

  lemma GenesisOptions(p: Primitives, key: string)
    ensures var opts := Genesis(p, key);
            opts.key == Some(key) && opts.checkpoint == Some(CreateCheckpoint(p, 0, ZERO_HASH, key, 0))
    ensures CreateCheckpoint(p, 0, ZERO_HASH, key, 0).count == 0 && HeadAt([], 0) == ZERO_HASH
  {
  }

  lemma EmptyAccepted(p: Primitives, key: string)
    requires Digests(p)
    ensures ValidStore(Store([], [])) && Accepted(p, Store([], []), Genesis(p, key))
  {
    hide Digests, ValidStore, Linked, Anchored, EvidenceCurrent, ValidCheckpoint, CreateCheckpoint, SameHex, HeadAt,
      Genesis, Zeros;
    GenesisOptions(p, key);
    EmptyStoreClean(p, Genesis(p, key));
    GenesisValid(p, key);
  }

  /** Every history of such writes leaves a store that verifies, with one entry per write. */
  lemma {:induction false} EveryHistoryAccepted(p: Primitives, key: string, writes: seq<Write>)
    requires Digests(p) && forall w :: w in writes ==> Binding(p, w)
    ensures var s := Written(p, key, writes);
            ValidStore(s) && Accepted(p, s, Genesis(p, key)) && |s.audit| == |writes|
  {
    hide Digests, Accepted, ValidStore, AuthenticatedEntry, HeadAt, Upsert, WellFormed, Get, HasKey, CreateCheckpoint,
      Canonical;
    if writes == [] {
      EmptyAccepted(p, key);
    } else {
      var front, w := writes[..|writes| - 1], writes[|writes| - 1];
      EveryHistoryAccepted(p, key, front);
      assert w in writes && Binding(p, w);
      AppendKeepsAccepted(p, Written(p, key, front), key, Genesis(p, key), w.id, w.data, Obj(w.fields), w.seq_);
    }
  }
}
