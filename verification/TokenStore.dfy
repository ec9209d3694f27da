/**
 The gateway token store shared by several processes: gateway/tokens.js lines 96 to 141, 168 to 235 and
 247 to 279. Mutations run under one lock on the file; resolutions go through a per-process cache keyed by
 the file's stamp. Every step may interleave with the steps of other processes.
 */
module TokenStore {
  import opened Wrappers

  datatype Token = Token(id: string, hash: string, user: string, orgId: Option<string>, title: string, revoked: bool)

  predicate Matches(t: Token, hash: string) {
    t.hash == hash && !t.revoked
  }

  /** `store.tokens.find((t) => t.hash === h && !t.revoked)` */
  function Lookup(tokens: seq<Token>, hash: string): (r: Option<Token>)
    ensures r.Some? ==> r.value in tokens && Matches(r.value, hash)
    ensures r.None? ==> forall t :: t in tokens ==> !Matches(t, hash)
  {
    if tokens == [] then None
    else if Matches(tokens[0], hash) then Some(tokens[0])
    else Lookup(tokens[1..], hash)
  }

  predicate Known(tokens: seq<Token>, id: string) {
    exists t :: t in tokens && t.id == id
  }

  /** No token of this id can be resolved. */
  predicate Dead(tokens: seq<Token>, id: string) {
    forall t :: t in tokens && t.id == id ==> t.revoked
  }

  predicate SameToken(a: Token, b: Token) {
    b == a || b == a.(revoked := true)
  }

  /** What every write does to the store: tokens stay in place, at most become revoked, and new ones come
      last under ids not used before. */
  predicate Grows(a: seq<Token>, b: seq<Token>) {
    && |a| <= |b|
    && (forall i :: 0 <= i < |a| ==> SameToken(a[i], b[i]))
    && forall i, j :: 0 <= i < |a| <= j < |b| ==> b[j].id != a[i].id
  }

  predicate History(versions: seq<seq<Token>>) {
    && versions != [] && versions[0] == []
    && forall k :: 0 <= k < |versions| - 1 ==> Grows(versions[k], versions[k + 1])
  }

  lemma {:induction false} GrowsOver(versions: seq<seq<Token>>, v: nat, k: nat)
    requires History(versions) && v <= k < |versions|
    ensures Grows(versions[v], versions[k])
  {
    if v < k {
      GrowsOver(versions, v, k - 1);
      var a, b, c := versions[v], versions[k - 1], versions[k];
      assert Grows(b, c);
      forall i, j | 0 <= i < |a| <= j < |c| ensures c[j].id != a[i].id {
        if j < |b| {
          assert SameToken(b[j], c[j]) && b[j].id != a[i].id;
        } else {
          assert SameToken(a[i], b[i]) && c[j].id != b[i].id;
        }
      }
    }
  }

  /** A known id that is dead stays dead. */
  lemma StaysDead(a: seq<Token>, b: seq<Token>, id: string)
    requires Grows(a, b) && Known(a, id) && Dead(a, id)
    ensures Known(b, id) && Dead(b, id)
  {
    var t :| t in a && t.id == id;
    var n :| 0 <= n < |a| && a[n] == t;
    assert SameToken(a[n], b[n]) && b[n] in b;
    assert forall j :: |a| <= j < |b| ==> b[j].id != a[n].id;
    forall u | u in b && u.id == id ensures u.revoked {
      var j :| 0 <= j < |b| && b[j] == u;
      assert SameToken(a[j], b[j]) && a[j] in a;
    }
  }

  /** A token in the store stays there, revoked or not. */
  lemma StaysStored(a: seq<Token>, b: seq<Token>, t: Token)
    requires Grows(a, b) && t in a
    ensures t in b || t.(revoked := true) in b
  {
    var n :| 0 <= n < |a| && a[n] == t;
    assert SameToken(a[n], b[n]) && b[n] in b;
  }

  function WithRevoked(tokens: seq<Token>, id: string): seq<Token> {
    seq(|tokens|, i requires 0 <= i < |tokens| => if tokens[i].id == id then tokens[i].(revoked := true) else tokens[i])
  }

  /** A revocation touches nothing else: every token keeps its place and everything but its flag, and the
      flag too unless it has that id. */
  predicate RevokedOnly(before: seq<Token>, after: seq<Token>, id: string) {
    && |after| == |before|
    && (forall i :: 0 <= i < |before| ==> SameToken(before[i], after[i]))
    && (forall i :: 0 <= i < |before| && before[i].id != id ==> after[i] == before[i])
    && (forall i :: 0 <= i < |before| && before[i].id == id ==> after[i].revoked)
  }

  /** A hash resolves after the revocation to what it resolved to before, unless that token has this id. */
  lemma {:induction false} OthersStillResolve(before: seq<Token>, after: seq<Token>, id: string, hash: string)
    requires RevokedOnly(before, after, id) && Lookup(before, hash).Some? && Lookup(before, hash).value.id != id
    ensures Lookup(after, hash) == Lookup(before, hash)
  {
    assert SameToken(before[0], after[0]);
    if !Matches(before[0], hash) {
      assert RevokedOnly(before[1..], after[1..], id) by {
        assert forall i :: 0 <= i < |before| - 1 ==> before[1..][i] == before[i + 1] && after[1..][i] == after[i + 1];
      }
      OthersStillResolve(before[1..], after[1..], id, hash);
    }
  }

  /** `for (const t of store.tokens) if (t.id === id && !t.revoked) ...`, lines 266 to 268. */
  method MarkRevoked(tokens: seq<Token>, id: string) returns (after: seq<Token>, changed: bool)
    ensures after == WithRevoked(tokens, id) && Grows(tokens, after) && Dead(after, id)
    ensures RevokedOnly(tokens, after, id)
    ensures changed <==> after != tokens
    ensures changed <==> exists t :: t in tokens && t.id == id && !t.revoked
  {
    after, changed := tokens, false;
    for i := 0 to |tokens|
      invariant |after| == |tokens|
      invariant forall j :: i <= j < |tokens| ==> after[j] == tokens[j]
      invariant forall j :: 0 <= j < i ==>
        after[j] == if tokens[j].id == id then tokens[j].(revoked := true) else tokens[j]
      invariant changed <==> exists j :: 0 <= j < i && tokens[j].id == id && !tokens[j].revoked
      invariant changed <==> after != tokens
    {
      if after[i].id == id && !after[i].revoked {
        after, changed := after[i := after[i].(revoked := true)], true;
      }
    }
    if changed {
      var j :| 0 <= j < |tokens| && tokens[j].id == id && !tokens[j].revoked;
      assert tokens[j] in tokens;
    }
  }

  // ---- The system ----

  /** A cache entry: the store that was read after a stat gave this stamp. */
  datatype Cached = Cached(stamp: nat, tokens: seq<Token>)

  /** What a process is in the middle of. */
  datatype Phase =
    | Resolving(hash: string, stamp: nat)
    | Minting(token: Token, tokens: seq<Token>)
    | Revoking(id: string, tokens: seq<Token>)

  /** How a write ends: nothing happened, it happened but an error was thrown, or it returned. */
  datatype SaveOutcome = NotSaved | SavedThenThrew | Saved

  /** What the run has to answer for, with the version of the store it happened at. A resolution began when
      the log had `began` entries and the store was at version `from`, saw this stamp, ended at version `to`,
      and was answered from the cache entry it found under that stamp, or from a read that may have failed. */
  datatype Event =
    | Minted(token: Token, version: nat)
    | Revoked(id: string, version: nat)
    | Resolved(hash: string, began: nat, from: nat, to: nat, stamp: nat, cached: Option<seq<Token>>, misread: bool,
               result: Option<Token>)

  datatype Begun = Begun(began: nat, from: nat)

  /** The resolution's own stat failed although there was a file. */
  predicate StatFailed(e: Event)
    requires e.Resolved?
  {
    e.stamp != e.from
  }

  predicate Yields(r: Option<Token>, id: string) {
    r.Some? && r.value.id == id
  }

  /** The store a resolution was answered from; a failed read counts as the empty store. */
  function Seen(e: Event, versions: seq<seq<Token>>): seq<Token>
    requires e.Resolved? && e.to < |versions|
  {
    if e.cached.Some? then e.cached.value else if e.misread then [] else versions[e.to]
  }

  /** The answer is that of the store seen; and unless the stat or the read behind that store failed, the
      store was current at some moment of the resolution. */
  ghost predicate Served(e: Event, versions: seq<seq<Token>>)
    requires e.Resolved?
  {
    && e.from <= e.to < |versions| && (e.stamp == e.from || e.stamp == 0)
    && e.result == Lookup(Seen(e, versions), e.hash)
    && (e.misread ==> Seen(e, versions) == [])
    && (!StatFailed(e) && !e.misread ==> exists k :: e.from <= k <= e.to && Seen(e, versions) == versions[k])
  }

  ghost predicate EventHolds(e: Event, versions: seq<seq<Token>>) {
    match e
    case Minted(token, v) => v < |versions| && token in versions[v]
    case Revoked(id, v) => v < |versions| && Known(versions[v], id) && Dead(versions[v], id)
    case Resolved(_, _, _, _, _, _, _, _) => Served(e, versions)
  }

  /** Events that returned before a resolution began are in the store it could see. */
  ghost predicate Ordered(log: seq<Event>, began: nat, from: nat) {
    forall i :: 0 <= i < began && i < |log| ==>
      (log[i].Minted? ==> log[i].version <= from) && (log[i].Revoked? ==> log[i].version <= from)
  }

  /** A longer history changes nothing for an event that has happened. */
  lemma EventStays(e: Event, versions: seq<seq<Token>>, more: seq<seq<Token>>)
    requires EventHolds(e, versions) && versions <= more
    ensures EventHolds(e, more)
  {
    if e.Resolved? {
      assert Seen(e, more) == Seen(e, versions);
      if !StatFailed(e) && !e.misread {
        var k :| e.from <= k <= e.to && Seen(e, versions) == versions[k];
        assert more[k] == versions[k];
      }
    }
  }

  /** The cached store of a process was current at or after its stamp, or comes from a failed read. */
  ghost predicate CacheHolds(c: Cached, misread: bool, versions: seq<seq<Token>>) {
    && c.stamp < |versions|
    && if misread then c.tokens == [] else exists k :: c.stamp <= k < |versions| && c.tokens == versions[k]
  }

  lemma CacheStays(c: Cached, misread: bool, versions: seq<seq<Token>>, more: seq<seq<Token>>)
    requires CacheHolds(c, misread, versions) && versions <= more
    ensures CacheHolds(c, misread, more)
  {
    if !misread {
      var k :| c.stamp <= k < |versions| && c.tokens == versions[k];
      assert more[k] == versions[k];
    }
  }

  ghost predicate PhaseHolds(p: nat, phase: Phase, begun: Begun, lock: Option<nat>, versions: seq<seq<Token>>,
                             log: seq<Event>)
    requires versions != []
  {
    match phase
    case Resolving(_, stamp) =>
      && begun.from < |versions| && (stamp == begun.from || stamp == 0)
      && begun.began <= |log| && Ordered(log, begun.began, begun.from)
    case Minting(token, tokens) =>
      lock == Some(p) && tokens == versions[|versions| - 1] && !Known(tokens, token.id) && !token.revoked
    case Revoking(_, tokens) =>
      lock == Some(p) && tokens == versions[|versions| - 1]
  }

  ghost predicate LogHolds(log: seq<Event>, versions: seq<seq<Token>>) {
    && (forall i :: 0 <= i < |log| ==> EventHolds(log[i], versions))
    && (forall i :: 0 <= i < |log| && log[i].Resolved? ==> log[i].began <= i && Ordered(log, log[i].began, log[i].from))
  }

  lemma LogGrows(log: seq<Event>, versions: seq<seq<Token>>, e: Event)
    requires LogHolds(log, versions) && EventHolds(e, versions)
    requires e.Resolved? ==> e.began <= |log| && Ordered(log, e.began, e.from)
    ensures LogHolds(log + [e], versions)
  {
    hide EventHolds;
  }

  lemma LogStays(log: seq<Event>, versions: seq<seq<Token>>, more: seq<seq<Token>>)
    requires LogHolds(log, versions) && versions <= more
    ensures LogHolds(log, more)
  {
    forall i | 0 <= i < |log| ensures EventHolds(log[i], more) {
      EventStays(log[i], versions, more);
    }
  }

  class Gateways {
    /** Every store ever published, the missing file first; its index is the stamp of the file. */
    var versions: seq<seq<Token>>
    var lock: Option<nat>
    var caches: map<nat, Cached>
    var phases: map<nat, Phase>
    ghost var begun: map<nat, Begun>
    /** Processes whose cached store comes from a failed read. */
    ghost var misread: set<nat>
    ghost var log: seq<Event>

    ghost predicate Valid()
      reads this
    {
      && History(versions) && phases.Keys <= begun.Keys
      && (forall p :: p in caches ==> CacheHolds(caches[p], p in misread, versions))
      && (forall p :: p in phases ==> PhaseHolds(p, phases[p], begun[p], lock, versions, log))
      && LogHolds(log, versions)
    }

    function Current(): seq<Token>
      requires versions != []
      reads this
    {
      versions[|versions| - 1]
    }

    constructor ()
      ensures Valid() && versions == [[]] && phases == map[] && caches == map[] && log == [] && lock == None
      ensures misread == {}
    {
      versions, lock, caches, phases := [[]], None, map[], map[];
      begun, misread, log := map[], {}, [];
    }

    /** The stat of `loadStore`, lines 132 to 136; a failing stat counts as a missing file. */
    method BeginResolve(p: nat, hash: string, statFails: bool)
      requires Valid() && p !in phases
      modifies this`phases, this`begun
      ensures Valid()
      ensures phases == old(phases)[p := Resolving(hash, if statFails then 0 else |versions| - 1)]
      ensures begun == old(begun)[p := Begun(|log|, |versions| - 1)]
    {
      phases := phases[p := Resolving(hash, if statFails then 0 else |versions| - 1)];
      begun := begun[p := Begun(|log|, |versions| - 1)];
    }

    /** The cache entry that `loadStore` would use: one keyed by the stamp just seen. */
    function Hit(p: nat): Option<seq<Token>>
      requires p in phases && phases[p].Resolving?
      reads this
    {
      if p in caches && caches[p].stamp == phases[p].stamp then Some(caches[p].tokens) else None
    }

    /** The rest of `loadStore` and `resolveToken`, lines 137 to 141 and 275 to 278. The answer comes from the
        entry keyed by the stamp, if there is one, and otherwise from a fresh read, which is then cached. */
    method FinishResolve(p: nat, readFails: bool) returns (r: Option<Token>)
      requires Valid() && p in phases && phases[p].Resolving?
      modifies this`phases, this`caches, this`misread, this`log
      ensures Valid() && phases == old(phases) - {p}
      ensures old(Hit(p)).Some? ==> caches == old(caches) && misread == old(misread)
      ensures old(Hit(p)).None? ==>
        && caches == old(caches)[p := Cached(old(phases)[p].stamp, if readFails then [] else Current())]
        && misread == if readFails then old(misread) + {p} else old(misread) - {p}
      ensures var phase, begun := old(phases)[p], old(begun)[p];
        && r == Lookup(caches[p].tokens, phase.hash)
        && log == old(log) + [Resolved(phase.hash, begun.began, begun.from, |versions| - 1, phase.stamp, old(Hit(p)),
              p in misread, r)]
    {
      hide Gateways.Valid, Lookup, EventHolds, Ordered;
      ghost var hit := Hit(p);
      var tokens := LoadStore(p, readFails);
      r := Lookup(tokens, phases[p].hash);
      ghost var e := Answer(p, hit, r);
      EndPhase(p);
      Note(e);
    }

    method EndPhase(p: nat)
      requires Valid()
      modifies this`phases
      ensures Valid() && phases == old(phases) - {p}
    {
      hide History, CacheHolds, LogHolds, PhaseHolds;
      phases := phases - {p};
    }

    ghost function Answer(p: nat, hit: Option<seq<Token>>, r: Option<Token>): Event
      requires p in phases && phases[p].Resolving? && p in begun && versions != []
      reads this
    {
      Resolved(phases[p].hash, begun[p].began, begun[p].from, |versions| - 1, phases[p].stamp, hit, p in misread, r)
    }

    /** `loadStore` after its stat, lines 136 to 140. */
    method LoadStore(p: nat, readFails: bool) returns (tokens: seq<Token>)
      requires Valid() && p in phases && phases[p].Resolving?
      modifies this`caches, this`misread
      ensures Valid() && p in caches && caches[p] == Cached(phases[p].stamp, tokens) && p in begun && versions != []
      ensures old(Hit(p)).Some? ==> caches == old(caches) && misread == old(misread)
      ensures old(Hit(p)).None? ==>
        && caches == old(caches)[p := Cached(phases[p].stamp, if readFails then [] else Current())]
        && misread == if readFails then old(misread) + {p} else old(misread) - {p}
      ensures var e := Answer(p, old(Hit(p)), Lookup(tokens, phases[p].hash));
        EventHolds(e, versions) && e.began <= |log| && Ordered(log, e.began, e.from)
    {
      ghost var hit := Hit(p);
      ReadStore(p, readFails);
      tokens := caches[p].tokens;
      hide LogHolds, History, Lookup;
      ghost var e := Answer(p, hit, Lookup(tokens, phases[p].hash));
      assert Seen(e, versions) == tokens;
      if p !in misread {
        var k :| caches[p].stamp <= k < |versions| && tokens == versions[k];
        assert !StatFailed(e) ==> e.from <= k <= e.to;
      }
    }

    method ReadStore(p: nat, readFails: bool)
      requires Valid() && p in phases && phases[p].Resolving?
      modifies this`caches, this`misread
      ensures Valid() && p in caches && caches[p].stamp == phases[p].stamp
      ensures p in misread ==> caches[p].tokens == []
      ensures old(Hit(p)).Some? ==> caches == old(caches) && misread == old(misread)
      ensures old(Hit(p)).None? ==>
        && caches == old(caches)[p := Cached(phases[p].stamp, if readFails then [] else Current())]
        && misread == if readFails then old(misread) + {p} else old(misread) - {p}
    {
      hide LogHolds, History;
      if p in caches && caches[p].stamp == phases[p].stamp {
        return;
      }
      var tokens := if readFails then [] else Current();
      caches := caches[p := Cached(phases[p].stamp, tokens)];
      misread := if readFails then misread + {p} else misread - {p};
    }

    /** The locked, strict read of `mutateStore` for a mint, lines 219 to 226. The random id is fresh. */
    method BeginMint(p: nat, token: Token, readFails: bool) returns (ok: bool)
      requires Valid() && p !in phases && lock == None && !token.revoked && !Known(Current(), token.id)
      modifies this`phases, this`begun, this`lock
      ensures Valid() && ok == !readFails
      ensures lock == (if ok then Some(p) else None)
      ensures phases == if ok then old(phases)[p := Minting(token, Current())] else old(phases)
    {
      if readFails {
        return false;
      }
      lock := Some(p);
      phases := phases[p := Minting(token, Current())];
      begun := begun[p := Begun(0, 0)];
      ok := true;
    }

    /** `store.tokens.push(entry)` and the save, lines 227 to 229 and 257 to 261; Some when it returned. */
    method FinishMint(p: nat, outcome: SaveOutcome) returns (r: Option<Token>)
      requires Valid() && p in phases && phases[p].Minting?
      modifies this`phases, this`versions, this`caches, this`lock, this`log
      ensures Valid() && phases == old(phases) - {p} && lock == None
      ensures versions == if outcome.NotSaved? then old(versions)
              else old(versions) + [old(phases)[p].tokens + [old(phases)[p].token]]
      ensures r == if outcome.Saved? then Some(old(phases)[p].token) else None
      ensures caches == if outcome.Saved? then old(caches) - {p} else old(caches)
      ensures log == if r.Some? then old(log) + [Minted(r.value, |versions| - 1)] else old(log)
    {
      var token, tokens := phases[p].token, phases[p].tokens;
      phases, lock := phases - {p}, None;
      r := None;
      Save(p, tokens + [token], outcome);
      if outcome.Saved? {
        Note(Minted(token, |versions| - 1));
        r := Some(token);
      }
    }

    ghost method Note(e: Event)
      requires Valid() && EventHolds(e, versions)
      requires e.Resolved? ==> e.began <= |log| && Ordered(log, e.began, e.from)
      modifies this`log
      ensures Valid() && log == old(log) + [e]
    {
      hide History, CacheHolds, EventHolds;
      LogGrows(log, versions, e);
      log := log + [e];
    }

    /** The atomic replacement of the file. */
    method Publish(tokens: seq<Token>)
      requires Valid() && Grows(Current(), tokens) && forall p :: p in phases ==> phases[p].Resolving?
      modifies this`versions
      ensures Valid() && versions == old(versions) + [tokens]
    {
      versions := versions + [tokens];
      forall p | p in caches ensures CacheHolds(caches[p], p in misread, versions) {
        CacheStays(caches[p], p in misread, old(versions), versions);
      }
      LogStays(log, old(versions), versions);
    }

    /** `saveStoreAtomic`; only a save that returned drops the cache entry of its process. */
    method Save(p: nat, tokens: seq<Token>, outcome: SaveOutcome)
      requires Valid() && Grows(Current(), tokens) && forall p :: p in phases ==> phases[p].Resolving?
      modifies this`versions, this`caches
      ensures Valid() && versions == if outcome.NotSaved? then old(versions) else old(versions) + [tokens]
      ensures caches == if outcome.Saved? then old(caches) - {p} else old(caches)
    {
      hide Grows, LogHolds;
      if !outcome.NotSaved? {
        Publish(tokens);
      }
      if outcome.Saved? {
        caches := caches - {p};
      }
    }

    method BeginRevoke(p: nat, id: string, readFails: bool) returns (ok: bool)
      requires Valid() && p !in phases && lock == None
      modifies this`phases, this`begun, this`lock
      ensures Valid() && ok == !readFails
      ensures lock == (if ok then Some(p) else None)
      ensures phases == if ok then old(phases)[p := Revoking(id, Current())] else old(phases)
    {
      if readFails {
        return false;
      }
      lock := Some(p);
      phases := phases[p := Revoking(id, Current())];
      begun := begun[p := Begun(0, 0)];
      ok := true;
    }

    /** `revokeToken` under the lock, lines 264 to 270; Some when it returned, with whether it changed anything. */
    method FinishRevoke(p: nat, outcome: SaveOutcome) returns (r: Option<bool>)
      requires Valid() && p in phases && phases[p].Revoking?
      modifies this`phases, this`versions, this`caches, this`lock, this`log
      ensures Valid() && phases == old(phases) - {p} && lock == None
      ensures var tokens := old(phases)[p].tokens; var after := WithRevoked(tokens, old(phases)[p].id);
              && versions == (if after == tokens || outcome.NotSaved? then old(versions) else old(versions) + [after])
              && r == if after == tokens then Some(false) else if outcome.Saved? then Some(true) else None
      ensures r.Some? ==> Dead(Current(), old(phases)[p].id)
      ensures Current() == old(Current()) || RevokedOnly(old(Current()), Current(), old(phases)[p].id)
      ensures caches == if r == Some(true) then old(caches) - {p} else old(caches)
      ensures log == if r.Some? && Known(Current(), old(phases)[p].id)
                     then old(log) + [Revoked(old(phases)[p].id, |versions| - 1)] else old(log)
    {
      hide CacheHolds, LogHolds, Grows, WithRevoked, RevokedOnly, Dead, Known;
      var id, tokens := phases[p].id, phases[p].tokens;
      phases, lock := phases - {p}, None;
      var after, changed := MarkRevoked(tokens, id);
      if changed {
        Save(p, after, outcome);
        if !outcome.Saved? {
          return None;
        }
      }
      r := Some(changed);
      if Known(Current(), id) {
        Note(Revoked(id, |versions| - 1));
      }
    }
  }

  // ---- What every run guarantees ----

  /** A resolution that began after a revocation returned never yields a token of that id, in any process,
      as long as its own stat did not fail. */
  lemma RevocationHonoured(versions: seq<seq<Token>>, log: seq<Event>, i: nat, j: nat)
    requires History(versions) && LogHolds(log, versions) && j < |log|
    requires log[j].Resolved? && i < log[j].began && log[i].Revoked? && !StatFailed(log[j])
    ensures !Yields(log[j].result, log[i].id)
  {
    var e, v := log[j], log[i].version;
    assert EventHolds(e, versions) && EventHolds(log[i], versions);
    if !e.misread {
      var k :| e.from <= k <= e.to && Seen(e, versions) == versions[k];
      GrowsOver(versions, v, k);
      StaysDead(versions[v], versions[k], log[i].id);
    }
  }

  /** And exactly: it yields a token of that id if and only if its own stat failed on an existing file and its
      process held a cache entry keyed by the stamp of a missing file whose first live token of that hash has
      that id. */
  lemma RevocationExactly(versions: seq<seq<Token>>, log: seq<Event>, i: nat, j: nat)
    requires History(versions) && LogHolds(log, versions) && j < |log|
    requires log[j].Resolved? && i < log[j].began && log[i].Revoked?
    ensures Yields(log[j].result, log[i].id)
            <==> StatFailed(log[j]) && log[j].stamp == 0 && log[j].cached.Some?
                 && Yields(Lookup(log[j].cached.value, log[j].hash), log[i].id)
  {
    var e, v := log[j], log[i].version;
    assert EventHolds(e, versions) && EventHolds(log[i], versions);
    if !StatFailed(e) {
      RevocationHonoured(versions, log, i, j);
    } else if e.cached.None? {
      GrowsOver(versions, v, e.to);
      StaysDead(versions[v], versions[e.to], log[i].id);
    }
  }

  /** A mint that returned is never lost: every later store holds the token, revoked or not. */
  lemma MintKept(versions: seq<seq<Token>>, log: seq<Event>, i: nat, k: nat)
    requires History(versions) && LogHolds(log, versions) && i < |log| && log[i].Minted?
    requires log[i].version <= k < |versions|
    ensures log[i].token in versions[k] || log[i].token.(revoked := true) in versions[k]
  {
    assert EventHolds(log[i], versions);
    GrowsOver(versions, log[i].version, k);
    StaysStored(versions[log[i].version], versions[k], log[i].token);
  }

  /** A store that holds the token, unrevoked, answers for its hash. */
  lemma HeldResolves(tokens: seq<Token>, t: Token)
    requires t in tokens && !t.revoked
    ensures Lookup(tokens, t.hash).Some?
  {
    assert Matches(t, t.hash);
  }

  /** A resolution of it that began after that succeeds, unless its stat failed, the read behind its store
      failed, or some store it may have seen has the token revoked. */
  lemma MintResolves(versions: seq<seq<Token>>, log: seq<Event>, i: nat, j: nat)
    requires History(versions) && LogHolds(log, versions) && j < |log|
    requires log[j].Resolved? && i < log[j].began && log[i].Minted? && log[j].hash == log[i].token.hash
    requires !log[i].token.revoked && !log[j].misread && !StatFailed(log[j])
    ensures log[j].result.Some?
            || exists k ::
                 log[j].from <= k <= log[j].to && k < |versions| && log[i].token.(revoked := true) in versions[k]
  {
    var e, t := log[j], log[i].token;
    assert EventHolds(e, versions) && EventHolds(log[i], versions);
    var k :| e.from <= k <= e.to && Seen(e, versions) == versions[k];
    MintKept(versions, log, i, k);
    if t in versions[k] {
      HeldResolves(versions[k], t);
    }
  }

  /** And exactly, for a token not revoked by then: it is denied if and only if the read behind the store seen
      failed, or the resolution's own stat failed and its process held an entry keyed by the stamp of a missing
      file with no live token of that hash. */
  lemma DeniedExactly(versions: seq<seq<Token>>, log: seq<Event>, i: nat, j: nat)
    requires History(versions) && LogHolds(log, versions) && j < |log|
    requires log[j].Resolved? && i < log[j].began && log[i].Minted? && log[j].hash == log[i].token.hash
    requires !log[i].token.revoked
    requires forall k :: log[i].version <= k <= log[j].to && k < |versions| ==>
      log[i].token.(revoked := true) !in versions[k]
    ensures log[j].result == None
            <==> log[j].misread
                 || (StatFailed(log[j]) && log[j].cached.Some? && Lookup(log[j].cached.value, log[j].hash).None?)
  {
    var e, t := log[j], log[i].token;
    assert EventHolds(e, versions) && EventHolds(log[i], versions);
    if !e.misread && !StatFailed(e) {
      MintResolves(versions, log, i, j);
    } else if !e.misread && e.cached.None? {
      MintKept(versions, log, i, e.to);
      HeldResolves(versions[e.to], t);
    }
  }

  /** A store with one token, minted by process 2. */
  method OneMinted() returns (g: Gateways, t: Token)
    ensures fresh(g) && g.Valid() && g.versions == [[], [t]] && g.phases == map[] && g.caches == map[] && g.lock == None
    ensures t == Token("a", "h", "u", None, "", false) && g.log == [Minted(t, 1)] && g.misread == {}
  {
    g := new Gateways();
    t := Token("a", "h", "u", None, "", false);
    hide Gateways.Valid;
    var ok := g.BeginMint(2, t, false);
    var minted := g.FinishMint(2, Saved);
    assert [] + [t] == [t];
  }

  /** Process 1 has resolved it after a failed stat, so its cache is keyed by the stamp of a missing file. */
  method CachedBlindly() returns (g: Gateways, t: Token)
    ensures fresh(g) && g.Valid() && g.versions == [[], [t]] && g.phases == map[] && g.lock == None
    ensures t == Token("a", "h", "u", None, "", false) && |g.log| == 2 && g.misread == {}
    ensures g.caches == map[1 := Cached(0, [t])]
  {
    hide Gateways.Valid;
    g, t := OneMinted();
    g.BeginResolve(1, "h", true);
    var r := g.FinishResolve(1, false);
  }

  /** Then process 2 revokes it. */
  method RevokedBehindCache() returns (g: Gateways, t: Token)
    ensures fresh(g) && g.Valid() && |g.versions| == 3 && g.phases == map[] && g.misread == {}
    ensures t == Token("a", "h", "u", None, "", false) && |g.log| == 3 && g.log[2] == Revoked("a", 2)
    ensures g.caches == map[1 := Cached(0, [t])]
  {
    hide Gateways.Valid, Grows, Dead;
    g, t := CachedBlindly();
    var ok := g.BeginRevoke(2, "a", false);
    assert WithRevoked([t], "a") == [t.(revoked := true)];
    var changed := g.FinishRevoke(2, Saved);
    assert t.(revoked := true) in g.Current();
  }

  /** With two failed stats around a revocation a process still yields the revoked token. */
  method StaleExample() returns (g: Gateways, r: Option<Token>)
    ensures g.Valid() && |g.log| == 4 && g.log[2] == Revoked("a", 2) && g.log[3].Resolved? && StatFailed(g.log[3])
    ensures g.log[3].began == 3 && g.log[3].result == r && Yields(r, "a")
  {
    hide Gateways.Valid;
    var t;
    g, t := RevokedBehindCache();
    g.BeginResolve(1, "h", true);
    r := g.FinishResolve(1, false);
  }

  /** After one failed read a process denies a valid token until the file changes. */
  method DeniedExample() returns (g: Gateways, r: Option<Token>)
    ensures g.Valid() && r == None && exists t :: t in g.Current() && Matches(t, "h")
    ensures |g.log| == 3 && g.log[2] == Resolved("h", 2, 1, 1, 1, Some([]), true, None)
  {
    hide Gateways.Valid;
    var t;
    g, t := OneMinted();
    assert t in g.Current() && Matches(t, "h");
    g.BeginResolve(1, "h", false);
    r := g.FinishResolve(1, true);
    g.BeginResolve(1, "h", false);
    r := g.FinishResolve(1, false);
  }
}
