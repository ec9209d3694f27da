/**
 Data-key rotation: sealing and opening (server/crypto.js lines 57 to 100) and the walk that reseals every
 stored field under the current key (scripts/rotate-data-key.js lines 34 to 86). AES-GCM is an ideal box: a
 token opens under the key that sealed it and under no other.
 */
module Rotation {
  import opened Wrappers

  /** What follows the `enc:v1:` prefix: a box, or anything that opens under no key. */
  datatype Token = Box(key: nat, iv: nat, plaintext: string) | Tampered(bytes: string)

  /** A stored field: missing, an unsealed legacy value, or a sealed token. */
  datatype Value = Missing | Plain(text: string) | Sealed(token: Token)

  /** The derived keys; without a current key encryption is off. */
  datatype Keys = Keys(current: Option<nat>, previous: Option<nat>)

  function OpenWithKey(key: nat, token: Token): Option<string> {
    if token.Box? && token.key == key then Some(token.plaintext) else None
  }

  /** `open` on a sealed token. */
  function Open(keys: Keys, token: Token): Option<string> {
    if keys.current.None? then None
    else
      var plaintext := OpenWithKey(keys.current.value, token);
      if plaintext.Some? then plaintext
      else if keys.previous.Some? then OpenWithKey(keys.previous.value, token)
      else None
  }

  function NeedsReseal(keys: Keys, token: Token): bool {
    && keys.current.Some? && keys.previous.Some?
    && OpenWithKey(keys.current.value, token).None? && OpenWithKey(keys.previous.value, token).Some?
  }

  function Seal(keys: Keys, plaintext: string, iv: nat): Option<Token> {
    if keys.current.None? then None else Some(Box(keys.current.value, iv, plaintext))
  }

  /** The keys once the previous one is retired. */
  function Retired(keys: Keys): Keys {
    Keys(keys.current, None)
  }

  datatype Record = Record(rawPrompt: Value, tokenVault: Value, rest: string)

  predicate Readable(keys: Keys, v: Value) {
    v.Sealed? ==> Open(keys, v.token).Some?
  }

  predicate AllReadable(keys: Keys, r: Record) {
    Readable(keys, r.rawPrompt) && Readable(keys, r.tokenVault)
  }

  predicate Due(keys: Keys, v: Value) {
    v.Sealed? && NeedsReseal(keys, v.token)
  }

  /** `after` is the field `before`, readable as before, and unchanged unless it was due for resealing. */
  predicate SameField(keys: Keys, before: Value, after: Value) {
    if before.Sealed? then
      && after.Sealed? && Open(keys, after.token) == Open(keys, before.token)
      && (!Due(keys, before) ==> after == before)
    else after == before
  }

  predicate SameRecord(keys: Keys, a: Record, b: Record) {
    SameField(keys, a.rawPrompt, b.rawPrompt) && SameField(keys, a.tokenVault, b.tokenVault) && a.rest == b.rest
  }

  /** A field the walk is done with: nothing to reseal, and its readability rests on the current key alone. */
  predicate Settled(keys: Keys, v: Value) {
    !Due(keys, v) && (Readable(keys, v) ==> Readable(Retired(keys), v))
  }

  predicate SettledRecord(keys: Keys, r: Record) {
    Settled(keys, r.rawPrompt) && Settled(keys, r.tokenVault)
  }

  datatype Counts = Counts(scanned: nat, resealed: nat, unreadable: nat)

  function One(b: bool): nat {
    if b then 1 else 0
  }

  /** What a walk over these records counts. */
  function Tally(keys: Keys, records: seq<Record>): Counts {
    if records == [] then Counts(0, 0, 0)
    else
      var r, before := records[|records| - 1], Tally(keys, records[..|records| - 1]);
      Counts(before.scanned + 1,
             before.resealed + One(Due(keys, r.rawPrompt)) + One(Due(keys, r.tokenVault)),
             before.unreadable + One(!Readable(keys, r.rawPrompt)) + One(!Readable(keys, r.tokenVault)))
  }

  lemma {:induction false} NoneUnreadable(keys: Keys, records: seq<Record>)
    ensures Tally(keys, records).unreadable == 0 <==> forall r :: r in records ==> AllReadable(keys, r)
  {
    if records != [] {
      var front, last := records[..|records| - 1], records[|records| - 1];
      NoneUnreadable(keys, front);
      assert records == front + [last];
      assert last in records;
    }
  }

  lemma {:induction false} NoneDue(keys: Keys, records: seq<Record>)
    ensures Tally(keys, records).resealed == 0
            <==> forall r :: r in records ==> !Due(keys, r.rawPrompt) && !Due(keys, r.tokenVault)
  {
    if records != [] {
      var front, last := records[..|records| - 1], records[|records| - 1];
      NoneDue(keys, front);
      assert records == front + [last];
    }
  }

  /** Opening is unambiguous: what a seal under the current key opens to does not depend on the previous key,
      and a token is due exactly when retiring the previous key would lose it. */
  lemma DueExactly(keys: Keys, token: Token)
    ensures NeedsReseal(keys, token) <==> Open(keys, token).Some? && Open(Retired(keys), token).None?
  {
  }

  lemma SealOpens(keys: Keys, plaintext: string, iv: nat)
    ensures Seal(keys, plaintext, iv).Some? <==> keys.current.Some?
    ensures Seal(keys, plaintext, iv).Some? ==>
              var token := Seal(keys, plaintext, iv).value;
              && Open(keys, token) == Some(plaintext) && Open(Retired(keys), token) == Some(plaintext)
              && !NeedsReseal(keys, token)
  {
  }

  /** A token opens to a text exactly when that text was sealed under what is now the current or the previous
      key, and encryption is on. */
  lemma OpensExactly(keys: Keys, token: Token, plaintext: string)
    ensures Open(keys, token) == Some(plaintext)
            <==> exists sealer: Keys, iv ::
                   && Seal(sealer, plaintext, iv) == Some(token)
                   && keys.current.Some? && sealer.current in {keys.current, keys.previous}
  {
    if token.Box? {
      assert token.plaintext == plaintext ==> Seal(Keys(Some(token.key), None), plaintext, token.iv) == Some(token);
    }
  }

  datatype Listed = Listed(id: nat, record: Record)

  function Records(listing: seq<Listed>): seq<Record> {
    if listing == [] then [] else Records(listing[..|listing| - 1]) + [listing[|listing| - 1].record]
  }

  /** The listing names every row once, as it was. */
  ghost predicate Lists(listing: seq<Listed>, rows: map<nat, Record>) {
    && (forall i, j :: 0 <= i < j < |listing| ==> listing[i].id != listing[j].id)
    && (forall i :: 0 <= i < |listing| ==> listing[i].id in rows && listing[i].record == rows[listing[i].id])
    && (forall id :: id in rows ==> StillListed(listing, 0, id))
  }

  /** The walk has yet to come to this row. */
  ghost predicate StillListed(listing: seq<Listed>, n: nat, id: nat) {
    exists i :: n <= i < |listing| && listing[i].id == id
  }

  lemma OneListedLess(listing: seq<Listed>, n: nat, id: nat)
    requires n < |listing| && StillListed(listing, n, id) && id != listing[n].id
    ensures StillListed(listing, n + 1, id)
  {
  }

  /** Rows nobody else touched hold what they held, field by field, and open to the same plaintexts. */
  predicate Preserved(keys: Keys, before: map<nat, Record>, after: map<nat, Record>, touched: set<nat>) {
    && (forall id :: id in before && id !in touched ==> id in after && SameRecord(keys, before[id], after[id]))
    && (forall id :: id in after && id !in touched ==> id in before)
  }

  /** Rows the walk has not come to are as listed, unless touched. */
  predicate Pending(listing: seq<Listed>, n: nat, rows: map<nat, Record>, touched: set<nat>) {
    forall i :: n <= i < |listing| && listing[i].id !in touched ==>
      listing[i].id in rows && rows[listing[i].id] == listing[i].record
  }

  /** Every row the walk is past is settled, and readable if the walk met nothing unreadable. */
  ghost predicate Passed(keys: Keys, listing: seq<Listed>, n: nat, rows: map<nat, Record>, readable: bool) {
    forall id :: id in rows && !StillListed(listing, n, id) ==>
      SettledRecord(keys, rows[id]) && (readable ==> AllReadable(keys, rows[id]))
  }

  /** Other processes write and delete rows; they seal under the current key. */
  predicate OthersWrote(keys: Keys, before: map<nat, Record>, after: map<nat, Record>, touched: set<nat>) {
    && (forall id :: id in before && id !in touched ==> id in after)
    && (forall id :: id in after ==>
          || (id in before && after[id] == before[id])
          || (id in touched && SettledRecord(keys, after[id]) && AllReadable(keys, after[id])))
  }

  lemma AfterOthers(keys: Keys, start: map<nat, Record>, before: map<nat, Record>, after: map<nat, Record>,
                    touched: set<nat>, touched': set<nat>, listing: seq<Listed>, n: nat, readable: bool)
    requires OthersWrote(keys, before, after, touched') && touched <= touched'
    ensures Preserved(keys, start, before, touched) ==> Preserved(keys, start, after, touched')
    ensures Pending(listing, n, before, touched) ==> Pending(listing, n, after, touched')
    ensures Passed(keys, listing, n, before, readable) ==> Passed(keys, listing, n, after, readable)
    ensures OthersWrote(keys, start, before, touched) ==> OthersWrote(keys, start, after, touched')
    ensures forall s :: Preserved(keys, start, s, touched) ==> Preserved(keys, start, s, touched')
  {
  }

  /** One row resealed in place. */
  lemma AfterRecord(keys: Keys, start: map<nat, Record>, before: map<nat, Record>, r: Record, touched: set<nat>,
                    listing: seq<Listed>, n: nat, readable: bool, readable': bool)
    requires Lists(listing, start) && n < |listing|
    requires listing[n].id in before && SameRecord(keys, before[listing[n].id], r) && SettledRecord(keys, r)
    requires readable' ==> readable && AllReadable(keys, r)
    ensures Preserved(keys, start, before, touched) ==> Preserved(keys, start, before[listing[n].id := r], touched)
    ensures Pending(listing, n, before, touched) ==> Pending(listing, n + 1, before[listing[n].id := r], touched)
    ensures Passed(keys, listing, n, before, readable) ==>
      Passed(keys, listing, n + 1, before[listing[n].id := r], readable')
  {
    forall id | StillListed(listing, n, id) && id != listing[n].id ensures StillListed(listing, n + 1, id) {
      OneListedLess(listing, n, id);
    }
  }

  lemma PendingNow(rows: map<nat, Record>, touched: set<nat>, listing: seq<Listed>, n: nat)
    requires Pending(listing, n, rows, touched) && n < |listing| && listing[n].id !in touched
    ensures listing[n].id in rows && rows[listing[n].id] == listing[n].record
  {
  }

  lemma PendingNext(rows: map<nat, Record>, touched: set<nat>, listing: seq<Listed>, n: nat)
    requires Pending(listing, n, rows, touched)
    ensures Pending(listing, n + 1, rows, touched)
  {
  }

  lemma OneMoreTallied(keys: Keys, listing: seq<Listed>, n: nat)
    requires n < |listing|
    ensures var r, before := listing[n].record, Tally(keys, Records(listing[..n]));
            Tally(keys, Records(listing[..n + 1]))
            == Counts(before.scanned + 1,
                      before.resealed + One(Due(keys, r.rawPrompt)) + One(Due(keys, r.tokenVault)),
                      before.unreadable + One(!Readable(keys, r.rawPrompt)) + One(!Readable(keys, r.tokenVault)))
  {
    assert listing[..n + 1][..n] == listing[..n];
    assert Records(listing[..n + 1])[..|Records(listing[..n])|] == Records(listing[..n]);
  }

  lemma SettledReadable(keys: Keys, before: Record, after: Record)
    requires SameRecord(keys, before, after) && SettledRecord(keys, after)
    ensures AllReadable(keys, before) <==> AllReadable(Retired(keys), after)
  {
  }

  lemma WalkedThrough(keys: Keys, listing: seq<Listed>, rows: map<nat, Record>, readable: bool)
    requires Passed(keys, listing, |listing|, rows, readable)
    ensures forall id :: id in rows ==> SettledRecord(keys, rows[id])
    ensures readable ==> forall id :: id in rows ==> AllReadable(Retired(keys), rows[id])
  {
    forall id | id in rows
      ensures SettledRecord(keys, rows[id]) && (readable ==> AllReadable(Retired(keys), rows[id]))
    {
      assert !StillListed(listing, |listing|, id);
    }
  }

  datatype Walk = Finished(counts: Counts) | Disappeared | Stopped

  class Store {
    const keys: Keys
    var rows: map<nat, Record>
    /** Rows another process wrote or deleted during the walk. */
    ghost var touched: set<nat>
    /** Every content of the table the walk left behind. */
    ghost var states: seq<map<nat, Record>>

    constructor (keys: Keys, rows: map<nat, Record>)
      ensures this.keys == keys && this.rows == rows && touched == {} && states == []
    {
      this.keys, this.rows, touched, states := keys, rows, {}, [];
    }

    /** Other processes act between two records. */
    method Others()
      modifies this`rows, this`touched, this`states
      ensures states == old(states) + [rows] && old(touched) <= touched
      ensures OthersWrote(keys, old(rows), rows, touched)
    {
      var next: map<nat, Record> := *;
      var ids: set<nat> := *;
      if OthersWrote(keys, rows, next, ids) {
        rows, touched := next, touched + ids;
      }
      states := states + [rows];
    }

    /** `resealToken`, lines 34 to 44: the replacement, and what it adds to the counts. */
    method ResealToken(v: Value, counts: Counts) returns (patch: Option<Token>, now: Counts)
      ensures now == counts.(resealed := counts.resealed + One(Due(keys, v)),
                             unreadable := counts.unreadable + One(!Readable(keys, v)))
      ensures patch.Some? <==> Due(keys, v)
      ensures patch.Some? ==> Open(keys, patch.value) == Open(keys, v.token) && Settled(keys, Sealed(patch.value))
    {
      if !v.Sealed? {
        return None, counts;
      }
      var plaintext := Open(keys, v.token);
      if plaintext.None? {
        return None, counts.(unreadable := counts.unreadable + 1);
      }
      if !NeedsReseal(keys, v.token) {
        return None, counts;
      }
      var iv: nat := *;
      SealOpens(keys, plaintext.value, iv);
      return Seal(keys, plaintext.value, iv), counts.(resealed := counts.resealed + 1);
    }

    /** `resealPatch`, lines 46 to 53, applied. */
    method ResealRecord(r: Record, counts: Counts) returns (after: Record, now: Counts)
      ensures SameRecord(keys, r, after) && SettledRecord(keys, after)
      ensures now.scanned == counts.scanned
      ensures now.resealed == counts.resealed + One(Due(keys, r.rawPrompt)) + One(Due(keys, r.tokenVault))
      ensures now.unreadable
              == counts.unreadable + One(!Readable(keys, r.rawPrompt)) + One(!Readable(keys, r.tokenVault))
    {
      var raw, vault;
      raw, now := ResealToken(r.rawPrompt, counts);
      vault, now := ResealToken(r.tokenVault, now);
      after := r;
      if raw.Some? {
        after := after.(rawPrompt := Sealed(raw.value));
      }
      if vault.Some? {
        after := after.(tokenVault := Sealed(vault.value));
      }
    }

    /** `rotateRecord`, lines 55 to 72, on a listed row: one transaction on its current content. */
    method RotateRecord(listed: Listed, counts: Counts, dryRun: bool) returns (now: Counts, found: bool)
      modifies this`rows, this`states
      ensures dryRun ==> rows == old(rows) && states == old(states) && found
      ensures !dryRun ==> (found <==> listed.id in old(rows)) && states == old(states) + [rows]
      ensures !found ==> rows == old(rows)
      ensures found && !dryRun ==>
        && listed.id in rows && rows == old(rows)[listed.id := rows[listed.id]]
        && SameRecord(keys, old(rows)[listed.id], rows[listed.id]) && SettledRecord(keys, rows[listed.id])
      ensures found ==>
        var r := if dryRun then listed.record else old(rows)[listed.id];
        && now.scanned == counts.scanned
        && now.resealed == counts.resealed + One(Due(keys, r.rawPrompt)) + One(Due(keys, r.tokenVault))
        && now.unreadable == counts.unreadable + One(!Readable(keys, r.rawPrompt)) + One(!Readable(keys, r.tokenVault))
    {
      if dryRun {
        var after;
        after, now := ResealRecord(listed.record, counts);
        return now, true;
      }
      if listed.id !in rows {
        states := states + [rows];
        return counts, false;
      }
      var after;
      after, now := ResealRecord(rows[listed.id], counts);
      rows := rows[listed.id := after];
      states := states + [rows];
      found := true;
    }

    /** `rotateDataKey`, lines 78 to 86; the process may be stopped between any two records. */
    method RotateDataKey(listing: seq<Listed>, dryRun: bool) returns (r: Walk)
      requires Lists(listing, rows) && touched == {} && states == []
      modifies this`rows, this`touched, this`states
      ensures forall s :: s in states ==> Preserved(keys, old(rows), s, touched)
      ensures Preserved(keys, old(rows), rows, touched)
      ensures dryRun ==> OthersWrote(keys, old(rows), rows, touched)
      ensures r.Finished? && (dryRun || touched == {}) ==> r.counts == Tally(keys, Records(listing))
      ensures r.Finished? && !dryRun ==> forall id :: id in rows ==> SettledRecord(keys, rows[id])
      ensures r.Finished? && !dryRun && r.counts.unreadable == 0 ==>
                forall id :: id in rows ==> AllReadable(Retired(keys), rows[id])
    {
      ghost var start := rows;
      var counts := Counts(0, 0, 0);
      var n := 0;
      assert listing[..0] == [] && Passed(keys, listing, 0, rows, true);
      assert Preserved(keys, start, rows, touched) && Pending(listing, 0, rows, touched);
      assert OthersWrote(keys, start, rows, touched);
      hide Preserved, Pending, OthersWrote, Lists, Passed, SettledRecord, AllReadable, Records;
      while n < |listing|
        invariant 0 <= n <= |listing|
        invariant Preserved(keys, start, rows, touched) && forall s :: s in states ==>
          Preserved(keys, start, s, touched)
        invariant Pending(listing, n, rows, touched)
        invariant if dryRun then OthersWrote(keys, start, rows, touched)
                else Passed(keys, listing, n, rows, counts.unreadable == 0)
        invariant dryRun || touched == {} ==> counts == Tally(keys, Records(listing[..n]))
      {
        var stop: bool := *;
        if stop {
          return Stopped;
        }
        var found;
        counts, found := RotateNext(start, listing, n, counts, dryRun);
        if !found {
          return Disappeared;
        }
        n := n + 1;
      }
      assert listing[..n] == listing;
      r := Finished(counts);
      if !dryRun {
        WalkedThrough(keys, listing, rows, counts.unreadable == 0);
      }
    }

    /** One turn of the loop. */
    method RotateNext(ghost start: map<nat, Record>, listing: seq<Listed>, n: nat, counts: Counts, dryRun: bool)
      returns (now: Counts, found: bool)
      requires Lists(listing, start) && n < |listing|
      requires Preserved(keys, start, rows, touched) && forall s :: s in states ==> Preserved(keys, start, s, touched)
      requires Pending(listing, n, rows, touched)
      requires if dryRun then OthersWrote(keys, start, rows, touched)
              else Passed(keys, listing, n, rows, counts.unreadable == 0)
      requires dryRun || touched == {} ==> counts == Tally(keys, Records(listing[..n]))
      modifies this`rows, this`touched, this`states
      ensures old(touched) <= touched
      ensures Preserved(keys, start, rows, touched) && forall s :: s in states ==> Preserved(keys, start, s, touched)
      ensures found ==> Pending(listing, n + 1, rows, touched)
      ensures dryRun ==> OthersWrote(keys, start, rows, touched)
      ensures found && !dryRun ==> Passed(keys, listing, n + 1, rows, now.unreadable == 0)
      ensures found && (dryRun || touched == {}) ==> now == Tally(keys, Records(listing[..n + 1]))
    {
      hide Preserved, Pending, Passed, OthersWrote, Lists;
      ghost var readable := counts.unreadable == 0;
      Others();
      AfterOthers(keys, start, old(rows), rows, old(touched), touched, listing, n, readable);
      ghost var before := rows;
      now, found := RotateRecord(listing[n], counts.(scanned := counts.scanned + 1), dryRun);
      if found && !dryRun {
        AfterRecord(keys, start, before, rows[listing[n].id], touched, listing, n, readable, now.unreadable == 0);
      }
      if dryRun {
        PendingNext(rows, touched, listing, n);
      }
      if found && (dryRun || touched == {}) {
        if touched == {} {
          PendingNow(before, touched, listing, n);
        }
        OneMoreTallied(keys, listing, n);
      }
    }
  }

  // ---- What a finished walk guarantees ----

  lemma {:induction false} RecordsOf(listing: seq<Listed>)
    ensures |Records(listing)| == |listing| && forall i :: 0 <= i < |listing| ==>
      Records(listing)[i] == listing[i].record
  {
    if listing != [] {
      RecordsOf(listing[..|listing| - 1]);
    }
  }

  /** A second walk over what a finished one left behind reseals none. */
  lemma {:induction false} SecondRunIdle(keys: Keys, rows: map<nat, Record>, listing: seq<Listed>)
    requires Lists(listing, rows) && forall id :: id in rows ==> SettledRecord(keys, rows[id])
    ensures Tally(keys, Records(listing)).resealed == 0
  {
    RecordsOf(listing);
    forall r | r in Records(listing) ensures !Due(keys, r.rawPrompt) && !Due(keys, r.tokenVault) {
      var i :| 0 <= i < |Records(listing)| && Records(listing)[i] == r;
      assert SettledRecord(keys, rows[listing[i].id]);
    }
    NoneDue(keys, Records(listing));
  }

  /** The listed records are exactly the rows. */
  lemma {:induction false} ListedRows(listing: seq<Listed>, rows: map<nat, Record>)
    requires Lists(listing, rows)
    ensures forall r :: r in Records(listing) ==> exists id :: id in rows && rows[id] == r
    ensures forall id :: id in rows ==> rows[id] in Records(listing)
  {
    RecordsOf(listing);
    forall r | r in Records(listing) ensures exists id :: id in rows && rows[id] == r {
      var i :| 0 <= i < |Records(listing)| && Records(listing)[i] == r;
      assert listing[i].id in rows && rows[listing[i].id] == r;
    }
    forall id | id in rows ensures rows[id] in Records(listing) {
      assert StillListed(listing, 0, id);
      var i :| 0 <= i < |listing| && listing[i].id == id;
      assert Records(listing)[i] == rows[id];
    }
  }

  /** A finished walk that nobody interfered with reports no unreadable field exactly when every sealed field
      it leaves behind opens with the current key alone. */
  lemma {:induction false} FinishedExactly(keys: Keys, start: map<nat, Record>, rows: map<nat, Record>,
                                           listing: seq<Listed>)
    requires Lists(listing, start) && Preserved(keys, start, rows, {})
    requires forall id :: id in rows ==> SettledRecord(keys, rows[id])
    ensures Tally(keys, Records(listing)).unreadable == 0
            <==> forall id :: id in rows ==> AllReadable(Retired(keys), rows[id])
  {
    hide AllReadable, SameRecord, SettledRecord, Tally, Records, Lists;
    ListedRows(listing, start);
    NoneUnreadable(keys, Records(listing));
    forall id | id in rows
      ensures id in start && (AllReadable(keys, start[id]) <==> AllReadable(Retired(keys), rows[id]))
    {
      SettledReadable(keys, start[id], rows[id]);
    }
    assert rows.Keys == start.Keys;
  }
}
