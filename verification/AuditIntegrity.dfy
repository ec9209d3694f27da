/**
 The hash-chained audit log with its authenticated checkpoints, and the verifier of
 server/audit-integrity.js.

 SHA-256 and HMAC are arbitrary functions onto 64 lower-case hex digits. No theorem assumes that
 they are injective: where two logs or rows could differ only by colliding, the theorem says so and
 names the colliding texts.
 */
module AuditIntegrity {
  import opened CanonicalJson
  import opened Wrappers
  import opened Decimal

  /** `takes` is whether a database driver binds these query parameters one by one, `takesArray` whether the
      Postgres client binds them as one text array; if not, the query throws. */
  datatype Primitives = Primitives(
    sha: string -> string, hmac: (string, string) -> string, takes: seq<Json> -> bool, takesArray: seq<Json> -> bool)

  predicate IsLowerHex64(s: string) {
    |s| == 64 && forall i :: 0 <= i < |s| ==> '0' <= s[i] <= '9' || 'a' <= s[i] <= 'f'
  }

  predicate IsHex64(s: string) {
    |s| == 64 && forall i :: 0 <= i < |s| ==> '0' <= s[i] <= '9' || 'a' <= s[i] <= 'f' || 'A' <= s[i] <= 'F'
  }

  ghost predicate Digests(p: Primitives) {
    && (forall s :: IsLowerHex64(p.sha(s)))
    && forall k, s :: IsLowerHex64(p.hmac(k, s))
  }

  /** Texts are always bound. */
  ghost predicate TakesTexts(p: Primitives) {
    TextsBound(p.takes) && TextsBound(p.takesArray)
  }

  ghost predicate TextsBound(takes: seq<Json> -> bool) {
    forall ids :: AllTexts(ids) ==> takes(ids)
  }

  predicate AllTexts(ids: seq<Json>) {
    forall i :: 0 <= i < |ids| ==> ids[i].Str?
  }

  function Zeros(n: nat): (z: string)
    ensures |z| == n && forall i :: 0 <= i < n ==> z[i] == '0'
  {
    if n == 0 then "" else Zeros(n - 1) + "0"
  }

  /** What the first entry links to. */
  const ZERO_HASH := Zeros(64)

  /** Hex comparison through decoded buffers: case does not matter, and both must be 64 digits. */
  predicate SameHex(left: string, right: string) {
    IsHex64(left) && IsHex64(right) && Lower(left) == Lower(right)
  }

  // ---- Entries ----

  function Get(e: Json, key: string): Option<Json> {
    if e.Obj? && HasKey(e.fields, key) then Some(Lookup(e.fields, key)) else None
  }

  predicate Truthy(v: Option<Json>) {
    match v
    case None => false
    case Some(Null) => false
    case Some(Bool(b)) => b
    case Some(Num(token)) => token != "0"
    case Some(Str(text)) => text != ""
    case Some(_) => true
  }

  /** `const { hash, mac, ...body } = e` */
  function Body(e: Json): Json {
    if e.Obj? then Obj(Without(Without(e.fields, "hash"), "mac")) else Obj([])
  }

  function WithHash(body: Json, hash: string): Json
    requires body.Obj?
  {
    Obj(With(body.fields, "hash", Str(hash)))
  }

  function AuthenticatedEntry(p: Primitives, prevHash: string, body: Json, key: string): Json
    requires body.Obj?
  {
    var unsigned := Obj(With(body.fields, "prevHash", Str(prevHash)));
    var hash := p.sha(Canonical(unsigned));
    var mac := p.hmac(key, Canonical(WithHash(unsigned, hash)));
    Obj(With(With(unsigned.fields, "hash", Str(hash)), "mac", Str(mac)))
  }

  predicate ValidAuthenticatedEntry(p: Primitives, e: Json, key: string) {
    && e.Obj?
    && Get(e, "hash") == Some(Str(p.sha(Canonical(Body(e)))))
    && Truthy(Get(e, "mac"))
    && Get(e, "mac").value.Str?
    && SameHex(Get(e, "mac").value.text, p.hmac(key, Canonical(WithHash(Body(e), p.sha(Canonical(Body(e)))))))
  }

  /** `String(v)`, or None where it throws: an object with a member `toString` hides the inherited method and has
      no primitive value. */
  function TextOf(v: Json): Option<string> {
    match v
    case Null => Some("null")
    case Bool(b) => Some(if b then "true" else "false")
    case Num(token) => Some(token)
    case Infinite(negative) => Some(if negative then "-Infinity" else "Infinity")
    case Str(text) => Some(text)
    case Arr(items) => JoinedText(items)
    case Obj(fields) => if HasKey(fields, "toString") then None else Some("[object Object]")
  }

  /** The elements joined by commas, `null` as nothing. */
  function JoinedText(items: seq<Json>): Option<string> {
    if items == [] then Some("")
    else
      var first := if items[0].Null? then Some("") else TextOf(items[0]);
      var rest := JoinedText(items[1..]);
      if first.None? || rest.None? then None
      else Some(if |items| == 1 then first.value else first.value + "," + rest.value)
  }

  /** `sameHex` throws on it: it has no text, or its text passes for a digest but its bytes are not 32, since
      `Buffer.from` reads the value itself and not its text. */
  predicate Incomparable(mac: Json) {
    !mac.Str? && (TextOf(mac).None? || IsHex64(TextOf(mac).value))
  }

  /** `validAuthenticatedEntry` throws rather than answering. */
  predicate ValidatingThrows(p: Primitives, e: Json, key: string) {
    && e.Obj?
    && Get(e, "hash") == Some(Str(p.sha(Canonical(Body(e)))))
    && Truthy(Get(e, "mac"))
    && Incomparable(Get(e, "mac").value)
  }

  /** A digest, or anything else `sameHex` throws on, wrapped in an array of its own. */
  lemma WrappedIncomparable(mac: Json)
    requires (mac.Str? && IsHex64(mac.text)) || (Incomparable(mac) && !mac.Null?)
    ensures Incomparable(Arr([mac]))
  {
    var items := [mac];
    assert JoinedText(items[1..]) == Some("");
    assert TextOf(Arr(items)) == JoinedText(items) == TextOf(mac);
  }

  // ---- Checkpoints ----

  datatype Checkpoint = Checkpoint(version: int, count: int, seq_: int, head: string, mac: string)

  predicate CheckpointFields(count: int, seq_: int, head: string) {
    SafeInteger(count) && count >= 0 && SafeInteger(seq_) && seq_ >= 0 && IsHex64(head)
  }

  function CheckpointBody(count: int, seq_: int, head: string): Json {
    Obj([
      Field("version", Num("1")), Field("count", Num(IntText(count))),
      Field("seq", Num(IntText(seq_))), Field("head", Str(Lower(head)))
    ])
  }

  function CreateCheckpoint(p: Primitives, count: int, head: string, key: string, seq_: int): Checkpoint {
    Checkpoint(1, count, seq_, Lower(head), p.hmac(key, Canonical(CheckpointBody(count, seq_, head))))
  }

  predicate ValidCheckpoint(p: Primitives, c: Checkpoint, key: string) {
    && CheckpointFields(c.count, c.seq_, c.head)
    && c.version == 1
    && SameHex(c.mac, p.hmac(key, Canonical(CheckpointBody(c.count, c.seq_, c.head))))
  }

  // ---- The store ----

  datatype AuditRow = AuditRow(seq_: int, entry: Json)
  datatype QueryRow = QueryRow(id: string, data: Json)
  datatype Store = Store(audit: seq<AuditRow>, queries: seq<QueryRow>)

  /** Ids are the primary key, and every stored text parses, to a value as JSON.parse delivers it. */
  predicate ValidStore(s: Store) {
    && UniqueIds(s.queries)
    && (forall i :: 0 <= i < |s.queries| ==> WellFormed(s.queries[i].data))
    && (forall i :: 0 <= i < |s.audit| ==> WellFormed(s.audit[i].entry))
  }

  datatype Options = Options(
    key: Option<string>, checkpoint: Option<Checkpoint>, allowCheckpointBootstrap: bool, onVerified: bool)

  datatype Reason =
    | CheckpointAuthentication | CheckpointMissing | CheckpointTruncated
    | ChainBroken | EntryAuthentication | EntryAuthenticationMissing | CheckpointDiverged
    | EvidenceUnanchored | EvidenceMissing | EvidenceChanged

  datatype Verdict =
    | Verified(count: nat, produced: Option<Checkpoint>)
    | Rejected(count: nat, reason: Reason)
    | Threw

  // ---- What acceptance means ----

  /** The recorded hash of an entry; a link is checked against this and nothing else. */
  function HashOf(e: Json): string {
    match Get(e, "hash")
    case Some(Str(text)) => text
    case _ => ""
  }

  function HeadAt(audit: seq<AuditRow>, count: nat): string
    requires count <= |audit|
  {
    if count == 0 then ZERO_HASH else HashOf(audit[count - 1].entry)
  }

  /** What is wrong with one entry, given the hash it must link to. */
  function LinkFault(p: Primitives, e: Json, prev: string, index: nat, opts: Options): (fault: Option<Reason>)
    ensures fault.Some? ==> IsLinkReason(fault.value)
  {
    if Get(e, "prevHash") != Some(Str(prev)) || Get(e, "hash") != Some(Str(p.sha(Canonical(Body(e))))) then
      Some(ChainBroken)
    else if opts.key.Some? && Truthy(Get(e, "mac")) && !ValidAuthenticatedEntry(p, e, opts.key.value) then
      Some(EntryAuthentication)
    else if opts.key.Some? && !Truthy(Get(e, "mac"))
         && !(opts.checkpoint.Some? && index < opts.checkpoint.value.count)
         && !(opts.checkpoint.None? && opts.allowCheckpointBootstrap) then
      Some(EntryAuthenticationMissing)
    else None
  }

  predicate IsLinkReason(r: Reason) {
    r == ChainBroken || r == EntryAuthentication || r == EntryAuthenticationMissing
  }

  predicate IsEvidenceReason(r: Reason) {
    r == EvidenceUnanchored || r == EvidenceMissing || r == EvidenceChanged
  }

  predicate LinkOk(p: Primitives, audit: seq<AuditRow>, i: nat, opts: Options)
    requires i < |audit|
  {
    LinkFault(p, audit[i].entry, HeadAt(audit, i), i, opts) == None
  }

  predicate Linked(p: Primitives, audit: seq<AuditRow>, opts: Options) {
    forall i :: 0 <= i < |audit| ==> LinkOk(p, audit, i, opts)
  }

  predicate CheckpointUsable(p: Primitives, audit: seq<AuditRow>, opts: Options) {
    match (opts.key, opts.checkpoint)
    case (Some(k), Some(c)) => ValidCheckpoint(p, c, k) && c.count <= |audit|
    case (Some(k), None) => opts.allowCheckpointBootstrap
    case (None, Some(c)) => c.count <= |audit|
    case (None, None) => true
  }

  predicate CheckpointHeadMatches(audit: seq<AuditRow>, opts: Options) {
    opts.checkpoint.Some? ==>
      0 <= opts.checkpoint.value.count <= |audit|
      && SameHex(opts.checkpoint.value.head, HeadAt(audit, opts.checkpoint.value.count))
  }

  predicate Binds(e: Json, q: Json) {
    Truthy(Get(e, "queryId")) && Truthy(Get(e, "contentHash")) && Get(e, "queryId").value == q
  }

  /** The content hash in the last entry bound to this query id. */
  function LatestHash(audit: seq<AuditRow>, q: Json): Option<Json> {
    if audit == [] then None
    else
      var e := audit[|audit| - 1].entry;
      if Binds(e, q) then Get(e, "contentHash") else LatestHash(audit[..|audit| - 1], q)
  }

  /** The keys of the map `latest`, in the order first set. Arrays and objects are keys by identity, so each
      stays a key of its own. */
  function BoundIds(audit: seq<AuditRow>): seq<Json> {
    if audit == [] then []
    else
      var e, front := audit[|audit| - 1].entry, BoundIds(audit[..|audit| - 1]);
      if Truthy(Get(e, "queryId")) && Truthy(Get(e, "contentHash")) && !Known(front, Get(e, "queryId").value)
      then front + [Get(e, "queryId").value] else front
  }

  predicate Known(ids: seq<Json>, q: Json) {
    !q.Arr? && !q.Obj? && q in ids
  }

  lemma {:induction false} BoundExactly(audit: seq<AuditRow>, q: Json)
    ensures q in BoundIds(audit) <==> LatestHash(audit, q).Some?
  {
    if audit != [] {
      BoundExactly(audit[..|audit| - 1], q);
    }
  }

  function ContentHash(p: Primitives, data: Json): string {
    p.sha(Canonical(data))
  }

  /** The content hash of the live row, `queryContentHash`. */
  function QueryContentHash(p: Primitives, queries: seq<QueryRow>, id: string): Option<string> {
    if queries == [] then None
    else if queries[0].id == id then Some(ContentHash(p, queries[0].data))
    else QueryContentHash(p, queries[1..], id)
  }

  predicate RowMatches(p: Primitives, queries: seq<QueryRow>, q: Json, contentHash: Json) {
    && q.Str?
    && QueryContentHash(p, queries, q.text).Some?
    && Str(QueryContentHash(p, queries, q.text).value) == contentHash
  }

  /** What is wrong with the evidence bound to one id. */
  function Stale(p: Primitives, audit: seq<AuditRow>, queries: seq<QueryRow>, q: Json): Option<Reason> {
    if LatestHash(audit, q).None? then None
    else if !q.Str? || QueryContentHash(p, queries, q.text).None? then Some(EvidenceMissing)
    else if Str(QueryContentHash(p, queries, q.text).value) != LatestHash(audit, q).value then Some(EvidenceChanged)
    else None
  }

  /** In the order the ids were first bound, the first one whose evidence is wrong, and what is wrong with it. */
  ghost predicate FirstStale(p: Primitives, audit: seq<AuditRow>, queries: seq<QueryRow>, reason: Reason) {
    exists i :: 0 <= i < |BoundIds(audit)| && Stale(p, audit, queries, BoundIds(audit)[i]) == Some(reason)
      && forall j :: 0 <= j < i ==> Stale(p, audit, queries, BoundIds(audit)[j]) == None
  }

  predicate Anchored(audit: seq<AuditRow>, queries: seq<QueryRow>) {
    forall i :: 0 <= i < |queries| ==> LatestHash(audit, Str(queries[i].id)).Some?
  }

  ghost predicate EvidenceCurrent(p: Primitives, audit: seq<AuditRow>, queries: seq<QueryRow>) {
    forall q :: LatestHash(audit, q).Some? ==> RowMatches(p, queries, q, LatestHash(audit, q).value)
  }

  ghost predicate Accepted(p: Primitives, s: Store, opts: Options) {
    && CheckpointUsable(p, s.audit, opts)
    && Linked(p, s.audit, opts)
    && CheckpointHeadMatches(s.audit, opts)
    && Anchored(s.audit, s.queries)
    && EvidenceCurrent(p, s.audit, s.queries)
  }

  /** `Number(seq || rows.length)` of the last stored row */
  function LastSeq(audit: seq<AuditRow>): int {
    if audit == [] then 0
    else if audit[|audit| - 1].seq_ != 0 then audit[|audit| - 1].seq_ else |audit|
  }

  /** `createCheckpoint` accepts the counts. */
  predicate Representable(audit: seq<AuditRow>) {
    SafeInteger(|audit|) && SafeInteger(LastSeq(audit)) && LastSeq(audit) >= 0
  }

  predicate Produces(opts: Options) {
    opts.key.Some? && opts.onVerified
  }

  /** The checkpoint handed to `onVerified`. */
  function Produced(p: Primitives, audit: seq<AuditRow>, key: string): Checkpoint {
    CreateCheckpoint(p, |audit|, HeadAt(audit, |audit|), key, LastSeq(audit))
  }

  predicate Links(p: Primitives, e: Json, prev: string) {
    Get(e, "prevHash") == Some(Str(prev)) && Get(e, "hash") == Some(Str(p.sha(Canonical(Body(e)))))
  }

  /** The loop throws at this entry: it is `null`, which cannot be destructured, or it links and its mac cannot be
      compared. */
  predicate EntryThrows(p: Primitives, e: Json, prev: string, key: Option<string>) {
    e == Null || (Links(p, e, prev) && key.Some? && ValidatingThrows(p, e, key.value))
  }

  /** Entry i is the first one that is wrong, and this is what is wrong with it. */
  ghost predicate FirstFault(p: Primitives, audit: seq<AuditRow>, opts: Options, reason: Reason) {
    exists i :: 0 <= i < |audit|
      && LinkFault(p, audit[i].entry, HeadAt(audit, i), i, opts) == Some(reason)
      && !EntryThrows(p, audit[i].entry, HeadAt(audit, i), opts.key)
      && forall j :: 0 <= j < i ==> LinkOk(p, audit, j, opts)
  }

  /** The loop comes to an entry at which it throws, with nothing wrong before it. */
  ghost predicate ThrowFirst(p: Primitives, audit: seq<AuditRow>, opts: Options) {
    exists i :: 0 <= i < |audit| && EntryThrows(p, audit[i].entry, HeadAt(audit, i), opts.key)
      && forall j :: 0 <= j < i ==> LinkOk(p, audit, j, opts)
  }

  /** With nothing wrong before the bulk look-up of the bound ids, the driver does not take some chunk of them. */
  ghost predicate LookupThrows(p: Primitives, s: Store, opts: Options) {
    && Linked(p, s.audit, opts) && CheckpointHeadMatches(s.audit, opts) && Anchored(s.audit, s.queries)
    && !AllTaken(p.takes, BoundIds(s.audit), 500)
  }

  /** The verifier throws before it has a verdict. */
  ghost predicate Breaks(p: Primitives, s: Store, opts: Options) {
    CheckpointUsable(p, s.audit, opts) && (ThrowFirst(p, s.audit, opts) || LookupThrows(p, s, opts))
  }

  ghost predicate Faulty(p: Primitives, s: Store, opts: Options, reason: Reason) {
    match reason
    case CheckpointAuthentication =>
      opts.key.Some? && opts.checkpoint.Some? && !ValidCheckpoint(p, opts.checkpoint.value, opts.key.value)
    case CheckpointMissing => opts.key.Some? && opts.checkpoint.None? && !opts.allowCheckpointBootstrap
    case CheckpointTruncated => opts.checkpoint.Some? && |s.audit| < opts.checkpoint.value.count
    case ChainBroken => FirstFault(p, s.audit, opts, reason)
    case EntryAuthentication => FirstFault(p, s.audit, opts, reason)
    case EntryAuthenticationMissing => FirstFault(p, s.audit, opts, reason)
    case CheckpointDiverged => Linked(p, s.audit, opts) && !CheckpointHeadMatches(s.audit, opts)
    case _ => Linked(p, s.audit, opts) && CheckpointHeadMatches(s.audit, opts) && EvidenceFaulty(p, s, reason)
  }

  // ---- Bulk content hashing ----

  /** `SELECT id, data FROM queries WHERE id IN (ids)` */
  function Select(queries: seq<QueryRow>, ids: seq<Json>): seq<QueryRow> {
    if queries == [] then []
    else (if Str(queries[0].id) in ids then [queries[0]] else []) + Select(queries[1..], ids)
  }

  predicate UniqueIds(queries: seq<QueryRow>) {
    forall i, j :: 0 <= i < j < |queries| ==> queries[i].id != queries[j].id
  }

  /** The bulk lookup agrees with looking up each listed id on its own. */
  ghost predicate HashesOf(p: Primitives, queries: seq<QueryRow>, ids: seq<Json>, hashes: map<string, string>) {
    forall id :: HashAgrees(p, queries, ids, hashes, id)
  }

  predicate HashAgrees(p: Primitives, queries: seq<QueryRow>, ids: seq<Json>, hashes: map<string, string>, id: string) {
    (if id in hashes then Some(hashes[id]) else None)
      == if Str(id) in ids then QueryContentHash(p, queries, id) else None
  }

  /** Every chunk of the ids is bound. */
  predicate AllTaken(takes: seq<Json> -> bool, ids: seq<Json>, chunkSize: nat)
    requires chunkSize > 0
  {
    if ids == [] then true
    else
      var end := ChunkEnd(ids, 0, chunkSize);
      takes(ids[..end]) && AllTaken(takes, ids[end..], chunkSize)
  }

  function ChunkEnd(ids: seq<Json>, i: nat, chunkSize: nat): (end: nat)
    requires i <= |ids|
    ensures i <= end <= |ids| && (chunkSize > 0 && i < |ids| ==> i < end)
  {
    if i + chunkSize < |ids| then i + chunkSize else |ids|
  }

  /** None where a query throws. */
  method BatchQueryContentHashes(p: Primitives, queries: seq<QueryRow>, ids: seq<Json>, chunkSize: nat)
    returns (r: Option<map<string, string>>)
    requires chunkSize > 0 && UniqueIds(queries)
    ensures r.Some? <==> AllTaken(p.takes, ids, chunkSize)
    ensures r.Some? ==> HashesOf(p, queries, ids, r.value)
  {
    hide Select, ContentHash, QueryContentHash, HashesOf, AllTaken;
    var hashes: map<string, string> := map[];
    NoHashes(p, queries);
    var i := 0;
    NoneTaken(p.takes, chunkSize);
    assert ids[0..] == ids && ids[|ids|..] == [];
    while i < |ids|
      invariant 0 <= i <= |ids|
      invariant AllTaken(p.takes, ids, chunkSize) <==> AllTaken(p.takes, ids[i..], chunkSize)
      invariant HashesOf(p, queries, ids[..i], hashes)
    {
      var end := ChunkEnd(ids, i, chunkSize);
      NextChunk(p.takes, ids, i, chunkSize);
      if !p.takes(ids[i..end]) {
        return None;
      }
      var rows := Select(queries, ids[i..end]);
      ghost var before := hashes;
      for k := 0 to |rows|
        invariant hashes == Overlay(p, before, rows[..k])
      {
        assert rows[..k + 1][..k] == rows[..k];
        hashes := hashes[rows[k].id := ContentHash(p, rows[k].data)];
      }
      assert rows[..|rows|] == rows;
      ExtendHashes(p, queries, ids[..i], ids[i..end], before);
      assert ids[..i] + ids[i..end] == ids[..end];
      i := end;
    }
    assert ids[..|ids|] == ids;
    r := Some(hashes);
  }

  lemma NoHashes(p: Primitives, queries: seq<QueryRow>)
    ensures HashesOf(p, queries, [], map[])
  {
  }

  lemma NoneTaken(takes: seq<Json> -> bool, chunkSize: nat)
    requires chunkSize > 0
    ensures AllTaken(takes, [], chunkSize)
  {
  }

  lemma NextChunk(takes: seq<Json> -> bool, ids: seq<Json>, i: nat, chunkSize: nat)
    requires i < |ids| && chunkSize > 0
    ensures var end := ChunkEnd(ids, i, chunkSize);
      AllTaken(takes, ids[i..], chunkSize) <==> takes(ids[i..end]) && AllTaken(takes, ids[end..], chunkSize)
  {
    var end, rest := ChunkEnd(ids, i, chunkSize), ids[i..];
    assert ChunkEnd(rest, 0, chunkSize) == end - i;
    assert rest[..end - i] == ids[i..end] && rest[end - i..] == ids[end..];
  }

  lemma {:induction false} TextsTaken(takes: seq<Json> -> bool, ids: seq<Json>, chunkSize: nat)
    requires TextsBound(takes) && AllTexts(ids) && chunkSize > 0
    ensures AllTaken(takes, ids, chunkSize)
  {
    if ids != [] {
      var end := ChunkEnd(ids, 0, chunkSize);
      assert AllTexts(ids[..end]) && AllTexts(ids[end..]);
      TextsTaken(takes, ids[end..], chunkSize);
    }
  }

  /** `for (const r of rows) hashes.set(r.id, ...)` */
  function Overlay(p: Primitives, hashes: map<string, string>, rows: seq<QueryRow>): map<string, string> {
    if rows == [] then hashes
    else
      var r := rows[|rows| - 1];
      Overlay(p, hashes, rows[..|rows| - 1])[r.id := ContentHash(p, r.data)]
  }

  lemma {:induction false} OverlayPrepend(p: Primitives, hashes: map<string, string>, r: QueryRow, rows: seq<QueryRow>)
    ensures Overlay(p, hashes, [r] + rows) == Overlay(p, hashes[r.id := ContentHash(p, r.data)], rows)
  {
    if rows == [] {
      assert ([r] + rows)[..0] == [];
    } else {
      assert ([r] + rows)[..|rows|] == [r] + rows[..|rows| - 1];
      OverlayPrepend(p, hashes, r, rows[..|rows| - 1]);
    }
  }

  lemma {:induction false} OverlayAt(p: Primitives, queries: seq<QueryRow>, ids: seq<Json>, hashes: map<string,
                                     string>, id: string)
    requires UniqueIds(queries)
    ensures var after := Overlay(p, hashes, Select(queries, ids));
      (if id in after then Some(after[id]) else None)
        == if Str(id) in ids && QueryContentHash(p, queries, id).Some? then QueryContentHash(p, queries, id)
           else if id in hashes then Some(hashes[id]) else None
  {
    if queries != [] {
      var rest := Select(queries[1..], ids);
      var first := hashes[queries[0].id := ContentHash(p, queries[0].data)];
      if Str(queries[0].id) in ids {
        OverlayPrepend(p, hashes, queries[0], rest);
        OverlayAt(p, queries[1..], ids, first, id);
      } else {
        assert Select(queries, ids) == rest;
        OverlayAt(p, queries[1..], ids, hashes, id);
      }
      if queries[0].id == id {
        NoOtherRow(p, queries, id);
      }
    }
  }

  lemma NoOtherRow(p: Primitives, queries: seq<QueryRow>, id: string)
    requires UniqueIds(queries) && queries != [] && queries[0].id == id
    ensures QueryContentHash(p, queries[1..], id).None?
  {
    assert forall i :: 0 <= i < |queries[1..]| ==> queries[1..][i] == queries[i + 1];
    NotFound(p, queries[1..], id);
  }

  lemma NotFound(p: Primitives, queries: seq<QueryRow>, id: string)
    requires forall i :: 0 <= i < |queries| ==> queries[i].id != id
    ensures QueryContentHash(p, queries, id).None?
  {
  }

  lemma ExtendHashes(p: Primitives, queries: seq<QueryRow>, done: seq<Json>, chunk: seq<Json>, before: map<string,
                     string>)
    requires UniqueIds(queries) && HashesOf(p, queries, done, before)
    ensures HashesOf(p, queries, done + chunk, Overlay(p, before, Select(queries, chunk)))
  {
    forall id ensures HashAgrees(p, queries, done + chunk, Overlay(p, before, Select(queries, chunk)), id) {
      assert HashAgrees(p, queries, done, before, id);
      OverlayAt(p, queries, chunk, before, id);
    }
  }

  // ---- The verifier ----

  /** `latest`: the ids in the order first bound, and the content hash last bound to each. */
  method CollectLatest(audit: seq<AuditRow>) returns (order: seq<Json>, latest: map<Json, Json>)
    ensures order == BoundIds(audit)
    ensures forall q :: q in latest <==> LatestHash(audit, q).Some?
    ensures forall q :: q in latest ==> latest[q] == LatestHash(audit, q).value
  {
    order, latest := [], map[];
    for i := 0 to |audit|
      invariant order == BoundIds(audit[..i])
      invariant forall q :: q in latest <==> LatestHash(audit[..i], q).Some?
      invariant forall q :: q in latest ==> latest[q] == LatestHash(audit[..i], q).value
    {
      var e := audit[i].entry;
      assert audit[..i + 1][..i] == audit[..i];
      if Truthy(Get(e, "queryId")) && Truthy(Get(e, "contentHash")) {
        var q := Get(e, "queryId").value;
        if !Known(order, q) {
          order := order + [q];
        }
        latest := latest[q := Get(e, "contentHash").value];
      }
    }
    assert audit[..|audit|] == audit;
  }

  lemma ThrowBreaks(p: Primitives, audit: seq<AuditRow>, i: nat, opts: Options)
    requires i < |audit| && EntryThrows(p, audit[i].entry, HeadAt(audit, i), opts.key)
    ensures !LinkOk(p, audit, i, opts)
  {
  }

  /** Nothing is wrong with the first n entries. */
  ghost predicate CleanBelow(p: Primitives, audit: seq<AuditRow>, n: nat, opts: Options) {
    n <= |audit| && forall j :: 0 <= j < n ==> LinkOk(p, audit, j, opts)
  }

  /** How the loop can end. */
  lemma LoopEnds(p: Primitives, audit: seq<AuditRow>, n: nat, opts: Options)
    requires CleanBelow(p, audit, n, opts)
    ensures n == |audit| ==> Linked(p, audit, opts) && !ThrowFirst(p, audit, opts)
    ensures n < |audit| && EntryThrows(p, audit[n].entry, HeadAt(audit, n), opts.key) ==>
      ThrowFirst(p, audit, opts) && !Linked(p, audit, opts)
    ensures n < |audit| && !EntryThrows(p, audit[n].entry, HeadAt(audit, n), opts.key) ==>
      var fault := LinkFault(p, audit[n].entry, HeadAt(audit, n), n, opts);
      if fault.None? then CleanBelow(p, audit, n + 1, opts)
      else FirstFault(p, audit, opts, fault.value) && !ThrowFirst(p, audit, opts) && !Linked(p, audit, opts)
  {
    hide LinkFault, HeadAt, EntryThrows;
    forall i: nat | i < |audit| && EntryThrows(p, audit[i].entry, HeadAt(audit, i), opts.key)
      ensures !LinkOk(p, audit, i, opts)
    {
      ThrowBreaks(p, audit, i, opts);
    }
    if n < |audit| {
      var fault := LinkFault(p, audit[n].entry, HeadAt(audit, n), n, opts);
      assert LinkOk(p, audit, n, opts) <==> fault.None?;
      hide LinkOk;
      if EntryThrows(p, audit[n].entry, HeadAt(audit, n), opts.key) {
        assert ThrowFirst(p, audit, opts);
      } else {
        assert fault.Some? ==> FirstFault(p, audit, opts, fault.value);
      }
    }
  }

  /** Passes on a linked log, throws where the loop cannot go on, and otherwise reports the first fault, lines 105
      to 121. */
  method VerifyLinks(p: Primitives, audit: seq<AuditRow>, opts: Options)
    returns (fault: Option<Reason>, head: string, threw: bool)
    ensures threw <==> ThrowFirst(p, audit, opts)
    ensures !threw && fault.None? <==> Linked(p, audit, opts)
    ensures !threw && fault.None? ==> head == HeadAt(audit, |audit|)
    ensures !threw && fault.Some? ==> FirstFault(p, audit, opts, fault.value) && IsLinkReason(fault.value)
  {
    assert CleanBelow(p, audit, 0, opts);
    hide LinkFault, CleanBelow, ThrowFirst, EntryThrows, FirstFault, Linked;
    var prev := ZERO_HASH;
    for index := 0 to |audit|
      invariant prev == HeadAt(audit, index) && CleanBelow(p, audit, index, opts)
    {
      var e := audit[index].entry;
      LoopEnds(p, audit, index, opts);
      fault, threw := EntryFault(p, e, prev, index, opts);
      if threw || fault.Some? {
        return fault, prev, threw;
      }
      prev := HashOf(e);
    }
    LoopEnds(p, audit, |audit|, opts);
    return None, prev, false;
  }

  /** One turn of the loop, lines 108 to 119. */
  method EntryFault(p: Primitives, e: Json, prev: string, index: nat, opts: Options)
    returns (fault: Option<Reason>, threw: bool)
    ensures threw <==> EntryThrows(p, e, prev, opts.key)
    ensures !threw ==> fault == LinkFault(p, e, prev, index, opts)
  {
    fault, threw := None, e == Null;
    if threw {
      return;
    }
    var mac := Get(e, "mac");
    if Get(e, "prevHash") != Some(Str(prev)) || Get(e, "hash") != Some(Str(p.sha(Canonical(Body(e))))) {
      return Some(ChainBroken), false;
    }
    if opts.key.Some? && Truthy(mac) {
      var valid := Validate(p, e, opts.key.value);
      if valid != Some(true) {
        return Some(EntryAuthentication), valid.None?;
      }
    }
    var legacyCovered := opts.checkpoint.Some? && index < opts.checkpoint.value.count;
    var bootstrapCovered := opts.checkpoint.None? && opts.allowCheckpointBootstrap;
    if opts.key.Some? && !Truthy(mac) && !legacyCovered && !bootstrapCovered {
      return Some(EntryAuthenticationMissing), false;
    }
  }

  /** `validAuthenticatedEntry`, lines 46 to 51; None where it throws. */
  function Validate(p: Primitives, e: Json, key: string): (r: Option<bool>)
    ensures r.None? <==> ValidatingThrows(p, e, key)
    ensures r.Some? ==> r.value == ValidAuthenticatedEntry(p, e, key)
  {
    if !e.Obj? || Get(e, "hash") != Some(Str(p.sha(Canonical(Body(e))))) || !Truthy(Get(e, "mac")) then Some(false)
    else
      var mac := Get(e, "mac").value;
      if mac.Str? then
        Some(SameHex(mac.text, p.hmac(key, Canonical(WithHash(Body(e), p.sha(Canonical(Body(e))))))))
      else if TextOf(mac).Some? && !IsHex64(TextOf(mac).value) then Some(false)
      else None
  }

  /** Every bound id is a text where all evidence is current, so the look-up does not throw. */
  lemma CurrentTaken(p: Primitives, takes: seq<Json> -> bool, s: Store)
    requires TextsBound(takes) && EvidenceCurrent(p, s.audit, s.queries)
    ensures AllTaken(takes, BoundIds(s.audit), 500)
  {
    var ids := BoundIds(s.audit);
    forall i | 0 <= i < |ids| ensures ids[i].Str? {
      BoundExactly(s.audit, ids[i]);
    }
    hide TextsBound, AllTaken;
    TextsTaken(takes, ids, 500);
  }

  /** The evidence is current exactly when that of no bound id is wrong. */
  lemma CurrentExactly(p: Primitives, audit: seq<AuditRow>, queries: seq<QueryRow>)
    ensures EvidenceCurrent(p, audit, queries) <==> NoneStale(p, audit, queries, |BoundIds(audit)|)
  {
    var ids := BoundIds(audit);
    forall q ensures LatestHash(audit, q).Some? <==> q in ids {
      BoundExactly(audit, q);
    }
    hide LatestHash, BoundIds, QueryContentHash;
    if NoneStale(p, audit, queries, |ids|) {
      forall q | LatestHash(audit, q).Some? ensures RowMatches(p, queries, q, LatestHash(audit, q).value) {
        var i :| 0 <= i < |ids| && ids[i] == q;
        assert Stale(p, audit, queries, ids[i]) == None;
      }
    } else {
      var i :| 0 <= i < |ids| && Stale(p, audit, queries, ids[i]) != None;
      assert ids[i] in ids;
    }
  }

  /** The evidence of the first n bound ids is as it should be. */
  ghost predicate NoneStale(p: Primitives, audit: seq<AuditRow>, queries: seq<QueryRow>, n: nat) {
    n <= |BoundIds(audit)| && forall j :: 0 <= j < n ==> Stale(p, audit, queries, BoundIds(audit)[j]) == None
  }

  /** What the look-up of one bound id tells. */
  lemma StaleSeen(p: Primitives, audit: seq<AuditRow>, queries: seq<QueryRow>, hashes: map<string, string>, i: nat)
    requires i < |BoundIds(audit)| && HashesOf(p, queries, BoundIds(audit), hashes)
    ensures var q := BoundIds(audit)[i];
      && LatestHash(audit, q).Some?
      && Stale(p, audit, queries, q)
         == (if !q.Str? || q.text !in hashes then Some(EvidenceMissing)
             else if Str(hashes[q.text]) != LatestHash(audit, q).value then Some(EvidenceChanged) else None)
  {
    var q := BoundIds(audit)[i];
    BoundExactly(audit, q);
    assert q in BoundIds(audit);
    assert q.Str? ==> HashAgrees(p, queries, BoundIds(audit), hashes, q.text);
  }

  /** The evidence checks of lines 128 to 149, from the first unanchored row to the first stale binding. */
  method VerifyEvidence(p: Primitives, s: Store) returns (fault: Option<Reason>, threw: bool)
    requires ValidStore(s)
    ensures threw <==> Anchored(s.audit, s.queries) && !AllTaken(p.takes, BoundIds(s.audit), 500)
    ensures !threw && fault.None? ==> Anchored(s.audit, s.queries) && EvidenceCurrent(p, s.audit, s.queries)
    ensures !threw && fault.Some? ==> EvidenceFaulty(p, s, fault.value)
  {
    hide BoundIds, Stale, HashesOf, AllTaken, LatestHash, EvidenceCurrent, QueryContentHash;
    threw := false;
    var order, latest := CollectLatest(s.audit);
    for i := 0 to |s.queries|
      invariant forall j :: 0 <= j < i ==> LatestHash(s.audit, Str(s.queries[j].id)).Some?
    {
      if Str(s.queries[i].id) !in latest {
        return Some(EvidenceUnanchored), false;
      }
    }
    var liveHashes := BatchQueryContentHashes(p, s.queries, order, 500);
    if liveHashes.None? {
      return None, true;
    }
    for i := 0 to |order|
      invariant NoneStale(p, s.audit, s.queries, i)
    {
      var q := order[i];
      StaleSeen(p, s.audit, s.queries, liveHashes.value, i);
      if !q.Str? || q.text !in liveHashes.value {
        return Some(EvidenceMissing), false;
      }
      if Str(liveHashes.value[q.text]) != latest[q] {
        return Some(EvidenceChanged), false;
      }
    }
    CurrentExactly(p, s.audit, s.queries);
    return None, false;
  }

  /** Why evidence is refused. */
  ghost predicate EvidenceFaulty(p: Primitives, s: Store, reason: Reason) {
    match reason
    case EvidenceUnanchored => !Anchored(s.audit, s.queries)
    case EvidenceMissing => Anchored(s.audit, s.queries) && FirstStale(p, s.audit, s.queries, reason)
    case EvidenceChanged => Anchored(s.audit, s.queries) && FirstStale(p, s.audit, s.queries, reason)
    case _ => false
  }

  lemma FaultyNotCurrent(p: Primitives, s: Store, reason: Reason)
    requires EvidenceFaulty(p, s, reason)
    ensures !(Anchored(s.audit, s.queries) && EvidenceCurrent(p, s.audit, s.queries)) && IsEvidenceReason(reason)
  {
    CurrentExactly(p, s.audit, s.queries);
    hide BoundIds, Stale, EvidenceCurrent;
  }

  method VerifyCheckpoint(p: Primitives, s: Store, opts: Options) returns (fault: Option<Reason>)
    requires opts.checkpoint.Some? ==> opts.key.Some? || opts.checkpoint.value.count >= 0
    ensures fault.None? <==> CheckpointUsable(p, s.audit, opts)
    ensures fault.Some? ==> Faulty(p, s, opts, fault.value)
    ensures fault.None? && opts.checkpoint.Some? ==> 0 <= opts.checkpoint.value.count <= |s.audit|
  {
    assert opts.key.Some? && opts.checkpoint.Some? && ValidCheckpoint(p, opts.checkpoint.value, opts.key.value)
      ==> opts.checkpoint.value.count >= 0;
    hide ValidCheckpoint;
    if opts.key.Some? && opts.checkpoint.Some? && !ValidCheckpoint(p, opts.checkpoint.value, opts.key.value) {
      return Some(CheckpointAuthentication);
    }
    if opts.key.Some? && opts.checkpoint.None? && !opts.allowCheckpointBootstrap {
      return Some(CheckpointMissing);
    }
    if opts.checkpoint.Some? && |s.audit| < opts.checkpoint.value.count {
      return Some(CheckpointTruncated);
    }
    return None;
  }

  /** The verdict on everything but what `createCheckpoint` may refuse to represent. */
  method VerifyStore(p: Primitives, s: Store, opts: Options) returns (fault: Option<Reason>, head: string, threw: bool)
    requires TakesTexts(p) && ValidStore(s)
    requires opts.checkpoint.Some? ==> opts.key.Some? || opts.checkpoint.value.count >= 0
    ensures threw <==> Breaks(p, s, opts)
    ensures !threw && fault.None? <==> Accepted(p, s, opts)
    ensures !threw && fault.Some? ==> Faulty(p, s, opts, fault.value)
    ensures !threw && fault.None? ==> head == HeadAt(s.audit, |s.audit|)
  {
    hide ValidStore, TextsBound, Linked, SameHex, HeadAt, Anchored, EvidenceCurrent, FirstFault, CheckpointUsable,
      ThrowFirst, AllTaken, BoundIds, EvidenceFaulty;
    head, threw := "", false;
    fault := VerifyCheckpoint(p, s, opts);
    if fault.Some? {
      return;
    }
    fault, head, threw := VerifyLinks(p, s.audit, opts);
    LinkedGoesOn(p, s.audit, opts);
    if threw || fault.Some? {
      return;
    }
    if opts.checkpoint.Some? && !SameHex(opts.checkpoint.value.head, HeadAt(s.audit, opts.checkpoint.value.count)) {
      return Some(CheckpointDiverged), head, false;
    }
    fault, threw := VerifyEvidence(p, s);
    EvidenceDecides(p, p.takes, s, fault, threw);
  }

  /** A verdict on the evidence leaves no other. */
  lemma EvidenceDecides(p: Primitives, takes: seq<Json> -> bool, s: Store, fault: Option<Reason>, threw: bool)
    requires TextsBound(takes)
    requires threw <==> Anchored(s.audit, s.queries) && !AllTaken(takes, BoundIds(s.audit), 500)
    requires !threw && fault.Some? ==> EvidenceFaulty(p, s, fault.value)
    ensures Anchored(s.audit, s.queries) && EvidenceCurrent(p, s.audit, s.queries) ==> !threw && fault.None?
    ensures !threw && fault.Some? ==> IsEvidenceReason(fault.value)
  {
    hide TextsBound, Anchored, EvidenceCurrent, AllTaken, BoundIds, EvidenceFaulty;
    if EvidenceCurrent(p, s.audit, s.queries) {
      CurrentTaken(p, takes, s);
    }
    if !threw && fault.Some? {
      FaultyNotCurrent(p, s, fault.value);
    }
  }

  lemma LinkedGoesOn(p: Primitives, audit: seq<AuditRow>, opts: Options)
    ensures Linked(p, audit, opts) ==> !ThrowFirst(p, audit, opts)
  {
    if i: nat :| i < |audit| && EntryThrows(p, audit[i].entry, HeadAt(audit, i), opts.key) {
      ThrowBreaks(p, audit, i, opts);
    }
  }

  /** Whatever authenticated entry of a linked log gets its mac wrapped in an array, the verifier throws. */
  lemma WrappedMacThrows(p: Primitives, audit: seq<AuditRow>, i: nat, wrapped: Json, opts: Options)
    requires i < |audit| && Linked(p, audit, opts) && opts.key.Some? && audit[i].entry.Obj? && wrapped.Obj?
    requires Get(audit[i].entry, "mac").Some? && Get(audit[i].entry, "mac").value.Str?
    requires Truthy(Get(audit[i].entry, "mac"))
    requires Body(wrapped) == Body(audit[i].entry)
    requires Get(wrapped, "mac") == Some(Arr([Get(audit[i].entry, "mac").value]))
    requires forall key :: key == "hash" || key == "prevHash" ==> Get(wrapped, key) == Get(audit[i].entry, key)
    ensures ThrowFirst(p, audit[i := audit[i].(entry := wrapped)], opts)
  {
    var after := audit[i := audit[i].(entry := wrapped)];
    assert LinkOk(p, audit, i, opts);
    WrappedIncomparable(Get(audit[i].entry, "mac").value);
    hide Canonical, Body, SameHex, Incomparable;
    assert HeadAt(after, i) == HeadAt(audit, i);
    forall j | 0 <= j < i ensures LinkOk(p, after, j, opts) {
      assert LinkOk(p, audit, j, opts) && HeadAt(after, j) == HeadAt(audit, j);
    }
    assert EntryThrows(p, after[i].entry, HeadAt(after, i), opts.key);
  }

  method VerifyAuditChainForDatabase(p: Primitives, s: Store, opts: Options) returns (verdict: Verdict)
    requires TakesTexts(p) && ValidStore(s)
    requires opts.checkpoint.Some? ==> opts.key.Some? || opts.checkpoint.value.count >= 0
    ensures verdict.Rejected? <==> !Accepted(p, s, opts) && !Breaks(p, s, opts)
    ensures verdict.Rejected? ==> verdict.count == |s.audit| && Faulty(p, s, opts, verdict.reason)
    ensures verdict.Verified? ==>
      verdict == Verified(|s.audit|, if Produces(opts) then Some(Produced(p, s.audit, opts.key.value)) else None)
    ensures verdict.Threw?
            <==> Breaks(p, s, opts) || (Accepted(p, s, opts) && Produces(opts) && !Representable(s.audit))
  {
    hide Accepted, Faulty, HeadAt, LastSeq, CreateCheckpoint, ValidStore, TakesTexts, Breaks;
    var fault, head, threw := VerifyStore(p, s, opts);
    if threw {
      return Threw;
    }
    if fault.Some? {
      return Rejected(|s.audit|, fault.value);
    }
    if !Produces(opts) {
      return Verified(|s.audit|, None);
    }
    if !Representable(s.audit) {
      return Threw;
    }
    return Verified(|s.audit|, Some(CreateCheckpoint(p, |s.audit|, head, opts.key.value, LastSeq(s.audit))));
  }

  // ---- The second verifier, for Postgres snapshots (scripts/backup-store.js) ----

  function SeqAt(audit: seq<AuditRow>, count: nat): int
    requires count <= |audit|
  {
    if count == 0 then 0 else audit[count - 1].seq_
  }

  predicate SeqOk(audit: seq<AuditRow>, i: nat)
    requires i < |audit|
  {
    SafeInteger(audit[i].seq_) && audit[i].seq_ > SeqAt(audit, i)
  }

  /** The stored sequence numbers are safe integers and strictly increase from 1 or more. */
  predicate SeqsIncrease(audit: seq<AuditRow>) {
    forall i :: 0 <= i < |audit| ==> SeqOk(audit, i)
  }

  lemma CountWithinSeq(audit: seq<AuditRow>, n: nat)
    requires SeqsIncrease(audit) && n <= |audit|
    ensures n <= SeqAt(audit, n)
  {
    if n > 0 {
      CountWithinSeq(audit, n - 1);
      assert SeqOk(audit, n - 1);
    }
  }

  function ExactOptions(key: string, checkpoint: Checkpoint): Options {
    Options(Some(key), Some(checkpoint), false, true)
  }

  /** Accepts exactly what the other verifier accepts with the same checkpoint, when moreover the
      stored sequence strictly increases and the checkpoint is letter for letter the log's own. */
  ghost predicate PgAccepted(p: Primitives, s: Store, key: string, checkpoint: Checkpoint) {
    && Accepted(p, s, ExactOptions(key, checkpoint))
    && SeqsIncrease(s.audit)
    && checkpoint.head == HeadAt(s.audit, checkpoint.count)
    && checkpoint.seq_ == SeqAt(s.audit, checkpoint.count)
  }

  /** The entry check as this verifier writes it, scripts/backup-store.js lines 1593 to 1603: the fault, and
      whether it throws instead. */
  function PgEntryCheck(p: Primitives, e: Json, prev: string, index: nat, key: string, count: int): (Option<Reason>,
                        bool) {
    if e == Null then (None, true)
    else if Get(e, "prevHash") != Some(Str(prev)) || Get(e, "hash") != Some(Str(p.sha(Canonical(Body(e))))) then
      (Some(ChainBroken), false)
    else if Truthy(Get(e, "mac")) && Validate(p, e, key) != Some(true) then
      (Some(EntryAuthentication), Validate(p, e, key).None?)
    else if !Truthy(Get(e, "mac")) && index >= count then (Some(EntryAuthenticationMissing), false)
    else (None, false)
  }

  /** It throws where the other verifier's check throws, and else faults what that faults, with the same reason. */
  lemma PgEntryCheckAgrees(p: Primitives, e: Json, prev: string, index: nat, key: string, checkpoint: Checkpoint)
    ensures var (fault, throws) := PgEntryCheck(p, e, prev, index, key, checkpoint.count);
      && (throws <==> EntryThrows(p, e, prev, Some(key)))
      && (!throws ==> fault == LinkFault(p, e, prev, index, ExactOptions(key, checkpoint)))
  {
  }

  /** The loop throws at this row: its entry is `null`, whether or not its sequence number is in order, or the
      number is and the entry check throws. */
  ghost predicate PgThrowsAt(p: Primitives, rows: seq<AuditRow>, i: nat, key: Option<string>)
    requires i < |rows|
  {
    rows[i].entry == Null || (SeqOk(rows, i) && EntryThrows(p, rows[i].entry, HeadAt(rows, i), key))
  }

  /** The loop comes to such a row with links and sequence in order before it. */
  ghost predicate PgThrowFirst(p: Primitives, rows: seq<AuditRow>, opts: Options) {
    exists i :: 0 <= i < |rows| && PgThrowsAt(p, rows, i, opts.key)
      && forall j :: 0 <= j < i ==> LinkOk(p, rows, j, opts) && SeqOk(rows, j)
  }

  /** What is wrong with one row. */
  ghost function PgRowFault(p: Primitives, rows: seq<AuditRow>, i: nat, opts: Options): Option<Reason>
    requires i < |rows|
  {
    if SeqOk(rows, i) then LinkFault(p, rows[i].entry, HeadAt(rows, i), i, opts) else Some(ChainBroken)
  }

  ghost predicate PgFirstFault(p: Primitives, rows: seq<AuditRow>, opts: Options, reason: Reason) {
    exists i :: 0 <= i < |rows| && PgRowFault(p, rows, i, opts) == Some(reason) && !PgThrowsAt(p, rows, i, opts.key)
      && forall j :: 0 <= j < i ==> LinkOk(p, rows, j, opts) && SeqOk(rows, j)
  }

  /** Head and sequence of the checkpoint are those of its last entry. */
  predicate HeadExact(rows: seq<AuditRow>, checkpoint: Checkpoint) {
    && 0 <= checkpoint.count <= |rows|
    && checkpoint.head == HeadAt(rows, checkpoint.count) && checkpoint.seq_ == SeqAt(rows, checkpoint.count)
  }

  /** This verifier throws before it has a verdict. */
  ghost predicate PgBreaks(p: Primitives, s: Store, key: string, checkpoint: Checkpoint) {
    var opts := ExactOptions(key, checkpoint);
    && CheckpointUsable(p, s.audit, opts)
    && (|| PgThrowFirst(p, s.audit, opts)
        || (Linked(p, s.audit, opts) && SeqsIncrease(s.audit) && HeadExact(s.audit, checkpoint)
            && Anchored(s.audit, s.queries) && !AllTaken(p.takesArray, BoundIds(s.audit), 500)))
  }

  /** Why it refuses a store. */
  ghost predicate PgFaulty(p: Primitives, s: Store, key: string, checkpoint: Checkpoint, reason: Reason) {
    var opts := ExactOptions(key, checkpoint);
    match reason
    case CheckpointAuthentication => !ValidCheckpoint(p, checkpoint, key)
    case CheckpointMissing => false
    case CheckpointTruncated => |s.audit| < checkpoint.count
    case ChainBroken => PgFirstFault(p, s.audit, opts, reason)
    case EntryAuthentication => PgFirstFault(p, s.audit, opts, reason)
    case EntryAuthenticationMissing => PgFirstFault(p, s.audit, opts, reason)
    case CheckpointDiverged => Linked(p, s.audit, opts) && SeqsIncrease(s.audit) && !HeadExact(s.audit, checkpoint)
    case _ =>
      && Linked(p, s.audit, opts) && SeqsIncrease(s.audit) && HeadExact(s.audit, checkpoint)
      && EvidenceFaulty(p, s, reason)
  }

  /** Nothing is wrong with the first n rows, their sequence numbers included. */
  ghost predicate PgCleanBelow(p: Primitives, rows: seq<AuditRow>, n: nat, opts: Options) {
    n <= |rows| && forall j :: 0 <= j < n ==> LinkOk(p, rows, j, opts) && SeqOk(rows, j)
  }

  lemma PgThrowBreaks(p: Primitives, rows: seq<AuditRow>, i: nat, opts: Options)
    requires i < |rows| && PgThrowsAt(p, rows, i, opts.key)
    ensures !LinkOk(p, rows, i, opts)
  {
    ThrowBreaks(p, rows, i, opts);
  }

  lemma PgLoopEnds(p: Primitives, rows: seq<AuditRow>, n: nat, opts: Options)
    requires PgCleanBelow(p, rows, n, opts)
    ensures n == |rows| ==> Linked(p, rows, opts) && SeqsIncrease(rows) && !PgThrowFirst(p, rows, opts)
    ensures n < |rows| && PgThrowsAt(p, rows, n, opts.key) ==> PgThrowFirst(p, rows, opts) && !Linked(p, rows, opts)
    ensures n < |rows| && !PgThrowsAt(p, rows, n, opts.key) ==>
      var fault := PgRowFault(p, rows, n, opts);
      if fault.None? then PgCleanBelow(p, rows, n + 1, opts)
      else PgFirstFault(p, rows, opts, fault.value) && !PgThrowFirst(p, rows, opts)
           && !(Linked(p, rows, opts) && SeqsIncrease(rows))
  {
    hide LinkFault, HeadAt, PgThrowsAt;
    forall i: nat | i < |rows| && PgThrowsAt(p, rows, i, opts.key) ensures !LinkOk(p, rows, i, opts) {
      PgThrowBreaks(p, rows, i, opts);
    }
    if n < |rows| {
      var fault := PgRowFault(p, rows, n, opts);
      assert LinkOk(p, rows, n, opts) && SeqOk(rows, n) <==> fault.None?;
      hide LinkOk, SeqOk, PgRowFault;
      if PgThrowsAt(p, rows, n, opts.key) {
        assert PgThrowFirst(p, rows, opts);
      } else {
        assert fault.Some? ==> PgFirstFault(p, rows, opts, fault.value);
      }
    }
  }

  /** One turn of the loop, lines 1587 to 1603. */
  method PgRowCheck(p: Primitives, rows: seq<AuditRow>, index: nat, prev: string, lastSeq: int, key: string,
                    checkpoint: Checkpoint)
    returns (fault: Option<Reason>, threw: bool)
    requires index < |rows| && prev == HeadAt(rows, index) && lastSeq == SeqAt(rows, index)
    ensures threw <==> PgThrowsAt(p, rows, index, Some(key))
    ensures !threw ==> fault == PgRowFault(p, rows, index, ExactOptions(key, checkpoint))
  {
    var entry, rowSeq := rows[index].entry, rows[index].seq_;
    hide LinkFault, EntryThrows, PgEntryCheck, ExactOptions, HeadAt, SeqAt;
    PgEntryCheckAgrees(p, entry, prev, index, key, checkpoint);
    PgEntryCheckAgrees(p, Null, prev, index, key, checkpoint);
    if !SafeInteger(rowSeq) || rowSeq <= lastSeq {
      // the answer reads the entry's id
      return Some(ChainBroken), entry == Null;
    }
    var check := PgEntryCheck(p, entry, prev, index, key, checkpoint.count);
    fault, threw := check.0, check.1;
    NullThrows(p, entry, prev, Some(key));
  }

  lemma NullThrows(p: Primitives, e: Json, prev: string, key: Option<string>)
    ensures e == Null ==> EntryThrows(p, e, prev, key)
  {
  }

  method VerifySequencedLinks(p: Primitives, rows: seq<AuditRow>, key: string, checkpoint: Checkpoint)
    returns (fault: Option<Reason>, prev: string, lastSeq: int, threw: bool)
    ensures threw <==> PgThrowFirst(p, rows, ExactOptions(key, checkpoint))
    ensures !threw && fault.None? <==> Linked(p, rows, ExactOptions(key, checkpoint)) && SeqsIncrease(rows)
    ensures !threw && fault.None? ==> prev == HeadAt(rows, |rows|) && lastSeq == SeqAt(rows, |rows|)
    ensures !threw && fault.Some? ==>
      PgFirstFault(p, rows, ExactOptions(key, checkpoint), fault.value) && IsLinkReason(fault.value)
  {
    ghost var opts := ExactOptions(key, checkpoint);
    assert PgCleanBelow(p, rows, 0, opts) && opts.key == Some(key);
    hide LinkFault, EntryThrows, ExactOptions, PgCleanBelow, PgThrowFirst, PgThrowsAt, PgFirstFault, Linked,
      SeqsIncrease;
    prev, lastSeq := ZERO_HASH, 0;
    for index := 0 to |rows|
      invariant prev == HeadAt(rows, index) && lastSeq == SeqAt(rows, index) && PgCleanBelow(p, rows, index, opts)
    {
      PgLoopEnds(p, rows, index, opts);
      fault, threw := PgRowCheck(p, rows, index, prev, lastSeq, key, checkpoint);
      if threw || fault.Some? {
        return fault, prev, lastSeq, threw;
      }
      prev, lastSeq := HashOf(rows[index].entry), rows[index].seq_;
    }
    PgLoopEnds(p, rows, |rows|, opts);
    return None, prev, lastSeq, false;
  }

  /** The latest bound entries as this verifier collects them, lines 1613 to 1616. */
  method CollectPgLatest(rows: seq<AuditRow>) returns (ids: seq<Json>, latest: map<Json, Json>)
    ensures ids == BoundIds(rows)
    ensures forall q :: q in latest <==> LatestHash(rows, q).Some?
    ensures forall q :: q in latest ==> latest[q] == LatestHash(rows, q).value
  {
    ids, latest := [], map[];
    for i := 0 to |rows|
      invariant ids == BoundIds(rows[..i])
      invariant forall q :: q in latest <==> LatestHash(rows[..i], q).Some?
      invariant forall q :: q in latest ==> latest[q] == LatestHash(rows[..i], q).value
    {
      var queryId, contentHash := Get(rows[i].entry, "queryId"), Get(rows[i].entry, "contentHash");
      assert rows[..i + 1][..i] == rows[..i];
      if Truthy(queryId) && Truthy(contentHash) {
        ids := if Known(ids, queryId.value) then ids else ids + [queryId.value];
        latest := latest[queryId.value := contentHash.value];
      }
    }
    assert rows[..|rows|] == rows;
  }

  /** `SELECT id, data FROM queries WHERE id = ANY(ids[i..i + 500])`, one round trip after the other, lines
      1629 to 1638; None where one throws. */
  method PgLiveHashes(p: Primitives, queries: seq<QueryRow>, ids: seq<Json>) returns (r: Option<map<string, string>>)
    requires UniqueIds(queries)
    ensures r.Some? <==> AllTaken(p.takesArray, ids, 500)
    ensures r.Some? ==> HashesOf(p, queries, ids, r.value)
  {
    hide Select, ContentHash, QueryContentHash, HashesOf, AllTaken;
    var liveHashes: map<string, string> := map[];
    NoHashes(p, queries);
    var i := 0;
    NoneTaken(p.takesArray, 500);
    assert ids[0..] == ids && ids[|ids|..] == [];
    while i < |ids|
      invariant 0 <= i <= |ids|
      invariant AllTaken(p.takesArray, ids, 500) <==> AllTaken(p.takesArray, ids[i..], 500)
      invariant HashesOf(p, queries, ids[..i], liveHashes)
    {
      var next := if i + 500 < |ids| then i + 500 else |ids|;
      var chunk := ids[i..next];
      NextChunk(p.takesArray, ids, i, 500);
      if !p.takesArray(chunk) {
        return None;
      }
      var found := Select(queries, chunk);
      ghost var before := liveHashes;
      for k := 0 to |found|
        invariant liveHashes == Overlay(p, before, found[..k])
      {
        assert found[..k + 1][..k] == found[..k];
        liveHashes := liveHashes[found[k].id := ContentHash(p, found[k].data)];
      }
      assert found[..|found|] == found;
      ExtendHashes(p, queries, ids[..i], chunk, before);
      assert ids[..i] + chunk == ids[..next];
      i := next;
    }
    assert ids[..|ids|] == ids;
    r := Some(liveHashes);
  }

  /** The evidence check as this verifier writes it, lines 1613 to 1654. */
  method VerifyPgEvidence(p: Primitives, s: Store) returns (fault: Option<Reason>, threw: bool)
    requires ValidStore(s)
    ensures threw <==> Anchored(s.audit, s.queries) && !AllTaken(p.takesArray, BoundIds(s.audit), 500)
    ensures !threw && fault.None? ==> Anchored(s.audit, s.queries) && EvidenceCurrent(p, s.audit, s.queries)
    ensures !threw && fault.Some? ==> EvidenceFaulty(p, s, fault.value)
  {
    hide BoundIds, Stale, HashesOf, AllTaken, LatestHash, EvidenceCurrent, QueryContentHash;
    var ids, latest := CollectPgLatest(s.audit);
    var anchored := true;
    for i := 0 to |s.queries|
      invariant anchored && forall j :: 0 <= j < i ==> LatestHash(s.audit, Str(s.queries[j].id)).Some?
    {
      anchored := Str(s.queries[i].id) in latest;
      if !anchored {
        return Some(EvidenceUnanchored), false;
      }
    }
    var liveHashes := PgLiveHashes(p, s.queries, ids);
    if liveHashes.None? {
      return None, true;
    }
    for i := 0 to |ids|
      invariant NoneStale(p, s.audit, s.queries, i)
    {
      var queryId := ids[i];
      StaleSeen(p, s.audit, s.queries, liveHashes.value, i);
      var liveHash :=
        if queryId.Str? && queryId.text in liveHashes.value then Some(liveHashes.value[queryId.text]) else None;
      if liveHash.None? {
        return Some(EvidenceMissing), false;
      }
      if Str(liveHash.value) != latest[queryId] {
        return Some(EvidenceChanged), false;
      }
    }
    CurrentExactly(p, s.audit, s.queries);
    return None, false;
  }

  method VerifyPgCheckpoint(p: Primitives, rows: seq<AuditRow>, key: string, checkpoint: Checkpoint)
    returns (fault: Option<Reason>)
    ensures fault.None? <==> CheckpointUsable(p, rows, ExactOptions(key, checkpoint))
    ensures fault.None? ==> 0 <= checkpoint.count <= |rows|
    ensures fault == Some(CheckpointAuthentication) ==> !ValidCheckpoint(p, checkpoint, key)
    ensures fault.Some? && fault != Some(CheckpointAuthentication) ==>
      fault == Some(CheckpointTruncated) && |rows| < checkpoint.count
  {
    if !ValidCheckpoint(p, checkpoint, key) {
      return Some(CheckpointAuthentication);
    }
    if |rows| < checkpoint.count {
      return Some(CheckpointTruncated);
    }
    return None;
  }

  method VerifyPgHead(p: Primitives, rows: seq<AuditRow>, ghost opts: Options, checkpoint: Checkpoint)
    returns (ok: bool)
    requires Digests(p) && Linked(p, rows, opts) && opts.checkpoint == Some(checkpoint)
    requires 0 <= checkpoint.count <= |rows|
    ensures ok <==> HeadExact(rows, checkpoint)
    ensures ok ==> CheckpointHeadMatches(rows, opts)
  {
    hide Linked, HeadAt;
    ok := checkpoint.head == HeadAt(rows, checkpoint.count) && checkpoint.seq_ == SeqAt(rows, checkpoint.count);
    HeadIsLowerHex(p, rows, opts, checkpoint.count);
  }

  method VerifyPgSnapshotIntegrity(p: Primitives, s: Store, key: string, checkpoint: Checkpoint)
    returns (verdict: Verdict)
    requires Digests(p) && TakesTexts(p) && ValidStore(s)
    ensures verdict.Threw? <==> PgBreaks(p, s, key, checkpoint)
    ensures verdict.Verified? <==> PgAccepted(p, s, key, checkpoint)
    ensures verdict.Verified? ==>
      verdict == Verified(|s.audit|, Some(Produced(p, s.audit, key))) && Representable(s.audit)
    ensures verdict.Rejected? ==> verdict.count == |s.audit| && PgFaulty(p, s, key, checkpoint, verdict.reason)
  {
    hide ValidStore, Digests, TextsBound, Linked, HeadAt, SeqAt, SeqsIncrease, Anchored, EvidenceCurrent,
      CheckpointUsable, CheckpointHeadMatches, Produced, Representable, CreateCheckpoint, PgThrowFirst, PgFirstFault,
      HeadExact, AllTaken, BoundIds, EvidenceFaulty, ExactOptions, ValidCheckpoint, PgAccepted;
    var rows := s.audit;
    ghost var opts := ExactOptions(key, checkpoint);
    ExactHolds(p, s, key, checkpoint);
    var fault := VerifyPgCheckpoint(p, rows, key, checkpoint);
    if fault.Some? {
      return Rejected(|rows|, fault.value);
    }
    var prev, lastSeq, threw;
    fault, prev, lastSeq, threw := VerifySequencedLinks(p, rows, key, checkpoint);
    PgLinkedGoesOn(p, rows, opts);
    if threw {
      return Threw;
    }
    if fault.Some? {
      return Rejected(|rows|, fault.value);
    }
    var headMatches := VerifyPgHead(p, rows, opts, checkpoint);
    if !headMatches {
      return Rejected(|rows|, CheckpointDiverged);
    }
    fault, threw := VerifyPgEvidence(p, s);
    EvidenceDecides(p, p.takesArray, s, fault, threw);
    if threw {
      return Threw;
    }
    if fault.Some? {
      return Rejected(|rows|, fault.value);
    }
    SequencedProduces(p, rows, key);
    return Verified(|rows|, Some(CreateCheckpoint(p, |rows|, prev, key, lastSeq)));
  }

  lemma ExactHolds(p: Primitives, s: Store, key: string, checkpoint: Checkpoint)
    ensures ExactOptions(key, checkpoint).checkpoint == Some(checkpoint)
    ensures PgAccepted(p, s, key, checkpoint)
            <==> (&& Accepted(p, s, ExactOptions(key, checkpoint)) && SeqsIncrease(s.audit)
                  && HeadExact(s.audit, checkpoint))
  {
  }

  lemma PgLinkedGoesOn(p: Primitives, rows: seq<AuditRow>, opts: Options)
    ensures PgThrowFirst(p, rows, opts) ==> !Linked(p, rows, opts)
  {
    hide LinkOk;
    if i: nat :| i < |rows| && PgThrowsAt(p, rows, i, opts.key) {
      PgThrowBreaks(p, rows, i, opts);
    }
  }

  /** With increasing sequence numbers `createCheckpoint` never refuses, and both verifiers make the same one. */
  lemma SequencedProduces(p: Primitives, audit: seq<AuditRow>, key: string)
    requires SeqsIncrease(audit)
    ensures Representable(audit)
    ensures Produced(p, audit, key) == CreateCheckpoint(p, |audit|, HeadAt(audit, |audit|), key, SeqAt(audit, |audit|))
  {
    hide CreateCheckpoint, HeadAt;
    CountWithinSeq(audit, |audit|);
    if audit != [] {
      assert SeqOk(audit, |audit| - 1);
    }
  }

  lemma HeadIsLowerHex(p: Primitives, audit: seq<AuditRow>, opts: Options, n: nat)
    requires Digests(p) && n <= |audit| && Linked(p, audit, opts)
    ensures IsHex64(HeadAt(audit, n)) && Lower(HeadAt(audit, n)) == HeadAt(audit, n)
  {
    var head := HeadAt(audit, n);
    assert IsLowerHex64(head) by {
      if n > 0 {
        assert LinkOk(p, audit, n - 1, opts);
      }
    }
    LowerFixed(head);
  }
}
