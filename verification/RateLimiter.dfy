/**
 The fixed-window limiters of gateway/server.js, scripts/ai-llm-gateway.js and
 scripts/ai-gateway-rate-limiter.js, against one plain counter that never forgets a key.
 */
module RateLimiter {
  import opened Wrappers

  /** Requests counted in the current window of a key, and when that window ends. */
  datatype Window = Window(count: nat, resetAt: int)

  type Table = map<string, Window>

  function Get(table: Table, key: string): Option<Window> {
    if key in table then Some(table[key]) else None
  }

  // ---- The plain counter ----

  /** One request: it opens a window when none is running, and is counted in it. */
  function Hit(w: Option<Window>, now: int, windowMs: int): Window {
    if w.None? || w.value.resetAt <= now then Window(1, now + windowMs) else Window(w.value.count + 1, w.value.resetAt)
  }

  function Count(reference: Table, key: string, now: int, windowMs: int): Table {
    reference[key := Hit(Get(reference, key), now, windowMs)]
  }

  datatype Decision = Decision(ok: bool, limit: nat, remaining: nat, resetMs: nat)

  function Max0(n: int): nat {
    if n < 0 then 0 else n
  }

  function Decide(w: Window, limit: nat, now: int): Decision {
    Decision(w.count <= limit, limit, Max0(limit - w.count), Max0(w.resetAt - now))
  }

  /** The counter after n more requests of its key at one moment. */
  function Further(w: Window, n: nat, now: int, windowMs: int): Window {
    if n == 0 then w else Hit(Some(Further(w, n - 1, now, windowMs)), now, windowMs)
  }

  lemma {:induction false} FurtherCounts(w: Window, n: nat, now: int, windowMs: int)
    requires now < w.resetAt
    ensures Further(w, n, now, windowMs) == Window(w.count + n, w.resetAt)
  {
    if n > 0 {
      FurtherCounts(w, n - 1, now, windowMs);
    }
  }

  /** `remaining` counts the further requests that would pass at this moment: the n-th passes exactly
      when n is no more than that. */
  lemma RemainingExact(before: Option<Window>, n: nat, limit: nat, now: int, windowMs: nat)
    requires n >= 1 && windowMs >= 1
    ensures var w := Hit(before, now, windowMs);
      Decide(Further(w, n, now, windowMs), limit, now).ok <==> n <= Decide(w, limit, now).remaining
  {
    FurtherCounts(Hit(before, now, windowMs), n, now, windowMs);
  }

  /** A later request starts a new count, and with it passes, exactly from `resetMs` on; before that
      it is one more in the running window. */
  lemma ResetExact(before: Option<Window>, limit: nat, now: int, later: int, windowMs: nat)
    requires now <= later && (before.Some? ==> before.value.count >= 1)
    ensures var w := Hit(before, now, windowMs);
      var next := Hit(Some(w), later, windowMs);
      && (now + Decide(w, limit, now).resetMs <= later <==> next.count == 1)
      && (now + Decide(w, limit, now).resetMs <= later && limit >= 1 ==> Decide(next, limit, later).ok)
      && (later < now + Decide(w, limit, now).resetMs ==> next == Window(w.count + 1, w.resetAt))
  {
  }

  // ---- How a stored table may differ from it ----

  predicate CoversKey(stored: Table, reference: Table, now: int, key: string) {
    || Get(stored, key) == Get(reference, key)
    || (key !in stored && key in reference && reference[key].resetAt <= now)
  }

  /** The stored table has dropped nothing but rows whose window is over. */
  ghost predicate Covers(stored: Table, reference: Table, now: int) {
    forall key :: CoversKey(stored, reference, now, key)
  }

  lemma HitCovered(stored: Table, reference: Table, clock: int, key: string, now: int, windowMs: int)
    requires Covers(stored, reference, clock) && clock <= now
    ensures Hit(Get(stored, key), now, windowMs) == Hit(Get(reference, key), now, windowMs)
    ensures Covers(Count(stored, key, now, windowMs), Count(reference, key, now, windowMs), now)
  {
    assert CoversKey(stored, reference, clock, key);
    forall k ensures CoversKey(Count(stored, key, now, windowMs), Count(reference, key, now, windowMs), now, k) {
      assert CoversKey(stored, reference, clock, k);
    }
  }

  /** `DELETE ... WHERE reset_at < cutoff`, and the eviction loop with `now + 1`. */
  function DropBefore(stored: Table, cutoff: int): Table {
    map key | key in stored && cutoff <= stored[key].resetAt :: stored[key]
  }

  lemma DropCovered(stored: Table, reference: Table, clock: int, cutoff: int, now: int)
    requires Covers(stored, reference, clock) && clock <= now && cutoff <= now + 1
    ensures Covers(DropBefore(stored, cutoff), reference, now)
  {
    forall k ensures CoversKey(DropBefore(stored, cutoff), reference, now, k) {
      assert CoversKey(stored, reference, clock, k);
    }
  }

  // ---- gateway/server.js: `rateLimited` ----

  class GatewayBuckets {
    const rateLimitPerMin: nat
    var buckets: Table
    ghost var reference: Table
    ghost var clock: int

    ghost predicate Valid()
      reads this
    {
      Covers(buckets, reference, clock)
    }

    constructor (rateLimitPerMin: nat)
      ensures Valid() && reference == map[] && this.rateLimitPerMin == rateLimitPerMin
    {
      this.rateLimitPerMin := rateLimitPerMin;
      buckets, reference, clock := map[], map[], 0;
    }

    /** Answers as the plain counter does, and keeps it in step. */
    method RateLimited(id: string, now: int) returns (limited: bool)
      requires Valid() && clock <= now && rateLimitPerMin >= 1
      modifies this
      ensures Valid() && clock == now
      ensures reference == Count(old(reference), id, now, 60000)
      ensures limited == !Decide(reference[id], rateLimitPerMin, now).ok
    {
      HitCovered(buckets, reference, clock, id, now, 60000);
      if id !in buckets || now >= buckets[id].resetAt {
        if |buckets| > 1000 {
          EvictExpired(now);
          DropCovered(old(buckets), old(reference), old(clock), now + 1, now);
          HitCovered(buckets, old(reference), now, id, now, 60000);
        }
        buckets := buckets[id := Window(1, now + 60000)];
        limited := false;
      } else {
        buckets := buckets[id := Window(buckets[id].count + 1, buckets[id].resetAt)];
        limited := buckets[id].count > rateLimitPerMin;
      }
      reference := Count(reference, id, now, 60000);
      clock := now;
    }

    method EvictExpired(now: int)
      modifies this`buckets
      ensures buckets == DropBefore(old(buckets), now + 1)
    {
      var keys := buckets.Keys;
      while keys != {}
        invariant keys <= old(buckets).Keys
        invariant forall k :: k in buckets <==> k in old(buckets) && (k in keys || now < old(buckets)[k].resetAt)
        invariant forall k :: k in buckets ==> buckets[k] == old(buckets)[k]
        decreases |keys|
      {
        var k :| k in keys;
        if now >= buckets[k].resetAt {
          buckets := buckets - {k};
        }
        keys := keys - {k};
      }
    }
  }

  // ---- scripts/ai-llm-gateway.js: the in-memory limiter ----

  class MemoryLimiter {
    const limit: nat
    const windowMs: nat
    var buckets: Table

    constructor (limit: nat, windowMs: nat)
      ensures this.limit == limit && this.windowMs == windowMs && buckets == map[]
    {
      this.limit := limit;
      this.windowMs := windowMs;
      buckets := map[];
    }

    method Check(key: string, now: int) returns (d: Decision)
      requires limit >= 1
      modifies this
      ensures buckets == Count(old(buckets), if key == "" then "unknown" else key, now, windowMs)
      ensures d.limit == limit && d == Decide(buckets[if key == "" then "unknown" else key], limit, now)
    {
      var id := if key == "" then "unknown" else key;
      if id !in buckets || buckets[id].resetAt <= now {
        buckets := buckets[id := Window(1, now + windowMs)];
        return Decision(true, limit, limit - 1, windowMs);
      }
      var current := Window(buckets[id].count + 1, buckets[id].resetAt);
      buckets := buckets[id := current];
      if current.count > limit {
        return Decision(false, limit, 0, Max0(current.resetAt - now));
      }
      return Decision(true, limit, Max0(limit - current.count), Max0(current.resetAt - now));
    }
  }

  // ---- The two SQLite limiters; one has its limit and window fixed, the other takes them per call ----

  class SqliteLimiter {
    const cleanupEvery: nat
    var rows: Table
    var checks: nat
    ghost var reference: Table
    ghost var clock: int

    ghost predicate Valid()
      reads this
    {
      cleanupEvery >= 1 && Covers(rows, reference, clock)
    }

    constructor (cleanupEvery: nat)
      requires cleanupEvery >= 1
      ensures Valid() && reference == map[]
    {
      this.cleanupEvery := cleanupEvery;
      rows, checks, reference, clock := map[], 0, map[], 0;
    }

    method Check(key: string, limit: nat, windowMs: nat, now: int) returns (d: Decision)
      requires Valid() && clock <= now
      modifies this
      ensures Valid() && clock == now
      ensures reference == Count(old(reference), key, now, windowMs)
      ensures d.limit == limit && d == Decide(reference[key], limit, now)
    {
      HitCovered(rows, reference, clock, key, now, windowMs);
      var row := Upsert(key, now + windowMs, now);
      reference := Count(reference, key, now, windowMs);
      clock := now;
      checks := checks + 1;
      if checks % cleanupEvery == 0 {
        DropCovered(rows, reference, now, now - windowMs, now);
        rows := DropBefore(rows, now - windowMs);
      }
      return Decision(row.count <= limit, limit, Max0(limit - row.count), Max0(row.resetAt - now));
    }

    /** `INSERT ... ON CONFLICT DO UPDATE ... RETURNING count, reset_at` */
    method Upsert(key: string, resetAt: int, now: int) returns (row: Window)
      modifies this`rows
      ensures rows == Count(old(rows), key, now, resetAt - now) && row == rows[key]
    {
      if key !in rows {
        row := Window(1, resetAt);
      } else {
        var over := rows[key].resetAt <= now;
        row := Window(if over then 1 else rows[key].count + 1, if over then resetAt else rows[key].resetAt);
      }
      rows := rows[key := row];
    }
  }

  // ---- How many requests the counter lets through ----

  datatype Request = Request(key: string, now: int)

  predicate InOrder(requests: seq<Request>) {
    forall i, j :: 0 <= i < j < |requests| ==> requests[i].now <= requests[j].now
  }

  /** Requests of `key` in `[t, t + windowMs)` that are answered `ok`, in a run on any mix of keys. */
  function Admitted(reference: Table, requests: seq<Request>, key: string, t: int, limit: nat, windowMs: nat): nat
    decreases |requests|
  {
    if requests == [] then 0
    else
      var r := requests[0];
      var next := Count(reference, r.key, r.now, windowMs);
      (if r.key == key && t <= r.now < t + windowMs && Decide(next[key], limit, r.now).ok then 1 else 0)
        + Admitted(next, requests[1..], key, t, limit, windowMs)
  }

  /** What a running window still has to give. */
  function Left(w: Window, limit: nat): nat {
    if w.count < limit then limit - w.count else 0
  }

  /** Inside one window at most `limit` requests pass, those already counted included. */
  lemma {:induction false} WindowBound(reference: Table, requests: seq<Request>, key: string, t: int, limit: nat,
                                       windowMs: nat)
    requires InOrder(requests) && key in reference && t + windowMs <= reference[key].resetAt
    ensures Admitted(reference, requests, key, t, limit, windowMs) <= Left(reference[key], limit)
    decreases |requests|
  {
    if requests != [] {
      var r := requests[0];
      var next := Count(reference, r.key, r.now, windowMs);
      if r.key != key || r.now < reference[key].resetAt {
        WindowBound(next, requests[1..], key, t, limit, windowMs);
      } else {
        NoneAfter(next, requests[1..], key, t, limit, windowMs);
      }
    }
  }

  lemma {:induction false} NoneAfter(reference: Table, requests: seq<Request>, key: string, t: int, limit: nat,
                                     windowMs: nat)
    requires forall i :: 0 <= i < |requests| ==> t + windowMs <= requests[i].now
    ensures Admitted(reference, requests, key, t, limit, windowMs) == 0
    decreases |requests|
  {
    if requests != [] {
      NoneAfter(Count(reference, requests[0].key, requests[0].now, windowMs), requests[1..], key, t, limit, windowMs);
    }
  }

  /** A window running past t leaves room for itself and at most one window more. */
  lemma {:induction false} TwoWindowBound(reference: Table, requests: seq<Request>, key: string, t: int, limit: nat,
                                          windowMs: nat)
    requires InOrder(requests) && limit >= 1 && key in reference && t <= reference[key].resetAt
    ensures Admitted(reference, requests, key, t, limit, windowMs) <= Left(reference[key], limit) + limit
    decreases |requests|
  {
    if requests != [] {
      var r := requests[0];
      var next := Count(reference, r.key, r.now, windowMs);
      if r.key == key && reference[key].resetAt <= r.now {
        WindowBound(next, requests[1..], key, t, limit, windowMs);
      } else {
        TwoWindowBound(next, requests[1..], key, t, limit, windowMs);
      }
    }
  }

  /** Under a clock that never goes back, at most 2 * limit - 1 requests of a key pass in any
      half-open interval of one window's length, whatever other keys do. */
  lemma {:induction false} IntervalBound(reference: Table, requests: seq<Request>, key: string, t: int, limit: nat,
                                         windowMs: nat)
    requires InOrder(requests) && limit >= 1
    requires key in reference ==> reference[key].count >= 1
    ensures Admitted(reference, requests, key, t, limit, windowMs) <= 2 * limit - 1
    decreases |requests|
  {
    if requests != [] {
      var r := requests[0];
      var next := Count(reference, r.key, r.now, windowMs);
      if key in reference && t <= reference[key].resetAt {
        TwoWindowBound(reference, requests, key, t, limit, windowMs);
      } else if r.key == key && t <= r.now {
        WindowBound(next, requests[1..], key, t, limit, windowMs);
      } else {
        IntervalBound(next, requests[1..], key, t, limit, windowMs);
      }
    }
  }

  function Repeat(key: string, now: int, n: nat): seq<Request> {
    if n == 0 then [] else [Request(key, now)] + Repeat(key, now, n - 1)
  }

  /** A burst inside a running window passes while the window has room. */
  lemma {:induction false} BurstPasses(reference: Table, key: string, now: int, n: nat, rest: seq<Request>, t: int,
                                       limit: nat, windowMs: nat)
    requires key in reference && now < reference[key].resetAt && t <= now < t + windowMs
    requires reference[key].count + n <= limit
    ensures Admitted(reference, Repeat(key, now, n) + rest, key, t, limit, windowMs)
         == n + Admitted(reference[key := Window(reference[key].count + n, reference[key].resetAt)], rest, key, t,
           limit, windowMs)
    decreases n
  {
    if n == 0 {
      assert Repeat(key, now, 0) + rest == rest;
      assert reference[key := Window(reference[key].count, reference[key].resetAt)] == reference;
    } else {
      var next := Count(reference, key, now, windowMs);
      FirstRequest(reference, Request(key, now), Repeat(key, now, n - 1) + rest, key, t, limit, windowMs);
      hide Admitted;
      assert Repeat(key, now, n) + rest == [Request(key, now)] + (Repeat(key, now, n - 1) + rest);
      BurstPasses(next, key, now, n - 1, rest, t, limit, windowMs);
      assert next[key := Window(next[key].count + (n - 1), next[key].resetAt)]
          == reference[key := Window(reference[key].count + n, reference[key].resetAt)];
    }
  }

  lemma {:induction false} RepeatInOrder(key: string, now: int, n: nat)
    ensures |Repeat(key, now, n)| == n && forall i :: 0 <= i < n ==> Repeat(key, now, n)[i] == Request(key, now)
  {
    if n > 0 {
      RepeatInOrder(key, now, n - 1);
    }
  }

  /** The run that reaches the bound: one request opens a window, the rest of its room is taken in
      its last millisecond, and the next window is spent as soon as it opens. */
  function WorstRun(key: string, limit: nat, windowMs: nat): seq<Request>
    requires limit >= 1
  {
    [Request(key, 0)] + (Repeat(key, windowMs - 1, limit - 1) +
      ([Request(key, windowMs)] + (Repeat(key, windowMs, limit - 1) + [])))
  }

  /** The bound is exact: no smaller one holds for any limit and any window of 2 ms or more. */
  lemma BoundIsReached(key: string, limit: nat, windowMs: nat)
    requires limit >= 1 && windowMs >= 2
    ensures InOrder(WorstRun(key, limit, windowMs))
    ensures Admitted(map[], WorstRun(key, limit, windowMs), key, windowMs - 1, limit, windowMs) == 2 * limit - 1
  {
    WorstRunInOrder(key, limit, windowMs);
    hide InOrder;
    var t := windowMs - 1;
    var running: Table := map[key := Window(1, windowMs)];
    var rest := [Request(key, windowMs)] + (Repeat(key, windowMs, limit - 1) + []);
    FirstRequest(map[], Request(key, 0), Repeat(key, windowMs - 1, limit - 1) + rest, key, t, limit, windowMs);
    assert Count(map[], key, 0, windowMs) == running;
    hide Admitted;
    BurstPasses(running, key, windowMs - 1, limit - 1, rest, t, limit, windowMs);
    SecondWindow(running[key := Window(limit, windowMs)], key, limit, windowMs);
  }

  lemma WorstRunInOrder(key: string, limit: nat, windowMs: nat)
    requires limit >= 1 && windowMs >= 2
    ensures InOrder(WorstRun(key, limit, windowMs))
  {
    RepeatInOrder(key, windowMs - 1, limit - 1);
    RepeatInOrder(key, windowMs, limit - 1);
    var run := WorstRun(key, limit, windowMs);
    assert forall i :: 0 <= i < |run| ==> run[i].now == if i == 0 then 0 else if i < limit then windowMs - 1
      else windowMs;
  }

  lemma FirstRequest(reference: Table, r: Request, rest: seq<Request>, key: string, t: int, limit: nat, windowMs: nat)
    ensures var next := Count(reference, r.key, r.now, windowMs);
      Admitted(reference, [r] + rest, key, t, limit, windowMs)
        == (if r.key == key && t <= r.now < t + windowMs && Decide(next[key], limit, r.now).ok then 1 else 0)
           + Admitted(next, rest, key, t, limit, windowMs)
  {
    assert ([r] + rest)[1..] == rest;
  }

  /** When a window is over, a burst of `limit` passes at once. */
  lemma SecondWindow(full: Table, key: string, limit: nat, windowMs: nat)
    requires limit >= 1 && windowMs >= 2 && key in full && full[key].resetAt <= windowMs
    ensures Admitted(full, [Request(key, windowMs)] + (Repeat(key, windowMs, limit - 1) + []), key, windowMs - 1, limit,
            windowMs)
         == limit
  {
    var burst := Repeat(key, windowMs, limit - 1);
    FirstRequest(full, Request(key, windowMs), burst + [], key, windowMs - 1, limit, windowMs);
    var reopened := Count(full, key, windowMs, windowMs);
    BurstPasses(reopened, key, windowMs, limit - 1, [], windowMs - 1, limit, windowMs);
  }
}
