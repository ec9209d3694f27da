/**
 The guarded Postgres restore of scripts/backup-store.js: create a private staging database, restore
 and verify it under a guard connection, freeze it, rename it to the target, publish the runtime audit
 directory, clean the private staging, and only then let clients connect.
 */
module PgRestore {
  import opened Wrappers
  import opened PgCluster

  datatype Plan = Plan(staging: string, target: string)

  const RESTORE_CONNECTION_LIMIT := 2

  /** `code` is the SQLSTATE of a thrown driver error, empty for the errors thrown by the checks. */
  datatype Step = Done | Threw(code: string)

  /** What a run does besides its database commands, in the order it does it. */
  datatype Outside =
    | StageAudit | CheckServer | SecureAccess | GuardReports | Inventory | LoadDump | VerifyAudit | BindRuntime
    | PublishAudit | CleanStaging

  /** All of it, with a look at the guard wherever one is due. */
  function NthOutside(n: nat): Outside
    requires n < 13
  {
    match n
    case 0 => StageAudit
    case 1 => CheckServer
    case 2 => SecureAccess
    case 4 => Inventory
    case 6 => LoadDump
    case 8 => VerifyAudit
    case 10 => BindRuntime
    case 11 => PublishAudit
    case 12 => CleanStaging
    case _ => GuardReports
  }

  /** What a step outside the database is a milestone of. */
  function Noted(m: Milestones, step: Outside): Milestones {
    match step
    case VerifyAudit => m.(auditVerified := true)
    case PublishAudit => m.(auditPublished := true)
    case CleanStaging => m.(stagingCleaned := true)
    case _ => m
  }

  datatype EnableOutcome = Enabled | FrozenStill | Uncertain

  /** What a failed run tells the operator: the bare error, or an error naming where the database is. */
  datatype Retained = InStaging | InTarget(maybeConnectable: bool) | Unclear

  datatype Result =
    | Restored(name: string, identity: Identity)
    | FailedBare
    | FailedRetaining(place: Retained)

  /** Every milestone that must come before clients may connect to the target. */
  predicate AllReached(m: Milestones) {
    m.auditVerified && m.guardClosed && m.renameConfirmed && m.auditPublished && m.stagingCleaned
  }

  ghost predicate SafeState(s: Snapshot, target: string) {
    s.our.Some? ==> forall n :: OursAt(s.our.value, s.dbs, n) ==>
      && (s.dbs[n].allowConn && (n == target || s.reached.guardClosed) ==> n == target && AllReached(s.reached))
      && (s.reached.guardClosed && !s.dbs[n].allowConn ==> s.dbs[n].sessions == {})
  }

  ghost predicate SafeStates(states: seq<Snapshot>, target: string) {
    forall s :: s in states ==> SafeState(s, target)
  }

  /** Issued on exactly the recorded database, frozen and session-free, and not under the target name. */
  predicate SafeDrop(d: Drop, identity: Identity, target: string) {
    && d.name != target
    && d.found.Some?
    && IdentityOf(d.found.value) == identity
    && !d.found.value.allowConn
    && d.found.value.sessions == {}
  }

  predicate Matches(row: Option<Db>, identity: Identity, allow: bool, limit: int) {
    && row.Some?
    && IdentityOf(row.value) == identity
    && !row.value.template
    && row.value.allowConn == allow
    && row.value.connLimit == limit
  }

  class Restore {
    const plan: Plan
    const role: nat
    const cluster: Cluster

    // the closure variables of the control object
    var guard: Option<nat>
    var stagingIdentity: Option<Identity>

    // the `state` record
    var stagingOwned: bool
    var createUncertain: bool
    var renameAttempted: bool
    var renamed: bool
    var published: bool
    var enableAttempted: bool
    var enabled: bool

    /** CREATE took effect and its confirming read failed with a conclusive code. */
    ghost var orphaned: bool
    /** How many of the steps outside the database have worked, one after the other. */
    ghost var done: nat

    constructor (cluster: Cluster, plan: Plan, role: nat)
      requires cluster.Valid()
      ensures this.cluster == cluster && this.plan == plan && this.role == role
      ensures guard == None && stagingIdentity == None
      ensures !stagingOwned && !createUncertain && !renameAttempted && !renamed && !published && !enableAttempted
      ensures !enabled
      ensures !orphaned && done == 0
    {
      this.cluster, this.plan, this.role := cluster, plan, role;
      guard, stagingIdentity := None, None;
      stagingOwned, createUncertain, renameAttempted, renamed := false, false, false, false;
      published, enableAttempted, enabled, orphaned, done := false, false, false, false, 0;
    }

    /** Holds between any two steps of a run. */
    ghost predicate Inv()
      reads cluster`dbs, cluster`our, cluster`states, cluster`reached
    {
      && cluster.Valid()
      && plan.staging != plan.target
      && SafeStates(cluster.states, plan.target)
      && SafeState(cluster.Now(), plan.target)
    }

    /** The database of this run, as recorded at creation, is under this name. */
    ghost predicate Placed(name: string)
      reads this`stagingIdentity, cluster`dbs, cluster`our
    {
      && stagingIdentity.Some?
      && cluster.our == Some(stagingIdentity.value.oid)
      && OursAt(stagingIdentity.value.oid, cluster.dbs, name)
      && cluster.dbs[name].owner == stagingIdentity.value.owner
    }

    ghost predicate Frozen(name: string)
      reads this`stagingIdentity, cluster`dbs, cluster`our
    {
      Placed(name) && !cluster.dbs[name].allowConn
    }

    /** Where the database of this run is, and frozen there. */
    ghost function Places(): (bool, bool, bool, bool)
      reads this`stagingIdentity, cluster`dbs, cluster`our
    {
      (Placed(plan.staging), Frozen(plan.staging), Placed(plan.target), Frozen(plan.target))
    }

    /** Where it was it still is. */
    ghost predicate Kept(before: (bool, bool, bool, bool))
      reads this`stagingIdentity, cluster`dbs, cluster`our
    {
      && (before.0 ==> Placed(plan.staging)) && (before.1 ==> Frozen(plan.staging))
      && (before.2 ==> Placed(plan.target)) && (before.3 ==> Frozen(plan.target))
    }

    /** Some step outside the database: it works or throws, while others act on the cluster. */
    method Attempt(step: Outside) returns (r: Step)
      requires Inv() && done < 13 && step == NthOutside(done) && Noted(cluster.reached, step) == cluster.reached
      modifies this`done, cluster`dbs, cluster`states
      ensures Inv() && EnvStep(cluster.our, old(cluster.dbs), cluster.dbs) && Kept(old(Places()))
      ensures cluster.states == old(cluster.states) + [cluster.Now()]
      ensures cluster.alone ==> r.Done? && cluster.dbs == old(cluster.dbs)
      ensures done == if r.Done? then old(done) + 1 else old(done)
    {
      cluster.Interfere();
      var lost: bool := *;
      r := if lost && !cluster.alone then Threw("") else Done;
      if r.Done? {
        done := done + 1;
      }
    }

    /** The same for a step that is a milestone of the run. */
    method Reach(step: Outside) returns (r: Step)
      requires Inv() && done < 13 && step == NthOutside(done)
      modifies this`done, cluster`dbs, cluster`states, cluster`reached
      ensures Inv() && Kept(old(Places()))
      ensures cluster.alone ==> r.Done? && cluster.dbs == old(cluster.dbs)
      ensures done == if r.Done? then old(done) + 1 else old(done)
      ensures cluster.reached == if r.Done? then Noted(old(cluster.reached), step) else old(cluster.reached)
    {
      cluster.Interfere();
      var lost: bool := *;
      r := if lost && !cluster.alone then Threw("") else Done;
      if r.Done? {
        done := done + 1;
        cluster.reached := Noted(cluster.reached, step);
      }
    }

    /** In some state of the run the name was free. */
    ghost predicate SeenFree(name: string)
      reads cluster`states
    {
      exists s :: s in cluster.states && name !in s.dbs
    }

    /** Nobody interferes with an empty cluster, and the catalog read after the CREATE is refused with a code
        that passes for proof that nothing was created. */
    ghost predicate Unlucky()
      reads cluster`dbs
    {
      cluster.alone && cluster.dbs == map[] && cluster.refusing.Some? && cluster.refusing.value in CONCLUSIVE_REJECTIONS
    }

    /** Nobody else is at work, and the catalog can be read. */
    ghost predicate Undisturbed() {
      cluster.alone && cluster.refusing.None?
    }

    ghost predicate BothFree(dbs: map<string, Db>) {
      plan.staging !in dbs && plan.target !in dbs
    }

    method Preflight() returns (r: Step)
      requires Inv() && cluster.our == None && done == 1
      modifies this`done, cluster`dbs, cluster`states
      ensures Inv() && (r.Done? ==> SeenFree(plan.target) && SeenFree(plan.staging))
      ensures r.Done? ==> done == 2
      ensures old(Unlucky()) ==> r.Done? && Unlucky()
      ensures Undisturbed() ==> cluster.dbs == old(cluster.dbs) && (r.Done? <==> BothFree(cluster.dbs))
    {
      var target := cluster.Row(plan.target);
      if target.ReadError? || target.value.Some? {
        return Threw("");
      }
      assert cluster.states[|cluster.states| - 1] in cluster.states;
      var staging := cluster.Row(plan.staging);
      if staging.ReadError? || staging.value.Some? {
        return Threw("");
      }
      assert cluster.states[|cluster.states| - 1] in cluster.states;
      r := Attempt(CheckServer);
    }

    /** The database of this run, in this state. */
    ghost function Fresh(allow: bool, limit: int, sessions: set<nat>): Db
      requires stagingIdentity.Some?
      reads this`stagingIdentity
    {
      Db(stagingIdentity.value.oid, role, allow, limit, false, sessions)
    }

    /** `misread`: CREATE took effect, and the catalog read that should confirm it failed with a code
        that the caller takes as proof that nothing was created. */
    method CreateStaging() returns (r: Step, ghost misread: bool)
      requires Inv() && cluster.our == None && stagingIdentity == None && !cluster.reached.guardClosed
      modifies this`stagingIdentity, cluster`dbs, cluster`our, cluster`states, cluster`drops
      ensures Inv() && cluster.drops == old(cluster.drops)
      ensures r.Done? ==> Frozen(plan.staging) && stagingIdentity.value.owner == role && !misread
      ensures cluster.our.Some? ==>
        OursAt(cluster.our.value, cluster.dbs, plan.staging) && !cluster.dbs[plan.staging].allowConn
      ensures misread <==> r.Threw? && r.code in CONCLUSIVE_REJECTIONS && cluster.our.Some?
      ensures r.Threw? ==> stagingIdentity == None
      ensures old(Unlucky()) ==> misread
      ensures Undisturbed() && plan.staging !in old(cluster.dbs) ==>
        && r.Done?
        && cluster.dbs == old(cluster.dbs)[plan.staging := Fresh(false, RESTORE_CONNECTION_LIMIT, {})]
    {
      misread := false;
      var created, before, freshOid := cluster.Exec(CreateDatabase(plan.staging, role, RESTORE_CONNECTION_LIMIT));
      if created.Err? {
        return Threw(created.code), false;
      }
      var row := cluster.Row(plan.staging);
      if row.ReadError? {
        return Threw(row.code), row.code in CONCLUSIVE_REJECTIONS;
      }
      if row.value.None? || !Matches(row.value, Identity(row.value.value.oid, role), false, RESTORE_CONNECTION_LIMIT) {
        return Threw(""), false;
      }
      stagingIdentity := Some(IdentityOf(row.value.value));
      r := Done;
    }

    method Alter(c: Command) returns (r: Step)
      requires Inv() && Placed(plan.staging)
      requires (c.AllowConnections? || c.ConnectionLimit?) && c.name == plan.staging
      requires c.AllowConnections? && c.allow ==> !cluster.reached.guardClosed
      modifies cluster`dbs, cluster`our, cluster`states, cluster`drops
      ensures Inv() && Placed(plan.staging) && cluster.drops == old(cluster.drops)
      ensures r.Done? && c.AllowConnections? ==> cluster.dbs[plan.staging].allowConn == c.allow
      ensures c != AllowConnections(plan.staging, true) && old(Frozen(plan.staging)) ==> Frozen(plan.staging)
      ensures Undisturbed() ==> r.Done? && Apply(c, old(cluster.dbs), 0) == Some(cluster.dbs)
    {
      var outcome, before, freshOid := cluster.Exec(c);
      r := if outcome.Ok? then Done else Threw(outcome.code);
    }

    /** The catalog row of a name. */
    method Look(name: string) returns (r: Read<Option<Db>>)
      requires Inv()
      modifies cluster`dbs, cluster`states
      ensures Inv() && Kept(old(Places()))
      ensures r.Got? ==> r.value == if name in cluster.dbs then Some(cluster.dbs[name]) else None
      ensures Undisturbed() ==> r.Got? && cluster.dbs == old(cluster.dbs)
    {
      r := cluster.Row(name);
    }

    /** `createGuardDriver` and the session it reports. */
    method ConnectGuard() returns (r: Step)
      requires Inv() && Placed(plan.staging) && !cluster.reached.guardClosed
      modifies this`guard, cluster`dbs, cluster`states
      ensures Inv() && Placed(plan.staging)
      ensures Undisturbed() && old(cluster.dbs[plan.staging] == Fresh(true, RESTORE_CONNECTION_LIMIT, {})) ==>
        && r.Done? && guard.Some?
        && cluster.dbs
           == old(cluster.dbs)[plan.staging := Fresh(true, RESTORE_CONNECTION_LIMIT, {guard.value})]
    {
      var connection, before := cluster.Connect(plan.staging);
      if connection.ReadError? {
        return Threw("");
      }
      guard := Some(connection.value);
      r := Done;
    }

    method OpenGuard() returns (r: Step)
      requires Inv() && Frozen(plan.staging) && !cluster.reached.guardClosed && done == 2
      modifies this`guard, this`done, cluster`dbs, cluster`our, cluster`states, cluster`drops
      ensures Inv() && Placed(plan.staging) && cluster.drops == old(cluster.drops) && (r.Done? ==> GuardAlone())
      ensures r.Done? ==> done == 4
      ensures Undisturbed() && old(cluster.dbs[plan.staging] == Fresh(false, RESTORE_CONNECTION_LIMIT, {})) ==>
        && r.Done? && guard.Some?
        && cluster.dbs
           == old(cluster.dbs)[plan.staging := Fresh(true, RESTORE_CONNECTION_LIMIT, {guard.value})]
    {
      hide SafeState, SafeStates;
      r := Attempt(SecureAccess); // REVOKE and the owner-only ACL check
      if r.Threw? {
        return;
      }
      r := Alter(AllowConnections(plan.staging, true));
      if r.Threw? {
        return;
      }
      var row := Look(plan.staging);
      if row.ReadError? || !Matches(row.value, stagingIdentity.value, true, RESTORE_CONNECTION_LIMIT) {
        return Threw("");
      }
      r := ConnectGuard();
      if r.Threw? {
        return;
      }
      r := AssertOnlyGuard();
    }

    /** The guard is the only session of the staging database. */
    ghost predicate GuardAlone()
      reads this`guard, cluster`dbs
    {
      guard.Some? && plan.staging in cluster.dbs && cluster.dbs[plan.staging].sessions == {guard.value}
    }

    method AssertOnlyGuard() returns (r: Step)
      requires Inv() && done < 13 && NthOutside(done) == GuardReports
      modifies this`done, cluster`dbs, cluster`states
      ensures Inv() && Kept(old(Places())) && (r.Done? ==> GuardAlone())
      ensures r.Done? ==> done == old(done) + 1
      ensures Undisturbed() ==> cluster.dbs == old(cluster.dbs) && (r.Done? <==> GuardAlone())
    {
      if guard.None? {
        return Threw("");
      }
      r := Attempt(GuardReports);
      if r.Threw? {
        return;
      }
      var active := cluster.Sessions(plan.staging);
      return if active.Got? && active.value == {guard.value} then Done else Threw("");
    }

    method Freeze() returns (r: Step)
      requires Inv() && Placed(plan.staging)
      modifies cluster`dbs, cluster`our, cluster`states, cluster`drops
      ensures Inv() && Placed(plan.staging) && cluster.drops == old(cluster.drops)
      ensures r.Done? || old(Frozen(plan.staging)) ==> Frozen(plan.staging)
      ensures Undisturbed() && !old(cluster.dbs[plan.staging]).template ==>
        && r.Done?
        && cluster.dbs == old(cluster.dbs)[plan.staging := old(cluster.dbs[plan.staging]).(allowConn := false,
                                                                                           connLimit := -1)]
    {
      r := Alter(AllowConnections(plan.staging, false));
      if r.Threw? {
        return;
      }
      r := Alter(ConnectionLimit(plan.staging, -1));
      if r.Threw? {
        return;
      }
      var row := cluster.Row(plan.staging);
      return if row.Got? && Matches(row.value, stagingIdentity.value, false, -1) then Done else Threw("");
    }

    /** Drain: sessions of a frozen database only leave. */
    method WaitForNoSessions(name: string) returns (r: Step)
      requires Inv() && Placed(name)
      modifies cluster`dbs, cluster`states
      ensures Inv() && Placed(name) && (old(Frozen(name)) ==> Frozen(name))
      ensures r.Done? ==> cluster.dbs[name].sessions == {}
      ensures Undisturbed() ==> cluster.dbs == old(cluster.dbs) && (cluster.dbs[name].sessions == {} ==> r.Done?)
    {
      var active := cluster.Sessions(name);
      return if active.Got? && active.value == {} then Done else Threw("");
    }

    /** `guard?.close?.()`, which may throw; the guard is then still held. */
    method CloseGuard() returns (r: Step)
      requires Inv() && Placed(plan.staging)
      modifies this`guard, cluster`dbs, cluster`states
      ensures Inv() && Placed(plan.staging) && (old(Frozen(plan.staging)) ==> Frozen(plan.staging))
      ensures guard == if r.Done? then None else old(guard)
      ensures Undisturbed() && old(GuardAlone()) ==>
        && r.Done?
        && cluster.dbs == old(cluster.dbs)[plan.staging := old(cluster.dbs[plan.staging]).(sessions := {})]
    {
      if guard.None? {
        return Done;
      }
      var lost: bool := *;
      if lost && !cluster.alone {
        return Threw("");
      }
      var before := cluster.Disconnect(plan.staging, guard.value);
      assert {guard.value} - {guard.value} == {};
      guard := None;
      r := Done;
    }

    method CloseGuardAndAssertNoConnections() returns (r: Step)
      requires Inv() && Frozen(plan.staging)
      modifies this`guard, cluster`dbs, cluster`states, cluster`reached
      ensures Inv() && Frozen(plan.staging)
      ensures r.Done? ==> guard == None && cluster.dbs[plan.staging].sessions == {}
      ensures cluster.reached == old(cluster.reached).(guardClosed := old(cluster.reached).guardClosed || r.Done?)
      ensures Undisturbed() && old(GuardAlone()) ==>
        && r.Done?
        && cluster.dbs == old(cluster.dbs)[plan.staging := old(cluster.dbs[plan.staging]).(sessions := {})]
    {
      r := CloseGuard();
      if r.Threw? {
        return;
      }
      r := WaitForNoSessions(plan.staging);
      if r.Done? {
        cluster.reached := cluster.reached.(guardClosed := true);
      }
    }

    method Rename() returns (r: Step)
      requires Inv() && Frozen(plan.staging) && cluster.reached.guardClosed
      modifies cluster`dbs, cluster`our, cluster`states, cluster`drops, cluster`reached
      ensures Inv() && cluster.drops == old(cluster.drops)
      ensures Frozen(plan.staging) || Frozen(plan.target)
      ensures r.Done? ==> Frozen(plan.target)
      ensures cluster.reached
              == old(cluster.reached).(renameConfirmed := old(cluster.reached).renameConfirmed || r.Done?)
      ensures Undisturbed() && plan.target !in old(cluster.dbs)
              && old(cluster.dbs[plan.staging] == Fresh(false, -1, {})) ==>
        r.Done? && cluster.dbs == (old(cluster.dbs) - {plan.staging})[plan.target := Fresh(false, -1, {})]
    {
      hide Inv;
      var target := Look(plan.target);
      if target.ReadError? {
        return Threw(target.code);
      }
      if target.value.Some? {
        return Threw("42P04");
      }
      r := ExecRename();
      if r.Threw? {
        return;
      }
      r := ConfirmRename();
    }

    method ConfirmRename() returns (r: Step)
      requires Inv() && Frozen(plan.target)
      modifies cluster`dbs, cluster`states, cluster`reached
      ensures Inv() && Frozen(plan.target)
      ensures cluster.reached
              == old(cluster.reached).(renameConfirmed := old(cluster.reached).renameConfirmed || r.Done?)
      ensures Undisturbed() ==> cluster.dbs == old(cluster.dbs)
      ensures Undisturbed() && cluster.dbs[plan.target] == Fresh(false, -1, {}) && plan.staging !in cluster.dbs
              && stagingIdentity.value.owner == role ==>
        r.Done?
    {
      hide Inv;
      var row := Look(plan.target);
      if row.ReadError? || !Matches(row.value, stagingIdentity.value, false, -1) {
        return Threw("");
      }
      var left := Look(plan.staging);
      if left.ReadError? || left.value.Some? {
        return Threw("");
      }
      NoteRenamed();
      r := Done;
    }

    ghost method NoteRenamed()
      requires Inv()
      modifies cluster`reached
      ensures Inv() && cluster.reached == old(cluster.reached).(renameConfirmed := true)
    {
      cluster.reached := cluster.reached.(renameConfirmed := true);
    }

    method ExecRename() returns (r: Step)
      requires Inv() && Frozen(plan.staging) && cluster.reached.guardClosed
      modifies cluster`dbs, cluster`our, cluster`states, cluster`drops
      ensures Inv() && cluster.drops == old(cluster.drops)
      ensures Frozen(plan.staging) || Frozen(plan.target)
      ensures r.Done? ==> Frozen(plan.target)
      ensures Undisturbed() && plan.target !in old(cluster.dbs) && old(cluster.dbs[plan.staging].sessions) == {} ==>
        && r.Done?
        && cluster.dbs == (old(cluster.dbs) - {plan.staging})[plan.target := old(cluster.dbs[plan.staging])]
    {
      var outcome, before, freshOid := cluster.Exec(RenameDatabase(plan.staging, plan.target));
      var oid := stagingIdentity.value.oid;
      assert OursAt(oid, before, plan.staging);
      if cluster.dbs == before {
        assert Frozen(plan.staging);
      } else {
        assert OursAt(oid, cluster.dbs, plan.target);
        assert Frozen(plan.target);
      }
      r := if outcome.Ok? then Done else Threw(outcome.code);
    }

    method EnableTarget() returns (r: EnableOutcome)
      requires Inv() && Frozen(plan.target) && AllReached(cluster.reached)
      modifies cluster`dbs, cluster`our, cluster`states, cluster`drops
      ensures Inv() && Placed(plan.target) && cluster.drops == old(cluster.drops)
      ensures r.Enabled? ==> cluster.dbs[plan.target].allowConn
      ensures r.FrozenStill? ==> Frozen(plan.target)
      ensures Undisturbed() && old(cluster.dbs[plan.target] == Fresh(false, -1, {})) ==>
        r.Enabled? && cluster.dbs == old(cluster.dbs)[plan.target := Fresh(true, -1, {})]
    {
      AllowTarget();
      var current := cluster.Row(plan.target);
      if current.ReadError? {
        return Uncertain;
      }
      if Matches(current.value, stagingIdentity.value, true, -1) {
        return Enabled;
      }
      if current.value.Some? && IdentityOf(current.value.value) == stagingIdentity.value
         && !current.value.value.allowConn {
        return FrozenStill;
      }
      return Uncertain;
    }

    /** The ALTER that lets clients in, whether or not it works. */
    method AllowTarget()
      requires Inv() && Frozen(plan.target) && AllReached(cluster.reached)
      modifies cluster`dbs, cluster`our, cluster`states, cluster`drops
      ensures Inv() && Placed(plan.target) && cluster.drops == old(cluster.drops)
      ensures Undisturbed() ==>
        cluster.dbs == old(cluster.dbs)[plan.target := old(cluster.dbs[plan.target]).(allowConn := true)]
    {
      var altered, before, freshOid := cluster.Exec(AllowConnections(plan.target, true));
    }

    /** Where the database is after a rename that may or may not have taken effect. */
    method ReconcileRename() returns (r: Read<Retained>)
      requires Inv() && (Frozen(plan.staging) || Frozen(plan.target))
      modifies cluster`dbs, cluster`states
      ensures Inv() && (Frozen(plan.staging) || Frozen(plan.target))
      ensures r == Got(InStaging) ==> Frozen(plan.staging)
      ensures r.Got? && r.value.InTarget? ==> Frozen(plan.target)
    {
      var staging := cluster.Row(plan.staging);
      if staging.ReadError? {
        return ReadError(staging.code);
      }
      var target := cluster.Row(plan.target);
      if target.ReadError? {
        return ReadError(target.code);
      }
      if staging.value.Some? && IdentityOf(staging.value.value) == stagingIdentity.value {
        return Got(InStaging);
      }
      if staging.value.None? && target.value.Some? && IdentityOf(target.value.value) == stagingIdentity.value
         && !target.value.value.allowConn {
        return Got(InTarget(false));
      }
      return Got(Unclear);
    }

    /** Every DROP so far was safe. */
    ghost predicate DropsSafe()
      reads this`stagingIdentity, cluster`drops
    {
      forall d :: d in cluster.drops ==> stagingIdentity.Some? && SafeDrop(d, stagingIdentity.value, plan.target)
    }

    /** No database with the oid recorded at creation is left. */
    ghost predicate Gone()
      reads cluster`dbs, cluster`our
    {
      cluster.our.Some? ==> forall n :: !OursAt(cluster.our.value, cluster.dbs, n)
    }

    method CleanupOwnedStaging() returns (r: Step)
      requires Inv() && Placed(plan.staging) && DropsSafe()
      modifies this`guard, cluster`dbs, cluster`our, cluster`states, cluster`drops
      ensures Inv() && DropsSafe() && cluster.our == old(cluster.our)
      ensures Gone() || Placed(plan.staging)
      ensures r.Done? ==> Gone()
    {
      r := Freeze();
      if r.Threw? {
        return;
      }
      r := CloseGuard();
      if r.Threw? {
        return;
      }
      r := WaitForNoSessions(plan.staging);
      if r.Threw? {
        return;
      }
      var row := cluster.Row(plan.staging);
      if row.ReadError? || !Matches(row.value, stagingIdentity.value, false, -1) {
        return Threw("");
      }
      r := DropStaging();
      if r.Threw? {
        return;
      }
      var left := cluster.Row(plan.staging);
      if left.ReadError? || left.value.Some? {
        return Threw("");
      }
      return Done;
    }

    method DropStaging() returns (r: Step)
      requires Inv() && Frozen(plan.staging) && DropsSafe() && cluster.dbs[plan.staging].sessions == {}
      modifies cluster`dbs, cluster`our, cluster`states, cluster`drops
      ensures Inv() && DropsSafe() && cluster.our == old(cluster.our)
      ensures Gone() || Placed(plan.staging)
      ensures r.Done? ==> Gone()
    {
      var dropped, before, freshOid := cluster.Exec(DropDatabase(plan.staging));
      var oid := stagingIdentity.value.oid;
      assert OursAt(oid, before, plan.staging);
      assert SafeDrop(Drop(plan.staging, Some(before[plan.staging])), stagingIdentity.value, plan.target);
      if cluster.dbs != before {
        forall n ensures !OursAt(oid, cluster.dbs, n) {
          assert OursAt(oid, cluster.dbs, n) ==> OursAt(oid, before, n);
        }
      }
      r := if dropped.Ok? then Done else Threw(dropped.code);
    }

    // ---- What a failed run reports ----

    /** Where the flags say the database is. */
    ghost predicate FlagsAgree()
      reads this`createUncertain, this`stagingOwned, this`renameAttempted, this`renamed, this`orphaned
      reads this`enableAttempted
      reads this`stagingIdentity, cluster`dbs, cluster`our
    {
      && (createUncertain ==> !stagingOwned && !renameAttempted && !renamed)
      && (!createUncertain && !stagingOwned && !renamed ==> !renameAttempted && (cluster.our.Some? <==> orphaned))
      && (createUncertain || orphaned ==> cluster.our.Some? ==> OursAt(cluster.our.value, cluster.dbs, plan.staging))
      && (stagingOwned ==> !renamed && !orphaned && (Placed(plan.staging) || (renameAttempted && Placed(plan.target))))
      && (renameAttempted && !renamed ==> stagingOwned && (Frozen(plan.staging) || Frozen(plan.target)))
      && (renamed ==> !orphaned && renameAttempted && Placed(plan.target) && (!enableAttempted ==> Frozen(plan.target)))
    }

    /** The report is true of where the database is. */
    ghost predicate ReportTrue(r: Result)
      reads this, cluster
    {
      match r
      case Restored(name, identity) =>
        && stagingIdentity == Some(identity) && name == plan.target && Placed(name) && cluster.dbs[name].allowConn
      case FailedBare => !orphaned ==> Gone()
      case FailedRetaining(InStaging) => Gone() || Placed(plan.staging)
      case FailedRetaining(InTarget(maybeConnectable)) =>
        Placed(plan.target) && (!maybeConnectable ==> Frozen(plan.target))
      case FailedRetaining(Unclear) =>
        cluster.our.Some? ==>
          || OursAt(cluster.our.value, cluster.dbs, plan.staging)
          || OursAt(cluster.our.value, cluster.dbs, plan.target)
    }

    method HandleFailure(enable: EnableOutcome) returns (r: Result)
      requires Inv() && DropsSafe() && FlagsAgree()
      requires enable.FrozenStill? ==> renamed && Frozen(plan.target)
      requires enableAttempted ==> renamed && !enable.Enabled?
      modifies this`guard, this`renamed, this`stagingOwned, cluster`dbs, cluster`our, cluster`states, cluster`drops
      ensures Inv() && DropsSafe() && ReportTrue(r) && !r.Restored?
      ensures r.FailedBare? && orphaned ==> !Gone()
      ensures orphaned && !createUncertain ==> r.FailedBare?
      ensures !createUncertain && !renameAttempted && !old(renamed) && !old(stagingOwned) ==>
        r.FailedBare? && cluster.dbs == old(cluster.dbs)
    {
      if createUncertain {
        return FailedRetaining(Unclear);
      }
      if renameAttempted && !renamed {
        var place := ReconcileRename();
        if place.ReadError? {
          return FailedRetaining(Unclear);
        }
        if place.value.InTarget? {
          renamed := true;
          stagingOwned := false;
        } else if place.value.Unclear? {
          return FailedRetaining(Unclear);
        }
      }
      if renamed {
        return FailedRetaining(InTarget(enableAttempted && enable.Uncertain?));
      }
      if !stagingOwned {
        return FailedBare;
      }
      var cleaned := CleanupOwnedStaging();
      if cleaned.Threw? {
        return FailedRetaining(InStaging);
      }
      stagingOwned := false;
      return FailedBare;
    }

    // ---- The run ----

    method Run() returns (r: Result)
      requires cluster.Valid() && plan.staging != plan.target && cluster.our == None
      requires cluster.states == [] && cluster.drops == []
      requires cluster.reached == Milestones(false, false, false, false, false)
      requires stagingIdentity == None && guard == None && !orphaned && done == 0
      requires !stagingOwned && !createUncertain && !renameAttempted && !renamed && !published && !enableAttempted
      requires !enabled
      modifies this, cluster
      ensures SafeStates(cluster.states, plan.target)
      ensures forall d :: d in cluster.drops ==>
        stagingIdentity.Some? && SafeDrop(d, stagingIdentity.value, plan.target)
      ensures ReportTrue(r)
      ensures r.FailedBare? ==> (Gone() <==> !orphaned)
      ensures r.Restored? ==> AllReached(cluster.reached) && done == 13
      ensures old(Unlucky()) ==> r.FailedBare? && orphaned
      ensures Undisturbed() && old(BothFree(cluster.dbs)) ==>
        && r.Restored?
        && cluster.dbs == old(cluster.dbs)[plan.target := Db(r.identity.oid, role, true, -1, false, {})]
      ensures Undisturbed() && !old(BothFree(cluster.dbs)) ==> r.FailedBare? && cluster.dbs == old(cluster.dbs)
    {
      var step, uncertain := Steps();
      if step.Done? {
        return Restored(plan.target, stagingIdentity.value);
      }
      r := HandleFailure(uncertain);
    }

    /** The body of the `try`; on a throw, also how the enabling of the target ended. */
    method Steps() returns (r: Step, enable: EnableOutcome)
      requires Inv() && DropsSafe() && cluster.our == None && cluster.drops == []
      requires cluster.reached == Milestones(false, false, false, false, false)
      requires stagingIdentity == None && guard == None && !orphaned && done == 0
      requires !stagingOwned && !createUncertain && !renameAttempted && !renamed && !published && !enableAttempted
      requires !enabled
      modifies this, cluster
      ensures Inv() && DropsSafe()
      ensures r.Done? ==>
        && Placed(plan.target) && cluster.dbs[plan.target].allowConn && AllReached(cluster.reached) && !orphaned
        && done == 13
      ensures r.Threw? ==> FlagsAgree() && !enabled
      ensures r.Threw? && enable.FrozenStill? ==> renamed && Frozen(plan.target)
      ensures r.Threw? && enableAttempted ==> renamed && !enable.Enabled?
      ensures old(Unlucky()) ==> r.Threw? && orphaned && !createUncertain
      ensures Undisturbed() && old(BothFree(cluster.dbs)) ==>
        && r.Done? && stagingIdentity.Some?
        && cluster.dbs == old(cluster.dbs)[plan.target := Fresh(true, -1, {})]
      ensures Undisturbed() && !old(BothFree(cluster.dbs)) ==> NotBegun(r) && cluster.dbs == old(cluster.dbs)
    {
      hide Inv, DropsSafe, Placed, Frozen, AllReached;
      TwoNames();
      enable := Uncertain;
      r := PrepareStaging();
      if r.Threw? {
        return;
      }
      r := RestoreAndVerify();
      if r.Threw? {
        return;
      }
      r := MoveIntoPlace();
      if r.Threw? {
        return;
      }
      r, enable := LetClientsIn();
    }

    lemma TwoNames()
      requires Inv()
      ensures plan.staging != plan.target
    {
    }

    /** Nothing is left to do but to enable the target. */
    method LetClientsIn() returns (r: Step, enable: EnableOutcome)
      requires Inv() && DropsSafe() && FlagsAgree() && renamed && Frozen(plan.target) && AllReached(cluster.reached)
      requires !enabled
      modifies this`enableAttempted, this`enabled, cluster`dbs, cluster`our, cluster`states, cluster`drops
      ensures Inv() && DropsSafe()
      ensures r.Done? ==> Placed(plan.target) && cluster.dbs[plan.target].allowConn && !orphaned
      ensures r.Threw? ==> FlagsAgree() && !enabled && !enable.Enabled?
      ensures r.Threw? && enable.FrozenStill? ==> Frozen(plan.target)
      ensures Undisturbed() && old(cluster.dbs[plan.target] == Fresh(false, -1, {})) ==>
        r.Done? && cluster.dbs == old(cluster.dbs)[plan.target := Fresh(true, -1, {})]
    {
      enableAttempted := true;
      enable := EnableTarget();
      if !enable.Enabled? {
        return Threw(""), enable;
      }
      enabled := true;
      r := Done;
    }

    /** The run stopped before it created anything. */
    ghost predicate NotBegun(r: Step)
      reads this
    {
      r.Threw? && !createUncertain && !stagingOwned && !renameAttempted && !renamed
    }

    method Begin() returns (r: Step)
      requires Inv() && cluster.our == None && done == 0
      modifies this`done, cluster`dbs, cluster`states
      ensures Inv() && (r.Done? ==> done == 2)
      ensures old(Unlucky()) ==> r.Done? && Unlucky()
      ensures Undisturbed() ==> cluster.dbs == old(cluster.dbs) && (r.Done? <==> BothFree(cluster.dbs))
    {
      hide Inv, EnvStep, SeenFree;
      r := Attempt(StageAudit); // stage the runtime audit files and open the control connection
      if r.Done? {
        r := Preflight();
      }
    }

    method PrepareStaging() returns (r: Step)
      requires Inv() && DropsSafe() && cluster.our == None && cluster.drops == []
      requires cluster.reached == Milestones(false, false, false, false, false)
      requires stagingIdentity == None && guard == None && !orphaned && done == 0
      requires !stagingOwned && !createUncertain && !renameAttempted && !renamed && !enableAttempted && !enabled
      modifies this`stagingIdentity, this`guard, this`stagingOwned, this`createUncertain, this`orphaned, this`done
      modifies cluster`dbs, cluster`our, cluster`states, cluster`drops
      ensures Inv() && DropsSafe() && FlagsAgree()
      ensures r.Done? ==> done == 6
      ensures r.Done? ==> stagingOwned && !createUncertain && Placed(plan.staging)
      ensures old(Unlucky()) ==> r.Threw? && orphaned && !createUncertain
      ensures Undisturbed() && old(BothFree(cluster.dbs)) ==>
        && r.Done? && guard.Some? && stagingIdentity.Some?
        && cluster.dbs == old(cluster.dbs)[plan.staging := Fresh(true, RESTORE_CONNECTION_LIMIT, {guard.value})]
      ensures Undisturbed() && !old(BothFree(cluster.dbs)) ==> NotBegun(r) && cluster.dbs == old(cluster.dbs)
    {
      hide Inv, FlagsAgree, Placed, Frozen, EnvStep, SafeDrop, SeenFree, GuardAlone;
      r := Begin();
      if r.Threw? {
        NotStaged();
        return;
      }
      r, orphaned := CreateStaging();
      if r.Threw? {
        createUncertain := r.code !in CONCLUSIVE_REJECTIONS;
        NotStaged();
        return;
      }
      stagingOwned := true;
      r := GuardStaging();
      StillStaged();
    }

    lemma NotStaged()
      requires !stagingOwned && !renameAttempted && !renamed && !(createUncertain && orphaned)
      requires cluster.our.Some? ==> OursAt(cluster.our.value, cluster.dbs, plan.staging)
      requires !createUncertain ==> (cluster.our.Some? <==> orphaned)
      ensures FlagsAgree()
    {
    }

    method GuardStaging() returns (r: Step)
      requires Inv() && Frozen(plan.staging) && !cluster.reached.guardClosed && done == 2
      modifies this`guard, this`done, cluster`dbs, cluster`our, cluster`states, cluster`drops
      ensures Inv() && Placed(plan.staging) && cluster.drops == old(cluster.drops)
      ensures Undisturbed() && old(cluster.dbs[plan.staging] == Fresh(false, RESTORE_CONNECTION_LIMIT, {})) ==>
        && r.Done? && guard.Some?
        && cluster.dbs
           == old(cluster.dbs)[plan.staging := Fresh(true, RESTORE_CONNECTION_LIMIT, {guard.value})]
      ensures r.Done? ==> done == 6
    {
      hide SafeState, SafeStates;
      r := OpenGuard();
      if r.Threw? {
        return;
      }
      r := Attempt(Inventory); // inventory the empty database
      if r.Threw? {
        return;
      }
      r := AssertOnlyGuard();
    }

    lemma StillStaged()
      requires stagingOwned && !createUncertain && !orphaned && !renameAttempted && !renamed && Placed(plan.staging)
      ensures FlagsAgree() && stagingIdentity.Some?
    {
    }

    lemma StagedSoFar()
      requires FlagsAgree() && stagingOwned && !renameAttempted
      ensures !createUncertain && !orphaned && !renamed && Placed(plan.staging)
    {
    }

    /** pg_restore, then freeze, then verify the restored audit chain through the guard. */
    method RestoreAndVerify() returns (r: Step)
      requires Inv() && DropsSafe() && FlagsAgree() && stagingOwned && !renameAttempted && !cluster.reached.guardClosed
      requires Placed(plan.staging) && done == 6
      modifies this`done, cluster`dbs, cluster`our, cluster`states, cluster`drops, cluster`reached
      ensures Inv() && DropsSafe() && FlagsAgree()
      ensures r.Done? ==> Frozen(plan.staging) && cluster.reached == old(cluster.reached).(auditVerified := true)
      ensures Undisturbed() && old(GuardAlone()) && !old(cluster.dbs[plan.staging]).template ==>
        && r.Done?
        && cluster.dbs == old(cluster.dbs)[plan.staging := old(cluster.dbs[plan.staging]).(allowConn := false,
                                                                                           connLimit := -1)]
      ensures r.Done? ==> done == 11
    {
      StagedSoFar();
      hide Inv, DropsSafe, FlagsAgree, Placed, Frozen;
      r := LoadAndFreeze();
      if r.Done? {
        r := VerifyAndBind();
      }
      StillStaged();
    }

    method VerifyAndBind() returns (r: Step)
      requires Inv() && Frozen(plan.staging) && done == 8
      modifies this`done, cluster`dbs, cluster`states, cluster`reached
      ensures Inv() && Frozen(plan.staging)
      ensures r.Done? ==> done == 11 && cluster.reached == old(cluster.reached).(auditVerified := true)
      ensures cluster.reached == old(cluster.reached) || cluster.reached == old(cluster.reached).(auditVerified := true)
      ensures Undisturbed() && old(GuardAlone()) ==> r.Done? && cluster.dbs == old(cluster.dbs)
    {
      hide Inv, Placed, Frozen, EnvStep;
      r := Reach(VerifyAudit); // verifyAuditChainForDatabase through the guard driver
      if r.Threw? {
        return;
      }
      r := AssertOnlyGuard();
      if r.Threw? {
        return;
      }
      r := Attempt(BindRuntime); // bind the staged runtime state to the new database
    }

    /** pg_restore, and no connections from then on. */
    method LoadAndFreeze() returns (r: Step)
      requires Inv() && Placed(plan.staging) && !cluster.reached.guardClosed && done == 6
      modifies this`done, cluster`dbs, cluster`our, cluster`states, cluster`drops
      ensures Inv() && Placed(plan.staging) && cluster.drops == old(cluster.drops)
      ensures r.Done? ==> Frozen(plan.staging) && done == 8
      ensures Undisturbed() && old(GuardAlone()) && !old(cluster.dbs[plan.staging]).template ==>
        && r.Done?
        && cluster.dbs == old(cluster.dbs)[plan.staging := old(cluster.dbs[plan.staging]).(allowConn := false,
                                                                                           connLimit := -1)]
    {
      hide Inv, EnvStep;
      r := Attempt(LoadDump);
      if r.Threw? {
        return;
      }
      r := AssertOnlyGuard();
      if r.Threw? {
        return;
      }
      r := Freeze();
    }

    /** Close the guard, rename, publish the audit directory, clean the private staging. */
    method MoveIntoPlace() returns (r: Step)
      requires Inv() && DropsSafe() && FlagsAgree() && stagingOwned && !renameAttempted && !enableAttempted
      requires Frozen(plan.staging) && cluster.reached.auditVerified && done == 11
      modifies this`guard, this`stagingOwned, this`renameAttempted, this`renamed, this`published, this`done
      modifies cluster`dbs, cluster`our, cluster`states, cluster`drops, cluster`reached
      ensures Inv() && DropsSafe() && FlagsAgree()
      ensures r.Done? ==> renamed && Frozen(plan.target) && AllReached(cluster.reached)
      ensures r.Done? ==> done == 13
      ensures Undisturbed() && old(GuardAlone()) && plan.target !in old(cluster.dbs)
              && old(cluster.dbs[plan.staging] == Fresh(false, -1, cluster.dbs[plan.staging].sessions)) ==>
        r.Done? && cluster.dbs == (old(cluster.dbs) - {plan.staging})[plan.target := Fresh(false, -1, {})]
    {
      StagedSoFar();
      hide Inv, DropsSafe, FlagsAgree, Placed, Frozen;
      r := CloseAndRename();
      FrozenThere();
      if r.Done? {
        r := PublishAndClean();
      }
    }

    method CloseAndRename() returns (r: Step)
      requires Inv() && Frozen(plan.staging) && stagingOwned && !renameAttempted && !renamed
      modifies this`guard, this`stagingOwned, this`renameAttempted, this`renamed
      modifies cluster`dbs, cluster`our, cluster`states, cluster`drops, cluster`reached
      ensures Inv() && cluster.drops == old(cluster.drops)
      ensures renamed == r.Done? && stagingOwned == r.Threw? && (renamed ==> renameAttempted)
      ensures (renameAttempted && Frozen(plan.target)) || (!renamed && Frozen(plan.staging))
      ensures r.Done? ==>
        cluster.reached == old(cluster.reached).(guardClosed := true, renameConfirmed := true)
      ensures Undisturbed() && old(GuardAlone()) && plan.target !in old(cluster.dbs)
              && old(cluster.dbs[plan.staging] == Fresh(false, -1, cluster.dbs[plan.staging].sessions)) ==>
        r.Done? && cluster.dbs == (old(cluster.dbs) - {plan.staging})[plan.target := Fresh(false, -1, {})]
    {
      hide Inv, Placed, Frozen;
      r := CloseGuardAndAssertNoConnections();
      if r.Threw? {
        return;
      }
      renameAttempted := true;
      r := Rename();
      if r.Done? {
        renamed := true;
        stagingOwned := false;
      }
    }

    lemma FrozenThere()
      requires !createUncertain && !orphaned && (renamed <==> !stagingOwned) && (renamed ==> renameAttempted)
      requires (renameAttempted && Frozen(plan.target)) || (!renamed && Frozen(plan.staging))
      ensures FlagsAgree()
    {
    }

    method PublishAndClean() returns (r: Step)
      requires Inv() && DropsSafe() && FlagsAgree() && renamed && Frozen(plan.target)
      requires cluster.reached.auditVerified && cluster.reached.guardClosed && cluster.reached.renameConfirmed
      requires done == 11
      modifies this`published, this`done, cluster`dbs, cluster`states, cluster`reached
      ensures Inv() && DropsSafe() && FlagsAgree() && Frozen(plan.target)
      ensures r.Done? ==> AllReached(cluster.reached)
      ensures Undisturbed() ==> r.Done? && cluster.dbs == old(cluster.dbs)
      ensures r.Done? ==> done == 13
    {
      r := Reach(PublishAudit);
      if r.Threw? {
        return;
      }
      published := true;
      r := Reach(CleanStaging);
    }
  }

  /** A run that leaves an orphan: CREATE takes effect, and the catalog read after it is refused with a code
      that the failure handler reads as proof that the server created nothing. The error is the bare one, and
      the database is still there. */
  method OrphanExample() returns (run: Restore, r: Result)
    ensures r.FailedBare? && !run.Gone()
  {
    var cluster := new Cluster(map[], true, Some("42501"));
    run := new Restore(cluster, Plan("staging", "target"), 10);
    r := run.Run();
  }
}
