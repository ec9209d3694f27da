/**
 A Postgres cluster as the guarded restore sees it: databases by name, commands that may be refused,
 may take effect, or may take effect and still report failure, and other clients acting in between.
 */
module PgCluster {
  import opened Wrappers

  /** `sessions` are the backend process ids connected to it. */
  datatype Db = Db(oid: nat, owner: nat, allowConn: bool, connLimit: int, template: bool, sessions: set<nat>)

  datatype Identity = Identity(oid: nat, owner: nat)

  function IdentityOf(db: Db): Identity {
    Identity(db.oid, db.owner)
  }

  datatype Command =
    | CreateDatabase(name: string, owner: nat, connLimit: int)
    | AllowConnections(name: string, allow: bool)
    | ConnectionLimit(name: string, limit: int)
    | RenameDatabase(name: string, to: string)
    | DropDatabase(name: string)

  /** What a command makes of the cluster, or None where the server refuses it. */
  function Apply(c: Command, dbs: map<string, Db>, freshOid: nat): Option<map<string, Db>> {
    match c
    case CreateDatabase(name, owner, limit) =>
      if name in dbs then None else Some(dbs[name := Db(freshOid, owner, false, limit, false, {})])
    case AllowConnections(name, allow) =>
      if name !in dbs then None else Some(dbs[name := dbs[name].(allowConn := allow)])
    case ConnectionLimit(name, limit) =>
      if name !in dbs then None else Some(dbs[name := dbs[name].(connLimit := limit)])
    case RenameDatabase(name, to) =>
      if name !in dbs || to in dbs || dbs[name].sessions != {} then None else Some((dbs - {name})[to := dbs[name]])
    case DropDatabase(name) =>
      if name !in dbs || dbs[name].sessions != {} then None else Some(dbs - {name})
  }

  /** SQLSTATEs that prove the server rejected a database mutation. */
  const CONCLUSIVE_REJECTIONS := {"0A000", "22023", "25001", "3D000", "42501", "42601", "42704", "42P04", "55006"}

  datatype Outcome = Ok | Err(code: string)

  datatype Read<T> = Got(value: T) | ReadError(code: string)

  // ---- What other clients may do ----

  predicate OursAt(oid: nat, dbs: map<string, Db>, name: string) {
    name in dbs && dbs[name].oid == oid
  }

  /** Only the sessions differ, and a database that refuses connections gains none. */
  predicate SameButSessions(a: Db, b: Db) {
    b == a.(sessions := b.sessions) && (!a.allowConn ==> b.sessions <= a.sessions)
  }

  /** Others may do anything to other databases, under any name still free, and may connect to and
      leave the database of this run; its role has no other members, so nobody else alters it. */
  predicate EnvStep(our: Option<nat>, a: map<string, Db>, b: map<string, Db>) {
    our.Some? ==>
      && (forall n :: n in a && OursAt(our.value, a, n) ==> OursAt(our.value, b, n) && SameButSessions(a[n], b[n]))
      && (forall n :: n in b && OursAt(our.value, b, n) ==> OursAt(our.value, a, n))
  }

  /** An oid names one database. */
  ghost predicate OnePlace(our: Option<nat>, dbs: map<string, Db>) {
    our.Some? ==> forall m, n :: OursAt(our.value, dbs, m) && OursAt(our.value, dbs, n) ==> m == n
  }

  lemma EnvKeepsPlace(our: Option<nat>, a: map<string, Db>, b: map<string, Db>)
    requires OnePlace(our, a) && EnvStep(our, a, b)
    ensures OnePlace(our, b)
  {
  }

  lemma EnvFurther(our: Option<nat>, a: map<string, Db>, b: map<string, Db>, c: map<string, Db>)
    requires EnvStep(our, a, b) && EnvStep(our, b, c)
    ensures EnvStep(our, a, c)
  {
  }

  /** A session begun where connections are allowed, or ended, is such a step. */
  predicate OnlySessions(a: map<string, Db>, b: map<string, Db>, name: string) {
    name in a && name in b && SameButSessions(a[name], b[name]) && b == a[name := b[name]]
  }

  lemma SessionsAreEnv(our: Option<nat>, a: map<string, Db>, b: map<string, Db>, name: string)
    requires OnlySessions(a, b, name)
    ensures EnvStep(our, a, b)
  {
  }

  lemma BoundedAbove(s: set<nat>) returns (bound: nat)
    ensures forall x :: x in s ==> x < bound
  {
    bound := 0;
    var rest := s;
    while rest != {}
      invariant rest <= s && forall x :: x in s && x !in rest ==> x < bound
      decreases |rest|
    {
      var x :| x in rest;
      bound := if x < bound then bound else x + 1;
      rest := rest - {x};
    }
  }

  lemma SomeUnused(s: set<nat>)
    ensures exists n: nat :: n !in s
  {
    var bound := BoundedAbove(s);
    assert bound !in s;
  }

  predicate Connectable(db: Db) {
    db.allowConn && (db.connLimit == -1 || |db.sessions| < db.connLimit)
  }

  lemma ApplyKeepsPlace(our: Option<nat>, c: Command, dbs: map<string, Db>, freshOid: nat)
    requires OnePlace(our, dbs) && Apply(c, dbs, freshOid).Some? && !c.CreateDatabase?
    ensures OnePlace(our, Apply(c, dbs, freshOid).value)
  {
    var after := Apply(c, dbs, freshOid).value;
    if our.Some? {
      assert c.RenameDatabase? ==>
        forall n :: OursAt(our.value, after, n) ==> OursAt(our.value, dbs, if n == c.to then c.name else n);
      assert !c.RenameDatabase? ==> forall n :: OursAt(our.value, after, n) ==> OursAt(our.value, dbs, n);
    }
  }

  // ---- The record of a run ----

  datatype Milestones = Milestones(
    auditVerified: bool, guardClosed: bool, renameConfirmed: bool, auditPublished: bool, stagingCleaned: bool)

  datatype Snapshot = Snapshot(our: Option<nat>, dbs: map<string, Db>, reached: Milestones)

  /** A DROP as it was issued, on what the name stood for at that moment. */
  datatype Drop = Drop(name: string, found: Option<Db>)

  function Issued(c: Command, dbs: map<string, Db>): seq<Drop> {
    if c.DropDatabase? then [Drop(c.name, if c.name in dbs then Some(dbs[c.name]) else None)] else []
  }

  class Cluster {
    var dbs: map<string, Db>
    /** The database this run created, once CREATE has taken effect. */
    var our: Option<nat>
    /** Nobody else is at work and commands do what they are asked to. */
    const alone: bool
    /** The code with which every catalog read of an existing database fails, if any. */
    const refusing: Option<string>
    ghost var reached: Milestones
    ghost var states: seq<Snapshot>
    ghost var drops: seq<Drop>

    ghost predicate Valid()
      reads this`dbs, this`our
    {
      OnePlace(our, dbs)
    }

    ghost function Now(): Snapshot
      reads this`dbs, this`our, this`reached
    {
      Snapshot(our, dbs, reached)
    }

    constructor (dbs: map<string, Db>, alone: bool, refusing: Option<string>)
      ensures this.alone == alone && this.refusing == refusing
      ensures Valid() && this.dbs == dbs && our == None && drops == [] && states == []
      ensures reached == Milestones(false, false, false, false, false)
    {
      this.dbs, our, drops, states := dbs, None, [], [];
      this.alone, this.refusing := alone, refusing;
      reached := Milestones(false, false, false, false, false);
    }

    method Interfere()
      requires Valid()
      modifies this`dbs, this`states
      ensures Valid() && EnvStep(our, old(dbs), dbs)
      ensures states == old(states) + [Now()] && (alone ==> dbs == old(dbs))
    {
      var next: map<string, Db> := *;
      if alone || (our.Some? && !EnvStep(our, dbs, next)) {
        next := dbs;
      }
      EnvKeepsPlace(our, dbs, next);
      dbs := next;
      states := states + [Now()];
    }

    /** One command. It may be refused or lost without effect; it may take effect and be reported
        so; or it may take effect and the report be lost, which no conclusive code can say. */
    method Exec(c: Command) returns (r: Outcome, ghost before: map<string, Db>, ghost freshOid: nat)
      requires Valid()
      requires c.CreateDatabase? ==> our == None
      modifies this`dbs, this`our, this`states, this`drops
      ensures Valid() && EnvStep(old(our), old(dbs), before)
      ensures dbs == before || Apply(c, before, freshOid) == Some(dbs)
      ensures r.Ok? ==> Apply(c, before, freshOid) == Some(dbs)
      ensures r.Err? && r.code in CONCLUSIVE_REJECTIONS ==> dbs == before && our == old(our)
      ensures c.CreateDatabase? && our != old(our) ==>
        our == Some(freshOid) && Apply(c, before, freshOid) == Some(dbs) && forall n :: n in before ==>
          before[n].oid != freshOid
      ensures c.CreateDatabase? && our == old(our) ==> dbs == before && r.Err?
      ensures !c.CreateDatabase? ==> our == old(our)
      ensures alone ==> before == old(dbs) && (r.Ok? <==> Apply(c, before, freshOid).Some?)
      ensures states == old(states) + [Snapshot(old(our), before, reached), Now()]
      ensures drops == old(drops) + Issued(c, before)
    {
      Interfere();
      before := dbs;
      var oids := set n | n in dbs :: dbs[n].oid;
      SomeUnused(oids);
      var oid: nat :| oid !in oids;
      freshOid := oid;
      var code: string := *;
      var next := Apply(c, dbs, oid);
      var works: bool := *;
      var known: bool := *;
      var effect, reported := alone || works, alone || known;
      drops := drops + Issued(c, dbs);
      if next.Some? && effect {
        if !c.CreateDatabase? {
          ApplyKeepsPlace(our, c, dbs, oid);
        }
        dbs := next.value;
        if c.CreateDatabase? {
          our := Some(oid);
        }
        r := if reported then Ok else Err(if code in CONCLUSIVE_REJECTIONS then "08006" else code);
      } else {
        r := Err(code);
      }
      states := states + [Now()];
    }

    /** The catalog row of a name, or an error carrying any code at all. */
    method Row(name: string) returns (r: Read<Option<Db>>)
      requires Valid()
      modifies this`dbs, this`states
      ensures Valid() && EnvStep(our, old(dbs), dbs)
      ensures r.Got? ==> r.value == if name in dbs then Some(dbs[name]) else None
      ensures alone ==> dbs == old(dbs)
      ensures alone && (name !in dbs || refusing.None?) ==> r.Got?
      ensures refusing.Some? && name in dbs ==> r == ReadError(refusing.value)
      ensures states == old(states) + [Now()]
    {
      Interfere();
      var lost: bool := *;
      var code: string := *;
      r := if refusing.Some? && name in dbs then ReadError(refusing.value)
           else if lost && !alone then ReadError(code) else Got(if name in dbs then Some(dbs[name]) else None);
    }

    method Sessions(name: string) returns (r: Read<set<nat>>)
      requires Valid()
      modifies this`dbs, this`states
      ensures Valid() && EnvStep(our, old(dbs), dbs)
      ensures r.Got? ==> r.value == if name in dbs then dbs[name].sessions else {}
      ensures alone ==> r.Got? && dbs == old(dbs)
      ensures states == old(states) + [Now()]
    {
      Interfere();
      var lost: bool := *;
      var code: string := *;
      r := if lost && !alone then ReadError(code) else Got(if name in dbs then dbs[name].sessions else {});
    }

    /** A connection to a database, known by its process id. */
    method Connect(name: string) returns (r: Read<nat>, ghost before: map<string, Db>)
      requires Valid()
      modifies this`dbs, this`states
      ensures Valid() && EnvStep(our, old(dbs), before) && EnvStep(our, old(dbs), dbs)
      ensures states == old(states) + [Snapshot(our, before, reached), Now()]
      ensures r.Got? ==>
        && name in before && r.value !in before[name].sessions
        && dbs == before[name := before[name].(sessions := before[name].sessions + {r.value})]
      ensures alone ==> before == old(dbs) && (r.Got? <==> name in before && Connectable(before[name]))
    {
      Interfere();
      before := dbs;
      var lost: bool := *;
      var code: string := *;
      if name !in dbs || !Connectable(dbs[name]) || (lost && !alone) {
        r := ReadError(code);
        EnvFurther(our, old(dbs), before, before);
      } else {
        SomeUnused(dbs[name].sessions);
        var pid: nat :| pid !in dbs[name].sessions;
        dbs := dbs[name := dbs[name].(sessions := dbs[name].sessions + {pid})];
        r := Got(pid);
        SessionsAreEnv(our, before, dbs, name);
        EnvFurther(our, old(dbs), before, dbs);
        EnvKeepsPlace(our, before, dbs);
      }
      states := states + [Now()];
    }

    /** The end of a session of the database under this name. */
    method Disconnect(name: string, pid: nat) returns (ghost before: map<string, Db>)
      requires Valid()
      modifies this`dbs, this`states
      ensures Valid() && EnvStep(our, old(dbs), before) && EnvStep(our, old(dbs), dbs)
      ensures states == old(states) + [Snapshot(our, before, reached), Now()]
      ensures alone ==> before == old(dbs)
      ensures dbs == if name in before then before[name := before[name].(sessions := before[name].sessions - {pid})]
                     else before
    {
      Interfere();
      before := dbs;
      if name in dbs {
        dbs := dbs[name := dbs[name].(sessions := dbs[name].sessions - {pid})];
        SessionsAreEnv(our, before, dbs, name);
        EnvFurther(our, old(dbs), before, dbs);
        EnvKeepsPlace(our, before, dbs);
      }
      states := states + [Now()];
    }
  }
}
