/**
 The file system as artifact publication in scripts/backup-store.js sees it: names standing for file
 identities, operations that may fail, and a record of every state a run passes through.
 */
module PrivateFiles {
  import opened Wrappers

  /** Public targets, staged inputs, slots inside a private rollback directory (known by the
      directory's own identity), unpredictable private names, and what other processes put into a
      directory. */
  datatype Path =
    | Target(name: string)
    | Staged(k: nat)
    | InRollback(dir: nat, slot: nat)
    | Hidden(n: nat)
    | Entry(dir: nat, name: string)

  /** Names for identities; an identity stands for one file or directory and the content it came with. */
  type Tree = map<Path, nat>

  /** Identities are numbered so that directories are the odd ones. */
  predicate IsDirectory(id: nat) {
    id % 2 == 1
  }

  function IdAt(at: Tree, p: Path): Option<nat> {
    if p in at then Some(at[p]) else None
  }

  predicate HasName(at: Tree, id: nat) {
    exists p :: p in at && at[p] == id
  }

  lemma StillNamed(at: Tree, p: Path)
    requires p in at
    ensures HasName(at, at[p])
  {
  }

  /** Identity `id` has this name and no other, `nlink === 1n`. */
  predicate OnlyName(at: Tree, id: nat, p: Path) {
    p in at && at[p] == id && forall q :: q in at && at[q] == id ==> q == p
  }

  /** `nlink === 2n`, with these two names. */
  predicate OnlyNames(at: Tree, id: nat, p: Path, q: Path) {
    && p != q && p in at && q in at && at[p] == id && at[q] == id
    && forall r :: r in at && at[r] == id ==> r == p || r == q
  }

  /** `q` lies in the directory that `p` names, or in a directory in one of its slots. */
  predicate Inside(at: Tree, p: Path, q: Path)
    requires p in at
  {
    || ((q.InRollback? || q.Entry?) && q.dir == at[p])
    || (q.Entry? && exists x :: x in at && x.InRollback? && x.dir == at[p] && at[x] == q.dir)
  }

  /** Removing a name with everything inside, if it names a directory. */
  function WithoutTree(at: Tree, p: Path): Tree
    requires p in at
  {
    map q | q in at && q != p && !Inside(at, p, q) :: at[q]
  }

  /** Some entries inside the directory are gone; the directory itself and all else is left. */
  predicate PartlyRemoved(before: Tree, after: Tree, p: Path)
    requires p in before
  {
    && (forall q :: q in after ==> q in before && after[q] == before[q])
    && forall q :: q in before && !Inside(before, p, q) ==> q in after
  }

  /** A loss of something that others had put in the run's way: what a rename replaced, an entry swept away
      with the directory it was put in, or an original that was back in its place, of which a second link had
      stayed in its slot while others took the first. */
  datatype Hit = Replaced(at: Path, id: nat) | Swept(at: Path, id: nat)

  predicate Struck(hits: set<Hit>, id: nat) {
    exists h :: h in hits && h.id == id
  }

  predicate SlotOf(moved: set<Moved>, q: Path, id: nat) {
    exists m :: m in moved && q == InRollback(m.dir, m.slot) && id == m.id
  }

  ghost function SweptIn(before: Tree, after: Tree, returned: set<Moved>): set<Hit> {
    set q | q in before && (q.Entry? || SlotOf(returned, q, before[q])) && !HasName(after, before[q])
      :: Swept(q, before[q])
  }

  /** Some slot of the directory, not that of an original put back, holds `id`. */
  ghost predicate InSlots(at: Tree, dir: nat, returned: set<Moved>, id: nat) {
    exists k: nat :: IdAt(at, InRollback(dir, k)) == Some(id) && !SlotOf(returned, InRollback(dir, k), id)
  }

  /** Removing a tree, even in part, takes the last name only from its top, from what is in its slots, and
      from what others put inside. */
  lemma OnlyTreeLost(before: Tree, after: Tree, p: Path, returned: set<Moved>, id: nat)
    requires p in before && (after == WithoutTree(before, p) || PartlyRemoved(before, after, p))
    requires id in before.Values && !HasName(after, id)
    ensures id == before[p] || InSlots(before, before[p], returned, id) || Struck(SweptIn(before, after, returned), id)
  {
    var q :| q in before && before[q] == id;
    assert q !in after;
    if q.Entry? || SlotOf(returned, q, id) {
      assert Swept(q, id) in SweptIn(before, after, returned);
    } else if q != p {
      assert IdAt(before, InRollback(before[p], q.slot)) == Some(id);
    }
  }

  ghost function Orphaned(before: Tree, after: Tree): set<nat> {
    set id | id in before.Values && !HasName(after, id)
  }

  lemma TreeLosses(before: Tree, after: Tree, p: Path, returned: set<Moved>)
    requires p in before && (after == WithoutTree(before, p) || PartlyRemoved(before, after, p))
    ensures forall q :: q in after ==> q in before && after[q] == before[q]
    ensures forall h :: h in SweptIn(before, after, returned) ==> h.id in Orphaned(before, after)
    ensures forall l :: l in Orphaned(before, after) ==>
      l == before[p] || Struck(SweptIn(before, after, returned), l) || InSlots(before, before[p], returned, l)
  {
    forall l | l in Orphaned(before, after)
      ensures l == before[p] || InSlots(before, before[p], returned, l) || Struck(SweptIn(before, after, returned), l)
    {
      OnlyTreeLost(before, after, p, returned, l);
    }
  }

  /** The names after a rename; renaming one of two links onto the other does nothing. */
  function Renamed(at: Tree, from: Path, to: Path): Tree
    requires from in at
  {
    if to in at && at[to] == at[from] then at else (at - {from})[to := at[from]]
  }

  /** What a rename replaces: a file by a file, a directory by a directory if nothing is in it. */
  predicate GivesWay(at: Tree, from: Path, to: Path)
    requires from in at
  {
    || to !in at || at[to] == at[from]
    || ((IsDirectory(at[to]) <==> IsDirectory(at[from]))
        && (IsDirectory(at[to]) ==> forall q :: q in at ==> !Inside(at, to, q)))
  }

  /** What a rename destroys: the thing under the new name, if that was its only one. */
  ghost function Overwritten(before: Tree, after: Tree, to: Path): set<Hit> {
    if to in before && !HasName(after, before[to]) then {Replaced(to, before[to])} else {}
  }

  /** What stands on the new name is another thing, with no other name. */
  predicate Destroys(at: Tree, from: Path, to: Path)
    requires from in at
  {
    to in at && at[to] != at[from] && OnlyName(at, at[to], to)
  }

  lemma OverwrittenExactly(before: Tree, from: Path, to: Path)
    requires from in before && from != to
    ensures Overwritten(before, Renamed(before, from, to), to)
            == if Destroys(before, from, to) then {Replaced(to, before[to])} else {}
  {
    var after := Renamed(before, from, to);
    if to in before && before[to] != before[from] {
      assert forall q :: q != to && q != from ==>
        (q in after <==> q in before) && (q in after ==> after[q] == before[q]);
    }
  }

  ghost function Ids(hits: set<Hit>): set<nat> {
    set h | h in hits :: h.id
  }

  /** Numbers not yet given out are not in use. */
  ghost predicate Bounded(at: Tree, nextHidden: nat, nextId: nat) {
    && (forall n: nat :: Hidden(n) in at ==> n < nextHidden)
    && (forall p :: p in at ==> at[p] < nextId)
    && (forall d: nat, k: nat :: InRollback(d, k) in at ==> d < nextId)
    && (forall d: nat, name: string :: Entry(d, name) in at ==> d < nextId)
  }

  lemma RenamedBounded(before: Tree, from: Path, to: Path, nextHidden: nat, nextId: nat)
    requires from in before && Bounded(before, nextHidden, nextId)
    requires (to.Hidden? ==> to.n < nextHidden) && (to.InRollback? ==> to.dir < nextId) && !to.Entry?
    ensures Bounded(Renamed(before, from, to), nextHidden, nextId)
  {
  }

  lemma ShrunkBounded(before: Tree, after: Tree, nextHidden: nat, nextId: nat)
    requires Bounded(before, nextHidden, nextId) && forall q :: q in after ==> q in before && after[q] == before[q]
    ensures Bounded(after, nextHidden, nextId)
  {
  }

  lemma NothingOverwritten(before: Tree, after: Tree, to: Path)
    ensures to !in before || after == before ==>
      Overwritten(before, after, to) == {} && Ids(Overwritten(before, after, to)) == {}
  {
    if to in before && after == before {
      StillNamed(before, to);
    }
  }

  /** What the caller of `lstat` is after. */
  datatype Call = Looking | AfterMove | Clearing | Restoring | CleaningUp | Warning

  /** An original set aside: where it was, which slot it went to, and its identity. */
  datatype Moved = Moved(target: string, dir: nat, slot: nat, id: nat)

  predicate InSlot(at: Tree, m: Moved) {
    IdAt(at, InRollback(m.dir, m.slot)) == Some(m.id)
  }

  predicate AtTarget(at: Tree, m: Moved) {
    IdAt(at, Target(m.target)) == Some(m.id)
  }

  datatype Snapshot = Snapshot(at: Tree, moved: seq<Moved>, returned: set<Moved>, committed: bool, tampered: bool)

  /** Until the run commits, every recorded original exists in its rollback slot or at its target; one
      that was put back there can be missing only because somebody else took it. */
  predicate Conserves(s: Snapshot) {
    || s.committed
    || forall m :: m in s.moved ==> InSlot(s.at, m) || AtTarget(s.at, m) || (m in s.returned && s.tampered)
  }

  class Fs {
    var at: Tree
    var nextHidden: nat
    var nextId: nat
    /** Whether operations may fail, and which looks at a name are bound to. */
    var faulty: bool
    var failing: set<Call>
    /** Nobody else acts, but where a run says so. */
    const alone: bool
    /** The originals the run has recorded as set aside. */
    var moved: seq<Moved>
    /** Those put back, and whether the run has committed. */
    ghost var returned: set<Moved>
    ghost var committed: bool
    /** Someone else changed a public name or put something into a directory. */
    ghost var tampered: bool
    /** Identities whose last name this run removed, and which of them others had put in its way. */
    ghost var lost: set<nat>
    ghost var hits: set<Hit>
    /** What the existence checks that threw were for. */
    ghost var threw: set<Call>
    ghost var states: seq<Snapshot>
    /** How many states there were when the caller's check of what was published ended. */
    ghost var verifiedAt: Option<nat>

    ghost predicate Valid()
      reads this`at, this`nextHidden, this`nextId
    {
      Bounded(at, nextHidden, nextId)
    }

    /** No operation fails. */
    predicate Calm()
      reads this
    {
      !faulty && failing == {}
    }

    ghost function Now(): Snapshot
      reads this
    {
      Snapshot(at, moved, returned, committed, tampered)
    }

    constructor (at: Tree, nextHidden: nat, nextId: nat, faulty: bool, failing: set<Call>, alone: bool)
      requires forall p :: p in at ==> at[p] < nextId && (p.Target? || p.Staged?)
      ensures Valid() && this.at == at && this.nextId == nextId && moved == [] && returned == {}
      ensures lost == {} && hits == {} && threw == {} && !committed && !tampered && states == []
      ensures this.faulty == faulty && this.failing == failing && this.alone == alone
    {
      this.at, this.nextHidden, this.nextId, this.faulty, moved := at, nextHidden, nextId, faulty, [];
      this.failing, this.alone := failing, alone;
      returned, committed, tampered, lost, hits, threw, states := {}, false, false, {}, {}, {}, [];
      verifiedAt := None;
    }

    /** lstat of an entry known by its identity; a fault or an absent name throws. */
    method Stat(p: Path, why: Call) returns (r: Option<nat>)
      ensures r.Some? ==> r == IdAt(at, p)
      ensures !faulty && why !in failing && p in at ==> r.Some?
      ensures why in failing ==> r.None?
    {
      var fault: bool := *;
      r := if why in failing || (faulty && fault) then None else IdAt(at, p);
    }

    /** The first look at an entry, which must be of the right kind. */
    method Identify(p: Path, directory: bool) returns (r: Option<nat>)
      ensures r.Some? ==> r == IdAt(at, p) && IsDirectory(r.value) == directory
      ensures !faulty && Looking !in failing && p in at && IsDirectory(at[p]) == directory ==> r.Some?
    {
      r := Stat(p, Looking);
      if r.Some? && IsDirectory(r.value) != directory {
        r := None;
      }
    }

    /** `pathEntryExists`: a fault other than absence throws. */
    method Exists(p: Path, why: Call) returns (r: Option<bool>)
      modifies this`threw
      ensures r.Some? ==> r.value == (p in at)
      ensures !faulty && why !in failing ==> r.Some?
      ensures why in failing ==> r.None?
      ensures threw == if r.None? then old(threw) + {why} else old(threw)
    {
      var fault: bool := *;
      r := if why in failing || (faulty && fault) then None else Some(p in at);
      if r.None? {
        threw := threw + {why};
      }
    }

    /** Anything that touches no name: permissions, fsync, chmod. */
    method Attend() returns (ok: bool)
      ensures !faulty ==> ok
    {
      var fault: bool := *;
      ok := !(faulty && fault);
    }

    method NewHidden() returns (p: Path)
      requires Valid()
      modifies this`nextHidden
      ensures Valid() && p == Hidden(old(nextHidden)) && p !in at && nextHidden == old(nextHidden) + 1
    {
      p := Hidden(nextHidden);
      nextHidden := nextHidden + 1;
    }

    /** `renameSync`, which replaces what gives way. */
    method Rename(from: Path, to: Path) returns (ok: bool)
      requires Valid() && from != to
      requires to.Hidden? ==> to.n < nextHidden
      requires (to.InRollback? ==> to.dir < nextId) && !to.Entry?
      modifies this`at, this`lost, this`hits, this`states
      ensures Valid() && states == old(states) + [Now()]
      ensures ok ==> from in old(at) && GivesWay(old(at), from, to) && at == Renamed(old(at), from, to)
      ensures !ok ==> at == old(at) && lost == old(lost) && hits == old(hits)
      ensures hits == old(hits) + Overwritten(old(at), at, to)
      ensures lost == old(lost) + Ids(Overwritten(old(at), at, to))
      ensures to !in old(at) ==> hits == old(hits) && lost == old(lost)
      ensures !faulty && from in old(at) && to !in old(at) ==> ok
      ensures !faulty && from in old(at) && to in old(at) ==>
        !IsDirectory(old(at)[from]) && !IsDirectory(old(at)[to]) ==> ok
    {
      ghost var before := at;
      var fault: bool := *;
      // what a directory came with may keep it from being empty
      var empty: bool := *;
      ok := !(faulty && fault) && from in at && GivesWay(at, from, to) && (to in at && IsDirectory(at[to]) ==> empty);
      assert !faulty && from in at && (to !in at || (!IsDirectory(at[from]) && !IsDirectory(at[to]))) ==> ok;
      hide GivesWay, IsDirectory;
      if ok {
        RenamedBounded(at, from, to, nextHidden, nextId);
        at := Renamed(at, from, to);
      }
      NothingOverwritten(before, at, to);
      hide Overwritten, Ids, Renamed, Bounded;
      hits := hits + Overwritten(before, at, to);
      lost := lost + Ids(Overwritten(before, at, to));
      states := states + [Now()];
    }

    /** `linkSync`, which never replaces. */
    method Link(from: Path, to: Path) returns (ok: bool)
      requires Valid() && to.Target?
      modifies this`at, this`states
      ensures Valid() && states == old(states) + [Now()]
      ensures ok ==> from in old(at) && to !in old(at) && at == old(at)[to := old(at)[from]]
      ensures !ok ==> at == old(at)
      ensures !faulty && from in old(at) && to !in old(at) ==> ok
    {
      var fault: bool := *;
      ok := !(faulty && fault) && from in at && to !in at;
      if ok {
        at := at[to := at[from]];
      }
      states := states + [Now()];
    }

    method Unlink(p: Path) returns (ok: bool)
      requires Valid() && p in at
      modifies this`at, this`states, this`lost
      ensures Valid() && states == old(states) + [Now()]
      ensures at == if ok then old(at) - {p} else old(at)
      ensures !faulty ==> ok
      ensures lost == old(lost) + if HasName(at, old(at)[p]) then {} else {old(at)[p]}
    {
      ghost var id := at[p];
      var fault: bool := *;
      ok := !(faulty && fault);
      if ok {
        at := at - {p};
      }
      if !HasName(at, id) {
        lost := lost + {id};
      }
      states := states + [Now()];
    }

    /** `mkdtempSync` of a private rollback directory. */
    method MakeDirectory() returns (made: Option<(Path, nat)>)
      requires Valid()
      modifies this`at, this`nextHidden, this`nextId, this`states
      ensures Valid() && states == old(states) + [Now()]
      ensures made.None? ==> at == old(at) && nextId == old(nextId) && nextHidden == old(nextHidden)
      ensures made.Some? ==>
        && made.value.0 == Hidden(old(nextHidden)) && IsDirectory(made.value.1) && old(nextId) <= made.value.1 < nextId
        && made.value.0 !in old(at) && at == old(at)[made.value.0 := made.value.1]
        && nextHidden == old(nextHidden) + 1 && (forall k :: InRollback(made.value.1, k) !in at)
        && forall name :: Entry(made.value.1, name) !in at
      ensures !faulty ==> made.Some?
    {
      var fault: bool := *;
      if faulty && fault {
        states := states + [Now()];
        return None;
      }
      var p := NewHidden();
      var id := if IsDirectory(nextId) then nextId else nextId + 1;
      made := Some((p, id));
      at := at[p := id];
      nextId := id + 1;
      states := states + [Now()];
    }

    /** `rmSync` with `recursive`; a failure may leave any part of the directory behind. */
    method RemoveTree(p: Path) returns (ok: bool)
      requires Valid() && p in at
      modifies this`at, this`states, this`lost, this`hits
      ensures Valid() && states == old(states) + [Now()]
      ensures ok ==> at == WithoutTree(old(at), p)
      ensures !ok ==> PartlyRemoved(old(at), at, p)
      ensures !faulty ==> ok
      ensures lost == old(lost) + Orphaned(old(at), at)
      ensures hits == old(hits) + SweptIn(old(at), at, returned)
      ensures forall l :: l in lost ==> l in old(lost) || l == old(at)[p] || Struck(hits, l)
                                        || InSlots(old(at), old(at)[p], returned, l)
      ensures forall h :: h in hits ==> h in old(hits) || h.id in lost
    {
      ghost var before := at;
      var fault: bool := *;
      ok := !(faulty && fault);
      if ok {
        at := WithoutTree(at, p);
      } else {
        var left: Tree := *;
        if forall q :: q in left.Keys + at.Keys ==>
             (q in left ==> q in at && left[q] == at[q]) && (q in at && !Inside(at, p, q) ==> q in left) {
          at := left;
        }
      }
      TreeLosses(before, at, p, returned);
      ShrunkBounded(before, at, nextHidden, nextId);
      hide WithoutTree, PartlyRemoved, Inside, SweptIn, Orphaned, IdAt, InSlots, Bounded, Struck;
      lost := lost + Orphaned(before, at);
      hits := hits + SweptIn(before, at, returned);
      states := states + [Now()];
    }

    /** The run notes that an original is now in its slot. */
    method Record(m: Moved)
      modifies this`moved, this`states
      ensures moved == old(moved) + [m] && states == old(states) + [Now()]
    {
      moved := moved + [m];
      states := states + [Now()];
    }

    /** Someone else creates, replaces or removes public names and entries of directories. */
    method Outsider()
      requires Valid()
      modifies this`at, this`tampered, this`states, this`nextId
      ensures Valid() && states == old(states) + [Now()]
      ensures forall p: Path :: !p.Target? && !p.Entry? ==> IdAt(at, p) == IdAt(old(at), p)
      ensures old(tampered) ==> tampered
      ensures nextId >= old(nextId)
      ensures !tampered || alone ==> at == old(at)
      ensures alone ==> tampered == old(tampered) && nextId == old(nextId)
    {
      var next: Tree := *;
      var quiet: bool := *;
      if !quiet && !alone
         && forall p :: p in next.Keys + at.Keys ==> !p.Target? && !p.Entry? ==> IdAt(next, p) == IdAt(at, p) {
        var bound: nat := *;
        if forall p :: p in next ==> next[p] < bound && (p.Entry? ==> p.dir < bound) {
          at := next;
          nextId := if bound > nextId then bound else nextId;
          tampered := true;
        }
      }
      states := states + [Now()];
    }

    /** In particular, puts a new file under a public name or into a directory, in place of what was there. */
    method Appear(p: Path) returns (id: nat)
      requires Valid() && (p.Target? || (p.Entry? && p.dir < nextId))
      modifies this`at, this`tampered, this`states, this`nextId
      ensures Valid() && states == old(states) + [Now()] && tampered
      ensures old(nextId) <= id < nextId && !IsDirectory(id) && at == old(at)[p := id]
    {
      id := if IsDirectory(nextId) then nextId + 1 else nextId;
      at := at[p := id];
      nextId := id + 1;
      tampered := true;
      states := states + [Now()];
    }
  }
}
