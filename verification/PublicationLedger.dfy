/**
 What a publication run keeps track of (scripts/backup-store.js lines 727 to 981), what must hold of it
 throughout, and how each kind of step preserves that.
 */
module PublicationLedger {
  import opened Wrappers
  import opened PrivateFiles

  datatype Item = Item(target: string, staged: nat, sqlite: bool, directory: bool)

  /** An item put in place; `final` once its last identity check passed. */
  datatype Artifact = Artifact(item: Item, id: nat, final: bool)

  /** A private rollback directory beside the targets that share a parent. */
  datatype Directory = Directory(parent: string, path: Path, id: nat)

  /** How setting one artifact aside went. */
  datatype Quarantined = Threw | Missing | Blocked | RetainedAt(path: Path) | Removed

  /** How a run ends, with the names its report gives. `Incomplete` is the error that says what remains;
      `Escaped` and `CleanupEscaped` are bare errors of an existence check that replaced that report, and
      `ThrewAfterCommit` is one that replaced the warning of a committed run. */
  datatype Outcome =
    | Committed(warned: seq<Path>)
    | ThrewAfterCommit
    | Refused
    | RolledBack
    | RolledBackRetaining(named: seq<Path>)
    | Incomplete(named: seq<Path>)
    | CleanupEscaped
    | Escaped

  function TargetArtifacts(item: Item): seq<string> {
    if item.sqlite then [item.target, item.target + "-wal", item.target + "-shm", item.target + "-journal"]
    else [item.target]
  }

  function AllTargets(items: seq<Item>): seq<string> {
    if items == [] then [] else AllTargets(items[..|items| - 1]) + TargetArtifacts(items[|items| - 1])
  }

  predicate Distinct(names: seq<string>) {
    forall i, j :: 0 <= i < j < |names| ==> names[i] != names[j]
  }

  function DirectoryFor(directories: seq<Directory>, parent: string): (r: Option<Directory>)
    ensures r.Some? ==> r.value in directories
  {
    if directories == [] then None
    else if directories[0].parent == parent then Some(directories[0])
    else DirectoryFor(directories[1..], parent)
  }

  /** Nothing public changed. */
  ghost predicate AsBefore(was: Tree, at: Tree) {
    forall t: string :: IdAt(at, Target(t)) == IdAt(was, Target(t))
  }

  /** Taking `p` away, perhaps keeping what it named under the private name `q`, and perhaps emptying the
      directory `id`. */
  ghost predicate Aside(before: Tree, after: Tree, p: Path, q: Path, id: nat) {
    && (IdAt(after, p) == None || IdAt(after, p) == IdAt(before, p))
    && (IdAt(after, q) == None || IdAt(after, q) == IdAt(before, p))
    && (forall x: Path :: x != p && x != q && !(x.InRollback? && x.dir == id) && !x.Entry? ==>
          IdAt(after, x) == IdAt(before, x))
    && (forall k: nat :: IdAt(after, InRollback(id, k)) == None
                         || IdAt(after, InRollback(id, k)) == IdAt(before, InRollback(id, k)))
    && (forall x: Path :: x.Entry? ==> IdAt(after, x) == None || IdAt(after, x) == IdAt(before, x))
  }

  ghost predicate NoEntries(at: Tree) {
    forall x: Path :: x.Entry? ==> IdAt(at, x) == None
  }

  /** What `p` names is the published artifact: with no other name, or, before its final check, with the
      staging name it was linked from. */
  predicate Recognised(at: Tree, p: Path, id: nat, directory: bool, final: bool, staged: Path): (r: bool)
    ensures r ==> p in at
  {
    && IdAt(at, p) == Some(id)
    && (directory || OnlyName(at, id, p) || (!final && OnlyNames(at, id, p, staged)))
  }

  datatype Ledger = Ledger(
    at: Tree, nextHidden: nat, nextId: nat, tampered: bool, lost: set<nat>, hits: set<Hit>,
    moved: seq<Moved>, returned: set<Moved>, committed: bool,
    directories: seq<Directory>, published: seq<Artifact>,
    cleaned: nat,                // how many of the directories the clean-up has been through
    made: set<nat>,              // identities of the directories this run made
    taken: set<string>,          // the targets it occupies
    unrecorded: Option<Moved>)   // an original set aside whose check failed, so that nobody recorded it

  /** Deletions that go no further than `id`, what lay in the slots of that directory, and what others had put
      in the way. */
  ghost predicate LostWithin(l: Ledger, l': Ledger, id: nat) {
    && l.lost <= l'.lost && l.hits <= l'.hits
    && (forall x :: x in l'.lost ==> x in l.lost || x == id || Struck(l'.hits, x) || InSlots(l.at, id, l.returned, x))
    && (forall h :: h in l'.hits ==> h in l.hits || h.id in l'.lost)
    && (NoEntries(l.at) && (forall m :: m in l.returned ==> AtTarget(l'.at, m)) ==> l'.hits == l.hits)
  }

  ghost predicate MovedTo(moved: seq<Moved>, t: string) {
    exists m :: m in moved && m.target == t
  }

  /** What a run may have deleted for good: its own directories, what it published, the original nobody
      recorded, and, once it has committed, the originals it replaced. */
  ghost predicate Mine(l: Ledger, id: nat) {
    || id in l.made || (exists a :: a in l.published && a.id == id)
    || (l.unrecorded.Some? && l.unrecorded.value.id == id)
    || (l.committed && exists m :: m in l.moved && m.id == id)
  }

  /** Originals not yet put back are in their slots, and the others are back unless somebody interfered. */
  ghost predicate Secured(l: Ledger) {
    forall m :: m in l.moved ==> if m in l.returned then l.tampered || AtTarget(l.at, m) else InSlot(l.at, m)
  }

  /** Every slot in use lies in a recorded directory and holds the original recorded for it, or the one
      nobody recorded. */
  ghost predicate SlotsKnown(l: Ledger) {
    forall x: Path :: x.InRollback? && IdAt(l.at, x) != None ==>
      && (exists d :: d in l.directories && d.id == x.dir)
      && (|| (l.unrecorded.Some? && x == InRollback(l.unrecorded.value.dir, l.unrecorded.value.slot)
              && InSlot(l.at, l.unrecorded.value))
          || exists m :: m in l.moved && x == InRollback(m.dir, m.slot) && InSlot(l.at, m))
  }

  /** With nobody else at work, every public name is as the run found it, but for the originals in their
      slots and the targets the run occupies. */
  ghost predicate Accounted(was: Tree, l: Ledger) {
    && (forall i, j :: 0 <= i < j < |l.moved| ==> l.moved[i].target != l.moved[j].target)
    && (forall m :: m in l.moved ==> IdAt(was, Target(m.target)) == Some(m.id))
    && (forall m :: m in l.moved ==>
          if m in l.returned then AtTarget(l.at, m) && m.target !in l.taken
          else m.target in l.taken || IdAt(l.at, Target(m.target)) == None)
    && (forall t :: t in l.taken ==> MovedTo(l.moved, t) || IdAt(was, Target(t)) == None)
    && (forall t: string :: t !in l.taken && !MovedTo(l.moved, t) ==>
          (l.unrecorded.Some? && l.unrecorded.value.target == t) || IdAt(l.at, Target(t)) == IdAt(was, Target(t)))
    && (l.unrecorded.Some? ==>
          && l.unrecorded.value.target !in l.taken && !MovedTo(l.moved, l.unrecorded.value.target)
          && IdAt(was, Target(l.unrecorded.value.target)) == Some(l.unrecorded.value.id)
          && IdAt(l.at, Target(l.unrecorded.value.target)) == None)
  }

  /** Staging names only ever lose what they stood for, and everything published came from one. */
  ghost predicate Sourced(was: Tree, l: Ledger) {
    && (forall k: nat :: IdAt(l.at, Staged(k)) != None ==> IdAt(was, Staged(k)) == IdAt(l.at, Staged(k)))
    && (forall a :: a in l.published ==> IdAt(was, Staged(a.item.staged)) == Some(a.id))
  }

  /** Identities of directories this run made are newer than anything it found. */
  ghost predicate Numbered(was: Tree, base: nat, l: Ledger) {
    && base <= l.nextId && (forall x :: x in was ==> was[x] < base)
    && (forall id :: id in l.made ==> base <= id < l.nextId)
    && (forall d :: d in l.directories ==> d.id in l.made && d.path.Hidden? && d.path.n < l.nextHidden)
    && (forall i, j :: 0 <= i < j < |l.directories| ==> l.directories[i].path.n < l.directories[j].path.n)
    && (forall i :: 0 <= i < |l.moved| ==> l.moved[i].slot == i && l.moved[i].dir in l.made)
    && (forall m :: m in l.returned ==> m in l.moved)
    && (l.unrecorded.Some? ==> l.unrecorded.value.slot == |l.moved|)
  }

  /** The rollback directories the clean-up has not come to yet are where the run made them. */
  ghost predicate Housed(l: Ledger) {
    && l.cleaned <= |l.directories|
    && forall j :: l.cleaned <= j < |l.directories| ==> IdAt(l.at, l.directories[j].path) == Some(l.directories[j].id)
  }

  /** What the run deleted for good is its own or was in its way, and alone it meets nothing in its way. */
  ghost predicate LossesKnown(l: Ledger) {
    && (forall id :: id in l.lost ==> Mine(l, id) || Struck(l.hits, id))
    && (forall h :: h in l.hits ==> h.id in l.lost)
    && (!l.tampered ==> l.hits == {} && NoEntries(l.at))
  }

  /** What holds throughout a run, whatever fails and whoever interferes. */
  ghost predicate Sound(was: Tree, base: nat, l: Ledger) {
    && Numbered(was, base, l) && SlotsKnown(l) && Sourced(was, l) && Housed(l)
    && LossesKnown(l)
    && (l.committed || Secured(l))
    && (!l.tampered ==> Accounted(was, l))
  }

  function SnapshotOf(l: Ledger): Snapshot {
    Snapshot(l.at, l.moved, l.returned, l.committed, l.tampered)
  }

  ghost predicate AllConserve(states: seq<Snapshot>) {
    forall s :: s in states ==> Conserves(s)
  }

  lemma OneMoreConserves(states: seq<Snapshot>, s: Snapshot)
    requires AllConserve(states) && Conserves(s)
    ensures AllConserve(states + [s])
  {
  }

  lemma SoundConserves(was: Tree, base: nat, l: Ledger)
    requires Sound(was, base, l)
    ensures Conserves(SnapshotOf(l))
  {
  }

  // ---- How each step keeps the ledger sound ----

  /** Others changed public names. */
  lemma OthersActed(was: Tree, base: nat, l: Ledger, l': Ledger)
    requires Sound(was, base, l) && l' == l.(at := l'.at, nextId := l'.nextId, tampered := l'.tampered)
    requires l.nextId <= l'.nextId && (l.tampered ==> l'.tampered) && (!l'.tampered ==> l'.at == l.at)
    requires forall x: Path :: !x.Target? && !x.Entry? ==> IdAt(l'.at, x) == IdAt(l.at, x)
    ensures Sound(was, base, l')
  {
    SlotsCarryOver(l, l');
  }

  lemma SlotsCarryOver(l: Ledger, l': Ledger)
    requires SlotsKnown(l) && l'.moved == l.moved
    requires l.unrecorded == None || l'.unrecorded == l.unrecorded
    requires forall d :: d in l.directories ==> d in l'.directories
    requires forall x: Path :: x.InRollback? ==> IdAt(l'.at, x) == None || IdAt(l'.at, x) == IdAt(l.at, x)
    ensures SlotsKnown(l')
  {
    forall x: Path | x.InRollback? && IdAt(l'.at, x) != None
      ensures exists d :: d in l'.directories && d.id == x.dir
      ensures
        || (l'.unrecorded.Some? && x == InRollback(l'.unrecorded.value.dir, l'.unrecorded.value.slot)
            && InSlot(l'.at, l'.unrecorded.value))
        || exists m :: m in l'.moved && x == InRollback(m.dir, m.slot) && InSlot(l'.at, m)
    {
      assert IdAt(l.at, x) != None;
      var d :| d in l.directories && d.id == x.dir;
      assert d in l'.directories;
      if !(l.unrecorded.Some? && x == InRollback(l.unrecorded.value.dir, l.unrecorded.value.slot)) {
        var m :| m in l.moved && x == InRollback(m.dir, m.slot) && InSlot(l.at, m);
        assert InSlot(l'.at, m);
      }
    }
  }

  /** The run changed private names only. */
  lemma PrivatelyChanged(was: Tree, base: nat, l: Ledger, l': Ledger)
    requires Sound(was, base, l)
    requires l' == l.(at := l'.at, nextHidden := l'.nextHidden, nextId := l'.nextId, made := l'.made, lost := l'.lost)
    requires forall x: Path :: !x.Hidden? || x.n < l.nextHidden ==> IdAt(l'.at, x) == IdAt(l.at, x)
    requires l.nextHidden <= l'.nextHidden && l.nextId <= l'.nextId
    requires l.made <= l'.made && (forall id :: id in l'.made && id !in l.made ==> l.nextId <= id < l'.nextId)
    requires l.lost <= l'.lost <= l.lost + l'.made
    ensures Sound(was, base, l')
  {
    SlotsCarryOver(l, l');
    LossesCarryOver(l, l');
  }

  ghost predicate PublishedKept(before: seq<Artifact>, after: seq<Artifact>) {
    forall i :: 0 <= i < |before| ==> i < |after| && after[i].id == before[i].id
  }

  lemma MineCarriesOver(l: Ledger, l': Ledger, id: nat)
    requires Mine(l, id)
    requires l.made <= l'.made && l'.moved == l.moved && (l.committed ==> l'.committed)
    requires l.unrecorded == None || l'.unrecorded == l.unrecorded
    requires PublishedKept(l.published, l'.published)
    ensures Mine(l', id)
  {
    if a :| a in l.published && a.id == id {
      var i :| 0 <= i < |l.published| && l.published[i] == a;
      assert l'.published[i] in l'.published;
    }
  }

  lemma LossesCarryOver(l: Ledger, l': Ledger)
    requires LossesKnown(l) && l.hits <= l'.hits
    requires l.made <= l'.made && l'.moved == l.moved && (l.committed ==> l'.committed)
    requires l.unrecorded == None || l'.unrecorded == l.unrecorded
    requires PublishedKept(l.published, l'.published)
    requires l.lost <= l'.lost && forall id :: id in l'.lost && id !in l.lost ==> Mine(l', id) || Struck(l'.hits, id)
    requires forall h :: h in l'.hits ==> h in l.hits || h.id in l'.lost
    requires l.tampered ==> l'.tampered
    requires !l'.tampered ==> l'.hits == l.hits && forall x: Path :: x.Entry? ==>
            IdAt(l'.at, x) == None || IdAt(l'.at, x) == IdAt(l.at, x)
    ensures LossesKnown(l')
  {
    forall id | id in l'.lost ensures Mine(l', id) || Struck(l'.hits, id) {
      if id in l.lost && Mine(l, id) {
        MineCarriesOver(l, l', id);
      } else if id in l.lost {
        var h :| h in l.hits && h.id == id;
      }
    }
  }

  lemma DirectoryAdded(was: Tree, base: nat, l: Ledger, l': Ledger, d: Directory)
    requires Sound(was, base, l) && l' == l.(directories := l.directories + [d])
    requires d.id in l.made && d.path.Hidden? && d.path.n < l.nextHidden && IdAt(l.at, d.path) == Some(d.id)
    requires forall e :: e in l.directories ==> e.path.Hidden? && e.path.n < d.path.n
    ensures Sound(was, base, l')
  {
    SlotsCarryOver(l, l');
    LossesCarryOver(l, l');
  }

  /** The names after an original moved into a slot. */
  function Slotted(at: Tree, m: Moved): Tree {
    (at - {Target(m.target)})[InRollback(m.dir, m.slot) := m.id]
  }

  /** Besides private names, at most the target `t` differs, and what had one name still has no other. */
  ghost predicate SameBut(before: Tree, after: Tree, t: string) {
    && (forall x: Path :: (x.Staged? || x.Target?) && x != Target(t) ==> IdAt(after, x) == IdAt(before, x))
    && forall x: Path, id: nat ::
         (x.Staged? || x.Target?) && x != Target(t) && OnlyName(before, id, x) ==> OnlyName(after, id, x)
  }

  lemma SoleSlotted(at: Tree, m: Moved, lost: set<nat>)
    requires OnlyName(at, m.id, Target(m.target)) && InRollback(m.dir, m.slot) !in at
    ensures Sole(Slotted(at, m), Some(m), lost)
  {
  }

  lemma SlottedNames(at: Tree, m: Moved)
    requires IdAt(at, Target(m.target)) == Some(m.id)
    ensures SameBut(at, Slotted(at, m), m.target) && IdAt(Slotted(at, m), Target(m.target)) == None
    ensures InSlot(Slotted(at, m), m)
    ensures forall n :: InSlot(at, n) && (IdAt(at, InRollback(m.dir, m.slot)) == None) ==> InSlot(Slotted(at, m), n)
    ensures forall x: Path :: !x.Target? && !x.InRollback? ==> IdAt(Slotted(at, m), x) == IdAt(at, x)
  {
  }

  /** An original was moved into its slot, and the run failed to record it. */
  lemma Displaced(was: Tree, base: nat, l: Ledger, m: Moved, d: Directory)
    requires Sound(was, base, l) && l.returned == {} && l.taken == {} && l.unrecorded == None && !l.committed
    requires m.slot == |l.moved| && d in l.directories && m.dir == d.id
    requires IdAt(l.at, Target(m.target)) == Some(m.id) && IdAt(l.at, InRollback(m.dir, m.slot)) == None
    ensures Sound(was, base, l.(at := Slotted(l.at, m), unrecorded := Some(m)))
    ensures Conserves(SnapshotOf(l.(at := Slotted(l.at, m))))
  {
    var lost := l.(at := Slotted(l.at, m), unrecorded := Some(m));
    SlottedNames(l.at, m);
    SlotFilled(l, lost, m, d);
    if !l.tampered {
      DisplacedAccounted(was, l, m);
    }
    hide Accounted, SlotsKnown, Slotted;
    LossesCarryOver(l, lost);
    hide Mine, LossesKnown;
    assert Secured(lost);
  }

  /** An original was moved into its slot and recorded. */
  lemma DisplacedAndRecorded(was: Tree, base: nat, l: Ledger, m: Moved, d: Directory)
    requires Sound(was, base, l) && l.returned == {} && l.taken == {} && l.unrecorded == None && !l.committed
    requires m.slot == |l.moved| && d in l.directories && m.dir == d.id
    requires IdAt(l.at, Target(m.target)) == Some(m.id) && IdAt(l.at, InRollback(m.dir, m.slot)) == None
    ensures Sound(was, base, l.(at := Slotted(l.at, m), moved := l.moved + [m]))
  {
    hide Accounted, SlotsKnown, LossesKnown, Secured, Numbered, InSlot, SameBut, Slotted;
    var kept := l.(at := Slotted(l.at, m), moved := l.moved + [m]);
    SlottedNames(l.at, m);
    SlotFilled(l, kept, m, d);
    if !l.tampered {
      DisplacedAccounted(was, l, m);
    }
    RecordedLosses(l, kept, m);
    RecordedSecured(l, kept, m);
    RecordedNumbered(was, base, l, kept, m, d);
  }

  lemma RecordedSecured(l: Ledger, l': Ledger, m: Moved)
    requires Secured(l) && l.returned == {} && l' == l.(at := l'.at, moved := l.moved + [m]) && InSlot(l'.at, m)
    requires forall n :: n in l.moved && InSlot(l.at, n) ==> InSlot(l'.at, n)
    ensures Secured(l')
  {
  }

  lemma RecordedNumbered(was: Tree, base: nat, l: Ledger, l': Ledger, m: Moved, d: Directory)
    requires Numbered(was, base, l) && l.returned == {} && l.unrecorded == None
    requires l' == l.(at := l'.at, moved := l.moved + [m])
    requires m.slot == |l.moved| && d in l.directories && m.dir == d.id
    ensures Numbered(was, base, l')
  {
  }

  lemma RecordedLosses(l: Ledger, l': Ledger, m: Moved)
    requires LossesKnown(l) && !l.committed && l' == l.(at := l'.at, moved := l.moved + [m])
    requires forall x: Path :: x.Entry? ==> IdAt(l'.at, x) == IdAt(l.at, x)
    ensures LossesKnown(l')
  {
    forall id | id in l'.lost ensures Mine(l', id) || Struck(l'.hits, id) {
      assert Mine(l, id) || Struck(l.hits, id);
    }
  }

  lemma NoNewNames(at: Tree, nextId: nat)
    ensures NewNamesOnly(at, at, nextId)
  {
  }

  lemma NewNamesSame(before: Tree, after: Tree, nextId: nat, t: string)
    requires NewNamesOnly(before, after, nextId) && forall x :: x in before ==> before[x] < nextId
    ensures SameBut(before, after, t) && forall x: Path :: !x.Hidden? ==> IdAt(after, x) == IdAt(before, x)
  {
  }

  lemma SameButStep(start: Tree, before: Tree, after: Tree, t: string)
    ensures SameBut(start, before, t) && SameBut(before, after, t) ==> SameBut(start, after, t)
  {
  }

  lemma SameButItself(at: Tree, t: string)
    ensures SameBut(at, at, t)
  {
  }

  /** Both outcomes of a move into a slot, and that nothing else changed. */
  lemma MovedIntoSlot(was: Tree, base: nat, l: Ledger, m: Moved, d: Directory)
    requires Sound(was, base, l) && l.returned == {} && l.taken == {} && l.unrecorded == None && !l.committed
    requires m.slot == |l.moved| && d in l.directories && m.dir == d.id
    requires IdAt(l.at, Target(m.target)) == Some(m.id) && IdAt(l.at, InRollback(m.dir, m.slot)) == None
    ensures SameBut(l.at, Slotted(l.at, m), m.target) && IdAt(Slotted(l.at, m), Target(m.target)) == None
    ensures InSlot(Slotted(l.at, m), m) && Conserves(SnapshotOf(l.(at := Slotted(l.at, m))))
    ensures Sound(was, base, l.(at := Slotted(l.at, m), unrecorded := Some(m)))
    ensures Sound(was, base, l.(at := Slotted(l.at, m), moved := l.moved + [m]))
  {
    hide Sound, Conserves;
    SlottedNames(l.at, m);
    Displaced(was, base, l, m, d);
    DisplacedAndRecorded(was, base, l, m, d);
  }

  lemma DisplacedAccounted(was: Tree, l: Ledger, m: Moved)
    requires Accounted(was, l) && l.returned == {} && l.taken == {} && l.unrecorded == None
    requires IdAt(l.at, Target(m.target)) == Some(m.id)
    ensures Accounted(was, l.(at := Slotted(l.at, m), unrecorded := Some(m)))
    ensures Accounted(was, l.(at := Slotted(l.at, m), moved := l.moved + [m]))
  {
    var kept := l.(at := Slotted(l.at, m), moved := l.moved + [m]);
    assert forall n :: n in kept.moved <==> n in l.moved || n == m;
    assert !MovedTo(l.moved, m.target);
    assert forall t: string :: MovedTo(kept.moved, t) <==> MovedTo(l.moved, t) || t == m.target;
    assert forall t: string :: t != m.target ==> IdAt(kept.at, Target(t)) == IdAt(l.at, Target(t));
  }

  lemma SlotFilled(l: Ledger, l': Ledger, m: Moved, d: Directory)
    requires SlotsKnown(l) && l.returned == {} && l.unrecorded == None && d in l.directories && m.dir == d.id
    requires l'.at == Slotted(l.at, m) && l'.returned == {} && l'.directories == l.directories
    requires (l'.unrecorded == Some(m) && l'.moved == l.moved) || (l'.unrecorded == None && l'.moved == l.moved + [m])
    ensures SlotsKnown(l')
  {
    var slot := InRollback(m.dir, m.slot);
    assert m in l.moved + [m];
    forall x: Path | x.InRollback? && x != slot && IdAt(l'.at, x) != None
      ensures exists e :: e in l'.directories && e.id == x.dir
      ensures exists n :: n in l'.moved && x == InRollback(n.dir, n.slot) && InSlot(l'.at, n)
    {
      assert IdAt(l.at, x) != None;
      var n :| n in l.moved && x == InRollback(n.dir, n.slot) && InSlot(l.at, n);
      assert InSlot(l'.at, n) && n in l'.moved;
    }
  }

  /** What a rename replaced is a loss to account for. */
  lemma OverwrittenKnown(l: Ledger, l': Ledger, from: Path, to: Path)
    requires LossesKnown(l) && from in l.at && !from.Entry? && !to.Entry? && (l.tampered || to !in l.at)
    requires l'.at == Renamed(l.at, from, to) && l'.tampered == l.tampered && l'.committed == l.committed
    requires l'.hits == l.hits + Overwritten(l.at, l'.at, to) && l'.lost == l.lost + Ids(Overwritten(l.at, l'.at, to))
    requires l.made <= l'.made && l'.moved == l.moved && l'.unrecorded == l.unrecorded && l.published <= l'.published
    ensures LossesKnown(l')
  {
    LossesCarryOver(l, l');
  }

  /** A staged artifact got its target: linked there, or, for a directory, renamed, perhaps onto something
      that others put there since the name was free. */
  lemma Placed(was: Tree, base: nat, l: Ledger, l': Ledger, a: Artifact)
    requires Sound(was, base, l) && l.returned == {} && l.unrecorded == None
    requires IdAt(l.at, Staged(a.item.staged)) == Some(a.id)
    requires (l.tampered || IdAt(l.at, Target(a.item.target)) == None)
    requires l' == l.(at := l'.at, published := l.published + [a], taken := l.taken + {a.item.target},
                      lost := l'.lost, hits := l'.hits)
    requires || (l'.at == l.at[Target(a.item.target) := a.id] && l'.lost == l.lost && l'.hits == l.hits)
             || (l'.at == Renamed(l.at, Staged(a.item.staged), Target(a.item.target))
                 && l'.hits == l.hits + Overwritten(l.at, l'.at, Target(a.item.target))
                 && l'.lost == l.lost + Ids(Overwritten(l.at, l'.at, Target(a.item.target))))
    ensures Sound(was, base, l') && Conserves(SnapshotOf(l.(at := l'.at)))
  {
    PlacedNames(l, l', a);
    PlacedLosses(l, l', a);
    hide LossesKnown, Renamed, Overwritten, Ids;
    SlotsCarryOver(l, l');
    hide SlotsKnown;
    assert forall b :: b in l'.published ==> b in l.published || b == a;
    if !l.tampered {
      PlacedAccounted(was, l, l', a);
    }
    hide Accounted;
  }

  lemma PlacedNames(l: Ledger, l': Ledger, a: Artifact)
    requires IdAt(l.at, Staged(a.item.staged)) == Some(a.id)
    requires || l'.at == l.at[Target(a.item.target) := a.id]
             || l'.at == Renamed(l.at, Staged(a.item.staged), Target(a.item.target))
    ensures forall x: Path :: x != Target(a.item.target) && x != Staged(a.item.staged) ==>
      IdAt(l'.at, x) == IdAt(l.at, x)
    ensures IdAt(l'.at, Staged(a.item.staged)) == None || IdAt(l'.at, Staged(a.item.staged)) == Some(a.id)
    ensures IdAt(l'.at, Target(a.item.target)) == Some(a.id)
  {
  }

  lemma PlacedLosses(l: Ledger, l': Ledger, a: Artifact)
    requires LossesKnown(l) && IdAt(l.at, Staged(a.item.staged)) == Some(a.id)
    requires l.tampered || IdAt(l.at, Target(a.item.target)) == None
    requires l' == l.(at := l'.at, published := l.published + [a], taken := l'.taken, lost := l'.lost, hits := l'.hits)
    requires || (l'.at == l.at[Target(a.item.target) := a.id] && l'.lost == l.lost && l'.hits == l.hits)
             || (l'.at == Renamed(l.at, Staged(a.item.staged), Target(a.item.target))
                 && l'.hits == l.hits + Overwritten(l.at, l'.at, Target(a.item.target))
                 && l'.lost == l.lost + Ids(Overwritten(l.at, l'.at, Target(a.item.target))))
    ensures LossesKnown(l')
  {
    hide LossesKnown;
    if l'.lost == l.lost && l'.hits == l.hits {
      LossesCarryOver(l, l');
    } else {
      OverwrittenKnown(l, l', Staged(a.item.staged), Target(a.item.target));
    }
  }

  lemma PlacedAccounted(was: Tree, l: Ledger, l': Ledger, a: Artifact)
    requires Accounted(was, l) && l.returned == {} && l.unrecorded == None && IdAt(l.at, Target(a.item.target)) == None
    requires l' == l.(at := l'.at, published := l'.published, taken := l.taken + {a.item.target}, lost := l'.lost,
            hits := l'.hits)
    requires forall t: string :: t != a.item.target ==> IdAt(l'.at, Target(t)) == IdAt(l.at, Target(t))
    ensures Accounted(was, l')
  {
  }

  /** The staging link of a published artifact went. */
  lemma Unlinked(was: Tree, base: nat, l: Ledger, l': Ledger, a: Artifact)
    requires Sound(was, base, l) && a in l.published
    requires l' == l.(at := l'.at, lost := l'.lost) && l.lost <= l'.lost <= l.lost + {a.id}
    requires l'.at == l.at - {Staged(a.item.staged)}
    ensures Sound(was, base, l')
  {
    assert forall x: Path :: x != Staged(a.item.staged) ==> IdAt(l'.at, x) == IdAt(l.at, x);
    SlotsCarryOver(l, l');
    assert Mine(l', a.id);
    LossesCarryOver(l, l');
  }

  /** The final check of a published artifact passed. */
  lemma Finalised(was: Tree, base: nat, l: Ledger, l': Ledger, i: nat)
    requires Sound(was, base, l) && i < |l.published|
    requires l' == l.(published := l.published[i := l.published[i].(final := true)])
    ensures Sound(was, base, l')
  {
    SlotsCarryOver(l, l');
    LossesCarryOver(l, l');
    assert forall b :: b in l'.published ==> b in l.published || b == l.published[i].(final := true);
  }

  /** A published artifact was taken off its target. */
  lemma Cleared(was: Tree, base: nat, l: Ledger, l': Ledger, a: Artifact, q: Path)
    requires Sound(was, base, l) && a in l.published && l.returned == {} && q == Hidden(l.nextHidden)
    requires l' == l.(at := l'.at, nextHidden := l'.nextHidden, lost := l'.lost, hits := l'.hits,
                      taken := l.taken - {a.item.target})
    requires l.nextHidden <= l'.nextHidden && Aside(l.at, l'.at, Target(a.item.target), q, a.id)
    requires IdAt(l'.at, Target(a.item.target)) == None && LostWithin(l, l', a.id)
    requires !l.tampered ==> a.item.target in l.taken
    ensures Sound(was, base, l')
  {
    ClearedNames(was, base, l, l', a, q);
    hide Aside;
    SlotsCarryOver(l, l');
    hide SlotsKnown;
    ClearedLosses(was, base, l, l', a);
    hide Mine, LossesKnown, LostWithin;
    if !l.tampered {
      ClearedAccounted(was, l, l', a.item.target);
    }
    hide Accounted;
    assert Secured(l) ==> Secured(l');
  }

  lemma ClearedNames(was: Tree, base: nat, l: Ledger, l': Ledger, a: Artifact, q: Path)
    requires Sound(was, base, l) && a in l.published && q == Hidden(l.nextHidden)
    requires Aside(l.at, l'.at, Target(a.item.target), q, a.id)
    ensures forall x: Path :: x.InRollback? || x.Staged? || (x.Target? && x != Target(a.item.target)) ==>
      IdAt(l'.at, x) == IdAt(l.at, x)
    ensures forall x: Path :: x.Entry? ==> IdAt(l'.at, x) == None || IdAt(l'.at, x) == IdAt(l.at, x)
    ensures forall x: Path :: x.Hidden? && x != q ==> IdAt(l'.at, x) == IdAt(l.at, x)
  {
    NoSuchSlot(was, base, l, a);
    forall x: Path | x.InRollback? && x.dir == a.id ensures IdAt(l'.at, x) == IdAt(l.at, x) {
      assert x == InRollback(a.id, x.slot);
    }
  }

  lemma ClearedLosses(was: Tree, base: nat, l: Ledger, l': Ledger, a: Artifact)
    requires Sound(was, base, l) && a in l.published && l.returned == {} && LostWithin(l, l', a.id)
    requires l' == l.(at := l'.at, nextHidden := l'.nextHidden, lost := l'.lost, hits := l'.hits, taken := l'.taken)
    requires forall x: Path :: x.Entry? ==> IdAt(l'.at, x) == None || IdAt(l'.at, x) == IdAt(l.at, x)
    ensures LossesKnown(l')
  {
    NoSuchSlot(was, base, l, a);
    assert Mine(l', a.id);
    assert !l.tampered ==> l'.hits == l.hits;
    hide SlotsKnown, Accounted, Secured, Numbered, Sourced, Housed, Mine;
    LossesCarryOver(l, l');
  }

  lemma ClearedAccounted(was: Tree, l: Ledger, l': Ledger, t: string)
    requires Accounted(was, l) && t in l.taken && IdAt(l'.at, Target(t)) == None && l.returned == {}
    requires l' == l.(at := l'.at, nextHidden := l'.nextHidden, lost := l'.lost, hits := l'.hits,
                      taken := l.taken - {t})
    requires forall u: string :: u != t ==> IdAt(l'.at, Target(u)) == IdAt(l.at, Target(u))
    ensures Accounted(was, l')
  {
  }

  /** No rollback directory has the identity of something that was staged. */
  lemma NoSuchSlot(was: Tree, base: nat, l: Ledger, a: Artifact)
    requires Sound(was, base, l) && a in l.published
    ensures forall k: nat :: IdAt(l.at, InRollback(a.id, k)) == None
  {
    forall k: nat ensures IdAt(l.at, InRollback(a.id, k)) == None {
      assert a.id < base;
      assert forall d :: d in l.directories ==> base <= d.id;
    }
  }

  /** Something that stood where an original belongs was renamed aside; nobody but others can have put it
      there. */
  lemma CollisionMoved(was: Tree, base: nat, l: Ledger, l': Ledger, m: Moved, q: Path)
    requires Sound(was, base, l) && m in l.moved && l.returned == {} && l.taken == {} && q == Hidden(l.nextHidden)
    requires IdAt(l.at, Target(m.target)) != None
    requires l' == l.(at := l'.at, nextHidden := l'.nextHidden) && l.nextHidden <= l'.nextHidden
    requires l'.at == (l.at - {Target(m.target)})[q := l.at[Target(m.target)]]
    ensures l.tampered && Sound(was, base, l')
  {
    assert l.tampered by {
      hide SlotsKnown, LossesKnown, Secured, Sourced, Housed, Numbered;
    }
    hide Accounted;
    assert forall x: Path :: x != Target(m.target) && x != q ==> IdAt(l'.at, x) == IdAt(l.at, x);
    SlotsCarryOver(l, l');
    LossesCarryOver(l, l');
    hide SlotsKnown, LossesKnown;
  }

  /** An original went back from its slot to its target, perhaps onto something that others put there since
      the name was found free. */
  lemma PutBack(was: Tree, base: nat, l: Ledger, l': Ledger, m: Moved)
    requires Sound(was, base, l) && m in l.moved && m !in l.returned && l.taken == {} && InSlot(l.at, m)
    requires l.tampered || IdAt(l.at, Target(m.target)) == None
    requires l' == l.(at := Renamed(l.at, InRollback(m.dir, m.slot), Target(m.target)), returned := l.returned + {m},
                      lost := l'.lost, hits := l'.hits)
    requires l'.hits == l.hits + Overwritten(l.at, l'.at, Target(m.target))
    requires l'.lost == l.lost + Ids(Overwritten(l.at, l'.at, Target(m.target)))
    ensures Sound(was, base, l') && Conserves(SnapshotOf(l.(at := l'.at)))
  {
    SlotEmptied(was, base, l, l', m);
    OverwrittenKnown(l, l', InRollback(m.dir, m.slot), Target(m.target));
    hide SlotsKnown, LossesKnown, Overwritten, Ids;
    if !l.tampered {
      PutBackAccounted(was, l, l', m);
    }
    if !l.committed {
      PutBackSecured(was, base, l, l', m);
    }
    hide Accounted, Secured;
    assert forall x: Path :: x.Staged? || x.Hidden? ==> IdAt(l'.at, x) == IdAt(l.at, x);
  }

  lemma PutBackSecured(was: Tree, base: nat, l: Ledger, l': Ledger, m: Moved)
    requires Secured(l) && Numbered(was, base, l) && m in l.moved && m !in l.returned && InSlot(l.at, m)
    requires l.tampered || IdAt(l.at, Target(m.target)) == None
    requires l'.moved == l.moved && l'.returned == l.returned + {m} && l'.tampered == l.tampered
    requires l'.at == Renamed(l.at, InRollback(m.dir, m.slot), Target(m.target))
    ensures Secured(l') && Conserves(SnapshotOf(l.(at := l'.at)))
  {
    assert forall n :: n in l.moved && n != m ==> n.slot != m.slot;
    assert AtTarget(l'.at, m);
    assert forall n :: n in l.moved && n != m && InSlot(l.at, n) ==> InSlot(l'.at, n);
    assert !l.tampered ==> forall n :: n in l.moved && n in l.returned && AtTarget(l.at, n) ==> AtTarget(l'.at, n);
  }

  lemma PutBackAccounted(was: Tree, l: Ledger, l': Ledger, m: Moved)
    requires Accounted(was, l) && m in l.moved && m !in l.returned && l.taken == {} && InSlot(l.at, m)
    requires IdAt(l.at, Target(m.target)) == None
    requires l' == l.(at := Renamed(l.at, InRollback(m.dir, m.slot), Target(m.target)), returned := l.returned + {m},
                      lost := l'.lost, hits := l'.hits)
    ensures Accounted(was, l')
  {
    assert forall t: string :: t != m.target ==> IdAt(l'.at, Target(t)) == IdAt(l.at, Target(t));
    assert forall n :: n in l.moved && n.target == m.target ==> n == m;
  }

  lemma SlotEmptied(was: Tree, base: nat, l: Ledger, l': Ledger, m: Moved)
    requires SlotsKnown(l) && m in l.moved && Numbered(was, base, l) && InSlot(l.at, m)
    requires l'.at == Renamed(l.at, InRollback(m.dir, m.slot), Target(m.target))
    requires l'.moved == l.moved && l'.unrecorded == l.unrecorded && l'.directories == l.directories
    ensures SlotsKnown(l')
  {
    SlotsCarryOver(l, l');
  }

  /** A rollback directory was removed, once its originals were back or no longer wanted. */
  lemma CleanedUp(was: Tree, base: nat, l: Ledger, l': Ledger, d: Directory, q: Path)
    requires Sound(was, base, l) && l.cleaned < |l.directories| && d == l.directories[l.cleaned]
    requires q == Hidden(l.nextHidden)
    requires l.committed || forall m :: m in l.moved ==> m in l.returned
    requires l' == l.(at := l'.at, nextHidden := l'.nextHidden, lost := l'.lost, hits := l'.hits,
                      cleaned := l.cleaned + 1)
    requires l.nextHidden <= l'.nextHidden
    requires Aside(l.at, l'.at, d.path, q, d.id) && LostWithin(l, l', d.id)
    ensures Sound(was, base, l')
  {
    AsideShrinks(l.at, l'.at, d.path, q, d.id);
    CleanedLosses(was, l, l', d);
    CleanedHoused(was, base, l, l', q);
    SlotsCarryOver(l, l');
    hide Aside, Housed, SlotsKnown, LossesKnown, LostWithin;
    if !l.tampered {
      PublicUnchanged(was, l, l');
    }
    hide Accounted;
  }

  lemma CleanedHoused(was: Tree, base: nat, l: Ledger, l': Ledger, q: Path)
    requires Housed(l) && Numbered(was, base, l) && l.cleaned < |l.directories| && q == Hidden(l.nextHidden)
    requires l'.cleaned == l.cleaned + 1 && l'.directories == l.directories
    requires Aside(l.at, l'.at, l.directories[l.cleaned].path, q, l.directories[l.cleaned].id)
    ensures Housed(l')
  {
  }

  lemma CleanedLosses(was: Tree, l: Ledger, l': Ledger, d: Directory)
    requires SlotsKnown(l) && LossesKnown(l) && d.id in l.made && LostWithin(l, l', d.id)
    requires (!l.tampered ==> Accounted(was, l))
    requires SamePublic(l.at, l'.at) && forall m :: m in l.returned ==> m in l.moved
    requires forall x: Path :: x.Entry? ==> IdAt(l'.at, x) == None || IdAt(l'.at, x) == IdAt(l.at, x)
    requires l.committed || forall m :: m in l.moved ==> m in l.returned
    requires l' == l.(at := l'.at, nextHidden := l'.nextHidden, lost := l'.lost, hits := l'.hits, cleaned := l'.cleaned)
    ensures LossesKnown(l')
  {
    OnlyUnwantedLost(l, l', d);
    hide SlotsKnown;
    assert !l.tampered ==> l'.hits == l.hits by {
      hide Mine, Struck;
    }
    hide Accounted, SamePublic, Mine;
    LossesCarryOver(l, l');
  }

  lemma PublicUnchanged(was: Tree, l: Ledger, l': Ledger)
    requires Accounted(was, l) && forall t: string :: IdAt(l'.at, Target(t)) == IdAt(l.at, Target(t))
    requires l' == l.(at := l'.at, nextHidden := l'.nextHidden, lost := l'.lost, hits := l'.hits, cleaned := l'.cleaned)
    ensures Accounted(was, l')
  {
  }

  lemma OnlyUnwantedLost(l: Ledger, l': Ledger, d: Directory)
    requires SlotsKnown(l) && d.id in l.made && LostWithin(l, l', d.id)
    requires l.committed || forall m :: m in l.moved ==> m in l.returned
    requires l' == l.(at := l'.at, nextHidden := l'.nextHidden, lost := l'.lost, hits := l'.hits, cleaned := l'.cleaned)
    ensures forall id :: id in l'.lost && id !in l.lost ==> Mine(l', id) || Struck(l'.hits, id)
  {
    forall id | id in l'.lost && id !in l.lost ensures Mine(l', id) || Struck(l'.hits, id) {
      if InSlots(l.at, d.id, l.returned, id) {
        var k: nat :| IdAt(l.at, InRollback(d.id, k)) == Some(id) && !SlotOf(l.returned, InRollback(d.id, k), id);
        var x := InRollback(d.id, k);
        if !(l.unrecorded.Some? && x == InRollback(l.unrecorded.value.dir, l.unrecorded.value.slot)) {
          var m :| m in l.moved && x == InRollback(m.dir, m.slot) && InSlot(l.at, m);
        }
      }
    }
  }

  lemma NowCommitted(was: Tree, base: nat, l: Ledger)
    requires Sound(was, base, l)
    ensures Sound(was, base, l.(committed := true))
  {
    SlotsCarryOver(l, l.(committed := true));
    LossesCarryOver(l, l.(committed := true));
  }

  /** An original still set aside is in its slot, and nothing but interference can occupy its target. */
  lemma StillAside(was: Tree, base: nat, l: Ledger, m: Moved)
    requires Sound(was, base, l) && !l.committed && m in l.moved && m !in l.returned && l.taken == {}
    ensures InSlot(l.at, m) && (!l.tampered ==> IdAt(l.at, Target(m.target)) == None)
    ensures InRollback(m.dir, m.slot) in l.at && l.at[InRollback(m.dir, m.slot)] == m.id
    ensures !l.tampered ==> Target(m.target) !in l.at
  {
  }

  predicate Apart(moved: seq<Moved>) {
    forall i, j :: 0 <= i < j < |moved| ==> moved[i] != moved[j]
  }

  /** The first `n` are still set aside. */
  predicate Pending(moved: seq<Moved>, n: nat, returned: set<Moved>)
    requires n <= |moved|
  {
    forall j :: 0 <= j < n ==> moved[j] !in returned
  }

  /** All from the n-th on are back. */
  predicate BackFrom(moved: seq<Moved>, n: nat, returned: set<Moved>) {
    forall j :: n <= j < |moved| ==> moved[j] in returned
  }

  lemma SlotNumbers(was: Tree, base: nat, l: Ledger)
    requires Sound(was, base, l)
    ensures Apart(l.moved)
  {
  }

  lemma OneLessPending(moved: seq<Moved>, i: nat, returned: set<Moved>)
    requires i < |moved| && Pending(moved, i + 1, returned) && Apart(moved)
    ensures moved[i] in moved && moved[i] !in returned
    ensures Pending(moved, i, returned) && Pending(moved, i, returned + {moved[i]})
    ensures BackFrom(moved, i + 1, returned) ==> BackFrom(moved, i, returned + {moved[i]})
  {
  }

  lemma AllReturned(moved: seq<Moved>, returned: set<Moved>)
    ensures BackFrom(moved, 0, returned) ==> forall m :: m in moved ==> m in returned
  {
  }

  lemma DirectoryKnown(was: Tree, base: nat, l: Ledger, d: Directory)
    requires Sound(was, base, l) && d in l.directories
    ensures d.id < l.nextId
  {
  }

  lemma NextDirectory(was: Tree, base: nat, l: Ledger)
    requires Sound(was, base, l) && l.cleaned < |l.directories|
    ensures l.directories[l.cleaned].path.Hidden?
    ensures IdAt(l.at, l.directories[l.cleaned].path) == Some(l.directories[l.cleaned].id)
  {
  }

  /** Slots only lost what they held. */
  ghost predicate SlotsShrink(before: Tree, after: Tree) {
    forall x: Path :: x.InRollback? ==> IdAt(after, x) == None || IdAt(after, x) == IdAt(before, x)
  }

  ghost predicate NoSlots(at: Tree) {
    forall x: Path :: x.InRollback? ==> IdAt(at, x) == None
  }

  ghost predicate Names(at: Tree, named: seq<Path>, id: nat) {
    exists p :: p in named && IdAt(at, p) == Some(id)
  }

  /** Everything in a rollback slot lies in a directory that one of these names stands for. */
  ghost predicate SlotsNamed(at: Tree, named: seq<Path>) {
    forall x: Path :: x.InRollback? && IdAt(at, x) != None ==> Names(at, named, x.dir)
  }

  function PathsOf(directories: seq<Directory>): seq<Path> {
    seq(|directories|, i requires 0 <= i < |directories| => directories[i].path)
  }

  lemma AllNamed(was: Tree, base: nat, l: Ledger)
    requires Sound(was, base, l) && l.cleaned == 0
    ensures SlotsNamed(l.at, PathsOf(l.directories))
  {
    forall x: Path | x.InRollback? && IdAt(l.at, x) != None ensures Names(l.at, PathsOf(l.directories), x.dir) {
      var d :| d in l.directories && d.id == x.dir;
      var i :| 0 <= i < |l.directories| && l.directories[i] == d;
      assert PathsOf(l.directories)[i] == d.path;
    }
  }

  lemma NamesMore(at: Tree, named: seq<Path>, more: seq<Path>)
    requires SlotsNamed(at, named) && forall p :: p in named ==> p in more
    ensures SlotsNamed(at, more)
  {
    forall x: Path | x.InRollback? && IdAt(at, x) != None ensures Names(at, more, x.dir) {
      assert Names(at, named, x.dir);
    }
  }

  lemma NoneNamed(at: Tree)
    requires SlotsNamed(at, [])
    ensures NoSlots(at)
  {
    assert forall id :: !Names(at, [], id);
  }

  /** One directory set aside: what is left in it, if anything, is named where it is now. */
  lemma NamedStep(before: Tree, after: Tree, named: seq<Path>, after': seq<Path>, p: Path, q: Path, id: nat)
    requires SlotsNamed(before, named) && SlotsShrink(before, after) && IdAt(before, p) == Some(id) && q !in before
    requires forall x: Path :: x.Hidden? && x != p && x != q ==> IdAt(after, x) == IdAt(before, x)
    requires forall x :: x in named ==> x.Hidden? && (x == p || x in after')
    requires (exists k: nat :: IdAt(after, InRollback(id, k)) != None) ==> Names(after, after', id)
    ensures SlotsNamed(after, after')
  {
    forall x: Path | x.InRollback? && IdAt(after, x) != None ensures Names(after, after', x.dir) {
      assert Names(before, named, x.dir);
      var y :| y in named && IdAt(before, y) == Some(x.dir);
      if y == p {
        assert x == InRollback(id, x.slot);
      } else {
        assert IdAt(after, y) == Some(x.dir);
      }
    }
  }

  /** Every recorded original is at its target, or was put back there and taken by others, or lies in a
      directory that one of these names stands for. */
  ghost predicate Reported(l: Ledger, named: seq<Path>) {
    forall m :: m in l.moved ==>
      || AtTarget(l.at, m) || (m in l.returned && l.tampered)
      || (InSlot(l.at, m) && Names(l.at, named, m.dir))
  }

  lemma OriginalsReported(was: Tree, base: nat, l: Ledger, named: seq<Path>)
    requires Sound(was, base, l) && !l.committed && SlotsNamed(l.at, named)
    ensures Reported(l, named)
  {
    forall m | m in l.moved && InSlot(l.at, m) ensures Names(l.at, named, m.dir) {
      assert IdAt(l.at, InRollback(m.dir, m.slot)) != None;
    }
  }

  lemma AsideShrinks(before: Tree, after: Tree, p: Path, q: Path, id: nat)
    requires Aside(before, after, p, q, id) && p.Hidden? && q.Hidden?
    ensures SlotsShrink(before, after) && SamePublic(before, after)
    ensures forall x: Path :: x.Entry? ==> IdAt(after, x) == None || IdAt(after, x) == IdAt(before, x)
  {
    assert forall x: Path :: x.InRollback? ==> x == InRollback(x.dir, x.slot);
  }

  /** Targets and staging names are the same. */
  ghost predicate SamePublic(before: Tree, after: Tree) {
    forall x: Path :: x.Target? || x.Staged? ==> IdAt(after, x) == IdAt(before, x)
  }

  lemma SamePublicStep(start: Tree, before: Tree, after: Tree)
    requires SamePublic(start, before) && SamePublic(before, after)
    ensures SamePublic(start, after)
  {
  }

  ghost predicate Vacant(at: Tree, names: seq<string>) {
    forall t :: t in names ==> IdAt(at, Target(t)) == None
  }

  lemma VacantNone(at: Tree)
    ensures Vacant(at, [])
  {
  }

  lemma VacantOneMore(at: Tree, names: seq<string>, i: nat)
    requires i < |names|
    ensures Vacant(at, names[..i]) && Target(names[i]) !in at ==> Vacant(at, names[..i + 1])
  {
  }

  lemma VacantAt(at: Tree, names: seq<string>, i: nat)
    requires i < |names|
    ensures Target(names[i]) in at ==> !Vacant(at, names)
  {
    assert names[i] in names && (Target(names[i]) in at ==> IdAt(at, Target(names[i])) != None);
  }

  lemma VacantGrows(before: Tree, after: Tree, names: seq<string>, t: string)
    requires Vacant(before, names) && SameBut(before, after, t) && IdAt(after, Target(t)) == None
    ensures Vacant(after, names + [t])
  {
  }

  /** With everything put back and nothing on the targets, the public names are as before, unless an
      original was never recorded. */
  lemma AllBack(was: Tree, l: Ledger)
    requires Accounted(was, l) && l.taken == {} && forall m :: m in l.moved ==> m in l.returned
    ensures AsBefore(was, l.at) <==> l.unrecorded == None
  {
    if l.unrecorded == None {
      forall t: string ensures IdAt(l.at, Target(t)) == IdAt(was, Target(t)) {
        if MovedTo(l.moved, t) {
          var m :| m in l.moved && m.target == t;
        }
      }
    }
  }

  // ---- What stands on the published targets ----

  /** What a recorded original rests on cannot be touched by taking `p` away and emptying `id`. */
  ghost predicate Secure(l: Ledger, m: Moved, p: Path, id: nat) {
    || (InSlot(l.at, m) && m.dir != id)
    || (m in l.returned && (l.tampered || (AtTarget(l.at, m) && Target(m.target) != p)))
  }

  ghost predicate AllSecure(l: Ledger, p: Path, id: nat) {
    l.committed || forall m :: m in l.moved ==> Secure(l, m, p, id)
  }

  lemma PublishedSecure(was: Tree, base: nat, l: Ledger, a: Artifact)
    requires Sound(was, base, l) && a in l.published && l.returned == {}
    ensures AllSecure(l, Target(a.item.target), a.id)
  {
  }

  lemma DirectorySecure(was: Tree, base: nat, l: Ledger, d: Directory)
    requires Sound(was, base, l) && d in l.directories
    requires l.committed || forall m :: m in l.moved ==> m in l.returned
    ensures AllSecure(l, d.path, d.id)
  {
  }

  lemma SecureStays(l: Ledger, l': Ledger, p: Path, id: nat)
    requires AllSecure(l, p, id) && l' == l.(at := l'.at, nextId := l'.nextId, tampered := l'.tampered)
    requires (l.tampered ==> l'.tampered) && (!l'.tampered ==> l'.at == l.at)
    requires forall x: Path :: x.InRollback? ==> IdAt(l'.at, x) == IdAt(l.at, x)
    ensures AllSecure(l', p, id)
  {
    forall m | m in l.moved && !l.committed ensures Secure(l', m, p, id) {
      assert Secure(l, m, p, id);
    }
  }

  lemma SecureConserves(l: Ledger, l': Ledger, p: Path, q: Path, id: nat)
    requires AllSecure(l, p, id) && Aside(l.at, l'.at, p, q, id) && q.Hidden? && !p.InRollback?
    requires l'.moved == l.moved && l'.returned == l.returned && l'.committed == l.committed
    requires l'.tampered == l.tampered
    ensures Conserves(SnapshotOf(l'))
  {
    forall m | m in l.moved && !l.committed
      ensures InSlot(l'.at, m) || AtTarget(l'.at, m) || (m in l.returned && l.tampered)
    {
      assert Secure(l, m, p, id);
    }
  }

  /** The next slot is free in every directory. */
  lemma SlotFree(was: Tree, base: nat, l: Ledger, d: Directory)
    requires Sound(was, base, l) && l.unrecorded == None
    ensures InRollback(d.id, |l.moved|) !in l.at
  {
    assert IdAt(l.at, InRollback(d.id, |l.moved|)) == None by {
      assert forall m :: m in l.moved ==> m.slot != |l.moved|;
    }
  }

  lemma HitsLost(was: Tree, base: nat, l: Ledger)
    requires Sound(was, base, l)
    ensures forall h :: h in l.hits ==> h.id in l.lost
  {
  }

  /** A public name stands for one thing of the right kind, and nothing else does. */
  predicate Ordinary(at: Tree, t: string, directory: bool) {
    Target(t) in at && OnlyName(at, at[Target(t)], Target(t)) && IsDirectory(at[Target(t)]) == directory
  }

  lemma OrdinaryStays(before: Tree, after: Tree, nextId: nat, t: string, directory: bool)
    requires Target(t) in before && NewNamesOnly(before, after, nextId) && before[Target(t)] < nextId
    ensures Target(t) in after && after[Target(t)] == before[Target(t)]
    ensures Ordinary(before, t, directory) ==> Ordinary(after, t, directory)
  {
    assert IdAt(after, Target(t)) == IdAt(before, Target(t));
    assert forall q :: q in after && after[q] == before[Target(t)] ==> IdAt(before, q) == Some(after[q]);
  }

  // ---- What lets a run go through ----

  /** A public name is free, or it is taken by what can be set aside. */
  predicate Yields(at: Tree, t: string, directory: bool) {
    Target(t) !in at || Ordinary(at, t, directory)
  }

  predicate AllYield(at: Tree, names: seq<string>, directory: bool) {
    forall t :: t in names ==> Yields(at, t, directory)
  }

  predicate ItemsYield(at: Tree, items: seq<Item>) {
    forall i :: 0 <= i < |items| ==> AllYield(at, TargetArtifacts(items[i]), items[i].directory)
  }

  /** A staged input is of the right kind, and a file has that one name. */
  predicate Placeable(at: Tree, item: Item) {
    && Staged(item.staged) in at && IsDirectory(at[Staged(item.staged)]) == item.directory
    && (!item.directory ==> OnlyName(at, at[Staged(item.staged)], Staged(item.staged)))
  }

  predicate AllPlaceable(at: Tree, items: seq<Item>) {
    forall i :: 0 <= i < |items| ==> Placeable(at, items[i])
  }

  predicate StagedApart(items: seq<Item>) {
    forall i, j :: 0 <= i < j < |items| ==> items[i].staged != items[j].staged
  }

  /** Besides private names, at most these targets differ, and what had one name still has no other. */
  ghost predicate Beside(before: Tree, after: Tree, names: seq<string>) {
    && (forall x: Path :: x.Staged? || (x.Target? && x.name !in names) ==> IdAt(after, x) == IdAt(before, x))
    && forall x: Path, id: nat ::
         (x.Staged? || (x.Target? && x.name !in names)) && OnlyName(before, id, x) ==> OnlyName(after, id, x)
  }

  lemma BesideItself(at: Tree)
    ensures Beside(at, at, [])
  {
  }

  lemma BesideOne(start: Tree, mid: Tree, after: Tree, names: seq<string>, t: string)
    requires Beside(start, mid, names) && SameBut(mid, after, t)
    ensures Beside(start, after, names + [t])
  {
    hide OnlyName;
  }

  lemma BesideMore(start: Tree, mid: Tree, after: Tree, names: seq<string>, more: seq<string>)
    requires Beside(start, mid, names) && Beside(mid, after, more)
    ensures Beside(start, after, names + more)
  {
    hide OnlyName;
  }

  lemma YieldsStill(before: Tree, after: Tree, names: seq<string>, others: seq<string>, directory: bool)
    requires Beside(before, after, names) && AllYield(before, others, directory)
    requires forall t :: t in others ==> t !in names
    ensures AllYield(after, others, directory)
  {
    hide OnlyName;
    forall t | t in others ensures Yields(after, t, directory) {
      assert Yields(before, t, directory);
      assert IdAt(after, Target(t)) == IdAt(before, Target(t));
    }
  }

  /** The names before the i-th were set aside; the i-th is as it was. */
  lemma StillYields(before: Tree, after: Tree, names: seq<string>, i: nat, directory: bool)
    requires i < |names| && Distinct(names) && Beside(before, after, names[..i]) && AllYield(before, names, directory)
    ensures Yields(after, names[i], directory)
  {
    hide OnlyName, Beside, Yields;
    assert names[i] in names;
    assert AllYield(before, [names[i]], directory);
    YieldsStill(before, after, names[..i], [names[i]], directory);
    assert names[i] in [names[i]];
  }

  lemma PlaceableStill(before: Tree, after: Tree, names: seq<string>, items: seq<Item>)
    requires Beside(before, after, names) && AllPlaceable(before, items)
    ensures AllPlaceable(after, items)
  {
    hide OnlyName;
    forall i | 0 <= i < |items| ensures Placeable(after, items[i]) {
      assert Placeable(before, items[i]);
      assert IdAt(after, Staged(items[i].staged)) == IdAt(before, Staged(items[i].staged));
    }
  }

  /** The names of an item are among all, but not among those of the items before it. */
  lemma {:induction false} NamesApart(items: seq<Item>, n: nat)
    requires n < |items| && Distinct(AllTargets(items))
    ensures forall t :: t in TargetArtifacts(items[n]) ==> t in AllTargets(items) && t !in AllTargets(items[..n])
    ensures Distinct(TargetArtifacts(items[n]))
  {
    hide TargetArtifacts;
    PrefixTargets(items, n + 1);
    var upTo, own := AllTargets(items[..n]), TargetArtifacts(items[n]);
    assert items[..n + 1][..n] == items[..n];
    assert AllTargets(items[..n + 1]) == upTo + own;
    var all := AllTargets(items);
    assert upTo + own <= all;
    assert forall i :: 0 <= i < |upTo| ==> (upTo + own)[i] == upTo[i] == all[i];
    assert forall i :: 0 <= i < |own| ==> (upTo + own)[|upTo| + i] == own[i] == all[|upTo| + i];
  }

  /** Besides private names, at most the item's two names differ, and every other staged input that had one name
      still has no other. */
  ghost predicate OnlyPlaced(before: Tree, after: Tree, item: Item) {
    && (forall x: Path :: (x.Staged? || x.Target?) && x != Staged(item.staged) && x != Target(item.target) ==>
          IdAt(after, x) == IdAt(before, x))
    && forall k: nat, id: nat ::
         k != item.staged && OnlyName(before, id, Staged(k)) ==> OnlyName(after, id, Staged(k))
  }

  lemma OnlyPlacedItself(at: Tree, item: Item)
    ensures OnlyPlaced(at, at, item) && AsBefore(at, at)
  {
  }

  lemma OnlyPlacedTwice(start: Tree, mid: Tree, after: Tree, item: Item)
    requires OnlyPlaced(start, mid, item) && OnlyPlaced(mid, after, item)
    ensures OnlyPlaced(start, after, item)
  {
    hide OnlyName;
  }

  lemma PlacedOnly(before: Tree, after: Tree, a: Artifact)
    requires IdAt(before, Staged(a.item.staged)) == Some(a.id)
    requires
      || after == before || after == before[Target(a.item.target) := a.id]
      || after == Renamed(before, Staged(a.item.staged), Target(a.item.target))
    ensures OnlyPlaced(before, after, a.item)
  {
  }

  /** The staging link goes, and what it led to has its target as its one name. */
  lemma UnstagedOnly(before: Tree, a: Artifact)
    requires IdAt(before, Staged(a.item.staged)) == Some(a.id) && !a.item.directory
    ensures OnlyPlaced(before, before - {Staged(a.item.staged)}, a.item)
    ensures AsBefore(before, before - {Staged(a.item.staged)})
    ensures Recognised(before, Target(a.item.target), a.id, false, false, Staged(a.item.staged)) ==>
      OnlyName(before - {Staged(a.item.staged)}, a.id, Target(a.item.target))
  {
  }

  predicate PlaceableFrom(at: Tree, items: seq<Item>, n: nat) {
    forall i :: n <= i < |items| ==> Placeable(at, items[i])
  }

  lemma PlaceableNow(at: Tree, items: seq<Item>, n: nat)
    requires n < |items|
    ensures PlaceableFrom(at, items, n) ==> Placeable(at, items[n])
  {
  }

  lemma PlaceableNext(before: Tree, after: Tree, items: seq<Item>, n: nat)
    requires n < |items| && StagedApart(items) && PlaceableFrom(before, items, n) && OnlyPlaced(before, after, items[n])
    ensures PlaceableFrom(after, items, n + 1)
  {
    hide OnlyName;
    forall i | n + 1 <= i < |items| ensures Placeable(after, items[i]) {
      assert Placeable(before, items[i]);
      assert IdAt(after, Staged(items[i].staged)) == IdAt(before, Staged(items[i].staged));
    }
  }

  function Sidecars(item: Item): seq<string> {
    TargetArtifacts(item)[1..]
  }

  /** No sidecar of the next item is a target of an earlier one, so all of them are free. */
  lemma {:induction false} SidecarsFree(at: Tree, items: seq<Item>, published: seq<Artifact>)
    requires |published| < |items| && Distinct(AllTargets(items)) && AreItems(published, items)
    requires VacantBut(at, AllTargets(items), TargetsOf(published))
    ensures Vacant(at, Sidecars(items[|published|]))
  {
    hide AllTargets, TargetArtifacts, Distinct;
    var n := |published|;
    NamesApart(items, n);
    forall t | t in Sidecars(items[n]) ensures IdAt(at, Target(t)) == None {
      assert t in TargetArtifacts(items[n]);
      if t in TargetsOf(published) {
        var a :| a in published && a.item.target == t;
        var i :| 0 <= i < n && published[i] == a;
        assert items[..n][i] == items[i];
        TargetNamed(items[..n], i);
      }
    }
  }

  lemma VacantStill(before: Tree, after: Tree, item: Item)
    requires OnlyPlaced(before, after, item) && Vacant(before, Sidecars(item))
    ensures Vacant(after, Sidecars(item))
  {
    hide OnlyName;
    forall t | t in Sidecars(item) ensures IdAt(after, Target(t)) == None {
      assert |t| > |item.target|;
    }
  }

  /** The items before the n-th were set aside; the n-th is as it was. */
  lemma ItemYields(before: Tree, after: Tree, items: seq<Item>, n: nat)
    requires n < |items| && Distinct(AllTargets(items)) && ItemsYield(before, items)
    requires Beside(before, after, AllTargets(items[..n]))
    ensures AllYield(after, TargetArtifacts(items[n]), items[n].directory) && Distinct(TargetArtifacts(items[n]))
  {
    hide Beside, AllYield, AllTargets, TargetArtifacts;
    NamesApart(items, n);
    YieldsStill(before, after, AllTargets(items[..n]), TargetArtifacts(items[n]), items[n].directory);
  }

  // ---- Rollback directories being cleaned up ----

  /** What setting something aside leaves to be named: the place it was moved to, or where it should have
      been; or where it could not be moved away. */
  function Kept(r: Quarantined, p: Path): seq<Path> {
    match r
    case RetainedAt(q) => [q]
    case Missing => [p]
    case _ => []
  }

  function Stuck(r: Quarantined, p: Path): seq<Path> {
    if r.Blocked? then [p] else []
  }

  ghost predicate AllHidden(named: seq<Path>) {
    forall p :: p in named ==> p.Hidden?
  }

  lemma PathsOfMember(directories: seq<Directory>, i: nat)
    requires i < |directories|
    ensures directories[i].path in PathsOf(directories)
  {
    assert PathsOf(directories)[i] == directories[i].path;
  }

  lemma PathsOfMembers(directories: seq<Directory>)
    ensures forall p :: p in PathsOf(directories) <==> exists j :: 0 <= j < |directories| && directories[j].path == p
  {
    assert forall j :: 0 <= j < |directories| ==> PathsOf(directories)[j] == directories[j].path;
  }

  lemma PathsOfNone(directories: seq<Directory>)
    ensures PathsOf(directories[|directories|..]) == []
  {
  }

  lemma DirectoriesHidden(was: Tree, base: nat, l: Ledger)
    requires Sound(was, base, l)
    ensures forall d :: d in l.directories ==> d.path.Hidden? && d.path.n < l.nextHidden
  {
  }

  lemma DirectoryStays(l: Ledger, l': Ledger, d: Directory)
    requires OthersOnly(l, l') && IdAt(l.at, d.path) == Some(d.id) && d.path.Hidden?
    ensures IdAt(l'.at, d.path) == Some(d.id) && l'.nextHidden == l.nextHidden
    ensures l'.directories == l.directories && l'.cleaned == l.cleaned && l'.moved == l.moved
    ensures l'.returned == l.returned && l'.committed == l.committed
  {
  }

  lemma OthersIdle(l: Ledger, l': Ledger)
    requires OthersOnly(l, l') && !l'.tampered
    ensures l'.at == l.at && l'.unrecorded == l.unrecorded && l'.lost == l.lost
  {
  }

  lemma OthersRecord(l: Ledger, l': Ledger)
    requires OthersOnly(l, l')
    ensures l'.unrecorded == l.unrecorded && l'.lost == l.lost
  {
  }

  lemma OthersKnown(l: Ledger, l': Ledger)
    requires OthersOnly(l, l')
    ensures l' == l.(at := l'.at, nextId := l'.nextId, tampered := l'.tampered)
    ensures l.nextId <= l'.nextId && (l.tampered ==> l'.tampered) && (!l'.tampered ==> l'.at == l.at)
  {
  }

  /** After a directory's quarantine, whatever is left in a slot is still named. */
  lemma DirectoryNamed(l: Ledger, mid: Ledger, l': Ledger, retained: seq<Path>, blocked: seq<Path>, i: nat, q: Path,
                       r: Quarantined)
    requires OthersOnly(l, mid) && i < |l.directories| && q !in mid.at && q.Hidden?
    requires SlotsNamed(l.at, retained + blocked + PathsOf(l.directories[i..])) && AllHidden(retained + blocked)
    requires forall d :: d in l.directories ==> d.path.Hidden?
    requires IdAt(mid.at, l.directories[i].path) == Some(l.directories[i].id)
    requires Aside(mid.at, l'.at, l.directories[i].path, q, l.directories[i].id)
    requires !r.Threw? && !r.Missing? && (r.Removed? ==> NoSlotsOf(l'.at, l.directories[i].id))
    requires r.Blocked? ==> l'.at == mid.at
    requires r.RetainedAt? ==> r.path == q
    requires r.RetainedAt? ==> NoSlotsOf(l'.at, l.directories[i].id) || IdAt(l'.at, r.path) == Some(l.directories[i].id)
    ensures var d := l.directories[i];
            var named := retained + Kept(r, d.path) + (blocked + Stuck(r, d.path));
            SlotsNamed(l'.at, named + PathsOf(l.directories[i + 1..])) && AllHidden(named)
  {
    var d := l.directories[i];
    var before := retained + blocked + PathsOf(l.directories[i..]);
    var after := retained + Kept(r, d.path) + (blocked + Stuck(r, d.path)) + PathsOf(l.directories[i + 1..]);
    PathsOfRest(l.directories, i);
    PathsHidden(l.directories[i + 1..]);
    hide PathsOf;
    NamedOthers(l, mid, before);
    AsideShrinks(mid.at, l'.at, d.path, q, d.id);
    if !NoSlotsOf(l'.at, d.id) {
      assert (if r.RetainedAt? then q else d.path) in after;
    }
    NamedStep(mid.at, l'.at, before, after, d.path, q, d.id);
  }

  lemma PathsHidden(directories: seq<Directory>)
    requires forall d :: d in directories ==> d.path.Hidden?
    ensures forall p :: p in PathsOf(directories) ==> p.Hidden?
  {
  }

  lemma PathsOfRest(directories: seq<Directory>, i: nat)
    requires i < |directories|
    ensures PathsOf(directories[i..]) == [directories[i].path] + PathsOf(directories[i + 1..])
  {
  }

  lemma NamedOthers(l: Ledger, l': Ledger, named: seq<Path>)
    requires OthersOnly(l, l') && SlotsNamed(l.at, named) && forall p :: p in named ==> p.Hidden?
    ensures SlotsNamed(l'.at, named)
  {
    forall x: Path | x.InRollback? && IdAt(l'.at, x) != None ensures Names(l'.at, named, x.dir) {
      assert Names(l.at, named, x.dir);
      var p :| p in named && IdAt(l.at, p) == Some(x.dir);
      assert IdAt(l'.at, p) == Some(x.dir);
    }
  }

  /** What the clean-up could not name by its directory's place is named where it was moved. */
  lemma StillThere(at: Tree, retained: seq<Path>, blocked: seq<Path>, existing: seq<Path>)
    requires SlotsNamed(at, retained + blocked) && forall p :: p in blocked && p in at ==> p in existing
    ensures SlotsNamed(at, existing + retained)
  {
    forall x: Path | x.InRollback? && IdAt(at, x) != None ensures Names(at, existing + retained, x.dir) {
      assert Names(at, retained + blocked, x.dir);
      var p :| p in retained + blocked && IdAt(at, p) == Some(x.dir);
    }
  }

  lemma NoneToName(at: Tree)
    requires NoSlots(at)
    ensures SlotsNamed(at, [])
  {
  }

  /** Another process created a file under a free name. */
  lemma AppearedKnown(was: Tree, base: nat, l: Ledger, l': Ledger, id: nat)
    requires Sound(was, base, l) && l.nextId <= id < l'.nextId && l.unrecorded == None && !l.committed
    requires l' == l.(at := l'.at, nextId := l'.nextId, tampered := true)
    requires forall x: Path :: !x.Target? && !x.Entry? ==> IdAt(l'.at, x) == IdAt(l.at, x)
    requires forall x :: x in l.at ==> l.at[x] < l.nextId
    ensures Sound(was, base, l') && !Ours(was, l', id) && id !in was.Values && Conserves(SnapshotOf(l'))
    ensures forall x :: x in l.at ==> l.at[x] != id
  {
    OthersActed(was, base, l, l');
    SoundConserves(was, base, l');
  }

  ghost predicate NoSlotsOf(at: Tree, id: nat) {
    forall k: nat :: IdAt(at, InRollback(id, k)) == None
  }

  /** Between the two states only other processes acted. */
  ghost predicate OthersOnly(l: Ledger, l': Ledger) {
    && l' == l.(at := l'.at, nextId := l'.nextId, tampered := l'.tampered)
    && l.nextId <= l'.nextId && (l.tampered ==> l'.tampered) && (!l'.tampered ==> l'.at == l.at)
    && forall x: Path :: !x.Target? && !x.Entry? ==> IdAt(l'.at, x) == IdAt(l.at, x)
  }

  lemma OthersTwice(l: Ledger, mid: Ledger, l': Ledger)
    requires OthersOnly(l, mid) && OthersOnly(mid, l')
    ensures OthersOnly(l, l')
  {
  }

  lemma KeepsName(at: Tree, p: Path)
    ensures p in at ==> HasName(at, at[p])
  {
    if p in at {
      StillNamed(at, p);
    }
  }

  /** Others leave a private directory as it is, and, while they do nothing, everything. */
  lemma RecognisedStays(l: Ledger, l': Ledger, p: Path, id: nat, directory: bool, final: bool, staged: Path)
    requires OthersOnly(l, l')
    ensures Recognised(l.at, p, id, directory, final, staged)
            && (l'.at == l.at || !l'.tampered || (p.Hidden? && directory)) ==>
      Recognised(l'.at, p, id, directory, final, staged) && p in l.at
  {
  }

  /** Nothing lost its last name without being on record. */
  ghost predicate NamesKept(before: Tree, after: Tree, lost: set<nat>) {
    forall id :: HasName(before, id) ==> HasName(after, id) || id in lost
  }

  /** What others had put into the directory, and what had no other name, is gone and on record. */
  ghost predicate EntriesSwept(at: Tree, hits: set<Hit>, dir: nat) {
    forall name: string :: Entry(dir, name) in at && OnlyName(at, at[Entry(dir, name)], Entry(dir, name)) ==>
      Swept(Entry(dir, name), at[Entry(dir, name)]) in hits
  }

  lemma SweptFrom(at: Tree, hits: set<Hit>, dir: nat, name: string)
    requires EntriesSwept(at, hits, dir) && Entry(dir, name) in at
    requires OnlyName(at, at[Entry(dir, name)], Entry(dir, name))
    ensures Swept(Entry(dir, name), at[Entry(dir, name)]) in hits
  {
  }

  lemma OnlyNamed(at: Tree, id: nat, p: Path)
    ensures OnlyName(at, id, p) ==> IdAt(at, p) == Some(id)
  {
  }

  /** The only new names are private ones for new identities. */
  ghost predicate NewNamesOnly(before: Tree, after: Tree, nextId: nat) {
    && (forall x: Path :: !x.Hidden? ==> IdAt(after, x) == IdAt(before, x))
    && forall x :: x in after ==> IdAt(before, x) == Some(after[x]) || after[x] >= nextId
  }

  lemma NothingAside(l: Ledger, p: Path, q: Path, id: nat)
    requires q !in l.at
    ensures Aside(l.at, l.at, p, q, id) && LostWithin(l, l, id)
  {
  }

  /** The effect of removing what was set aside as `q`, in full or in part. */
  lemma RemovedAside(l: Ledger, l': Ledger, q: Path, id: nat, removed: bool)
    requires q.Hidden? && IdAt(l.at, q) == Some(id)
    requires l' == l.(at := l'.at, lost := l'.lost, hits := l'.hits)
    requires if removed then l'.at == WithoutTree(l.at, q) else PartlyRemoved(l.at, l'.at, q)
    requires l'.lost == l.lost + Orphaned(l.at, l'.at) && l'.hits == l.hits + SweptIn(l.at, l'.at, l.returned)
    ensures Aside(l.at, l'.at, q, q, id) && LostWithin(l, l', id)
    ensures removed ==> NoSlotsOf(l'.at, id)
    ensures NoSlotsOf(l'.at, id) || IdAt(l'.at, q) == Some(id)
    ensures NamesKept(l.at, l'.at, l'.lost) && (removed ==> EntriesSwept(l.at, l'.hits, id))
  {
    TreeLosses(l.at, l'.at, q, l.returned);
    assert forall x: Path :: x != q && !(x.InRollback? && x.dir == id) && !x.Entry? ==> !Inside(l.at, q, x);
    NothingSwept(l, l');
    OrphansKnown(l, l');
    if removed {
      AllSwept(l, l', q, id);
    }
  }

  lemma OrphansKnown(l: Ledger, l': Ledger)
    requires l'.lost == l.lost + Orphaned(l.at, l'.at)
    ensures NamesKept(l.at, l'.at, l'.lost)
  {
    forall id | HasName(l.at, id) && !HasName(l'.at, id) ensures id in l'.lost {
      var p :| p in l.at && l.at[p] == id;
      assert id in Orphaned(l.at, l'.at);
    }
  }

  lemma AllSwept(l: Ledger, l': Ledger, q: Path, id: nat)
    requires q in l.at && l.at[q] == id && l'.at == WithoutTree(l.at, q)
    requires l'.hits == l.hits + SweptIn(l.at, l'.at, l.returned)
    ensures EntriesSwept(l.at, l'.hits, id)
  {
    forall name: string | Entry(id, name) in l.at && OnlyName(l.at, l.at[Entry(id, name)], Entry(id, name))
      ensures Swept(Entry(id, name), l.at[Entry(id, name)]) in l'.hits
    {
      assert Inside(l.at, q, Entry(id, name));
      assert !HasName(l'.at, l.at[Entry(id, name)]);
    }
  }

  lemma NothingSwept(l: Ledger, l': Ledger)
    ensures NoEntries(l.at) && (forall m :: m in l.returned ==> AtTarget(l'.at, m)) ==>
      SweptIn(l.at, l'.at, l.returned) == {}
  {
    if NoEntries(l.at) && forall m :: m in l.returned ==> AtTarget(l'.at, m) {
      assert forall m :: m in l.returned ==> HasName(l'.at, m.id);
      assert forall x: Path :: x in l.at ==> !x.Entry? by {
        assert forall x: Path :: x in l.at ==> IdAt(l.at, x) != None;
      }
    }
  }

  /** A stray new directory was removed again. */
  lemma StrayRemoved(l: Ledger, l': Ledger, with: Tree, p: Path, id: nat, removed: bool)
    requires p == Hidden(l.nextHidden) && p !in l.at && with == l.at[p := id] && NoSlotsOf(with, id)
    requires forall name: string :: Entry(id, name) !in with
    requires l'.lost == l.lost + Orphaned(with, l'.at) && l'.hits == l.hits + SweptIn(with, l'.at, l.returned)
    requires if removed then l'.at == WithoutTree(with, p) else PartlyRemoved(with, l'.at, p)
    requires l.nextId <= id
    ensures forall x: Path :: x != p ==> IdAt(l'.at, x) == IdAt(l.at, x)
    ensures l'.hits == l.hits && l'.lost <= l.lost + {id} && NewNamesOnly(l.at, l'.at, l.nextId)
  {
    assert forall q :: q in with && q != p ==> !Inside(with, p, q);
    assert forall q :: q in with && q != p ==> q in l'.at && l'.at[q] == with[q];
  }

  /** What setting `p` aside as `q` comes to: it is left alone if it cannot be moved; otherwise it is gone from
      its name, and, unless it was the identity `id` and was removed, it has a name still. */
  ghost predicate SetAsideAs(r: Quarantined, l: Ledger, l': Ledger, p: Path, q: Path, id: nat) {
    && l' == l.(at := l'.at, nextHidden := l'.nextHidden, lost := l'.lost, hits := l'.hits)
    && l.nextHidden <= l'.nextHidden
    && Aside(l.at, l'.at, p, q, id) && LostWithin(l, l', id)
    && (if r.Threw? || r.Blocked? then l'.at == l.at && l'.lost == l.lost && l'.hits == l.hits
        else IdAt(l'.at, p) == None)
    && NamesKept(l.at, l'.at, l'.lost) && (r.Removed? ==> EntriesSwept(l.at, l'.hits, id))
    && (r.Missing? ==> p !in l.at)
    && (r.Removed? ==> NoSlotsOf(l'.at, id))
    && (r.RetainedAt? ==> r.path == q)
    && (r.RetainedAt? && IdAt(l.at, p) == Some(id) ==> NoSlotsOf(l'.at, id) || IdAt(l'.at, q) == Some(id))
    && (p in l.at && l.at[p] != id ==> !r.Removed? && HasName(l'.at, l.at[p]))
  }

  lemma StillBlocked(l: Ledger, l': Ledger, p: Path, q: Path, id: nat)
    requires l' == l.(nextHidden := l'.nextHidden) && l.nextHidden <= l'.nextHidden && q !in l.at
    ensures SetAsideAs(Blocked, l, l', p, q, id) && SetAsideAs(Threw, l, l', p, q, id)
    ensures p !in l.at ==> SetAsideAs(Missing, l, l', p, q, id)
  {
    NothingAside(l, p, q, id);
    KeepsName(l.at, p);
  }

  lemma MovedKeepsNames(before: Tree, after: Tree, p: Path, q: Path)
    requires p in before && q !in before && p != q && after == (before - {p})[q := before[p]]
    ensures forall id :: HasName(before, id) <==> HasName(after, id)
  {
    forall id | HasName(before, id) ensures HasName(after, id) {
      var x :| x in before && before[x] == id;
      StillNamed(after, if x == p then q else x);
    }
    forall id | HasName(after, id) ensures HasName(before, id) {
      var x :| x in after && after[x] == id;
      StillNamed(before, if x == q then p else x);
    }
  }

  lemma RetainedThere(l: Ledger, mid: Ledger, p: Path, q: Path, id: nat)
    requires p in l.at && q !in l.at && p != q && q.Hidden? && !p.InRollback? && !p.Entry?
    requires mid == l.(at := (l.at - {p})[q := l.at[p]], nextHidden := mid.nextHidden) && l.nextHidden <= mid.nextHidden
    ensures SetAsideAs(RetainedAt(q), l, mid, p, q, id)
  {
    StillNamed(mid.at, q);
    MovedKeepsNames(l.at, mid.at, p, q);
    assert NamesKept(l.at, mid.at, mid.lost);
  }

  lemma SweptBefore(l: Ledger, mid: Ledger, l': Ledger, p: Path, q: Path, id: nat)
    requires p in l.at && q !in l.at && p != q && !q.Entry? && !p.Entry?
    requires mid.at == (l.at - {p})[q := l.at[p]] && EntriesSwept(mid.at, l'.hits, id)
    ensures EntriesSwept(l.at, l'.hits, id)
  {
    forall name: string | Entry(id, name) in l.at && OnlyName(l.at, l.at[Entry(id, name)], Entry(id, name))
      ensures Swept(Entry(id, name), l.at[Entry(id, name)]) in l'.hits
    {
      assert mid.at[Entry(id, name)] == l.at[Entry(id, name)];
      assert OnlyName(mid.at, mid.at[Entry(id, name)], Entry(id, name));
    }
  }

  lemma SetAsideAndRemoved(l: Ledger, mid: Ledger, l': Ledger, p: Path, q: Path, id: nat, r: Quarantined)
    requires p in l.at && q !in l.at && p != q && q.Hidden? && !p.InRollback? && !p.Entry?
    requires mid == l.(at := (l.at - {p})[q := l.at[p]], nextHidden := mid.nextHidden) && l.nextHidden <= mid.nextHidden
    requires l' == mid.(at := l'.at, lost := l'.lost, hits := l'.hits) && IdAt(mid.at, q) == Some(id)
    requires Aside(mid.at, l'.at, q, q, id) && LostWithin(mid, l', id)
    requires NoSlotsOf(l'.at, id) || IdAt(l'.at, q) == Some(id)
    requires r == RetainedAt(q) || (r == Removed && NoSlotsOf(l'.at, id))
    requires NamesKept(mid.at, l'.at, l'.lost) && (r.Removed? ==> EntriesSwept(mid.at, l'.hits, id))
    ensures SetAsideAs(r, l, l', p, q, id)
  {
    assert forall k: nat :: IdAt(mid.at, InRollback(id, k)) == IdAt(l.at, InRollback(id, k));
    assert forall x: Path :: x.Entry? ==> IdAt(mid.at, x) == IdAt(l.at, x);
    assert IdAt(l'.at, p) == IdAt(mid.at, p) == None;
    MovedKeepsNames(l.at, mid.at, p, q);
    if r.Removed? {
      SweptBefore(l, mid, l', p, q, id);
    }
    forall x | x in l'.lost && x !in l.lost && x != id && !Struck(l'.hits, x) ensures InSlots(l.at, id, l.returned, x) {
      assert InSlots(mid.at, id, mid.returned, x);
    }
  }

  /** One directory of the clean-up. */
  lemma CleanedOne(was: Tree, base: nat, l: Ledger, mid: Ledger, l': Ledger, i: nat, q: Path, r: Quarantined,
                   start: Tree, retained: seq<Path>, blocked: seq<Path>)
    requires Sound(was, base, l) && OthersOnly(l, mid) && Sound(was, base, mid) && i == l.cleaned < |l.directories|
    requires q == Hidden(l.nextHidden) && q !in mid.at && (l.committed || forall m :: m in l.moved ==> m in l.returned)
    requires SetAsideAs(r, mid, l'.(cleaned := i), l.directories[i].path, q, l.directories[i].id) && l'.cleaned == i + 1
    requires !l'.tampered ==> SamePublic(start, l.at)
    requires SlotsNamed(l.at, retained + blocked + PathsOf(l.directories[i..])) && AllHidden(retained + blocked)
    ensures Sound(was, base, l') && (!l'.tampered ==> SamePublic(start, l'.at))
    ensures mid.at == l.at && Sole(l.at, l.unrecorded, l.lost) ==> Sole(l'.at, l'.unrecorded, l'.lost)
    ensures var d := l.directories[i];
            var named := retained + Kept(r, d.path) + (blocked + Stuck(r, d.path));
            !r.Threw? ==> SlotsNamed(l'.at, named + PathsOf(l.directories[i + 1..])) && AllHidden(named)
  {
    var d := l.directories[i];
    NextDirectory(was, base, l);
    DirectoriesHidden(was, base, l);
    DirectoryStays(l, mid, d);
    hide Sound, SamePublic, SlotsNamed, PathsOf, AllHidden, Kept, Stuck, Aside, LostWithin, NoSlotsOf, OthersOnly,
      NamesKept, EntriesSwept, Sole;
    CleanedUp(was, base, mid, l', d, q);
    AsideShrinks(mid.at, l'.at, d.path, q, d.id);
    if !l'.tampered {
      OthersIdle(l, mid);
      SamePublicStep(start, mid.at, l'.at);
    }
    OthersRecord(l, mid);
    if mid.at == l.at && Sole(l.at, l.unrecorded, l.lost) {
      SoleAside(mid, l', d.path, q, d.id, r);
    }
    if !r.Threw? {
      DirectoryNamed(l, mid, l', retained, blocked, i, q, r);
    }
  }

  /** One artifact off its target, or not. */
  lemma ClearedOne(was: Tree, base: nat, l: Ledger, mid: Ledger, l': Ledger, rest: seq<Artifact>, a: Artifact, q: Path,
                   r: Quarantined)
    requires OthersOnly(l, mid) && Sound(was, base, mid) && a in l.published && l.returned == {}
    requires q == Hidden(l.nextHidden) && q !in mid.at && DistinctTargets(rest + [a])
    requires TargetsOf(rest + [a]) <= l.taken
    requires !l.tampered ==> InPlace(l.at, rest + [a])
    requires SetAsideAs(r, mid, l'.(taken := l.taken), Target(a.item.target), q, a.id)
    requires l'.taken == if r.Threw? || r.Blocked? then l.taken else l.taken - {a.item.target}
    ensures Sound(was, base, l') && Conserves(SnapshotOf(l')) && (!l'.tampered ==> InPlace(l'.at, rest))
  {
    OthersKnown(l, mid);
    TargetsOfFront(rest, a);
    hide OthersOnly, TargetsOf, DistinctTargets, InPlace, Recognised, Sound, Conserves, Aside, LostWithin, NoSlotsOf;
    if !mid.tampered {
      InPlaceLast(l.at, rest, a);
      NoSuchSlot(was, base, mid, a);
      RecognisedThere(l.at, Target(a.item.target), a.id, a.item.directory, a.final, Staged(a.item.staged));
      InPlaceAside(mid.at, l'.at, rest, a, q);
    }
    if r.Threw? || r.Blocked? {
      PrivatelyChanged(was, base, mid, l');
    } else {
      Cleared(was, base, mid, l', a, q);
    }
    SoundConserves(was, base, l');
  }

  lemma RecognisedThere(at: Tree, p: Path, id: nat, directory: bool, final: bool, staged: Path)
    requires Recognised(at, p, id, directory, final, staged)
    ensures IdAt(at, p) == Some(id)
  {
  }

  /** The original nobody recorded has no name but its slot, or is lost. */
  ghost predicate Sole(at: Tree, unrecorded: Option<Moved>, lost: set<nat>) {
    unrecorded.Some? ==>
      var u := unrecorded.value;
      OnlyName(at, u.id, InRollback(u.dir, u.slot)) || u.id in lost
  }

  /** It is destroyed once its slot is gone. */
  lemma SoleLost(l: Ledger)
    requires Sole(l.at, l.unrecorded, l.lost) && NoSlots(l.at)
    ensures l.unrecorded.Some? ==> l.unrecorded.value.id in l.lost
  {
    if l.unrecorded.Some? {
      assert IdAt(l.at, InRollback(l.unrecorded.value.dir, l.unrecorded.value.slot)) == None;
    }
  }

  /** Setting aside a directory leaves it in its slot or takes its last name. */
  lemma SoleAside(l: Ledger, l': Ledger, p: Path, q: Path, id: nat, r: Quarantined)
    requires Sole(l.at, l.unrecorded, l.lost) && SetAsideAs(r, l, l'.(cleaned := l.cleaned), p, q, id)
    requires p.Hidden? && q.Hidden? && q !in l.at
    ensures Sole(l'.at, l'.unrecorded, l'.lost)
  {
    if l.unrecorded.Some? && l.unrecorded.value.id !in l'.lost {
      var u := l.unrecorded.value;
      var slot := InRollback(u.dir, u.slot);
      assert OnlyName(l.at, u.id, slot);
      StillNamed(l.at, slot);
      assert HasName(l'.at, u.id);
      forall x | x in l'.at && l'.at[x] == u.id ensures x == slot {
        assert IdAt(l'.at, x) == Some(u.id);
        assert x.InRollback? ==> x == InRollback(x.dir, x.slot);
        assert IdAt(l.at, x) == Some(u.id) || (x == q && IdAt(l.at, p) == Some(u.id));
      }
      var x :| x in l'.at && l'.at[x] == u.id;
    }
  }

  /** Putting another original back does not touch it. */
  lemma SoleBack(l: Ledger, l': Ledger, m: Moved)
    requires Sole(l.at, l.unrecorded, l.lost) && InSlot(l.at, m) && l'.unrecorded == l.unrecorded
    requires l.unrecorded.Some? ==>
      InRollback(m.dir, m.slot) != InRollback(l.unrecorded.value.dir, l.unrecorded.value.slot)
    requires l'.at == Renamed(l.at, InRollback(m.dir, m.slot), Target(m.target)) && l.lost <= l'.lost
    ensures Sole(l'.at, l'.unrecorded, l'.lost)
  {
  }

  /** The slot of the unrecorded original is not that of a recorded one. */
  lemma SoleApart(was: Tree, base: nat, l: Ledger, m: Moved)
    requires Sound(was, base, l) && m in l.moved && l.unrecorded.Some?
    ensures InRollback(m.dir, m.slot) != InRollback(l.unrecorded.value.dir, l.unrecorded.value.slot)
  {
  }

  /** The rename of an original back, whether or not it succeeded. */
  lemma RenamedBack(was: Tree, base: nat, l: Ledger, renamed: Ledger, l': Ledger, m: Moved, ok: bool)
    requires Sound(was, base, l) && m in l.moved && m !in l.returned && l.taken == {} && InSlot(l.at, m)
    requires l.tampered || IdAt(l.at, Target(m.target)) == None
    requires renamed == l.(at := renamed.at, lost := renamed.lost, hits := renamed.hits)
    requires l' == if ok then renamed.(returned := l.returned + {m}) else renamed
    requires ok ==> renamed.at == Renamed(l.at, InRollback(m.dir, m.slot), Target(m.target))
    requires ok ==> renamed.hits == l.hits + Overwritten(l.at, renamed.at, Target(m.target))
    requires ok ==> renamed.lost == l.lost + Ids(Overwritten(l.at, renamed.at, Target(m.target)))
    requires !ok ==> renamed == l
    ensures Sound(was, base, l') && Conserves(SnapshotOf(renamed)) && Conserves(SnapshotOf(l'))
    ensures l'.hits == if ok && Destroys(l.at, InRollback(m.dir, m.slot), Target(m.target))
                       then l.hits + {Replaced(Target(m.target), l.at[Target(m.target)])} else l.hits
    ensures forall h :: h in l'.hits ==> h.id in l'.lost
    ensures ok ==> IdAt(l'.at, Target(m.target)) == Some(m.id)
    ensures Sole(l.at, l.unrecorded, l.lost) ==> Sole(l'.at, l'.unrecorded, l'.lost)
  {
    OverwrittenExactly(l.at, InRollback(m.dir, m.slot), Target(m.target));
    assert ok ==> IdAt(l'.at, Target(m.target)) == Some(m.id);
    hide Overwritten, Ids, Renamed, Destroys, Sound, Conserves, Sole;
    if ok && Sole(l.at, l.unrecorded, l.lost) {
      if l.unrecorded.Some? {
        SoleApart(was, base, l, m);
      }
      SoleBack(l, l', m);
    }
    SoundConserves(was, base, l);
    if ok {
      PutBack(was, base, l, l', m);
    }
    SoundConserves(was, base, l');
    HitsLost(was, base, l');
  }

  lemma SecureMoves(l: Ledger, l': Ledger, p: Path, q: Path, id: nat)
    requires AllSecure(l, p, id) && l'.moved == l.moved && l'.returned == l.returned && l'.committed == l.committed
    requires l'.tampered == l.tampered && q.Hidden? && !p.InRollback?
    requires forall x: Path :: x != p && x != q ==> IdAt(l'.at, x) == IdAt(l.at, x)
    ensures AllSecure(l', q, id)
  {
    forall m | m in l.moved && !l.committed ensures Secure(l', m, q, id) {
      assert Secure(l, m, p, id);
    }
  }

  ghost predicate InPlace(at: Tree, published: seq<Artifact>) {
    forall a :: a in published ==>
      Recognised(at, Target(a.item.target), a.id, a.item.directory, a.final, Staged(a.item.staged))
  }

  predicate DistinctTargets(published: seq<Artifact>) {
    forall i, j :: 0 <= i < j < |published| ==> published[i].item.target != published[j].item.target
  }

  ghost predicate AllFinal(published: seq<Artifact>) {
    forall a :: a in published ==> a.final
  }

  ghost function TargetsOf(published: seq<Artifact>): set<string> {
    set a | a in published :: a.item.target
  }

  lemma TargetsOfLast(published: seq<Artifact>, a: Artifact)
    requires DistinctTargets(published) && a.item.target !in TargetsOf(published)
    ensures DistinctTargets(published + [a]) && TargetsOf(published + [a]) == TargetsOf(published) + {a.item.target}
  {
    assert forall i :: 0 <= i < |published| ==> published[i].item.target in TargetsOf(published);
    assert forall b :: b in published + [a] <==> b in published || b == a;
  }

  lemma TargetsOfNone()
    ensures TargetsOf([]) == {}
  {
  }

  lemma TargetsOfFront(published: seq<Artifact>, a: Artifact)
    requires DistinctTargets(published + [a])
    ensures TargetsOf(published) == TargetsOf(published + [a]) - {a.item.target} && DistinctTargets(published)
    ensures a.item.target in TargetsOf(published + [a])
    ensures forall b :: b in published ==> b.item.target != a.item.target
  {
    var all := published + [a];
    assert all[|published|] == a && forall i :: 0 <= i < |published| ==> all[i] == published[i];
    assert forall b :: b in all <==> b in published || b == a;
  }

  lemma TargetsOfFinal(published: seq<Artifact>, i: nat)
    requires i < |published|
    ensures var after := published[i := published[i].(final := true)];
            && TargetsOf(after) == TargetsOf(published) && (DistinctTargets(published) ==> DistinctTargets(after))
  {
    var after := published[i := published[i].(final := true)];
    forall t | t in TargetsOf(published) ensures t in TargetsOf(after) {
      var j :| 0 <= j < |published| && published[j].item.target == t;
      assert after[j].item.target == t && after[j] in after;
    }
  }

  lemma {:induction false} PrefixTargets(items: seq<Item>, n: nat)
    requires n <= |items|
    ensures AllTargets(items[..n]) <= AllTargets(items)
  {
    if n == |items| {
      assert items[..n] == items;
    } else {
      var front := items[..|items| - 1];
      PrefixTargets(front, n);
      assert front[..n] == items[..n];
    }
  }

  /** Where an item's target stands among all the targets. */
  lemma {:induction false} TargetIndex(items: seq<Item>, i: nat)
    requires i < |items|
    ensures |AllTargets(items[..i])| < |AllTargets(items)|
    ensures AllTargets(items)[|AllTargets(items[..i])|] == items[i].target
  {
    PrefixTargets(items, i + 1);
    TargetLast(items[..i + 1]);
    assert items[..i + 1][..i] == items[..i];
  }

  /** An item's target is not among the targets of the items before it. */
  lemma {:induction false} TargetsApart(items: seq<Item>, n: nat)
    requires n < |items| && Distinct(AllTargets(items))
    ensures forall i :: 0 <= i < n ==> items[i].target != items[n].target
  {
    hide AllTargets;
    TargetIndex(items, n);
    forall i | 0 <= i < n ensures items[i].target != items[n].target {
      TargetIndex(items, i);
      TargetIndex(items[..n], i);
      assert items[..n][..i] == items[..i];
    }
  }

  /** The published artifacts are the first items, in order. */
  predicate AreItems(published: seq<Artifact>, items: seq<Item>) {
    |published| <= |items| && forall i :: 0 <= i < |published| ==> published[i].item == items[i]
  }

  lemma {:induction false} OneMoreItem(before: seq<Artifact>, after: seq<Artifact>, items: seq<Item>)
    requires AreItems(before, items) && |before| < |items| && |after| == |before| + 1
    requires after[..|before|] == before && after[|before|].item == items[|before|]
    ensures AreItems(after, items)
  {
    assert forall i :: 0 <= i < |before| ==> after[i] == before[i];
  }

  lemma {:induction false} NextTargetFree(items: seq<Item>, published: seq<Artifact>)
    requires |published| < |items| && Distinct(AllTargets(items))
    requires AreItems(published, items)
    ensures items[|published|].target !in TargetsOf(published)
  {
    TargetsApart(items, |published|);
  }

  lemma {:induction false} TargetNamed(items: seq<Item>, i: nat)
    requires i < |items|
    ensures items[i].target in AllTargets(items)
  {
    TargetIndex(items, i);
  }

  lemma TargetLast(items: seq<Item>)
    requires items != []
    ensures |AllTargets(items)| > |AllTargets(items[..|items| - 1])|
    ensures AllTargets(items)[|AllTargets(items[..|items| - 1])|] == items[|items| - 1].target
  {
  }

  /** Of these names only the taken ones stand for anything. */
  ghost predicate VacantBut(at: Tree, names: seq<string>, taken: set<string>) {
    forall t :: t in names ==> t in taken || IdAt(at, Target(t)) == None
  }

  lemma TargetFree(at: Tree, names: seq<string>, taken: set<string>, t: string)
    requires t in names && t !in taken
    ensures VacantBut(at, names, taken) ==> Target(t) !in at
  {
    assert VacantBut(at, names, taken) ==> IdAt(at, Target(t)) == None;
  }

  lemma VacantButPlaced(before: Tree, after: Tree, names: seq<string>, taken: set<string>, t: string)
    requires VacantBut(before, names, taken)
    requires forall u: string :: u != t ==> IdAt(after, Target(u)) == IdAt(before, Target(u))
    ensures VacantBut(after, names, taken + {t})
  {
  }

  /** Placing one more artifact leaves the finished ones as they are. */
  lemma InPlacePlaced(at: Tree, at': Tree, published: seq<Artifact>, a: Artifact)
    requires InPlace(at, published) && (forall b :: b in published ==> b.final) && !a.final
    requires IdAt(at, Target(a.item.target)) == None && IdAt(at, Staged(a.item.staged)) == Some(a.id)
    requires if a.item.directory then at' == (at - {Staged(a.item.staged)})[Target(a.item.target) := a.id]
             else at' == at[Target(a.item.target) := a.id] && OnlyName(at, a.id, Staged(a.item.staged))
    ensures InPlace(at', published + [a])
  {
    forall b | b in published
      ensures Recognised(at', Target(b.item.target), b.id, b.item.directory, b.final, Staged(b.item.staged))
    {
      if !b.item.directory {
        assert OnlyName(at, b.id, Target(b.item.target)) && b.id != a.id;
        assert forall x :: x in at' && at'[x] == b.id ==> x in at && at[x] == b.id;
      }
    }
    assert forall x :: x in at' && at'[x] == a.id && x != Target(a.item.target) ==> x in at && at[x] == a.id;
  }

  /** A staged artifact got its target, and what stands on the targets so far still does. */
  lemma PlacedStanding(was: Tree, base: nat, l: Ledger, l': Ledger, a: Artifact, names: seq<string>)
    requires Sound(was, base, l) && l.returned == {} && l.unrecorded == None
    requires IdAt(l.at, Staged(a.item.staged)) == Some(a.id) && !a.final && AllFinal(l.published)
    requires DistinctTargets(l.published) && l.taken == TargetsOf(l.published) && a.item.target !in l.taken
    requires !l.tampered ==>
      && InPlace(l.at, l.published) && VacantBut(l.at, names, l.taken) && IdAt(l.at, Target(a.item.target)) == None
      && (!a.item.directory ==> OnlyName(l.at, a.id, Staged(a.item.staged)))
    requires l' == l.(at := l'.at, published := l.published + [a], taken := l.taken + {a.item.target},
                      lost := l'.lost, hits := l'.hits)
    requires if a.item.directory then
               l'.at == Renamed(l.at, Staged(a.item.staged), Target(a.item.target))
               && l'.hits == l.hits + Overwritten(l.at, l'.at, Target(a.item.target))
               && l'.lost == l.lost + Ids(Overwritten(l.at, l'.at, Target(a.item.target)))
             else l'.at == l.at[Target(a.item.target) := a.id] && l'.lost == l.lost && l'.hits == l.hits
    ensures Sound(was, base, l') && Conserves(SnapshotOf(l.(at := l'.at)))
    ensures DistinctTargets(l'.published) && l'.taken == TargetsOf(l'.published)
    ensures !l'.tampered ==> InPlace(l'.at, l'.published) && VacantBut(l'.at, names, l'.taken)
    ensures !a.item.directory ==> IdAt(l'.at, Staged(a.item.staged)) == Some(a.id)
  {
    hide Sound, Conserves, DistinctTargets, TargetsOf, Overwritten, Ids;
    Placed(was, base, l, l', a);
    TargetsOfLast(l.published, a);
    if !l.tampered {
      InPlacePlaced(l.at, l'.at, l.published, a);
      VacantButPlaced(l.at, l'.at, names, l.taken, a.item.target);
    }
  }

  lemma InPlaceLast(at: Tree, published: seq<Artifact>, a: Artifact)
    requires InPlace(at, published + [a])
    ensures InPlace(at, published)
    ensures Recognised(at, Target(a.item.target), a.id, a.item.directory, a.final, Staged(a.item.staged))
  {
    assert a in published + [a] && forall b :: b in published ==> b in published + [a];
  }

  /** Dropping the staging link of the last one does too. */
  lemma InPlaceUnlinked(at: Tree, published: seq<Artifact>, a: Artifact)
    requires InPlace(at, published + [a]) && !a.item.directory && Staged(a.item.staged) in at
    requires at[Staged(a.item.staged)] == a.id && forall b :: b in published ==> b.final
    ensures InPlace(at - {Staged(a.item.staged)}, published + [a])
  {
    var at' := at - {Staged(a.item.staged)};
    assert a in published + [a];
    forall b | b in published + [a]
      ensures Recognised(at', Target(b.item.target), b.id, b.item.directory, b.final, Staged(b.item.staged))
    {
      assert Recognised(at, Target(b.item.target), b.id, b.item.directory, b.final, Staged(b.item.staged));
    }
  }

  /** Taking one off its target leaves the others as they are. */
  lemma InPlaceAside(at: Tree, at': Tree, published: seq<Artifact>, a: Artifact, q: Path)
    requires InPlace(at, published) && Aside(at, at', Target(a.item.target), q, a.id) && q.Hidden? && q !in at
    requires forall b :: b in published ==> b.item.target != a.item.target
    requires IdAt(at, Target(a.item.target)) == Some(a.id)
    requires forall k: nat :: IdAt(at, InRollback(a.id, k)) == None
    ensures InPlace(at', published)
  {
    forall b | b in published
      ensures Recognised(at', Target(b.item.target), b.id, b.item.directory, b.final, Staged(b.item.staged))
    {
      assert IdAt(at', Target(b.item.target)) == IdAt(at, Target(b.item.target));
      assert IdAt(at', Staged(b.item.staged)) == IdAt(at, Staged(b.item.staged));
      forall x | x in at' && at'[x] == b.id && !b.item.directory ensures x in at && at[x] == b.id {
        assert IdAt(at', x) == Some(b.id);
        assert x.InRollback? ==> x == InRollback(x.dir, x.slot);
        assert Recognised(at, Target(b.item.target), b.id, b.item.directory, b.final, Staged(b.item.staged));
      }
    }
  }

  // ---- What a finished run means ----

  /** Each artifact was on its target, alone there if it is a file, when it was looked at last. */
  ghost predicate AllCurrent(checked: seq<Snapshot>, published: seq<Artifact>) {
    |checked| == |published|
    && forall i :: 0 <= i < |checked| ==>
         && !checked[i].committed && IdAt(checked[i].at, Target(published[i].item.target)) == Some(published[i].id)
         && (published[i].item.directory || OnlyName(checked[i].at, published[i].id, Target(published[i].item.target)))
  }

  /** Every one of these states came after the first `mark` ones. */
  ghost predicate After(checked: seq<Snapshot>, states: seq<Snapshot>, mark: Option<nat>) {
    mark.Some? && mark.value <= |states| && forall s :: s in checked ==> s in states[mark.value..]
  }

  lemma StillAfter(checked: seq<Snapshot>, before: seq<Snapshot>, after: seq<Snapshot>, mark: Option<nat>)
    requires After(checked, before, mark) && before <= after
    ensures After(checked, after, mark)
  {
    assert before[mark.value..] <= after[mark.value..];
  }

  /** In some state of the run before the commit, each in its own, every target stood for its staged artifact. */
  ghost predicate SeenOnTarget(was: Tree, states: seq<Snapshot>, checked: seq<Snapshot>, items: seq<Item>) {
    |checked| == |items|
    && forall i :: 0 <= i < |checked| ==>
         && checked[i] in states && !checked[i].committed && IdAt(was, Staged(items[i].staged)) != None
         && IdAt(checked[i].at, Target(items[i].target)) == IdAt(was, Staged(items[i].staged))
  }

  lemma SeenStill(was: Tree, before: seq<Snapshot>, after: seq<Snapshot>, checked: seq<Snapshot>, items: seq<Item>)
    requires SeenOnTarget(was, before, checked, items) && before <= after
    ensures SeenOnTarget(was, after, checked, items)
  {
    assert forall x :: x in before ==> x in after;
  }

  ghost predicate AllOnTarget(was: Tree, at: Tree, items: seq<Item>) {
    forall item :: item in items ==>
      IdAt(was, Staged(item.staged)) != None && IdAt(at, Target(item.target)) == IdAt(was, Staged(item.staged))
  }

  /** When the last check has passed, every target was seen to stand for its staged artifact, whoever interferes. */
  lemma {:induction false} CurrentOnTarget(was: Tree, base: nat, l: Ledger, states: seq<Snapshot>,
                                           checked: seq<Snapshot>, items: seq<Item>)
    requires Sound(was, base, l) && |l.published| == |items| && AreItems(l.published, items)
    requires AllCurrent(checked, l.published) && forall x :: x in checked ==> x in states
    ensures SeenOnTarget(was, states, checked, items)
  {
    forall i | 0 <= i < |checked|
      ensures checked[i] in states && IdAt(was, Staged(items[i].staged)) == Some(l.published[i].id)
    {
      assert checked[i] in checked && l.published[i] in l.published && l.published[i].item == items[i];
    }
  }

  /** After a commit every target stands for its staged artifact, the sidecar names of SQLite targets are
      free, and no other public name changed. */
  ghost predicate Installed(was: Tree, at: Tree, items: seq<Item>) {
    && AllOnTarget(was, at, items)
    && (forall t :: t in AllTargets(items) && (forall item :: item in items ==> item.target != t) ==>
          IdAt(at, Target(t)) == None)
    && (forall t: string :: t !in AllTargets(items) ==> IdAt(at, Target(t)) == IdAt(was, Target(t)))
  }

  lemma {:induction false} AllInstalled(was: Tree, l: Ledger, items: seq<Item>)
    requires Accounted(was, l) && Sourced(was, l) && l.returned == {} && l.unrecorded == None
    requires InPlace(l.at, l.published) && l.taken == TargetsOf(l.published)
    requires VacantBut(l.at, AllTargets(items), l.taken)
    requires |l.published| == |items| && AreItems(l.published, items)
    requires forall m :: m in l.moved ==> m.target in AllTargets(items)
    ensures Installed(was, l.at, items)
  {
    forall item | item in items
      ensures IdAt(was, Staged(item.staged)) != None
      ensures IdAt(l.at, Target(item.target)) == IdAt(was, Staged(item.staged))
    {
      var i :| 0 <= i < |items| && items[i] == item;
      assert l.published[i] in l.published;
    }
    forall t | t in l.taken ensures t in AllTargets(items) && exists item :: item in items && item.target == t {
      var i :| 0 <= i < |l.published| && l.published[i].item.target == t;
      TargetIndex(items, i);
      assert items[i] in items;
    }
  }

  lemma {:induction false} StillInstalled(was: Tree, before: Tree, after: Tree, items: seq<Item>)
    requires Installed(was, before, items) && SamePublic(before, after)
    ensures Installed(was, after, items)
  {
  }

  /** What the run staged or made itself, the things it recorded as originals, once it committed, and the original
      of a target that it set aside and failed to record. */
  ghost predicate Ours(was: Tree, l: Ledger, id: nat) {
    || id in l.made || (exists k: nat :: IdAt(was, Staged(k)) == Some(id))
    || (l.unrecorded.Some? && l.unrecorded.value.id == id
        && IdAt(was, Target(l.unrecorded.value.target)) == Some(id))
    || (l.committed && exists m :: m in l.moved && m.id == id)
  }

  /** Nothing else was deleted. */
  ghost predicate OnlyOurs(was: Tree, l: Ledger) {
    forall id :: id in l.lost ==> Ours(was, l, id)
  }

  /** Nothing else was in the way when a rename replaced something or a directory was removed. */
  ghost predicate OnlyOursHit(was: Tree, l: Ledger) {
    forall h :: h in l.hits ==> Ours(was, l, h.id)
  }

  /** What was set aside without being recorded, if it is deleted, is the original and not something that others
      had put in its place. */
  ghost predicate OnlyOursAside(was: Tree, l: Ledger) {
    l.unrecorded.Some? && l.unrecorded.value.id in l.lost ==> Ours(was, l, l.unrecorded.value.id)
  }

  lemma DeletesOnlyOurs(was: Tree, base: nat, l: Ledger)
    requires Sound(was, base, l)
    ensures OnlyOurs(was, l) <==> OnlyOursHit(was, l) && OnlyOursAside(was, l)
    ensures !l.tampered ==> l.hits == {} && OnlyOurs(was, l)
    ensures forall id :: id in l.made ==> id !in was.Values
  {
    if OnlyOursHit(was, l) && OnlyOursAside(was, l) {
      forall id | id in l.lost ensures Ours(was, l, id) {
        if a :| a in l.published && a.id == id {
          assert IdAt(was, Staged(a.item.staged)) == Some(id);
        }
      }
    }
  }

  /** Something that others had put in the place of an original was set aside and not recorded. */
  lemma StrangerAside(was: Tree, l: Ledger, l': Ledger, id: nat)
    requires !Ours(was, l, id) && id !in was.Values && !l'.committed && l'.made == l.made
    ensures !Ours(was, l', id)
  {
  }

  lemma StrangerLost(was: Tree, l: Ledger, id: nat)
    requires id in l.lost && !Ours(was, l, id)
    ensures !OnlyOurs(was, l)
  {
  }

  lemma NothingMoved(was: Tree, base: nat, l: Ledger)
    requires Sound(was, base, l) && l.moved == [] && l.unrecorded == None
    ensures NoSlots(l.at)
  {
  }

  lemma SameRecognised(before: Tree, after: Tree, p: Path, q: Path, id: nat, directory: bool, final: bool, staged: Path)
    requires p in before && q !in before && after == (before - {p})[q := before[p]] && staged != p && staged != q
    ensures Recognised(before, p, id, directory, final, staged) == Recognised(after, q, id, directory, final, staged)
  {
    if before[p] == id {
      assert OnlyName(before, id, p) == OnlyName(after, id, q) by {
        assert forall x :: x in after && x != q ==> x in before && x != p && after[x] == before[x];
        assert forall x :: x in before && x != p ==> x in after && x != q && after[x] == before[x];
      }
      assert OnlyNames(before, id, p, staged) == OnlyNames(after, id, q, staged) by {
        assert forall x :: x in after && x != q ==> x in before && x != p && after[x] == before[x];
        assert forall x :: x in before && x != p ==> x in after && x != q && after[x] == before[x];
      }
    }
  }

}
