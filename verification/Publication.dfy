/**
 Transactional publication of private artifacts, scripts/backup-store.js lines 727 to 981: originals
 are set aside, staged artifacts are put in their place and verified, and then the run either commits
 or undoes everything. Any step may fail, and other processes may change the public names in between.
 */
module Publication {
  import opened Wrappers
  import opened PrivateFiles
  import opened PublicationLedger

  class Publisher {
    const fs: Fs
    const dirname: string -> string
    /** The names, and the identities still unused, when the run began. */
    ghost const was: Tree
    ghost const base: nat
    var directories: seq<Directory>
    var published: seq<Artifact>
    ghost var cleaned: nat
    ghost var made: set<nat>
    ghost var taken: set<string>
    ghost var unrecorded: Option<Moved>

    constructor (fs: Fs, dirname: string -> string)
      requires fs.Valid() && fs.states == [] && fs.moved == [] && fs.returned == {} && fs.lost == {}
      requires !fs.committed && fs.hits == {} && fs.threw == {}
      requires forall p :: p in fs.at ==> p.Target? || p.Staged?
      ensures this.fs == fs && was == fs.at && Ready() && Staging()
    {
      this.fs, this.dirname, was, base := fs, dirname, fs.at, fs.nextId;
      directories, published, cleaned, made, taken, unrecorded := [], [], 0, {}, {}, None;
    }

    ghost function L(): Ledger
      reads this`directories, this`published, this`cleaned, this`made, this`taken, this`unrecorded
      reads fs`at, fs`nextHidden, fs`nextId, fs`tampered, fs`lost, fs`hits, fs`moved, fs`returned, fs`committed
    {
      Ledger(fs.at, fs.nextHidden, fs.nextId, fs.tampered, fs.lost, fs.hits, fs.moved, fs.returned, fs.committed,
             directories, published, cleaned, made, taken, unrecorded)
    }

    /** Every state of the run so far kept its originals. */
    ghost predicate Conserved()
      reads fs`states
    {
      AllConserve(fs.states)
    }

    ghost predicate Ready()
      reads this`directories, this`published, this`cleaned, this`made, this`taken, this`unrecorded
      reads fs`at, fs`nextHidden, fs`nextId, fs`tampered, fs`lost, fs`hits, fs`moved, fs`returned, fs`committed,
              fs`states
    {
      fs.Valid() && Conserved() && Sound(was, base, L())
    }

    /** Originals are being set aside, and every one so far was recorded. */
    ghost predicate Staging()
      reads this, fs
    {
      NothingPublished() && unrecorded == None
    }

    /** Nothing is published and nothing undone yet. */
    ghost predicate NothingPublished()
      reads this, fs
    {
      fs.returned == {} && !fs.committed && published == [] && taken == {} && cleaned == 0 && fs.threw <= {Looking}
    }

    /** Nobody else has changed anything, or will but where a run says so. */
    ghost predicate Idle()
      reads fs`tampered
    {
      fs.alone || !fs.tampered
    }

    /** Interference stays on record, and there is none of it when nobody else is at work. */
    ghost predicate TamperedSince(before: bool)
      reads fs
    {
      (before ==> fs.tampered) && (fs.alone ==> fs.tampered == before)
    }

    /** Other processes act while the run is between two steps. */
    method Others()
      requires Ready()
      modifies fs`at, fs`nextId, fs`tampered, fs`states
      ensures Ready() && TamperedSince(old(fs.tampered)) && (!fs.tampered ==> fs.at == old(fs.at))
      ensures forall x: Path :: !x.Target? && !x.Entry? ==> IdAt(fs.at, x) == IdAt(old(fs.at), x)
      ensures fs.states == old(fs.states) + [fs.Now()]
      ensures fs.alone ==> fs.at == old(fs.at) && fs.nextId == old(fs.nextId)
      ensures OthersOnly(old(L()), L())
    {
      hide Sound, Conserves;
      fs.Outsider();
      OthersActed(was, base, old(L()), L());
      SoundConserves(was, base, L());
    }

    /** `quarantinedArtifactMatchesPublication`, lines 727 to 737. */
    method MatchesPublication(q: Path, id: nat, directory: bool, final: bool, staged: Path) returns (matches: bool)
      requires q.Hidden?
      ensures matches ==> IdAt(fs.at, q) == Some(id)
      ensures fs.Calm() && Recognised(fs.at, q, id, directory, final, staged) ==> matches
    {
      var current := fs.Stat(q, Clearing);
      if current != Some(id) {
        return false;
      }
      if directory || OnlyName(fs.at, id, q) {
        return true;
      }
      if final {
        return false;
      }
      var linked := fs.Stat(staged, Clearing);
      matches := linked == Some(id) && OnlyNames(fs.at, id, q, staged);
    }

    /** The removal of an artifact that was set aside and recognised, lines 757 to 758. */
    method RemoveAside(q: Path, id: nat) returns (ok: bool)
      requires fs.Valid() && Conserved() && q.Hidden? && IdAt(fs.at, q) == Some(id)
      requires AllSecure(L(), q, id)
      modifies fs`at, fs`lost, fs`hits, fs`states
      ensures old(fs.states) <= fs.states
      ensures fs.Valid() && Conserved() && Aside(old(fs.at), fs.at, q, q, id) && LostWithin(old(L()), L(), id)
      ensures ok ==> NoSlotsOf(fs.at, id) && EntriesSwept(old(fs.at), fs.hits, id)
      ensures NamesKept(old(fs.at), fs.at, fs.lost)
      ensures NoSlotsOf(fs.at, id) || IdAt(fs.at, q) == Some(id)
      ensures fs.Calm() ==> ok
    {
      var removed := fs.RemoveTree(q);
      RemovedAside(old(L()), L(), q, id, removed);
      hide AllSecure, Aside, LostWithin, NoSlotsOf, NamesKept, EntriesSwept, WithoutTree, PartlyRemoved, InSlots,
        Struck, SweptIn, Orphaned, Conserves;
      SecureConserves(old(L()), L(), q, q, id);
      var synced := fs.Attend();
      ok := removed && synced;
    }

    /** The rename that sets `p` aside; it fails if the name is gone by now. */
    method SetAside(p: Path, id: nat) returns (ok: bool, q: Path)
      requires fs.Valid() && Conserved() && (p.Target? || p.Hidden?) && (p.Hidden? ==> p.n < fs.nextHidden)
      requires AllSecure(L(), p, id)
      modifies fs`at, fs`nextHidden, fs`lost, fs`hits, fs`states
      ensures old(fs.states) <= fs.states
      ensures fs.Valid() && Conserved() && fs.nextHidden == old(fs.nextHidden) + 1 && q == Hidden(old(fs.nextHidden))
      ensures p != q && q !in old(fs.at) && fs.lost == old(fs.lost) && fs.hits == old(fs.hits)
      ensures ok ==> p in old(fs.at) && fs.at == (old(fs.at) - {p})[q := old(fs.at)[p]]
      ensures !ok ==> fs.at == old(fs.at)
      ensures fs.Calm() && p in old(fs.at) ==> ok
      ensures AllSecure(L(), q, id)
    {
      q := fs.NewHidden();
      ok := fs.Rename(p, q);
      hide Conserves;
      SecureMoves(old(L()), L(), p, q, id);
      assert Conserves(fs.Now()) by {
        assert Aside(old(fs.at), fs.at, p, q, id);
        SecureConserves(old(L()), L(), p, q, id);
      }
    }

    /** Setting aside what is there, and removing it only if it is the artifact, lines 743 to 762. */
    method QuarantinePresent(p: Path, id: nat, directory: bool, final: bool, staged: Path) returns (r: Quarantined)
      requires fs.Valid() && Conserved() && (p.Target? || p.Hidden?) && staged.Staged?
      requires AllSecure(L(), p, id) && (p.Hidden? ==> p.n < fs.nextHidden)
      modifies fs`at, fs`nextHidden, fs`lost, fs`hits, fs`states
      ensures old(fs.states) <= fs.states
      ensures fs.Valid() && Conserved() && fs.nextHidden == old(fs.nextHidden) + 1
      ensures SetAsideAs(r, old(L()), L(), p, Hidden(old(fs.nextHidden)), id)
      ensures (r.Blocked? || r.Removed? || r.RetainedAt?)
      ensures fs.Calm() && Recognised(old(fs.at), p, id, directory, final, staged) ==> r.Removed?
    {
      hide Conserves, Secure, AllSecure, Recognised, OnlyName, OnlyNames, Aside, LostWithin, NoSlotsOf, InSlots,
        SetAsideAs;
      var ok, q := SetAside(p, id);
      if !ok {
        StillBlocked(old(L()), L(), p, q, id);
        return Blocked;
      }
      ghost var mid := L();
      SameRecognised(old(fs.at), mid.at, p, q, id, directory, final, staged);
      RetainedThere(old(L()), mid, p, q, id);
      var matches := MatchesPublication(q, id, directory, final, staged);
      if !matches {
        return RetainedAt(q);
      }
      ok := RemoveAside(q, id);
      r := if ok then Removed else RetainedAt(q);
      SetAsideAndRemoved(old(L()), mid, L(), p, q, id, r);
    }

    /** The existence check of line 740; others may act after it as before it. */
    method LookUp(p: Path, id: nat) returns (there: Option<bool>)
      requires Ready() && (p.Target? || p.Hidden?) && AllSecure(L(), p, id)
      modifies fs`at, fs`nextId, fs`tampered, fs`threw, fs`states
      ensures Ready() && AllSecure(L(), p, id) && OthersOnly(old(L()), L()) && TamperedSince(old(fs.tampered))
      ensures old(fs.states) <= fs.states
      ensures there == Some(false) ==> p !in fs.at
      ensures fs.threw == if there.None? then old(fs.threw) + {Reason(p)} else old(fs.threw)
      ensures Reason(p) in fs.failing ==> there.None?
      ensures fs.Calm() && p in old(fs.at) && (fs.alone || p.Hidden? || !fs.tampered) ==> there == Some(true)
      ensures fs.alone ==> fs.at == old(fs.at)
    {
      hide Sound, Conserves, AllSecure, Secure;
      ghost var l := L();
      Others();
      SecureStays(l, L(), p, id);
      there := fs.Exists(p, Reason(p));
      if there != Some(true) {
        return;
      }
      ghost var mid := L();
      Others();
      SecureStays(mid, L(), p, id);
      hide AllSecure, Secure;
      OthersTwice(l, mid, L());
    }

    /** `quarantineOwnedArtifact`, lines 739 to 763; `mid` is the state in which the name was found missing, or
        is renamed. */
    method QuarantineOwned(p: Path, id: nat, directory: bool, final: bool, staged: Path)
      returns (r: Quarantined, ghost mid: Ledger)
      requires Ready() && (p.Target? || p.Hidden?) && staged.Staged? && (p.Hidden? ==> p.n < fs.nextHidden)
      requires AllSecure(L(), p, id)
      modifies fs`at, fs`nextHidden, fs`nextId, fs`lost, fs`hits, fs`tampered, fs`threw, fs`states
      ensures old(fs.states) <= fs.states
      ensures OthersOnly(old(L()), mid) && Sound(was, base, mid) && TamperedSince(old(fs.tampered))
      ensures L() == mid.(at := fs.at, nextHidden := fs.nextHidden, lost := fs.lost, hits := fs.hits)
      ensures fs.Valid() && Conserved() && fs.nextHidden >= old(fs.nextHidden) && Hidden(old(fs.nextHidden)) !in mid.at
      ensures SetAsideAs(r, mid, L(), p, Hidden(old(fs.nextHidden)), id)
      ensures fs.Calm() && (fs.alone || !fs.tampered || (p.Hidden? && directory)) ==>
        Recognised(old(fs.at), p, id, directory, final, staged) ==> r.Removed?
      ensures fs.alone ==> mid.at == old(fs.at)
      ensures fs.threw == if r.Threw? then old(fs.threw) + {Reason(p)} else old(fs.threw)
      ensures Reason(p) in fs.failing ==> r.Threw?
    {
      hide Sound, Conserves, AllSecure, Recognised, OnlyName, OnlyNames, Aside, LostWithin, NoSlotsOf, InSlots,
        OthersOnly, SetAsideAs;
      var there := LookUp(p, id);
      mid := L();
      RecognisedStays(old(L()), mid, p, id, directory, final, staged);
      StillBlocked(mid, mid, p, Hidden(fs.nextHidden), id);
      if there.None? {
        return Threw, mid;
      }
      if !there.value {
        return Missing, mid;
      }
      r := QuarantinePresent(p, id, directory, final, staged);
    }

    /** Published artifacts stand on public names, rollback directories on private ones. */
    static function Reason(p: Path): Call {
      if p.Target? then Clearing else CleaningUp
    }

    // ---- Setting the originals aside ----

    /** `createPrivateStagingDir` and the recording of its identity. */
    method CreateDirectory() returns (d: Option<(Path, nat)>)
      requires Ready()
      modifies this`made, fs`at, fs`nextHidden, fs`nextId, fs`lost, fs`hits, fs`states
      ensures Ready() && fs.nextHidden >= old(fs.nextHidden) && NewNamesOnly(old(fs.at), fs.at, old(fs.nextId))
      ensures !fs.faulty && Looking !in fs.failing ==> d.Some?
      ensures forall x: Path :: !x.Hidden? || x.n < old(fs.nextHidden) ==> IdAt(fs.at, x) == IdAt(old(fs.at), x)
      ensures d.Some? ==> d.value.0.Hidden? && old(fs.nextHidden) <= d.value.0.n < fs.nextHidden && d.value.1 in made
      ensures d.Some? ==> IdAt(fs.at, d.value.0) == Some(d.value.1)
    {
      hide Sound, Conserves;
      d := NewDirectory();
      if d.None? {
        return;
      }
      hide NewNamesOnly;
      var ok := fs.Attend();
      if !ok {
        RemoveStray(d.value.0, d.value.1, old(fs.at), old(L()));
        return None;
      }
      var identity := fs.Stat(d.value.0, Looking);
      if identity.None? {
        return None;
      }
    }

    method NewDirectory() returns (d: Option<(Path, nat)>)
      requires Ready()
      modifies this`made, fs`at, fs`nextHidden, fs`nextId, fs`states
      ensures Ready() && NewNamesOnly(old(fs.at), fs.at, old(fs.nextId)) && (!fs.faulty ==> d.Some?)
      ensures d.None? ==>
        fs.at == old(fs.at) && made == old(made) && fs.nextId == old(fs.nextId) && fs.nextHidden == old(fs.nextHidden)
      ensures d.Some? ==>
        && d.value.0 == Hidden(old(fs.nextHidden)) && d.value.0 !in old(fs.at)
        && fs.at == old(fs.at)[d.value.0 := d.value.1] && made == old(made) + {d.value.1}
        && old(fs.nextId) <= d.value.1 < fs.nextId && fs.nextHidden == old(fs.nextHidden) + 1
        && NoSlotsOf(fs.at, d.value.1) && forall name: string :: Entry(d.value.1, name) !in fs.at
    {
      hide Sound, Conserves;
      d := fs.MakeDirectory();
      if d.Some? {
        made := made + {d.value.1};
      }
      PrivatelyChanged(was, base, old(L()), L());
      SoundConserves(was, base, L());
    }

    method RemoveStray(p: Path, id: nat, ghost before: Tree, ghost l: Ledger)
      requires fs.Valid() && Conserved() && Sound(was, base, l) && l.at == before && p == Hidden(l.nextHidden)
      requires p !in before
      requires fs.at == before[p := id] && NoSlotsOf(fs.at, id) && forall name: string :: Entry(id, name) !in fs.at
      requires l.nextHidden < fs.nextHidden && l.nextId <= id < fs.nextId && made == l.made + {id}
      requires l == L().(at := before, nextHidden := l.nextHidden, nextId := l.nextId, made := l.made)
      modifies fs`at, fs`lost, fs`hits, fs`states
      ensures Ready() && NewNamesOnly(before, fs.at, l.nextId)
      ensures forall x: Path :: !x.Hidden? || x.n < l.nextHidden ==> IdAt(fs.at, x) == IdAt(before, x)
    {
      var removed := fs.RemoveTree(p);
      StrayRemoved(l, L(), old(fs.at), p, id, removed);
      hide Sound, Conserves, WithoutTree, PartlyRemoved, Orphaned, SweptIn, Inside, NewNamesOnly;
      PrivatelyChanged(was, base, l, L());
      SoundConserves(was, base, L());
    }

    /** The private rollback directory beside a target, made when first needed, lines 849 to 856. */
    method RollbackDirectory(parent: string) returns (d: Option<Directory>)
      requires Ready()
      modifies this`directories, this`made, fs`at, fs`nextHidden, fs`nextId, fs`lost, fs`hits, fs`states
      ensures Ready() && (d.Some? ==> d.value in directories) && NewNamesOnly(old(fs.at), fs.at, old(fs.nextId))
      ensures !fs.faulty && Looking !in fs.failing ==> d.Some?
      ensures forall x: Path :: !x.Hidden? ==> IdAt(fs.at, x) == IdAt(old(fs.at), x)
    {
      hide Sound, Conserves, NewNamesOnly;
      NoNewNames(fs.at, fs.nextId);
      d := DirectoryFor(directories, parent);
      if d.Some? {
        return;
      }
      DirectoriesHidden(was, base, L());
      var created := CreateDirectory();
      if created.None? {
        return None;
      }
      ghost var l := L();
      d := Some(Directory(parent, created.value.0, created.value.1));
      directories := directories + [d.value];
      DirectoryAdded(was, base, l, L(), d.value);
    }

    /** The rename of an original into an unused slot. */
    method Displace(t: string, d: Directory) returns (ok: bool, ghost m: Moved)
      requires Ready() && Staging() && d in directories
      modifies fs`at, fs`lost, fs`hits, fs`states
      ensures fs.Valid() && Conserved() && SameBut(old(fs.at), fs.at, t)
      ensures !ok ==> fs.at == old(fs.at) && Ready()
      ensures ok ==>
        && m == Moved(t, d.id, |fs.moved|, m.id) && InSlot(fs.at, m) && IdAt(fs.at, Target(t)) == None
        && IdAt(old(fs.at), Target(t)) == Some(m.id)
        && Sound(was, base, L().(unrecorded := Some(m))) && Sound(was, base, L().(moved := fs.moved + [m]))
      ensures ok && OnlyName(old(fs.at), m.id, Target(t)) ==> Sole(fs.at, Some(m), fs.lost)
      ensures !fs.faulty && Target(t) in old(fs.at) ==> ok
    {
      hide Sound, Conserves;
      DirectoryKnown(was, base, L(), d);
      SlotFree(was, base, L(), d);
      m := Moved(t, d.id, |fs.moved|, if Target(t) in fs.at then fs.at[Target(t)] else 0);
      ok := fs.Rename(Target(t), InRollback(d.id, |fs.moved|));
      if !ok {
        SoundConserves(was, base, L());
        return;
      }
      assert fs.at == Slotted(old(fs.at), m);
      if OnlyName(old(fs.at), m.id, Target(t)) {
        SoleSlotted(old(fs.at), m, fs.lost);
      }
      hide Slotted, Sole, OnlyName, SameBut, InSlot, Fs.Valid;
      MovedIntoSlot(was, base, old(L()), m, d);
    }

    /** The check of a displaced original and its record, lines 861 to 866. */
    method MoveAside(t: string, identity: nat, d: Directory) returns (ok: bool)
      requires Ready() && Staging() && d in directories
      modifies this`unrecorded, fs`at, fs`moved, fs`lost, fs`hits, fs`states
      ensures Ready() && (ok ==> unrecorded == None && IdAt(fs.at, Target(t)) == None)
      ensures SameBut(old(fs.at), fs.at, t)
      ensures forall m :: m in fs.moved ==> m in old(fs.moved) || m.target == t
      ensures !fs.faulty && OnlyName(old(fs.at), identity, Target(t)) ==> Aimed(ok, t, identity, old(fs.moved))
      ensures Target(t) in old(fs.at) && old(fs.at)[Target(t)] != identity ==>
        && !ok && fs.moved == old(fs.moved) && (!fs.faulty ==> unrecorded.Some?)
        && (unrecorded.Some? ==> unrecorded.value.target == t && unrecorded.value.id == old(fs.at)[Target(t)])
        && (OnlyName(old(fs.at), old(fs.at)[Target(t)], Target(t)) && unrecorded.Some? ==>
              Sole(fs.at, unrecorded, fs.lost))
    {
      hide Sound, Conserves, SameBut, OnlyName, Sole;
      OnlyNamed(fs.at, identity, Target(t));
      ghost var m;
      ok, m := Displace(t, d);
      if !ok {
        return;
      }
      var staged := fs.Stat(InRollback(d.id, |fs.moved|), AfterMove);
      if staged != Some(identity) {
        unrecorded := Some(m);
        return false;
      }
      fs.Record(Moved(t, d.id, |fs.moved|, identity));
      SoundConserves(was, base, L());
      ok := fs.Attend();
    }

    /** The original is recorded, unless the check after the move fails, and then it is not. */
    ghost predicate Aimed(ok: bool, t: string, id: nat, before: seq<Moved>)
      reads this, fs
    {
      if AfterMove in fs.failing then
        !ok && unrecorded.Some? && unrecorded.value.target == t && unrecorded.value.id == id && fs.moved == before
        && Sole(fs.at, unrecorded, fs.lost)
      else ok && |fs.moved| == |before| + 1 && fs.moved[|before|].target == t && fs.moved[|before|].id == id
    }

    /** Nothing that the staging of originals does is bound to fail, and nobody else acts. */
    ghost predicate Smooth()
      reads fs`faulty, fs`failing
    {
      !fs.faulty && Looking !in fs.failing && AfterMove !in fs.failing && fs.alone
    }

    lemma AimedWell(ok: bool, t: string, id: nat, before: seq<Moved>)
      requires Smooth() && Aimed(ok, t, id, before)
      ensures ok
    {
    }

    /** One public name, if taken, is moved into its rollback directory, lines 848 to 866. */
    method StageTarget(t: string, directory: bool) returns (ok: bool)
      requires Ready() && Staging()
      modifies this`directories, this`made, this`unrecorded
      modifies fs`at, fs`nextHidden, fs`nextId, fs`moved, fs`lost, fs`hits, fs`tampered, fs`threw, fs`states
      ensures Ready() && NothingPublished() && (ok ==> Staging()) && TamperedSince(old(fs.tampered))
      ensures !fs.tampered ==> SameBut(old(fs.at), fs.at, t) && (ok ==> IdAt(fs.at, Target(t)) == None)
      ensures forall m :: m in fs.moved ==> m in old(fs.moved) || m.target == t
      ensures !fs.faulty && Looking !in fs.failing && fs.alone && Ordinary(old(fs.at), t, directory) ==>
        Aimed(ok, t, old(fs.at)[Target(t)], old(fs.moved))
      ensures Smooth() && Yields(old(fs.at), t, directory) ==> ok
    {
      assert Ordinary(fs.at, t, directory) ==> Target(t) in fs.at;
      hide Ready, Aimed, Ordinary, OnlyName, OthersOnly;
      Others();
      var there := fs.Exists(Target(t), Looking);
      if there.None? {
        return false;
      }
      if !there.value {
        return true;
      }
      ok := StagePresent(t, directory);
      if Smooth() && Ordinary(old(fs.at), t, directory) {
        AimedWell(ok, t, old(fs.at)[Target(t)], old(fs.moved));
      }
    }

    /** The same when the name was found taken, lines 849 to 866. */
    method StagePresent(t: string, directory: bool) returns (ok: bool)
      requires Ready() && Staging() && Target(t) in fs.at
      modifies this`directories, this`made, this`unrecorded
      modifies fs`at, fs`nextHidden, fs`nextId, fs`moved, fs`lost, fs`hits, fs`tampered, fs`states
      ensures Ready() && NothingPublished() && (ok ==> Staging()) && TamperedSince(old(fs.tampered))
      ensures !fs.tampered ==> SameBut(old(fs.at), fs.at, t) && (ok ==> IdAt(fs.at, Target(t)) == None)
      ensures forall m :: m in fs.moved ==> m in old(fs.moved) || m.target == t
      ensures !fs.faulty && Looking !in fs.failing && fs.alone && Ordinary(old(fs.at), t, directory) ==>
        Aimed(ok, t, old(fs.at)[Target(t)], old(fs.moved))
    {
      hide Ready, Aimed, Ordinary, NewNamesOnly, OthersOnly, SameBut;
      ghost var before, bound := fs.at, fs.nextId;
      KnownNumbers();
      var d := RollbackDirectory(dirname(t));
      NewNamesSame(before, fs.at, bound, t);
      if d.None? {
        return false;
      }
      OrdinaryStays(before, fs.at, bound, t, directory);
      ghost var mid := fs.at;
      ok := StageInto(t, directory, d.value);
      SameButStep(before, mid, fs.at, t);
    }

    lemma KnownNumbers()
      requires Ready()
      ensures forall x :: x in fs.at ==> fs.at[x] < fs.nextId
    {
    }

    /** The look at the original, lines 858 to 859, and the move, before which others may act. */
    method StageInto(t: string, directory: bool, d: Directory) returns (ok: bool)
      requires Ready() && Staging() && d in directories
      modifies this`unrecorded, fs`at, fs`nextId, fs`moved, fs`lost, fs`hits, fs`tampered, fs`states
      ensures Ready() && (ok ==> unrecorded == None && IdAt(fs.at, Target(t)) == None)
      ensures TamperedSince(old(fs.tampered))
      ensures !fs.tampered ==> SameBut(old(fs.at), fs.at, t)
      ensures forall m :: m in fs.moved ==> m in old(fs.moved) || m.target == t
      ensures !fs.faulty && Looking !in fs.failing && fs.alone && Ordinary(old(fs.at), t, directory) ==>
        Aimed(ok, t, old(fs.at)[Target(t)], old(fs.moved))
    {
      hide Ready, SameBut, Aimed, OthersOnly, OnlyName;
      SameButItself(fs.at, t);
      var identity := fs.Identify(Target(t), directory);
      var permissions := fs.Attend();
      if identity.None? || !permissions || (!directory && !OnlyName(fs.at, identity.value, Target(t))) {
        return false;
      }
      Others();
      ok := MoveAside(t, identity.value, d);
    }

    // ---- Undoing ----

    /** The target is free and the slot holds the original, lines 813 to 818. */
    method CheckSlot(m: Moved) returns (ok: bool)
      requires Ready() && m in fs.moved && m !in fs.returned && !fs.committed && taken == {}
      modifies fs`threw
      ensures ok ==> Target(m.target) !in fs.at && InSlot(fs.at, m)
      ensures fs.threw <= old(fs.threw) + {Restoring}
      ensures fs.Calm() && !fs.tampered ==> ok
    {
      hide Sound, Conserves;
      StillAside(was, base, L(), m);
      var there := fs.Exists(Target(m.target), Restoring);
      if there != Some(false) {
        return false;
      }
      var staged := fs.Stat(InRollback(m.dir, m.slot), Restoring);
      ok := staged == Some(m.id);
    }

    /** One turn of the loop of `restoreMovedArtifacts`, lines 811 to 832: others may act between the check
        that the target is free and the rename. */
    method RestoreOne(m: Moved) returns (ok: bool)
      requires Ready() && m in fs.moved && m !in fs.returned && !fs.committed && taken == {}
      modifies fs`at, fs`nextId, fs`lost, fs`hits, fs`tampered, fs`threw, fs`returned, fs`states
      ensures Ready() && TamperedSince(old(fs.tampered)) && fs.threw <= old(fs.threw) + {Restoring}
      ensures fs.returned == old(fs.returned) || fs.returned == old(fs.returned) + {m}
      ensures ok ==> m in fs.returned
      ensures forall h :: h in fs.hits ==> h in old(fs.hits) || (h.Replaced? && h.at == Target(m.target))
      ensures fs.Calm() && !fs.tampered ==> ok
      ensures Idle() && old(Sole(fs.at, unrecorded, fs.lost)) ==> Sole(fs.at, unrecorded, fs.lost)
    {
      hide Ready, Sole, InSlot, Destroys, OthersOnly;
      Others();
      var ready := CheckSlot(m);
      if !ready {
        return false;
      }
      Others();
      var moved := RenameBack(m);
      if !moved {
        return false;
      }
      var restored := fs.Stat(Target(m.target), Restoring);
      if restored != Some(m.id) {
        return false;
      }
      var permissions := fs.Attend();
      if !permissions {
        return false;
      }
      ok := fs.Attend();
    }

    /** Another process puts a file under a public name or into a directory. */
    method Intrude(p: Path) returns (id: nat)
      requires Ready() && (p.Target? || (p.Entry? && p.dir < fs.nextId)) && unrecorded == None
      requires !fs.committed
      modifies fs`at, fs`nextId, fs`tampered, fs`states
      ensures Ready() && !Ours(was, L(), id) && id !in was.Values && !IsDirectory(id) && fs.tampered
      ensures fs.at == old(fs.at)[p := id] && OnlyName(fs.at, id, p) && old(fs.nextId) <= id
    {
      hide Sound, Conserves, Ours;
      id := fs.Appear(p);
      AppearedKnown(was, base, old(L()), L(), id);
    }

    /** A file that another process puts in the place of an original between the look of line 859 and the rename
        of line 860 is set aside and not recorded: the recovery then removes it with the directory. */
    method SwapIn(t: string, identity: nat, d: Directory) returns (foreign: nat)
      requires Ready() && Staging() && d in directories && IdAt(fs.at, Target(t)) == Some(identity)
      modifies this`unrecorded, fs`at, fs`nextId, fs`moved, fs`lost, fs`hits, fs`tampered, fs`states
      ensures Ready() && foreign !in was.Values && fs.moved == old(fs.moved)
      ensures !fs.faulty ==>
        && unrecorded.Some? && unrecorded.value.id == foreign && Sole(fs.at, unrecorded, fs.lost)
        && !Ours(was, L(), foreign)
    {
      hide Sound, Conserves, Sole, OnlyName;
      KnownNumbers();
      foreign := Intrude(Target(t));
      ghost var l := L();
      OnlyNamed(fs.at, foreign, Target(t));
      var ok := MoveAside(t, identity, d);
      StrangerAside(was, l, L(), foreign);
    }

    /** A file that another process creates between the check of line 813 and the rename of line 819 is
        destroyed, whatever the state, and the rename succeeds as if nothing had happened. */
    method Overwrite(m: Moved) returns (id: nat, back: bool)
      requires Ready() && m in fs.moved && m !in fs.returned && !fs.committed && taken == {} && unrecorded == None
      requires Target(m.target) !in fs.at
      modifies fs`at, fs`nextId, fs`lost, fs`hits, fs`tampered, fs`returned, fs`states
      ensures Ready() && id !in was.Values
      ensures back ==> m in fs.returned && id in fs.lost && !OnlyOurs(was, L())
      ensures !fs.faulty && !IsDirectory(m.id) ==> back
    {
      hide Ready, Ours, OnlyOurs, Destroys, OnlyName;
      id := Intrude(Target(m.target));
      InTheWay(m, id);
      ghost var l := L();
      back := RenameBack(m);
      if back {
        assert Replaced(Target(m.target), id) in fs.hits;
        ForeignLost(l, id);
      }
    }

    lemma InTheWay(m: Moved, id: nat)
      requires Ready() && m in fs.moved && m !in fs.returned && !fs.committed && taken == {} && id !in was.Values
      requires IdAt(fs.at, Target(m.target)) == Some(id) && OnlyName(fs.at, id, Target(m.target))
      ensures InRollback(m.dir, m.slot) in fs.at && Destroys(fs.at, InRollback(m.dir, m.slot), Target(m.target))
    {
      hide Sound;
      StillAside(was, base, L(), m);
    }

    lemma ForeignLost(l: Ledger, id: nat)
      requires id in fs.lost && !Ours(was, l, id)
      requires L() == l.(at := fs.at, lost := fs.lost, hits := fs.hits, returned := fs.returned)
      ensures !OnlyOurs(was, L())
    {
      assert !Ours(was, L(), id);
    }

    /** The rename of line 819. It destroys what stands on the target by now, exactly if that has no other
        name. */
    method RenameBack(m: Moved) returns (ok: bool)
      requires Ready() && m in fs.moved && m !in fs.returned && !fs.committed && taken == {}
      modifies fs`at, fs`lost, fs`hits, fs`returned, fs`states
      ensures Ready() && fs.returned == (if ok then old(fs.returned) + {m} else old(fs.returned))
      ensures ok ==> IdAt(fs.at, Target(m.target)) == Some(m.id)
      ensures fs.hits == if ok && Destroys(old(fs.at), InRollback(m.dir, m.slot), Target(m.target))
                         then old(fs.hits) + {Replaced(Target(m.target), old(fs.at)[Target(m.target)])}
                         else old(fs.hits)
      ensures forall h :: h in fs.hits ==> h.id in fs.lost
      ensures fs.Calm() && !fs.tampered ==> ok
      ensures !fs.faulty && !IsDirectory(m.id) ==>
        ok || (Target(m.target) in old(fs.at) && IsDirectory(old(fs.at)[Target(m.target)]))
      ensures Idle() && old(Sole(fs.at, unrecorded, fs.lost)) ==> Sole(fs.at, unrecorded, fs.lost)
    {
      hide Sound, Sole, Conserves, AllConserve, Fs.Valid, Overwritten, Ids, Renamed, Destroys, GivesWay, InSlot;
      StillAside(was, base, L(), m);
      ok := fs.Rename(InRollback(m.dir, m.slot), Target(m.target));
      ghost var after := L();
      fs.returned := if ok then fs.returned + {m} else fs.returned;
      RenamedBack(was, base, old(L()), after, L(), m, ok);
      OneMoreConserves(old(fs.states), SnapshotOf(after));
    }

    /** `cleanupRollbackDirs`, lines 775 to 790. Its error names what remains, unless an existence check
        throws. */
    method CleanupRollbackDirs() returns (retained: seq<Path>, blocked: seq<Path>, threw: bool)
      requires Ready() && cleaned == 0
      requires fs.committed || forall m :: m in fs.moved ==> m in fs.returned
      modifies this`cleaned, fs`at, fs`nextHidden, fs`nextId, fs`lost, fs`hits, fs`tampered, fs`threw, fs`states
      ensures old(fs.states) <= fs.states
      ensures Ready() && TamperedSince(old(fs.tampered))
      ensures !fs.tampered ==> SamePublic(old(fs.at), fs.at)
      ensures !threw ==> SlotsNamed(fs.at, retained + blocked)
      ensures forall p :: p in blocked ==> p in PathsOf(directories)
      ensures fs.threw == if threw then old(fs.threw) + {CleaningUp} else old(fs.threw)
      ensures CleaningUp in fs.failing && directories != [] ==> threw
      ensures fs.Calm() ==> retained == [] && blocked == [] && !threw
      ensures Idle() && old(Sole(fs.at, unrecorded, fs.lost)) ==> Sole(fs.at, unrecorded, fs.lost)
    {
      hide Ready, Cleaning, Sole, SlotsNamed, SamePublic, PathsOf, Kept, Stuck, TamperedSince;
      ghost var sole := Sole(fs.at, unrecorded, fs.lost);
      retained, blocked, threw := [], [], false;
      NothingCleaned();
      var i := 0;
      while i < |directories|
        invariant old(fs.states) <= fs.states && fs.threw == old(fs.threw)
        invariant CleaningUp in fs.failing ==> i == 0
        invariant 0 <= i <= |directories| && Cleaning(i, old(fs.at), old(fs.tampered), sole, retained, blocked)
      {
        var r := CleanupNext(i, old(fs.at), old(fs.tampered), sole, retained, blocked);
        if r.Threw? {
          return retained, blocked, true;
        }
        retained, blocked := retained + Kept(r, directories[i].path), blocked + Stuck(r, directories[i].path);
        i := i + 1;
      }
      AllCleaned(old(fs.at), old(fs.tampered), sole, retained, blocked);
    }

    /** The first `i` directories were removed or are named, and the others are still in their places. */
    ghost predicate Cleaning(i: nat, start: Tree, tampered: bool, sole: bool, retained: seq<Path>, blocked: seq<Path>)
      reads this, fs
    {
      && i == cleaned <= |directories| && Ready() && TamperedSince(tampered)
      && (fs.committed || forall m :: m in fs.moved ==> m in fs.returned)
      && (!fs.tampered ==> SamePublic(start, fs.at)) && (Idle() && sole ==> Sole(fs.at, unrecorded, fs.lost))
      && SlotsNamed(fs.at, retained + blocked + PathsOf(directories[i..])) && AllHidden(retained + blocked)
      && (forall p :: p in blocked ==> p in PathsOf(directories))
      && (fs.Calm() ==> retained == [] && blocked == [])
    }

    lemma NothingCleaned()
      requires Ready() && cleaned == 0 && (fs.committed || forall m :: m in fs.moved ==> m in fs.returned)
      ensures Cleaning(0, fs.at, fs.tampered, Sole(fs.at, unrecorded, fs.lost), [], [])
    {
      AllNamed(was, base, L());
      hide Ready, SlotsNamed;
      assert [] + [] + PathsOf(directories[0..]) == PathsOf(directories);
    }

    lemma AllCleaned(start: Tree, tampered: bool, sole: bool, retained: seq<Path>, blocked: seq<Path>)
      requires Cleaning(|directories|, start, tampered, sole, retained, blocked)
      ensures Ready() && TamperedSince(tampered) && (!fs.tampered ==> SamePublic(start, fs.at))
      ensures Idle() && sole ==> Sole(fs.at, unrecorded, fs.lost)
      ensures SlotsNamed(fs.at, retained + blocked) && (forall p :: p in blocked ==> p in PathsOf(directories))
      ensures fs.Calm() ==> retained == [] && blocked == []
    {
      hide Ready, SlotsNamed;
      PathsOfNone(directories);
      assert retained + blocked + [] == retained + blocked;
    }

    method CleanupNext(i: nat, ghost start: Tree, ghost tampered: bool, ghost sole: bool, ghost retained: seq<Path>,
                       ghost blocked: seq<Path>)
      returns (r: Quarantined)
      requires i < |directories| && Cleaning(i, start, tampered, sole, retained, blocked)
      modifies this`cleaned, fs`at, fs`nextHidden, fs`nextId, fs`lost, fs`hits, fs`tampered, fs`threw, fs`states
      ensures old(fs.states) <= fs.states
      ensures fs.threw == if r.Threw? then old(fs.threw) + {CleaningUp} else old(fs.threw)
      ensures CleaningUp in fs.failing ==> r.Threw?
      ensures r.Threw? ==>
        Ready() && TamperedSince(tampered) && (!fs.tampered ==> SamePublic(start, fs.at)) && !fs.Calm()
        && (Idle() && sole ==> Sole(fs.at, unrecorded, fs.lost))
        && forall p :: p in blocked ==> p in PathsOf(directories)
      ensures !r.Threw? ==>
        Cleaning(i + 1, start, tampered, sole, retained + Kept(r, directories[i].path),
                 blocked + Stuck(r, directories[i].path))
    {
      hide Ready, Sole, SlotsNamed, SamePublic, PathsOf, AllHidden, Kept, Stuck;
      BlockedPath(i);
      r := CleanupOne(i, start, retained, blocked);
    }

    lemma BlockedPath(i: nat)
      requires i < |directories|
      ensures forall r: Quarantined, p :: p in Stuck(r, directories[i].path) ==> p in PathsOf(directories)
      ensures forall r: Quarantined :: r.Removed? ==>
        Kept(r, directories[i].path) == [] && Stuck(r, directories[i].path) == []
    {
      PathsOfMember(directories, i);
    }

    method CleanupOne(i: nat, ghost start: Tree, ghost retained: seq<Path>, ghost blocked: seq<Path>)
      returns (r: Quarantined)
      requires Ready() && i == cleaned < |directories|
      requires fs.committed || forall m :: m in fs.moved ==> m in fs.returned
      requires !fs.tampered ==> SamePublic(start, fs.at)
      requires SlotsNamed(fs.at, retained + blocked + PathsOf(directories[i..])) && AllHidden(retained + blocked)
      modifies this`cleaned, fs`at, fs`nextHidden, fs`nextId, fs`lost, fs`hits, fs`tampered, fs`threw, fs`states
      ensures old(fs.states) <= fs.states
      ensures Ready() && TamperedSince(old(fs.tampered)) && cleaned == i + 1
      ensures !fs.tampered ==> SamePublic(start, fs.at)
      ensures var named := retained + Kept(r, directories[i].path) + (blocked + Stuck(r, directories[i].path));
        !r.Threw? ==> SlotsNamed(fs.at, named + PathsOf(directories[i + 1..])) && AllHidden(named)
      ensures fs.threw == if r.Threw? then old(fs.threw) + {CleaningUp} else old(fs.threw)
      ensures CleaningUp in fs.failing ==> r.Threw?
      ensures fs.Calm() ==> r.Removed?
      ensures Idle() && old(Sole(fs.at, unrecorded, fs.lost)) ==> Sole(fs.at, unrecorded, fs.lost)
    {
      hide Sound, Sole, Conserves, AllSecure, SamePublic, SlotsNamed, PathsOf, AllHidden, Kept, Stuck, SetAsideAs,
        OthersOnly;
      var d, q := directories[i], Hidden(fs.nextHidden);
      ghost var l := L();
      NextDirectory(was, base, l);
      DirectorySecure(was, base, l, d);
      DirectoriesHidden(was, base, l);
      ghost var mid;
      r, mid := QuarantineOwned(d.path, d.id, true, true, Staged(0));
      cleaned := cleaned + 1;
      if !fs.tampered {
        OthersIdle(l, mid);
      }
      CleanedOne(was, base, l, mid, L(), i, q, r, start, retained, blocked);
      SoundConserves(was, base, L());
    }

    /** `restoreMovedArtifacts`, lines 808 to 841. */
    method RestoreMoved() returns (r: Outcome)
      requires Ready() && fs.returned == {} && taken == {} && cleaned == 0 && !fs.committed && CleaningUp !in fs.threw
      modifies this`cleaned
      modifies fs`at, fs`nextHidden, fs`nextId, fs`lost, fs`hits, fs`tampered, fs`threw, fs`returned, fs`states
      ensures Ready() && TamperedSince(old(fs.tampered)) && !fs.committed
      ensures r.RolledBack? || r.Incomplete? || r.CleanupEscaped?
      ensures r.RolledBack? ==> NoSlots(fs.at) && (!fs.tampered ==> (AsBefore(was, fs.at) <==> unrecorded == None))
      ensures r.Incomplete? ==> SlotsNamed(fs.at, r.named)
      ensures r.CleanupEscaped? ==> forall m :: m in fs.moved ==> m in fs.returned
      ensures r.CleanupEscaped? <==> CleaningUp in fs.threw
      ensures fs.threw <= old(fs.threw) + {Restoring, CleaningUp}
      ensures fs.Calm() && (!fs.tampered || fs.moved == []) ==> r.RolledBack?
      ensures r.RolledBack? && Idle() && unrecorded.Some? && old(Sole(fs.at, unrecorded, fs.lost)) ==>
        unrecorded.value.id in fs.lost
    {
      hide Ready, Sole, Conserves, Conserved, Sound, SlotsNamed, NoSlots, AsBefore, PathsOf;
      var ok := RestoreAll();
      if !ok {
        EverythingNamed();
        return Incomplete(PathsOf(directories));
      }
      var retained, blocked, threw := CleanupRollbackDirs();
      if threw {
        return CleanupEscaped;
      }
      if retained + blocked != [] {
        return Incomplete(retained + blocked);
      }
      NoneNamed(fs.at);
      AsBeforeIfRecorded();
      if Sole(fs.at, unrecorded, fs.lost) {
        UnrecordedGone();
      }
      r := RolledBack;
    }

    /** The loop of `restoreMovedArtifacts`. */
    method RestoreAll() returns (ok: bool)
      requires Ready() && fs.returned == {} && taken == {} && !fs.committed
      modifies fs`at, fs`nextId, fs`lost, fs`hits, fs`tampered, fs`threw, fs`returned, fs`states
      ensures Ready() && TamperedSince(old(fs.tampered)) && fs.threw <= old(fs.threw) + {Restoring}
      ensures ok ==> forall m :: m in fs.moved ==> m in fs.returned
      ensures fs.Calm() && !fs.tampered ==> ok
      ensures Idle() && old(Sole(fs.at, unrecorded, fs.lost)) ==> Sole(fs.at, unrecorded, fs.lost)
      ensures fs.moved == [] ==> ok
    {
      hide Ready, Pending, BackFrom, Apart, Sole;
      NonePutBack();
      ok := true;
      var i := |fs.moved|;
      while i > 0
        invariant 0 <= i <= |fs.moved| && Ready() && TamperedSince(old(fs.tampered))
        invariant fs.threw <= old(fs.threw) + {Restoring} && Pending(fs.moved, i, fs.returned)
        invariant Idle() && old(Sole(fs.at, unrecorded, fs.lost)) ==> Sole(fs.at, unrecorded, fs.lost)
        invariant ok ==> BackFrom(fs.moved, i, fs.returned)
        invariant fs.moved == [] ==> ok
        invariant fs.Calm() && !fs.tampered ==> ok
      {
        i := i - 1;
        var back := RestoreNext(i);
        ok := ok && back;
      }
      AllReturned(fs.moved, fs.returned);
    }

    lemma NonePutBack()
      requires Ready() && fs.returned == {}
      ensures Apart(fs.moved) && Pending(fs.moved, |fs.moved|, fs.returned)
      ensures BackFrom(fs.moved, |fs.moved|, fs.returned)
    {
      SlotNumbers(was, base, L());
    }

    method RestoreNext(i: nat) returns (ok: bool)
      requires Ready() && !fs.committed && taken == {} && i < |fs.moved| && Pending(fs.moved, i + 1, fs.returned)
      requires Apart(fs.moved)
      modifies fs`at, fs`nextId, fs`lost, fs`hits, fs`tampered, fs`threw, fs`returned, fs`states
      ensures Ready() && TamperedSince(old(fs.tampered)) && fs.threw <= old(fs.threw) + {Restoring}
      ensures Pending(fs.moved, i, fs.returned)
      ensures ok && BackFrom(fs.moved, i + 1, old(fs.returned)) ==> BackFrom(fs.moved, i, fs.returned)
      ensures fs.Calm() && !fs.tampered ==> ok
      ensures Idle() && old(Sole(fs.at, unrecorded, fs.lost)) ==> Sole(fs.at, unrecorded, fs.lost)
    {
      OneLessPending(fs.moved, i, fs.returned);
      hide Ready, Pending, BackFrom, Apart, Sole;
      ok := RestoreOne(fs.moved[i]);
    }

    lemma EverythingNamed()
      requires Ready() && cleaned == 0
      ensures SlotsNamed(fs.at, PathsOf(directories))
    {
      AllNamed(was, base, L());
    }

    lemma UnrecordedGone()
      requires NoSlots(fs.at) && Sole(fs.at, unrecorded, fs.lost)
      ensures unrecorded.Some? ==> unrecorded.value.id in fs.lost
    {
      SoleLost(L());
    }

    lemma AsBeforeIfRecorded()
      requires Ready() && taken == {} && forall m :: m in fs.moved ==> m in fs.returned
      ensures !fs.tampered ==> (AsBefore(was, fs.at) <==> unrecorded == None)
    {
      if !fs.tampered {
        AllBack(was, L());
      }
    }

    /** What a finished undoing means. `RolledBack` and `RolledBackRetaining` leave nothing aside. The names in
        an `Incomplete` report cover every recorded original that is not at its target. `CleanupEscaped`
        leaves only directories unnamed, and every original is back; `Escaped` leaves every original in a
        slot, unnamed. The two happen exactly when an existence check of their phase threw. */
    ghost predicate Undone(r: Outcome)
      reads this, fs
    {
      && !r.Committed? && !r.ThrewAfterCommit? && !r.Refused?
      && (r.RolledBack? || r.RolledBackRetaining? ==>
            NoSlots(fs.at) && (!fs.tampered ==> (AsBefore(was, fs.at) <==> unrecorded == None)))
      && (r.Incomplete? ==> SlotsNamed(fs.at, r.named) && Reported(L(), r.named))
      && (r.CleanupEscaped? ==> Reported(L(), []))
      && (r.Escaped? ==> forall m :: m in fs.moved ==> InSlot(fs.at, m))
      && (r.Escaped? <==> Clearing in fs.threw) && (r.CleanupEscaped? <==> CleaningUp in fs.threw)
      && Warning !in fs.threw
    }

    lemma UndoneReport(r: Outcome)
      requires Ready() && !fs.committed && Warning !in fs.threw && Clearing !in fs.threw
      requires r.RolledBack? || r.Incomplete? || r.CleanupEscaped?
      requires r.RolledBack? ==> NoSlots(fs.at) && (!fs.tampered ==> (AsBefore(was, fs.at) <==> unrecorded == None))
      requires r.Incomplete? ==> SlotsNamed(fs.at, r.named)
      requires r.CleanupEscaped? ==> forall m :: m in fs.moved ==> m in fs.returned
      requires r.CleanupEscaped? <==> CleaningUp in fs.threw
      ensures Undone(r)
    {
      hide NoSlots, AsBefore, SlotsNamed;
      if r.Incomplete? {
        OriginalsReported(was, base, L(), r.named);
      }
    }

    method StageItem(item: Item, ghost earlier: seq<string>) returns (ok: bool)
      requires Ready() && Staging() && (!fs.tampered ==> Vacant(fs.at, earlier))
      modifies this`directories, this`made, this`unrecorded
      modifies fs`at, fs`nextHidden, fs`nextId, fs`moved, fs`lost, fs`hits, fs`tampered, fs`threw, fs`states
      ensures Ready() && NothingPublished() && (ok ==> Staging()) && TamperedSince(old(fs.tampered))
      ensures ok && !fs.tampered ==> Vacant(fs.at, earlier + TargetArtifacts(item))
      ensures forall m :: m in fs.moved ==> m in old(fs.moved) || m.target in TargetArtifacts(item)
      ensures ok && !fs.tampered ==> Beside(old(fs.at), fs.at, TargetArtifacts(item))
      ensures old(Steady() && Smooth() && AllYield(fs.at, TargetArtifacts(item), item.directory)) ==>
        Distinct(TargetArtifacts(item)) ==> ok
    {
      hide Ready, Vacant, SameBut, Beside, AllYield, Ordinary;
      var names := TargetArtifacts(item);
      var i := 0;
      assert earlier + names[..0] == earlier;
      BesideItself(fs.at);
      while i < |names|
        invariant 0 <= i <= |names| && Ready() && Staging() && TamperedSince(old(fs.tampered))
        invariant !fs.tampered ==> Vacant(fs.at, earlier + names[..i])
        invariant forall m :: m in fs.moved ==> m in old(fs.moved) || m.target in names
        invariant !fs.tampered ==> Beside(old(fs.at), fs.at, names[..i])
      {
        ghost var before := fs.at;
        if !fs.tampered && Distinct(names) && AllYield(old(fs.at), names, item.directory) {
          StillYields(old(fs.at), fs.at, names, i, item.directory);
        }
        ok := StageTarget(names[i], item.directory);
        if !ok {
          return;
        }
        if !fs.tampered {
          BesideOne(old(fs.at), before, fs.at, names[..i], names[i]);
          VacantGrows(before, fs.at, earlier + names[..i], names[i]);
          assert names[..i] + [names[i]] == names[..i + 1];
          assert earlier + names[..i] + [names[i]] == earlier + names[..i + 1];
        }
        i := i + 1;
      }
      assert names[..i] == names;
      ok := true;
    }

    /** The recovery of `stageExistingArtifacts`, lines 870 to 873. */
    method Recover(quiet: bool) returns (r: Outcome)
      requires Ready() && NothingPublished()
      modifies this`cleaned, fs
      ensures Ready() && !fs.committed && TamperedSince(old(fs.tampered)) && Undone(r)
      ensures quiet && (!fs.tampered || old(fs.moved) == []) ==> r == RolledBack
      ensures fs.moved == old(fs.moved)
      ensures r.RolledBack? && Idle() && unrecorded.Some? && old(Sole(fs.at, unrecorded, fs.lost)) ==>
        unrecorded.value.id in fs.lost
    {
      hide Sound, Sole, SlotsNamed, Reported, NoSlots, AsBefore;
      if quiet {
        fs.faulty, fs.failing := false, {};
      }
      r := RestoreMoved();
      UndoneReport(r);
    }

    /** What the recovery then does to a file that was put in the place of an original. */
    method RecoverStranger(foreign: nat) returns (r: Outcome)
      requires Ready() && NothingPublished() && fs.alone && fs.moved == []
      requires unrecorded.Some? && unrecorded.value.id == foreign && Sole(fs.at, unrecorded, fs.lost)
      requires foreign !in was.Values && !Ours(was, L(), foreign)
      modifies this`cleaned, fs
      ensures r == RolledBack && foreign in fs.lost && !OnlyOurs(was, L())
    {
      hide Ready, Sole, Ours, OnlyOurs;
      ghost var l := L();
      r := Recover(true);
      StrangerAside(was, l, L(), foreign);
      StrangerLost(was, L(), foreign);
    }

    /** `stageExistingArtifacts`, lines 843 to 874; the recovery's steps succeed when `quiet`. */
    method StageExisting(items: seq<Item>, quiet: bool) returns (failed: Option<Outcome>)
      requires Ready() && Staging() && fs.moved == []
      modifies this`directories, this`made, this`unrecorded, this`cleaned, fs
      ensures Ready() && TamperedSince(old(fs.tampered))
      ensures failed == None ==>
        && Staging() && (!fs.tampered ==> Vacant(fs.at, AllTargets(items)))
        && forall m :: m in fs.moved ==> m.target in AllTargets(items)
      ensures failed != None ==> !fs.committed && Undone(failed.value)
      ensures failed != None && quiet && !fs.tampered ==> failed.value == RolledBack
      ensures failed == None ==> fs.faulty == old(fs.faulty) && fs.failing == old(fs.failing)
      ensures failed == None && !fs.tampered ==> Beside(old(fs.at), fs.at, AllTargets(items))
      ensures old(Steady() && Smooth() && ItemsYield(fs.at, items)) ==> Distinct(AllTargets(items)) ==> failed == None
    {
      hide Ready, Vacant, Undone, Beside, AllYield, ItemsYield, Distinct;
      VacantNone(fs.at);
      BesideItself(fs.at);
      var n := 0;
      while n < |items|
        invariant 0 <= n <= |items| && Ready() && Staging() && TamperedSince(old(fs.tampered))
        invariant !fs.tampered ==> Vacant(fs.at, AllTargets(items[..n]))
        invariant forall m :: m in fs.moved ==> m.target in AllTargets(items[..n])
        invariant fs.faulty == old(fs.faulty) && fs.failing == old(fs.failing)
        invariant !fs.tampered ==> Beside(old(fs.at), fs.at, AllTargets(items[..n]))
      {
        ghost var before := fs.at;
        if !fs.tampered && Distinct(AllTargets(items)) && ItemsYield(old(fs.at), items) {
          ItemYields(old(fs.at), fs.at, items, n);
        }
        var ok := StageItem(items[n], AllTargets(items[..n]));
        if !ok {
          var r := Recover(quiet);
          return Some(r);
        }
        assert items[..n + 1][..n] == items[..n];
        if !fs.tampered {
          BesideMore(old(fs.at), before, fs.at, AllTargets(items[..n]), TargetArtifacts(items[n]));
        }
        n := n + 1;
      }
      assert items[..n] == items;
      return None;
    }

    // ---- Publishing ----

    /** What the published artifacts look like, and that the other names are free, while nobody interferes. */
    ghost predicate Standing(names: seq<string>)
      reads this`published, this`taken, fs`at, fs`tampered
    {
      && DistinctTargets(published) && taken == TargetsOf(published)
      && (!fs.tampered ==> InPlace(fs.at, published) && VacantBut(fs.at, names, taken))
    }

    /** Nothing undone yet, and every original recorded. */
    ghost predicate Publishing()
      reads this`cleaned, this`unrecorded, fs`returned, fs`committed, fs`threw
    {
      fs.returned == {} && !fs.committed && cleaned == 0 && unrecorded == None && fs.threw <= {Looking}
    }

    /** Nothing fails and nobody else has acted or will. */
    ghost predicate Steady()
      reads fs`faulty, fs`failing, fs`tampered
    {
      !fs.faulty && fs.alone && Looking !in fs.failing && !fs.tampered
    }

    lemma Stands(a: Artifact, names: seq<string>)
      requires Standing(names) && !fs.tampered && a in published
      ensures IdAt(fs.at, Target(a.item.target)) == Some(a.id)
      ensures Recognised(fs.at, Target(a.item.target), a.id, a.item.directory, a.final, Staged(a.item.staged))
    {
    }

    /** Other processes act while artifacts stand on their targets. */
    method OthersMeanwhile(ghost names: seq<string>)
      requires Ready() && Standing(names)
      modifies fs`at, fs`nextId, fs`tampered, fs`states
      ensures Ready() && Standing(names) && TamperedSince(old(fs.tampered))
      ensures forall x: Path :: !x.Target? && !x.Entry? ==> IdAt(fs.at, x) == IdAt(old(fs.at), x)
      ensures !fs.tampered ==> fs.at == old(fs.at)
    {
      hide Ready, InPlace, TargetsOf, DistinctTargets, VacantBut;
      Others();
    }

    /** The link, or the rename of a directory, with the record of it, lines 880 to 887; others may act
        between the look at the staged artifact and that step. */
    method Place(item: Item, ghost names: seq<string>) returns (ok: bool)
      requires Ready() && Publishing() && Standing(names) && AllFinal(published)
      requires item.target !in taken && item.target in names
      modifies this`published, this`taken, fs`at, fs`nextId, fs`lost, fs`hits, fs`tampered, fs`states
      ensures Ready() && Standing(names) && TamperedSince(old(fs.tampered))
      ensures if ok then |published| == |old(published)| + 1 && published[..|old(published)|] == old(published)
                         && published[|old(published)|] == Artifact(item, published[|old(published)|].id, false)
              else published == old(published)
      ensures ok && !item.directory ==> IdAt(fs.at, Staged(item.staged)) == Some(published[|old(published)|].id)
      ensures forall h :: h in fs.hits ==>
        h in old(fs.hits) || (item.directory && h.Replaced? && h.at == Target(item.target))
      ensures !fs.tampered ==> OnlyPlaced(old(fs.at), fs.at, item)
      ensures old(Steady() && Placeable(fs.at, item)) ==> ok
    {
      hide Sound, Conserves, InPlace, VacantBut, TargetsOf, DistinctTargets, OnlyName, OnlyPlaced;
      OnlyPlacedItself(fs.at, item);
      var identity := fs.Identify(Staged(item.staged), item.directory);
      if identity.None? || (!item.directory && !OnlyName(fs.at, identity.value, Staged(item.staged))) {
        return false;
      }
      OthersMeanwhile(names);
      ok := PlaceNow(Artifact(item, identity.value, false), names);
    }

    /** The link or rename itself. A rename destroys what stands on the target by now, exactly if that has no
        other name. */
    method PlaceNow(a: Artifact, ghost names: seq<string>) returns (ok: bool)
      requires Ready() && Publishing() && Standing(names) && AllFinal(published) && !a.final
      requires a.item.target !in taken && a.item.target in names && IdAt(fs.at, Staged(a.item.staged)) == Some(a.id)
      requires !fs.tampered && !a.item.directory ==> OnlyName(fs.at, a.id, Staged(a.item.staged))
      modifies this`published, this`taken, fs`at, fs`lost, fs`hits, fs`states
      ensures Ready() && Standing(names)
      ensures published == if ok then old(published) + [a] else old(published)
      ensures ok && !a.item.directory ==> IdAt(fs.at, Staged(a.item.staged)) == Some(a.id)
      ensures fs.hits == if ok && a.item.directory && Destroys(old(fs.at), Staged(a.item.staged), Target(a.item.target))
                         then old(fs.hits) + {Replaced(Target(a.item.target), old(fs.at)[Target(a.item.target)])}
                         else old(fs.hits)
      ensures !fs.faulty && !fs.tampered ==> ok
      ensures OnlyPlaced(old(fs.at), fs.at, a.item)
    {
      hide Sound, Conserves, AllConserve, InPlace, TargetsOf, DistinctTargets, AllFinal, OnlyName, VacantBut,
        Overwritten, Ids, Destroys, GivesWay, Renamed, Fs.Valid, OnlyPlaced;
      OverwrittenExactly(fs.at, Staged(a.item.staged), Target(a.item.target));
      TargetFree(fs.at, names, taken, a.item.target);
      if a.item.directory {
        ok := fs.Rename(Staged(a.item.staged), Target(a.item.target));
      } else {
        ok := fs.Link(Staged(a.item.staged), Target(a.item.target));
      }
      PlacedOnly(old(fs.at), fs.at, a);
      ghost var placed := L();
      if !ok {
        SoundConserves(was, base, placed);
      } else {
        published := published + [a];
        taken := taken + {a.item.target};
        PlacedStanding(was, base, old(L()), L(), a, names);
      }
      OneMoreConserves(old(fs.states), SnapshotOf(placed));
    }

    /** The staging link goes, line 892. */
    method DropStaging(a: Artifact, ghost names: seq<string>) returns (ok: bool)
      requires Ready() && Standing(names) && |published| > 0 && published[|published| - 1] == a && !a.item.directory
      requires AllFinal(published[..|published| - 1]) && IdAt(fs.at, Staged(a.item.staged)) == Some(a.id)
      modifies fs`at, fs`lost, fs`states
      ensures Ready() && Standing(names)
      ensures OnlyPlaced(old(fs.at), fs.at, a.item) && AsBefore(old(fs.at), fs.at) && (!fs.faulty ==> ok)
      ensures ok && old(Recognised(fs.at, Target(a.item.target), a.id, false, false, Staged(a.item.staged))) ==>
        OnlyName(fs.at, a.id, Target(a.item.target))
    {
      hide Sound, Conserves, InPlace, TargetsOf, DistinctTargets, OnlyPlaced, AsBefore, Recognised, OnlyName;
      UnstagedOnly(fs.at, a);
      OnlyPlacedItself(fs.at, a.item);
      ok := fs.Unlink(Staged(a.item.staged));
      if ok {
        assert fs.lost <= old(fs.lost) + {a.id};
        Unlinked(was, base, old(L()), L(), a);
        assert published == published[..|published| - 1] + [a];
        if !fs.tampered {
          InPlaceUnlinked(old(fs.at), published[..|published| - 1], a);
        }
      } else {
        StillNamed(fs.at, Staged(a.item.staged));
        assert L() == old(L());
      }
      SoundConserves(was, base, L());
    }

    /** `assertNoSqliteSidecars`. */
    method NoSidecars(item: Item) returns (ok: bool)
      modifies fs`threw
      ensures fs.threw <= old(fs.threw) + {Looking}
      ensures ok ==> Vacant(fs.at, Sidecars(item))
      ensures !fs.faulty && Looking !in fs.failing && Vacant(fs.at, Sidecars(item)) ==> ok
    {
      var sidecars := Sidecars(item);
      for i := 0 to |sidecars|
        invariant Vacant(fs.at, sidecars[..i]) && fs.threw <= old(fs.threw) + {Looking}
      {
        assert Vacant(fs.at, sidecars) ==> IdAt(fs.at, Target(sidecars[i])) == None;
        var there := fs.Exists(Target(sidecars[i]), Looking);
        if there != Some(false) {
          return false;
        }
      }
      assert sidecars[..|sidecars|] == sidecars;
      ok := true;
    }

    lemma StandsForNothing(t: string)
      requires published == [] && taken == {} && IdAt(fs.at, Target(t)) == None
      ensures Standing([t]) && AllFinal(published)
    {
      TargetsOfNone();
    }

    /** Something set aside lies in a recorded directory. */
    lemma DirectoryInUse()
      requires Ready() && fs.moved != [] && fs.returned == {} && !fs.committed
      ensures directories != []
    {
      assert fs.moved[0] in fs.moved;
      assert InSlot(fs.at, fs.moved[0]);
    }

    /** Nobody put anything into a directory while nobody else acted. */
    lemma EntryFree(a: Artifact, name: string)
      requires Ready() && !fs.tampered
      ensures Entry(a.id, name) !in fs.at
    {
      assert IdAt(fs.at, Entry(a.id, name)) == None;
    }

    lemma SeenNow(items: seq<Item>, checked: seq<Snapshot>)
      requires Ready() && |published| == |items| && AreItems(published, items)
      requires AllCurrent(checked, published) && forall s :: s in checked ==> s in fs.states
      ensures SeenOnTarget(was, fs.states, checked, items)
    {
      CurrentOnTarget(was, base, L(), fs.states, checked, items);
    }

    /** What follows the link, lines 888 to 901. */
    method Settle(a: Artifact, ghost names: seq<string>) returns (ok: bool)
      requires Ready() && Publishing() && Standing(names) && |published| > 0 && published[|published| - 1] == a
      requires !a.final
      requires AllFinal(published[..|published| - 1])
      requires !a.item.directory ==> IdAt(fs.at, Staged(a.item.staged)) == Some(a.id)
      modifies this`published, fs`at, fs`nextId, fs`lost, fs`tampered, fs`threw, fs`states
      ensures Ready() && Publishing() && Standing(names) && TamperedSince(old(fs.tampered))
      ensures published == if ok then old(published)[|old(published)| - 1 := a.(final := true)] else old(published)
      ensures !fs.tampered ==> OnlyPlaced(old(fs.at), fs.at, a.item)
      ensures old(Steady() && Vacant(fs.at, Sidecars(a.item))) ==> ok
    {
      hide Ready, Standing, AllFinal, Vacant, Recognised, OnlyName, TargetArtifacts, OnlyPlaced, Sidecars;
      ok := Unstage(a, names);
      if !ok {
        return;
      }
      if !fs.tampered && Vacant(old(fs.at), Sidecars(a.item)) {
        VacantStill(old(fs.at), fs.at, a.item);
      }
      OthersMeanwhile(names);
      ok := fs.Attend();
      if !ok {
        return;
      }
      if a.item.sqlite {
        ok := NoSidecars(a.item);
        if !ok {
          return;
        }
      }
      ok := fs.Attend();
      if !ok {
        return;
      }
      OthersMeanwhile(names);
      ok := Finalise(a, names);
    }

    /** The first check and the end of the staging link, lines 888 to 892. */
    method Unstage(a: Artifact, ghost names: seq<string>) returns (ok: bool)
      requires Ready() && Publishing() && Standing(names) && |published| > 0 && published[|published| - 1] == a
      requires !a.final
      requires AllFinal(published[..|published| - 1])
      requires !a.item.directory ==> IdAt(fs.at, Staged(a.item.staged)) == Some(a.id)
      modifies fs`at, fs`nextId, fs`lost, fs`tampered, fs`states
      ensures Ready() && Standing(names) && TamperedSince(old(fs.tampered))
      ensures !fs.tampered ==> OnlyPlaced(old(fs.at), fs.at, a.item)
      ensures old(Steady()) ==> ok
      ensures ok && !fs.tampered && !a.item.directory ==> OnlyName(fs.at, a.id, Target(a.item.target))
    {
      hide Ready, Standing, AllFinal, Recognised, OnlyName, OnlyPlaced;
      OnlyPlacedItself(fs.at, a.item);
      OthersMeanwhile(names);
      if !fs.tampered {
        Stands(a, names);
      }
      var placed := fs.Stat(Target(a.item.target), Looking);
      if placed != Some(a.id) {
        return false;
      }
      ok := true;
      if !a.item.directory {
        ok := DropStaging(a, names);
      }
    }

    /** The final check, lines 896 to 901. */
    method Finalise(a: Artifact, ghost names: seq<string>) returns (ok: bool)
      requires Ready() && Standing(names) && |published| > 0 && published[|published| - 1] == a && !a.final
      modifies this`published
      ensures Ready() && Standing(names)
      ensures published == if ok then old(published)[|old(published)| - 1 := a.(final := true)] else old(published)
      ensures old(Steady() && (a.item.directory || OnlyName(fs.at, a.id, Target(a.item.target)))) ==> ok
    {
      hide Sound, Conserves, TargetsOf, DistinctTargets, VacantBut;
      if !fs.tampered {
        Stands(a, names);
      }
      var settled := fs.Stat(Target(a.item.target), Looking);
      if settled != Some(a.id) || (!a.item.directory && !OnlyName(fs.at, a.id, Target(a.item.target))) {
        return false;
      }
      published := published[|published| - 1 := a.(final := true)];
      Finalised(was, base, old(L()), L(), |published| - 1);
      TargetsOfFinal(old(published), |published| - 1);
      ok := true;
    }

    /** One item, lines 880 to 901. */
    method PublishOne(item: Item, ghost names: seq<string>) returns (ok: bool)
      requires Ready() && Publishing() && Standing(names) && AllFinal(published)
      requires item.target !in taken && item.target in names
      modifies this`published, this`taken, fs`at, fs`nextId, fs`lost, fs`hits, fs`tampered, fs`threw, fs`states
      ensures Ready() && Publishing() && Standing(names) && TamperedSince(old(fs.tampered))
      ensures ok ==> |published| == |old(published)| + 1 && published[..|old(published)|] == old(published)
                     && published[|old(published)|].item == item && AllFinal(published)
      ensures !fs.tampered ==> OnlyPlaced(old(fs.at), fs.at, item)
      ensures old(Steady() && Placeable(fs.at, item) && Vacant(fs.at, Sidecars(item))) ==> ok
    {
      hide Ready, InPlace, TargetsOf, DistinctTargets, Recognised, OnlyName, VacantBut, OnlyPlaced, Placeable, Vacant,
        Sidecars;
      OthersMeanwhile(names);
      ok := Place(item, names);
      if !ok {
        return;
      }
      ghost var mid := fs.at;
      assert published[..|published| - 1] == old(published);
      if !fs.tampered && Vacant(old(fs.at), Sidecars(item)) {
        VacantStill(old(fs.at), mid, item);
      }
      ok := Settle(published[|published| - 1], names);
      if !fs.tampered {
        OnlyPlacedTwice(old(fs.at), mid, fs.at, item);
      }
    }

    /** `publishStagedFiles`, lines 876 to 908. */
    method PublishStaged(items: seq<Item>) returns (ok: bool)
      requires Ready() && Publishing() && published == [] && taken == {} && Distinct(AllTargets(items))
      requires !fs.tampered ==> Vacant(fs.at, AllTargets(items))
      modifies this`published, this`taken, fs`at, fs`nextId, fs`lost, fs`hits, fs`tampered, fs`threw, fs`states
      ensures Ready() && Publishing() && Standing(AllTargets(items)) && TamperedSince(old(fs.tampered))
      ensures ok ==> AllFinal(published) && |published| == |items| && AreItems(published, items)
      ensures old(Steady() && AllPlaceable(fs.at, items)) && StagedApart(items) ==> ok
    {
      hide Ready, Standing, Publishing, TargetsOf, DistinctTargets, AllTargets, Distinct, AreItems, AllFinal,
        AllPlaceable, PlaceableFrom, StagedApart, Vacant;
      NothingPlaced(items);
      var n := 0;
      while n < |items|
        invariant 0 <= n <= |items| && Ready() && Publishing() && Standing(AllTargets(items)) && AllFinal(published)
        invariant TamperedSince(old(fs.tampered))
        invariant |published| == n && AreItems(published, items)
        invariant old(AllPlaceable(fs.at, items)) && StagedApart(items) && !fs.tampered ==>
          PlaceableFrom(fs.at, items, n)
      {
        ok := PublishNext(items, n);
        if !ok {
          return;
        }
        n := n + 1;
      }
      ok := true;
    }

    lemma NothingPlaced(items: seq<Item>)
      requires published == [] && taken == {} && (!fs.tampered ==> Vacant(fs.at, AllTargets(items)))
      ensures Standing(AllTargets(items)) && AreItems(published, items) && AllFinal(published)
      ensures AllPlaceable(fs.at, items) ==> PlaceableFrom(fs.at, items, 0)
    {
      hide AllTargets, Placeable;
      TargetsOfNone();
    }

    /** One turn of its loop. */
    method PublishNext(items: seq<Item>, n: nat) returns (ok: bool)
      requires Ready() && Publishing() && Standing(AllTargets(items)) && AllFinal(published)
      requires Distinct(AllTargets(items)) && |published| == n < |items| && AreItems(published, items)
      modifies this`published, this`taken, fs`at, fs`nextId, fs`lost, fs`hits, fs`tampered, fs`threw, fs`states
      ensures Ready() && Publishing() && Standing(AllTargets(items)) && TamperedSince(old(fs.tampered))
      ensures ok ==> AllFinal(published) && |published| == n + 1 && AreItems(published, items)
      ensures ok && old(PlaceableFrom(fs.at, items, n)) && StagedApart(items) && !fs.tampered ==>
        PlaceableFrom(fs.at, items, n + 1)
      ensures old(Steady() && PlaceableFrom(fs.at, items, n)) ==> ok
    {
      hide Ready, InPlace, VacantBut, TargetsOf, DistinctTargets, AllTargets, Distinct, AreItems, AllFinal,
        PlaceableFrom, StagedApart, OnlyPlaced, Placeable, Vacant, Sidecars;
      NextTargetFree(items, published);
      TargetNamed(items, n);
      if !fs.tampered {
        SidecarsFree(fs.at, items, published);
      }
      ghost var before, names := published, fs.at;
      PlaceableNow(fs.at, items, n);
      ok := PublishOne(items[n], AllTargets(items));
      if !ok {
        return;
      }
      OneMoreItem(before, published, items);
      if PlaceableFrom(names, items, n) && StagedApart(items) && !fs.tampered {
        PlaceableNext(names, fs.at, items, n);
      }
    }

    // ---- The run ----

    /** `assertPublishedArtifactsCurrent`, lines 910 to 922: each artifact is looked at once, and others may
        act in between; `checked` holds the state of each look. */
    method AssertCurrent() returns (ok: bool, ghost checked: seq<Snapshot>)
      requires Ready() && !fs.committed
      modifies fs`at, fs`nextId, fs`tampered, fs`states
      ensures Ready() && TamperedSince(old(fs.tampered)) && (!fs.tampered ==> fs.at == old(fs.at))
      ensures ok ==> AllCurrent(checked, published) && forall s :: s in checked ==> s in fs.states
      ensures After(checked, fs.states, Some(|old(fs.states)|))
      ensures old(Steady() && InPlace(fs.at, published)) && AllFinal(published) ==> ok
    {
      hide Ready;
      checked := [];
      for i := 0 to |published|
        invariant Ready() && TamperedSince(old(fs.tampered)) && (!fs.tampered ==> fs.at == old(fs.at))
        invariant |checked| == i && AllCurrent(checked, published[..i])
        invariant After(checked, fs.states, Some(|old(fs.states)|))
      {
        ghost var states := fs.states;
        Others();
        StillAfter(checked, states, fs.states, Some(|old(fs.states)|));
        var a := published[i];
        var current := fs.Stat(Target(a.item.target), Looking);
        if current != Some(a.id) || (!a.item.directory && !OnlyName(fs.at, a.id, Target(a.item.target))) {
          return false, checked;
        }
        assert fs.states[|fs.states| - 1] == fs.Now();
        checked := checked + [fs.Now()];
      }
      assert published[..|published|] == published;
      ok := true;
    }

    /** One artifact off its target. */
    method ClearOne(a: Artifact, ghost rest: seq<Artifact>) returns (r: Quarantined)
      requires Ready() && fs.returned == {} && a in published && TargetsOf(rest + [a]) <= taken
      requires DistinctTargets(rest + [a])
      requires !fs.tampered ==> InPlace(fs.at, rest + [a])
      modifies this`taken, fs`at, fs`nextHidden, fs`nextId, fs`lost, fs`hits, fs`tampered, fs`threw, fs`states
      ensures Ready() && TamperedSince(old(fs.tampered))
      ensures taken == if r.Threw? || r.Blocked? then old(taken) else old(taken) - {a.item.target}
      ensures !fs.tampered ==> InPlace(fs.at, rest)
      ensures fs.threw == if r.Threw? then old(fs.threw) + {Clearing} else old(fs.threw)
      ensures Clearing in fs.failing ==> r.Threw?
      ensures !fs.tampered && fs.Calm() ==> r.Removed?
      ensures old(Recognised(fs.at, Target(a.item.target), a.id, a.item.directory, a.final, Staged(a.item.staged))) ==>
        fs.Calm() && fs.alone ==> r.Removed?
      ensures fs.alone && r.Removed? ==> EntriesSwept(old(fs.at), fs.hits, a.id)
    {
      hide Sound, Conserves, AllSecure, InPlace, TargetsOf, DistinctTargets, Recognised, SetAsideAs, OthersOnly,
        EntriesSwept, AllConserve;
      ghost var l, q := L(), Hidden(fs.nextHidden);
      PublishedSecure(was, base, l, a);
      TargetsOfFront(rest, a);
      if !fs.tampered {
        InPlaceLast(fs.at, rest, a);
      }
      ghost var mid;
      r, mid := QuarantineOwned(Target(a.item.target), a.id, a.item.directory, a.final, Staged(a.item.staged));
      taken := if r.Threw? || r.Blocked? then taken else taken - {a.item.target};
      RemovedSweeps(mid, L(), a, q, r);
      ClearedOne(was, base, l, mid, L(), rest, a, q, r);
    }

    lemma RemovedSweeps(mid: Ledger, l': Ledger, a: Artifact, q: Path, r: Quarantined)
      requires SetAsideAs(r, mid, l'.(taken := mid.taken), Target(a.item.target), q, a.id)
      ensures r.Removed? ==> EntriesSwept(mid.at, l'.hits, a.id)
    {
    }

    /** A file that another process puts into a published directory is destroyed when the directory is cleared
        off its target. */
    method Sweep(a: Artifact, ghost rest: seq<Artifact>, name: string) returns (id: nat, r: Quarantined)
      requires Ready() && fs.returned == {} && a in published && TargetsOf(rest + [a]) <= taken
      requires DistinctTargets(rest + [a]) && unrecorded == None && !fs.committed
      requires fs.alone && Entry(a.id, name) !in fs.at
      requires a.item.directory && IdAt(fs.at, Target(a.item.target)) == Some(a.id)
      modifies this`taken, fs`at, fs`nextHidden, fs`nextId, fs`lost, fs`hits, fs`tampered, fs`threw, fs`states
      ensures Ready() && id !in was.Values && (fs.Calm() ==> r.Removed?)
      ensures r.Removed? ==> id in fs.lost && !OnlyOurs(was, L())
    {
      hide Ready, Ours, OnlyOurs, EntriesSwept, TargetsOf, DistinctTargets, InPlace;
      TargetNumber(a);
      id := Intrude(Entry(a.id, name));
      ghost var l := L();
      ghost var before := fs.at;
      r := ClearOne(a, rest);
      if r.Removed? {
        SweptFrom(before, fs.hits, a.id, name);
        KnownHits();
        StillForeign(l, id);
      }
    }

    lemma TargetNumber(a: Artifact)
      requires Ready() && IdAt(fs.at, Target(a.item.target)) == Some(a.id)
      ensures a.id < fs.nextId
    {
    }

    lemma KnownHits()
      requires Ready()
      ensures forall h :: h in fs.hits ==> h.id in fs.lost
    {
      HitsLost(was, base, L());
    }

    lemma StillForeign(l: Ledger, id: nat)
      requires id in fs.lost && !Ours(was, l, id)
      requires L() == l.(at := fs.at, nextHidden := fs.nextHidden, nextId := fs.nextId, tampered := fs.tampered,
                         taken := taken, lost := fs.lost, hits := fs.hits)
      ensures !OnlyOurs(was, L())
    {
      assert !Ours(was, L(), id);
    }

    method ClearNext(i: nat, ghost tampered: bool, ghost retained: seq<Path>, ghost blocked: seq<Path>)
      returns (r: Quarantined)
      requires i < |published| && ClearedTo(i + 1, tampered, retained, blocked)
      modifies this`taken, fs`at, fs`nextHidden, fs`nextId, fs`lost, fs`hits, fs`tampered, fs`threw, fs`states
      ensures fs.threw == if r.Threw? then old(fs.threw) + {Clearing} else old(fs.threw)
      ensures Clearing in fs.failing ==> r.Threw?
      ensures r.Threw? ==> Ready() && TamperedSince(tampered) && !(!fs.tampered && fs.Calm())
      ensures var p := Target(published[i].item.target);
        !r.Threw? ==> ClearedTo(i, tampered, retained + Kept(r, p), blocked + Stuck(r, p))
    {
      hide Ready, InPlace, TargetsOf, DistinctTargets;
      var a := published[i];
      assert published[..i] + [a] == published[..i + 1];
      TargetsOfFront(published[..i], a);
      r := ClearOne(a, published[..i]);
    }

    /** `removePublishedArtifacts`, lines 765 to 773. */
    method RemovePublished() returns (retained: seq<Path>, blocked: seq<Path>, threw: bool)
      requires Ready() && fs.returned == {} && DistinctTargets(published) && taken == TargetsOf(published)
      requires !fs.tampered ==> InPlace(fs.at, published)
      modifies this`taken, fs`at, fs`nextHidden, fs`nextId, fs`lost, fs`hits, fs`tampered, fs`threw, fs`states
      ensures Ready() && TamperedSince(old(fs.tampered))
      ensures fs.threw == if threw then old(fs.threw) + {Clearing} else old(fs.threw)
      ensures Clearing in fs.failing && published != [] ==> threw
      ensures published == [] ==> retained == [] && blocked == []
      ensures !threw && blocked == [] ==> taken == {}
      ensures !fs.tampered && fs.Calm() ==> retained == [] && blocked == [] && !threw
    {
      assert published[..|published|] == published;
      retained, blocked, threw := [], [], false;
      assert ClearedTo(|published|, fs.tampered, [], []);
      hide Ready, ClearedTo, InPlace, TargetsOf, DistinctTargets, Kept, Stuck, TamperedSince;
      var i := |published|;
      while i > 0
        invariant 0 <= i <= |published| && fs.threw == old(fs.threw)
        invariant ClearedTo(i, old(fs.tampered), retained, blocked)
        invariant Clearing in fs.failing && published != [] ==> i == |published|
        invariant i == |published| ==> retained == [] && blocked == []
      {
        i := i - 1;
        var r := ClearNext(i, old(fs.tampered), retained, blocked);
        if r.Threw? {
          return retained, blocked, true;
        }
        retained := retained + Kept(r, Target(published[i].item.target));
        blocked := blocked + Stuck(r, Target(published[i].item.target));
      }
      AllCleared(old(fs.tampered), retained, blocked);
    }

    /** The artifacts from the i-th on are off their targets or blocked. */
    ghost predicate ClearedTo(i: nat, tampered: bool, retained: seq<Path>, blocked: seq<Path>)
      reads this, fs
    {
      && i <= |published| && Ready() && TamperedSince(tampered) && fs.returned == {}
      && DistinctTargets(published[..i]) && (!fs.tampered ==> InPlace(fs.at, published[..i]))
      && TargetsOf(published[..i]) <= taken && (blocked == [] ==> taken == TargetsOf(published[..i]))
      && (!fs.tampered && fs.Calm() ==> retained == [] && blocked == [])
    }

    lemma AllCleared(tampered: bool, retained: seq<Path>, blocked: seq<Path>)
      requires ClearedTo(0, tampered, retained, blocked)
      ensures Ready() && TamperedSince(tampered) && (blocked == [] ==> taken == {})
      ensures !fs.tampered && fs.Calm() ==> retained == [] && blocked == []
    {
      TargetsOfNone();
    }

    /** One step of `quarantineRollbackCollisions`, lines 795 to 804. */
    method ClearCollision(m: Moved) returns (r: Quarantined)
      requires Ready() && m in fs.moved && fs.returned == {} && taken == {}
      modifies fs`at, fs`nextHidden, fs`nextId, fs`lost, fs`hits, fs`tampered, fs`threw, fs`states
      ensures Ready() && TamperedSince(old(fs.tampered))
      ensures fs.threw == if r.Threw? then old(fs.threw) + {Clearing} else old(fs.threw)
      ensures Clearing in fs.failing ==> r.Threw?
      ensures !fs.tampered && fs.Calm() ==> r.Removed?
    {
      hide Ready, OthersOnly;
      Others();
      var there := fs.Exists(Target(m.target), Clearing);
      if there.None? {
        return Threw;
      }
      if !there.value {
        return Removed;
      }
      Others();
      r := MoveCollision(m);
    }

    method MoveCollision(m: Moved) returns (r: Quarantined)
      requires Ready() && m in fs.moved && fs.returned == {} && taken == {}
      modifies fs`at, fs`nextHidden, fs`lost, fs`hits, fs`states
      ensures Ready() && (r.RetainedAt? || r.Blocked?)
      ensures fs.Calm() ==> fs.tampered || Target(m.target) !in old(fs.at)
    {
      hide Sound, Conserves;
      var q := fs.NewHidden();
      var ok := fs.Rename(Target(m.target), q);
      if ok {
        CollisionMoved(was, base, old(L()), L(), m, q);
        r := RetainedAt(q);
      } else {
        PrivatelyChanged(was, base, old(L()), L());
        r := Blocked;
      }
      SoundConserves(was, base, L());
    }

    /** `quarantineRollbackCollisions`. */
    method QuarantineCollisions() returns (retained: seq<Path>, blocked: seq<Path>, threw: bool)
      requires Ready() && fs.returned == {} && taken == {}
      modifies fs`at, fs`nextHidden, fs`nextId, fs`lost, fs`hits, fs`tampered, fs`threw, fs`states
      ensures Ready() && TamperedSince(old(fs.tampered))
      ensures fs.threw == if threw then old(fs.threw) + {Clearing} else old(fs.threw)
      ensures Clearing in fs.failing && fs.moved != [] ==> threw
      ensures !fs.tampered && fs.Calm() ==> retained == [] && blocked == [] && !threw
    {
      hide Ready;
      retained, blocked, threw := [], [], false;
      for i := 0 to |fs.moved|
        invariant Ready() && TamperedSince(old(fs.tampered)) && fs.threw == old(fs.threw)
        invariant Clearing in fs.failing ==> i == 0
        invariant !fs.tampered && fs.Calm() ==> retained == [] && blocked == []
      {
        var r := ClearCollision(fs.moved[i]);
        if r.Threw? {
          return retained, blocked, true;
        }
        retained := retained + Kept(r, Target(fs.moved[i].target));
        blocked := blocked + Stuck(r, Target(fs.moved[i].target));
      }
    }

    /** The clearing of the public names, lines 941 to 948. */
    method Clear(force: bool) returns (retained: seq<Path>, blocked: seq<Path>, threw: bool)
      requires Ready() && fs.returned == {} && DistinctTargets(published) && taken == TargetsOf(published)
      requires !fs.tampered ==> InPlace(fs.at, published)
      modifies this`taken, fs`at, fs`nextHidden, fs`nextId, fs`lost, fs`hits, fs`tampered, fs`threw, fs`states
      ensures Ready() && TamperedSince(old(fs.tampered))
      ensures fs.threw == if threw then old(fs.threw) + {Clearing} else old(fs.threw)
      ensures Clearing in fs.failing && (published != [] || (force && fs.moved != [])) ==> threw
      ensures !threw && blocked == [] ==> taken == {}
      ensures !fs.tampered && fs.Calm() ==> retained == [] && blocked == [] && !threw
    {
      hide Ready, InPlace, DistinctTargets, TargetsOf;
      retained, blocked, threw := RemovePublished();
      if !threw && force && blocked == [] {
        var aside, stuck, failed := QuarantineCollisions();
        retained, blocked, threw := retained + aside, blocked + stuck, failed;
      }
    }

    /** The catch block of `publishPrivateFiles`, lines 939 to 966; its steps succeed when `quiet`. */
    method RollBack(force: bool, quiet: bool) returns (r: Outcome)
      requires Ready() && Publishing() && DistinctTargets(published) && taken == TargetsOf(published)
      requires (!fs.tampered ==> InPlace(fs.at, published)) && (!force ==> fs.moved == [])
      modifies this`taken, this`cleaned, fs
      ensures Ready() && !fs.committed && TamperedSince(old(fs.tampered)) && Undone(r)
      ensures quiet && !fs.tampered ==> r == RolledBack
      ensures !quiet && Clearing in old(fs.failing) && (published != [] || old(fs.moved) != []) ==> r.Escaped?
      ensures fs.moved == old(fs.moved)
    {
      hide Ready, InPlace, NoSlots, AsBefore, SlotsNamed, DistinctTargets, TargetsOf, Reported, PathsOf;
      if quiet {
        fs.faulty, fs.failing := false, {};
      }
      var retained, blocked, threw := Clear(force);
      if threw {
        AllInSlots();
        return Escaped;
      }
      if blocked != [] {
        r := Incomplete(blocked + if force then PathsOf(directories) else []);
        BlockedReport(force, blocked);
        return;
      }
      if force {
        r := RestoreMoved();
      } else {
        NothingToRestore();
        r := RolledBack;
      }
      UndoneReport(r);
      if r.RolledBack? && retained != [] {
        r := RolledBackRetaining(retained);
      }
    }

    lemma NothingToRestore()
      requires Ready() && fs.moved == [] && unrecorded == None && taken == {}
      ensures NoSlots(fs.at) && (!fs.tampered ==> AsBefore(was, fs.at))
    {
      NothingMoved(was, base, L());
      if !fs.tampered {
        AllBack(was, L());
      }
    }

    lemma AllInSlots()
      requires Ready() && fs.returned == {} && !fs.committed
      ensures forall m :: m in fs.moved ==> InSlot(fs.at, m)
    {
    }

    lemma BlockedReport(force: bool, blocked: seq<Path>)
      requires Ready() && cleaned == 0 && !fs.committed && (!force ==> fs.moved == [] && unrecorded == None)
      requires fs.threw <= {Looking}
      ensures Undone(Incomplete(blocked + if force then PathsOf(directories) else []))
    {
      var named := blocked + if force then PathsOf(directories) else [];
      if force {
        EverythingNamed();
        NamesMore(fs.at, PathsOf(directories), named);
      } else {
        NothingMoved(was, base, L());
      }
      OriginalsReported(was, base, L(), named);
    }

    /** `assertDistinctArtifactTargets` and `assertWritable`, lines 930 to 931. */
    method Preflight(items: seq<Item>, force: bool) returns (ok: bool)
      modifies fs`threw
      ensures fs.threw <= old(fs.threw) + {Looking}
      ensures ok ==> Distinct(AllTargets(items)) && (!force ==> Vacant(fs.at, AllTargets(items)))
      ensures fs.Calm() ==> (ok <==> Distinct(AllTargets(items)) && (force || Vacant(fs.at, AllTargets(items))))
    {
      hide AllTargets, Distinct, Vacant;
      var names := AllTargets(items);
      ok := AllDistinct(names);
      if !ok {
        return;
      }
      VacantNone(fs.at);
      assert names[..0] == [];
      for i := 0 to |names|
        invariant (!force ==> Vacant(fs.at, names[..i])) && fs.threw <= old(fs.threw) + {Looking}
      {
        var there := fs.Exists(Target(names[i]), Looking);
        VacantAt(fs.at, names, i);
        if there == None || (there.value && !force) {
          return false;
        }
        VacantOneMore(fs.at, names, i);
      }
      assert names[..|names|] == names;
    }

    /** `assertDistinctArtifactTargets` */
    method AllDistinct(names: seq<string>) returns (ok: bool)
      ensures ok <==> Distinct(names)
    {
      var seen: set<string> := {};
      for i := 0 to |names|
        invariant seen == set j | 0 <= j < i :: names[j]
        invariant Distinct(names[..i])
      {
        if names[i] in seen {
          return false;
        }
        seen := seen + {names[i]};
      }
      assert names[..|names|] == names;
      ok := true;
    }

    /** What a run comes to. It refuses without changing anything; or it undoes what it did; or it commits,
        after having seen every target on its staged artifact, and its warning names what remains aside.
        Whatever happens, what it deleted is its own exactly if only its own was ever in its way. */
    ghost predicate Concluded(r: Outcome, items: seq<Item>, checked: seq<Snapshot>)
      reads this, fs
    {
      && Conserved() && (OnlyOurs(was, L()) <==> OnlyOursHit(was, L()) && OnlyOursAside(was, L()))
      && (!fs.tampered ==> OnlyOurs(was, L()))
      && (r.Refused? ==> fs.at == was && fs.states == [])
      && (fs.committed <==> r.Committed? || r.ThrewAfterCommit?) && (r.ThrewAfterCommit? <==> Warning in fs.threw)
      && (fs.committed ==> SeenOnTarget(was, fs.states, checked, items))
      && (fs.committed && !fs.tampered ==> Installed(was, fs.at, items))
      && (r.Committed? && CleaningUp !in fs.threw ==> SlotsNamed(fs.at, r.warned))
      && (!fs.committed && !r.Refused? ==> Undone(r))
    }

    /** Nothing fails and nobody else acts; the targets are distinct, and free, or with `force` taken by what can be
        set aside; and the staged inputs are distinct, of the right kind, and files with one name. */
    ghost predicate AllSet(items: seq<Item>, force: bool)
      reads fs
    {
      && fs.Calm() && fs.alone
      && Distinct(AllTargets(items)) && (if force then ItemsYield(fs.at, items) else Vacant(fs.at, AllTargets(items)))
      && AllPlaceable(fs.at, items) && StagedApart(items)
    }

    /** `publishPrivateFiles`, lines 929 to 981, where `verified` is how the caller's check of what was published
        ends, and the steps of an undoing succeed when `quiet`. */
    method Publish(items: seq<Item>, force: bool, quiet: bool, verified: bool)
      returns (r: Outcome, ghost checked: seq<Snapshot>)
      requires Ready() && Staging() && fs.moved == [] && fs.at == was && fs.states == [] && !fs.tampered
      modifies this, fs
      ensures Concluded(r, items, checked)
      ensures quiet && !fs.tampered ==> !r.Incomplete? && !r.Escaped? && !r.CleanupEscaped? && !r.RolledBackRetaining?
      ensures old(fs.Calm()) ==>
        (r.Refused? <==> !Distinct(AllTargets(items)) || (!force && !Vacant(was, AllTargets(items))))
      ensures fs.committed ==> verified && After(checked, fs.states, fs.verifiedAt)
      ensures old(AllSet(items, force)) && verified ==> r == Committed([]) && Installed(was, fs.at, items)
    {
      checked := [];
      hide Sound, Conserves, SlotsNamed, Installed, Undone, OnlyOurs, OnlyOursHit, OnlyOursAside, Vacant, AllTargets,
        Distinct, Beside, ItemsYield, AllPlaceable, StagedApart, After;
      var allowed := Preflight(items, force);
      if !allowed {
        DeletesOnlyOurs(was, base, L());
        return Refused, checked;
      }
      if force {
        var failed := StageExisting(items, quiet);
        if failed.Some? {
          DeletesOnlyOurs(was, base, L());
          UndoneKind(failed.value);
          return failed.value, checked;
        }
        if AllPlaceable(was, items) && !fs.tampered {
          PlaceableStill(was, fs.at, AllTargets(items), items);
        }
      }
      r, checked := PublishAndDecide(items, force, quiet, verified);
    }

    lemma UndoneKind(r: Outcome)
      requires Undone(r)
      ensures !r.Committed? && !r.ThrewAfterCommit? && !r.Refused? && Warning !in fs.threw
    {
    }

    /** Lines 933 to 981, from the first link on. */
    method PublishAndDecide(items: seq<Item>, force: bool, quiet: bool, verified: bool)
      returns (r: Outcome, ghost checked: seq<Snapshot>)
      requires Ready() && Publishing() && published == [] && taken == {} && Distinct(AllTargets(items))
      requires !fs.tampered ==> Vacant(fs.at, AllTargets(items))
      requires !force ==> fs.moved == []
      requires forall m :: m in fs.moved ==> m.target in AllTargets(items)
      modifies this`published, this`taken, this`cleaned, fs
      ensures Concluded(r, items, checked) && !r.Refused? && TamperedSince(old(fs.tampered))
      ensures quiet && !fs.tampered ==> !r.Incomplete? && !r.Escaped? && !r.CleanupEscaped? && !r.RolledBackRetaining?
      ensures old(fs.Calm() && Steady() && AllPlaceable(fs.at, items)) && StagedApart(items) && verified ==>
        r == Committed([])
      ensures fs.committed ==> verified && After(checked, fs.states, fs.verifiedAt)
    {
      hide Sound, Conserves, Conserved, Fs.Valid, InPlace, VacantBut, Installed, OnlyOurs, OnlyOursHit, OnlyOursAside,
        Undone, SlotsNamed, AllTargets, Vacant, SeenOnTarget, AreItems, TargetsOf, DistinctTargets, Distinct,
        AllPlaceable, StagedApart, After;
      var ok;
      ok, checked := PublishAndCheck(items, verified);
      if !ok {
        r := RollBack(force, quiet);
        DeletesOnlyOurs(was, base, L());
        UndoneKind(r);
        return;
      }
      ghost var states := fs.states;
      r := Commit(items, force, checked);
      StillAfter(checked, states, fs.states, fs.verifiedAt);
    }

    /** The caller's check of what was published, line 937; others may act meanwhile. */
    method Verify(verified: bool) returns (ok: bool)
      requires Ready()
      modifies fs`at, fs`nextId, fs`tampered, fs`states, fs`verifiedAt
      ensures Ready() && TamperedSince(old(fs.tampered)) && (!fs.tampered ==> fs.at == old(fs.at))
      ensures ok == verified && fs.verifiedAt == Some(|fs.states|)
    {
      hide Ready;
      Others();
      fs.verifiedAt := Some(|fs.states|);
      ok := verified;
    }

    /** Lines 933 to 938: what may be undone. */
    method PublishAndCheck(items: seq<Item>, verified: bool) returns (ok: bool, ghost checked: seq<Snapshot>)
      requires Ready() && Publishing() && published == [] && taken == {} && Distinct(AllTargets(items))
      requires !fs.tampered ==> Vacant(fs.at, AllTargets(items))
      modifies this`published, this`taken
      modifies fs`at, fs`nextId, fs`lost, fs`hits, fs`tampered, fs`threw, fs`states, fs`verifiedAt
      ensures Ready() && Publishing() && Standing(AllTargets(items)) && TamperedSince(old(fs.tampered))
      ensures ok ==>
        |published| == |items| && AreItems(published, items) && SeenOnTarget(was, fs.states, checked, items)
      ensures ok ==> verified && After(checked, fs.states, fs.verifiedAt)
      ensures old(Steady() && AllPlaceable(fs.at, items)) && StagedApart(items) && verified ==> ok
    {
      hide Ready, InPlace, VacantBut, AllTargets, Vacant, SeenOnTarget, AllCurrent, AreItems, TargetsOf,
        DistinctTargets, Distinct, AllFinal, AllPlaceable, StagedApart, After;
      checked := [];
      ok := PublishStaged(items);
      if !ok {
        return;
      }
      ok := Verify(verified);
      if !ok {
        return;
      }
      ok, checked := AssertCurrent();
      if ok {
        SeenNow(items, checked);
      }
    }

    /** The run commits and drops what it replaced; a failure of that is only a warning, lines 967 to 980. */
    method Commit(items: seq<Item>, force: bool, ghost checked: seq<Snapshot>) returns (r: Outcome)
      requires Ready() && Publishing() && Standing(AllTargets(items)) && SeenOnTarget(was, fs.states, checked, items)
      requires |published| == |items| && AreItems(published, items) && (!force ==> fs.moved == [])
      requires forall m :: m in fs.moved ==> m.target in AllTargets(items)
      modifies this`cleaned
      modifies fs`at, fs`nextHidden, fs`nextId, fs`lost, fs`hits, fs`tampered, fs`threw, fs`committed, fs`states
      ensures Concluded(r, items, checked) && fs.committed && TamperedSince(old(fs.tampered))
      ensures force && directories != [] && {CleaningUp, Warning} <= fs.failing ==> r.ThrewAfterCommit?
      ensures fs.Calm() ==> r == Committed([])
      ensures old(fs.states) <= fs.states
    {
      hide Conserves, InPlace, VacantBut, SlotsKnown, Accounted, Secured, Sourced, Housed, Numbered, LossesKnown,
        OnlyOurs, OnlyOursHit, OnlyOursAside, SeenOnTarget, SlotsNamed, NoSlots, PathsOf, SamePublic;
      if !fs.tampered {
        AllInstalled(was, L(), items);
      }
      hide Installed;
      NowCommitted(was, base, L());
      if !force {
        NothingMoved(was, base, L());
        NoneToName(fs.at);
      }
      fs.committed := true;
      if force {
        r := DropReplaced();
        if !fs.tampered {
          StillInstalled(was, old(fs.at), fs.at, items);
        }
      } else {
        r := Committed([]);
      }
      SeenStill(was, old(fs.states), fs.states, checked, items);
      DeletesOnlyOurs(was, base, L());
    }

    /** The clean-up after the commit, lines 968 to 979. */
    method DropReplaced() returns (r: Outcome)
      requires Ready() && fs.committed && cleaned == 0 && Warning !in fs.threw && CleaningUp !in fs.threw
      modifies this`cleaned, fs`at, fs`nextHidden, fs`nextId, fs`lost, fs`hits, fs`tampered, fs`threw, fs`states
      ensures Ready() && TamperedSince(old(fs.tampered)) && old(fs.states) <= fs.states
      ensures !fs.tampered ==> SamePublic(old(fs.at), fs.at)
      ensures r.Committed? || r.ThrewAfterCommit?
      ensures r.ThrewAfterCommit? <==> Warning in fs.threw
      ensures r.Committed? && CleaningUp !in fs.threw ==> SlotsNamed(fs.at, r.warned)
      ensures directories != [] && {CleaningUp, Warning} <= fs.failing ==> r.ThrewAfterCommit?
      ensures fs.Calm() ==> r == Committed([])
    {
      hide Ready, SlotsNamed, SamePublic, PathsOf;
      var retained, blocked, threw := CleanupRollbackDirs();
      if !threw && retained + blocked == [] {
        return Committed([]);
      }
      var existing := ExistingDirectories();
      if existing.None? {
        return ThrewAfterCommit;
      }
      if !threw {
        StillThere(fs.at, retained, blocked, existing.value);
      }
      r := Committed(existing.value + if threw then [] else retained);
    }

    /** The rollback directories that are still in their places, lines 975 to 976. */
    method ExistingDirectories() returns (r: Option<seq<Path>>)
      modifies fs`threw
      ensures fs.threw == if r.None? then old(fs.threw) + {Warning} else old(fs.threw)
      ensures r.Some? ==> forall p :: p in r.value <==> p in PathsOf(directories) && p in fs.at
      ensures directories != [] && Warning in fs.failing ==> r.None?
    {
      var existing: seq<Path> := [];
      for i := 0 to |directories|
        invariant fs.threw == old(fs.threw) && (Warning in fs.failing ==> i == 0)
        invariant forall p :: p in existing <==> (exists j :: 0 <= j < i && directories[j].path == p) && p in fs.at
      {
        var there := fs.Exists(directories[i].path, Warning);
        if there.None? {
          return None;
        }
        if there.value {
          existing := existing + [directories[i].path];
        }
      }
      PathsOfMembers(directories);
      r := Some(existing);
    }
  }

  // ---- Runs that end badly ----

  /** A run about to begin: a file or directory stands alone under its name, and a directory is staged for it. */
  method Begin(original: nat, failing: set<Call>) returns (p: Publisher)
    requires original < 5
    ensures fresh(p) && fresh(p.fs) && p.Ready() && p.Staging() && p.fs.moved == []
    ensures p.fs.alone && !p.fs.tampered && !p.fs.faulty && p.fs.failing == failing
    ensures p.was == p.fs.at == map[Target("a") := original, Staged(0) := 5]
    ensures IdAt(p.fs.at, Target("a")) == Some(original)
  {
    hide Publisher.Ready;
    var at: Tree := map[Target("a") := original, Staged(0) := 5];
    var fs := new Fs(at, 0, 6, false, failing, true);
    p := new Publisher(fs, name => "");
  }

  /** A file or directory that stands alone under its name is set aside; the check after the move may be bound to
      fail. A directory is staged for that name. */
  method SetOneAside(original: nat, failing: set<Call>) returns (p: Publisher)
    requires Looking !in failing && original < 5
    ensures fresh(p) && fresh(p.fs) && p.Ready() && p.NothingPublished() && p.fs.alone && !p.fs.tampered && !p.fs.faulty
    ensures p.fs.failing == failing && p.was == map[Target("a") := original, Staged(0) := 5]
    ensures IdAt(p.fs.at, Staged(0)) == Some(5)
    ensures if AfterMove in failing then
              p.unrecorded.Some? && p.unrecorded.value.target == "a" && p.unrecorded.value.id == original
              && Sole(p.fs.at, p.unrecorded, p.fs.lost)
            else
              p.unrecorded == None && IdAt(p.fs.at, Target("a")) == None
              && |p.fs.moved| == 1 && p.fs.moved[0].id == original && p.fs.moved[0].target == "a"
  {
    hide Publisher.Ready, Sole;
    p := Begin(original, failing);
    assert Ordinary(p.fs.at, "a", IsDirectory(original));
    var ok := p.StageTarget("a", IsDirectory(original));
  }

  /** A run reported as rolled back that destroyed an original: nobody recorded it, so the recovery removed the
      directory it was in. */
  method UnrecordedExample() returns (p: Publisher, r: Outcome)
    ensures r == RolledBack && !p.fs.tampered && !AsBefore(p.was, p.fs.at) && NoSlots(p.fs.at)
    ensures IdAt(p.was, Target("a")) == Some(2) && 2 in p.fs.lost
  {
    hide Sole, Publisher.Ready;
    p := SetOneAside(2, {AfterMove});
    r := p.Recover(true);
  }

  /** A run reported as rolled back that destroyed a file of somebody else's. */
  method SwapExample() returns (p: Publisher, r: Outcome, foreign: nat)
    ensures r == RolledBack && foreign in p.fs.lost && foreign !in p.was.Values && !OnlyOurs(p.was, p.L())
  {
    hide Publisher.Ready, Publisher.L, Sole, OnlyOurs, Ours, NewNamesOnly;
    p := Begin(2, {});
    var d := p.RollbackDirectory("");
    foreign := p.SwapIn("a", 2, d.value);
    r := p.RecoverStranger(foreign);
  }

  /** A run whose report is replaced by the error of an existence check: the original is in its slot, and the
      outcome names nothing. */
  method EscapedExample() returns (p: Publisher, r: Outcome)
    ensures r == Escaped && |p.fs.moved| == 1 && p.fs.moved[0].id == 2 && InSlot(p.fs.at, p.fs.moved[0])
  {
    p := SetOneAside(2, {Clearing});
    TargetsOfNone();
    r := p.RollBack(true, false);
  }

  /** A run in which a file that appears between check and rename is destroyed. */
  method OverwriteExample() returns (p: Publisher, foreign: nat)
    ensures foreign in p.fs.lost && foreign !in p.was.Values && !OnlyOurs(p.was, p.L()) && !p.fs.faulty
  {
    hide Publisher.Ready, Publisher.L, OnlyOurs, InSlot;
    p := SetOneAside(2, {});
    var m := p.fs.moved[0];
    var ready := p.CheckSlot(m);
    var back;
    foreign, back := p.Overwrite(m);
  }

  /** A directory is replaced by the staged one. */
  method ReplaceDirectory(failing: set<Call>) returns (p: Publisher, item: Item)
    requires Looking !in failing && AfterMove !in failing
    ensures fresh(p) && fresh(p.fs) && p.Ready() && p.Publishing() && p.Standing(["a"]) && p.Steady()
    ensures p.fs.failing == failing && item == Item("a", 0, false, true) && p.directories != []
    ensures |p.published| == 1 && p.published[0].item == item && AllFinal(p.published)
    ensures forall m :: m in p.fs.moved ==> m.target == "a"
  {
    hide Publisher.Ready;
    p := SetOneAside(3, failing);
    item := Item("a", 0, false, true);
    p.DirectoryInUse();
    p.StandsForNothing("a");
    var ok := p.PublishOne(item, ["a"]);
  }

  /** A run that throws although it has committed: the clean-up fails, and so does the existence check that its
      warning needs. */
  method ThrewAfterCommitExample() returns (p: Publisher, r: Outcome)
    ensures r == ThrewAfterCommit && p.fs.committed && !p.fs.tampered
  {
    hide Publisher.Ready, SeenOnTarget, AllCurrent, Publisher.Concluded;
    var item;
    p, item := ReplaceDirectory({CleaningUp, Warning});
    assert AllTargets([item]) == ["a"];
    assert AreItems(p.published, [item]);
    var ok, checked := p.AssertCurrent();
    p.SeenNow([item], checked);
    r := p.Commit([item], true, checked);
  }

  /** A run in which a file that others put into a published directory is destroyed with it. */
  method SweepExample() returns (p: Publisher, foreign: nat)
    ensures foreign in p.fs.lost && foreign !in p.was.Values && !OnlyOurs(p.was, p.L())
  {
    hide Publisher.Ready, Publisher.L, OnlyOurs;
    var item;
    p, item := ReplaceDirectory({});
    var a := p.published[0];
    p.Stands(a, ["a"]);
    assert [] + [a] == p.published;
    var r;
    p.EntryFree(a, "note");
    foreign, r := p.Sweep(a, [], "note");
  }
}
