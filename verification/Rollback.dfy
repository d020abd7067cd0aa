/** Snapshot and restore of the control plane's files.  A tree is a map from paths to contents; the
    rollback directory mirrors the tracked paths. */
module Rollback {
  import opened Prelude

  datatype Path =
    | StackEnv                  // vault/stack/stack.env
    | GuardianEnv               // vault/stack/guardian.env
    | CoreCompose               // stack/core.compose.yml
    | AddonCompose(addon: string)  // stack/addons/<addon>/compose.yml
    | OtherFile(name: string)   // anything else under the home directory

  predicate Tracked(p: Path) { !p.OtherFile? }

  function TrackedPart(files: map<Path, string>): map<Path, string> {
    map p | p in files && Tracked(p) :: files[p]
  }

  // ---- The code ----

  /** Files, and the directories under stack/addons, which may hold no compose file. */
  class Tree {
    var files: map<Path, string>
    var addonDirs: set<string>

    ghost predicate Valid() reads this {
      forall a: string :: AddonCompose(a) in files ==> a in addonDirs
    }

    constructor (files: map<Path, string>, addonDirs: set<string>)
      requires forall a: string :: AddonCompose(a) in files ==> a in addonDirs
      ensures this.files == files && this.addonDirs == addonDirs && Valid()
    {
      this.files, this.addonDirs := files, addonDirs;
    }

    method SafeCopy(p: Path, dest: Tree)
      requires this != dest && dest.Valid()
      modifies dest
      ensures dest.Valid()
      ensures forall q :: At(dest.files, q) == Over(files, old(dest.files), q == p, q)
    {
      if p !in files { return; }
      if p.AddonCompose? { dest.addonDirs := dest.addonDirs + {p.addon}; }
      dest.files := dest.files[p := files[p]];
    }

    /** The copying that `snapshotCurrentState` and `restoreSnapshot` share, in opposite directions. */
    method CopyTracked(dest: Tree)
      requires this != dest && Valid() && dest.Valid()
      modifies dest
      ensures dest.Valid()
      ensures dest.files == old(dest.files) + TrackedPart(files)
    {
      ghost var was := dest.files;
      var known := [StackEnv, GuardianEnv];
      for i := 0 to |known|
        invariant dest.Valid()
        invariant forall q :: At(dest.files, q) == Over(files, was, q in known[..i], q)
      {
        SafeCopy(known[i], dest);
      }
      assert known[..|known|] == known;
      SafeCopy(CoreCompose, dest);
      CopyAddons(dest);
      forall q ensures At(dest.files, q) == At(was + TrackedPart(files), q) {
        assert q in known <==> q.StackEnv? || q.GuardianEnv?;
        assert At(was + TrackedPart(files), q) == Over(files, was, Tracked(q), q);
      }
      SameEverywhere(dest.files, was + TrackedPart(files));
    }

    method CopyAddons(dest: Tree)
      requires this != dest && Valid() && dest.Valid()
      modifies dest
      ensures dest.Valid()
      ensures forall q :: At(dest.files, q) == Over(files, old(dest.files), q.AddonCompose?, q)
    {
      ghost var was := dest.files;
      var todo := addonDirs;
      while todo != {}
        invariant dest.Valid() && todo <= addonDirs
        invariant forall q :: At(dest.files, q) == Over(files, was, q.AddonCompose? && q.addon in addonDirs - todo, q)
        decreases todo
      {
        var a :| a in todo;
        SafeCopy(AddonCompose(a), dest);
        todo := todo - {a};
      }
    }
  }

  function At(files: map<Path, string>, p: Path): Option<string> {
    if p in files then Some(files[p]) else None
  }

  /** At `p`, the contents of `files` if `copied` and there, and otherwise those of `was`. */
  function Over(files: map<Path, string>, was: map<Path, string>, copied: bool, p: Path): Option<string> {
    if copied && p in files then Some(files[p]) else At(was, p)
  }

  lemma SameEverywhere(a: map<Path, string>, b: map<Path, string>)
    requires forall p :: At(a, p) == At(b, p)
    ensures a == b
  {
    forall p ensures p in a <==> p in b { assert At(a, p) == At(b, p); }
    forall p | p in a ensures a[p] == b[p] { assert At(a, p) == At(b, p); }
  }

  class ControlPlane {
    const live: Tree
    const rollbackDir: Tree
    var marker: bool            // the .snapshot-ts file

    ghost predicate Valid() reads this, live, rollbackDir {
      live != rollbackDir && live.Valid() && rollbackDir.Valid()
    }

    ghost function Contents(): State reads this, live, rollbackDir {
      State(live.files, rollbackDir.files, marker)
    }

    constructor (live: Tree, rollbackDir: Tree)
      requires live != rollbackDir && live.Valid() && rollbackDir.Valid() && rollbackDir.files == map[]
      ensures Valid() && Contents() == Init(live.files) && this.live == live && this.rollbackDir == rollbackDir
    {
      this.live, this.rollbackDir, this.marker := live, rollbackDir, false;
    }

    method SnapshotCurrentState()
      requires Valid()
      modifies this, rollbackDir
      ensures Valid() && Contents() == Step(old(Contents()), Snapshot) && marker
      ensures forall p: Path ::
        At(rollbackDir.files, p) ==
        (if !p.OtherFile? && p in live.files then Some(live.files[p]) else At(old(rollbackDir.files), p))
    {
      live.CopyTracked(rollbackDir);
      marker := true;
    }

    /** Without a snapshot this is an error, and nothing changes. */
    method RestoreSnapshot() returns (ok: bool)
      requires Valid()
      modifies live
      ensures Valid() && ok == old(marker)
      ensures Contents() == Step(old(Contents()), Restore)
      ensures !ok ==> live.files == old(live.files)
      ensures ok ==> forall p: Path ::
        At(live.files, p) ==
        (if !p.OtherFile? && p in rollbackDir.files then Some(rollbackDir.files[p]) else At(old(live.files), p))
    {
      if !marker { return false; }
      rollbackDir.CopyTracked(live);
      return true;
    }
  }

  // ---- Runs ----

  datatype State = State(live: map<Path, string>, backup: map<Path, string>, marker: bool)

  datatype Event = Write(path: Path, content: string) | Delete(path: Path) | Snapshot | Restore

  function Init(live: map<Path, string>): State { State(live, map[], false) }

  function Step(s: State, e: Event): State {
    match e
    case Write(p, c) => s.(live := s.live[p := c])
    case Delete(p) => s.(live := s.live - {p})
    case Snapshot => State(s.live, s.backup + TrackedPart(s.live), true)
    case Restore => if s.marker then s.(live := s.live + TrackedPart(s.backup)) else s
  }

  function After(s: State, es: seq<Event>): State {
    if es == [] then s else Step(After(s, es[..|es| - 1]), es[|es| - 1])
  }

  lemma {:induction false} AfterConcat(s: State, a: seq<Event>, b: seq<Event>)
    ensures After(s, a + b) == After(After(s, a), b)
  {
    if b == [] {
      assert a + b == a;
    } else {
      AfterConcat(s, a, b[..|b| - 1]);
      assert (a + b)[..|a + b| - 1] == a + b[..|b| - 1];
    }
  }

  /** The i-th event is a snapshot at which `p` existed. */
  ghost predicate SavedAt(live: map<Path, string>, es: seq<Event>, i: nat, p: Path) {
    i < |es| && es[i].Snapshot? && !p.OtherFile? && p in After(Init(live), es[..i]).live
  }

  ghost predicate LastSavedAt(live: map<Path, string>, es: seq<Event>, i: nat, p: Path) {
    SavedAt(live, es, i, p) && forall j :: i < j < |es| ==> !SavedAt(live, es, j, p)
  }

  lemma SavedInFront(live: map<Path, string>, es: seq<Event>, i: nat, p: Path)
    requires es != [] && i < |es| - 1
    ensures SavedAt(live, es[..|es| - 1], i, p) <==> SavedAt(live, es, i, p)
  {
    assert es[..|es| - 1][..i] == es[..i];
  }

  /** The backup holds exactly the paths that some snapshot saw, each as the last such snapshot saw it. */
  lemma {:induction false} BackupIsLatest(live: map<Path, string>, es: seq<Event>, p: Path)
    ensures p in After(Init(live), es).backup <==> exists i: nat :: LastSavedAt(live, es, i, p)
    ensures forall i: nat :: LastSavedAt(live, es, i, p) ==>
      p in After(Init(live), es).backup
      && After(Init(live), es).backup[p] == After(Init(live), es[..i]).live[p]
    ensures After(Init(live), es).marker <==> Snapshot in es
  {
    if es != [] {
      var front, n := es[..|es| - 1], |es| - 1;
      var m := After(Init(live), front);
      BackupIsLatest(live, front, p);
      assert es == front + [es[n]];
      if SavedAt(live, es, n, p) {
        assert LastSavedAt(live, es, n, p);
      } else {
        forall i: nat ensures LastSavedAt(live, es, i, p) <==> LastSavedAt(live, front, i, p) {
          LastInFront(live, es, i, p);
        }
        forall i: nat | LastSavedAt(live, es, i, p) ensures es[..i] == front[..i] {}
      }
    }
  }

  lemma LastInFront(live: map<Path, string>, es: seq<Event>, i: nat, p: Path)
    requires es != [] && !SavedAt(live, es, |es| - 1, p)
    ensures LastSavedAt(live, es, i, p) <==> LastSavedAt(live, es[..|es| - 1], i, p)
  {
    forall j: nat | j < |es| - 1 ensures SavedAt(live, es[..|es| - 1], j, p) <==> SavedAt(live, es, j, p) {
      SavedInFront(live, es, j, p);
    }
    var front := es[..|es| - 1];
    if LastSavedAt(live, front, i, p) {
      forall j | i < j < |es| ensures !SavedAt(live, es, j, p) {
        assert j < |front| ==> !SavedAt(live, front, j, p);
      }
    }
    if LastSavedAt(live, es, i, p) {
      forall j | i < j < |front| ensures !SavedAt(live, front, j, p) {
        assert !SavedAt(live, es, j, p);
      }
    }
  }

  /** After any run, restoring sets every path that was ever saved to its content at the last snapshot
      at which it existed, and changes no other path. */
  lemma RestoreSetsLatest(live: map<Path, string>, es: seq<Event>, p: Path)
    requires Snapshot in es
    ensures var before := After(Init(live), es).live;
      var after := After(Init(live), es + [Restore]).live;
      && (forall i: nat :: LastSavedAt(live, es, i, p) ==>
            p in after && after[p] == After(Init(live), es[..i]).live[p])
      && ((forall i: nat :: !SavedAt(live, es, i, p)) ==>
            (p in after <==> p in before) && (p in before ==> after[p] == before[p]))
  {
    BackupIsLatest(live, es, p);
    assert (es + [Restore])[..|es|] == es;
  }

  /** Restoring without a snapshot changes nothing. */
  lemma RestoreNeedsSnapshot(live: map<Path, string>, es: seq<Event>)
    requires Snapshot !in es
    ensures After(Init(live), es + [Restore]) == After(Init(live), es)
  {
    BackupIsLatest(live, es, StackEnv);
    assert (es + [Restore])[..|es|] == es;
  }

  lemma {:induction false} BackupHoldsTracked(live: map<Path, string>, es: seq<Event>)
    ensures forall p :: p in After(Init(live), es).backup ==> Tracked(p)
  {
    if es != [] { BackupHoldsTracked(live, es[..|es| - 1]); }
  }

  lemma {:induction false} BackupStays(s: State, es: seq<Event>)
    requires Snapshot !in es
    ensures After(s, es).backup == s.backup && After(s, es).marker == s.marker
  {
    if es != [] {
      assert es[|es| - 1] in es;
      BackupStays(s, es[..|es| - 1]);
    }
  }

  /** Right after a snapshot, restoring leaves every file that is present as it is. */
  lemma RestoreAfterSnapshotKeeps(live: map<Path, string>, es: seq<Event>, p: Path)
    requires p in After(Init(live), es + [Snapshot]).live
    ensures var s := After(Init(live), es + [Snapshot]);
      p in Step(s, Restore).live && Step(s, Restore).live[p] == s.live[p]
  {
    assert (es + [Snapshot])[..|es|] == es;
    BackupHoldsTracked(live, es);
  }

  /** Whatever happens between a snapshot and the restore, the restore brings the tracked files back
      exactly as they were at the snapshot if and only if no tracked file has been added since and no
      earlier snapshot had saved a path that was gone by this one. */
  lemma RestoreIsExactIff(live: map<Path, string>, before: seq<Event>, since: seq<Event>)
    requires Snapshot !in since
    ensures var taken := After(Init(live), before);
      var now := After(Init(live), before + [Snapshot] + since);
      (forall p: Path :: !p.OtherFile? ==> At(Step(now, Restore).live, p) == At(taken.live, p))
      <==> forall p: Path :: p in now.live.Keys + taken.backup.Keys && !p.OtherFile? ==> p in taken.live
  {
    var taken := After(Init(live), before);
    var saved := After(Init(live), before + [Snapshot]);
    var now := After(Init(live), before + [Snapshot] + since);
    assert (before + [Snapshot])[..|before|] == before;
    AfterConcat(Init(live), before + [Snapshot], since);
    BackupStays(saved, since);
    BackupHoldsTracked(live, before);
    assert now.backup == taken.backup + TrackedPart(taken.live);
    ExactIff(taken, now);
  }

  lemma ExactIff(taken: State, now: State)
    requires now.marker && now.backup == taken.backup + TrackedPart(taken.live)
    requires forall p :: p in taken.backup ==> Tracked(p)
    ensures (forall p: Path :: !p.OtherFile? ==> At(Step(now, Restore).live, p) == At(taken.live, p))
      <==> forall p: Path :: p in now.live.Keys + taken.backup.Keys && !p.OtherFile? ==> p in taken.live
  {
    var restored := Step(now, Restore).live;
    forall p: Path | !p.OtherFile?
      ensures At(restored, p) == At(taken.live, p)
        <==> (p in now.live.Keys + taken.backup.Keys ==> p in taken.live)
    {
      assert p in restored <==> p in now.live || p in taken.backup || p in taken.live;
    }
  }

  /** A file that was removed before the last snapshot comes back with it. */
  lemma RemovedFileReturns(p: Path, c: string)
    requires !p.OtherFile?
    ensures var s := After(Init(map[p := c]), [Snapshot, Delete(p), Snapshot]);
      p !in s.live && p in Step(s, Restore).live
  {
    var es := [Snapshot, Delete(p), Snapshot];
    var s0 := Init(map[p := c]);
    assert es[..2] == [Snapshot, Delete(p)] && es[..2][..1] == [Snapshot] && [Snapshot][..0] == [];
    assert After(s0, [Snapshot]) == Step(s0, Snapshot);
    assert After(s0, es[..2]) == Step(Step(s0, Snapshot), Delete(p));
  }
}
