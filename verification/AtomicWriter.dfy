/**
 The atomic batch writer of cmd/go-openssl: snapshot and stage every target, check that none
 of them changed meanwhile, rename the staged files into place, and roll back from the
 snapshots when a later step fails.
 */
module AtomicWriter {
  import opened Wrappers
  import opened GoStrings
  import opened FileSystem

  const MAXIMUM_ORIGINAL_BYTES: nat := 16 * 1024 * 1024

  /** 0o600, the mode a restored file has until its own mode is put back. */
  const OWNER_ONLY: nat := 0x180

  datatype Update = Update(path: string, content: Bytes, mode: nat)

  datatype Staged = Staged(
    target: Path,
    content: Bytes,
    mode: nat,
    temp: Path,
    existed: bool,
    originalContent: Bytes,
    originalMode: nat,
    originalInode: nat)

  /** `clean` says that nothing had to be rolled back or that the rollback reported no error. */
  datatype Outcome = Success | Failed(clean: bool)

  // ---- What a target may hold ---------------------------------------------------------------

  predicate HasBytes(files: Files, p: Path, content: Bytes, mode: nat) {
    p in files && files[p].File? && files[p].content == content && files[p].mode == mode
  }

  /** The target holds exactly its new content and mode. */
  predicate HoldsNew(files: Files, st: Staged) {
    HasBytes(files, st.target, st.content, Perm(st.mode))
  }

  /** The target is as `outside` has it: absent, or with the same content and permissions. */
  predicate HoldsOriginal(files: Files, outside: Files, p: Path) {
    if p in outside then
      && p in files
      && (files[p] == outside[p]
          || (outside[p].File? && HasBytes(files, p, outside[p].content, Perm(outside[p].mode))))
    else p !in files
  }

  /** A file that is as it was has its original mode, all bits of it. */
  predicate HasOriginalMode(files: Files, outside: Files, p: Path) {
    p in outside && outside[p].File? ==> p in files && files[p].File? && files[p].mode == outside[p].mode
  }

  /** What a successful round of the rollback leaves: the content, and of the mode the permission bits. */
  predicate Restored(files: Files, outside: Files, p: Path) {
    if p in outside then outside[p].File? && HasBytes(files, p, outside[p].content, Perm(outside[p].mode))
    else p !in files
  }

  /** The target holds its original bytes, but only its owner may read it. */
  predicate HoldsOriginalBytes(files: Files, outside: Files, p: Path) {
    p in outside && outside[p].File? && HasBytes(files, p, outside[p].content, OWNER_ONLY)
  }

  /** Never a mixture: the target is in its old state, has its old bytes, or is completely new. */
  predicate Whole(files: Files, outside: Files, p: Path, content: Bytes, mode: nat) {
    || HoldsOriginal(files, outside, p)
    || HoldsOriginalBytes(files, outside, p)
    || HasBytes(files, p, content, mode)
  }

  predicate AllOrNothing(files: Files, outside: Files, st: Staged) {
    Whole(files, outside, st.target, st.content, Perm(st.mode))
  }

  /** The snapshot taken when the target was staged describes `outside`. */
  predicate SnapshotMatches(outside: Files, st: Staged) {
    if st.existed then
      && st.target in outside && outside[st.target].File?
      && outside[st.target].content == st.originalContent
      && Perm(outside[st.target].mode) == st.originalMode
    else st.target !in outside
  }

  /** It is the very file that was there, and one that can be read back. */
  predicate ExactSnapshot(outside: Files, st: Staged) {
    && SnapshotMatches(outside, st)
    && (st.existed ==> outside[st.target].inode == st.originalInode && |st.originalContent| <= MAXIMUM_ORIGINAL_BYTES)
  }

  /** An update whose content is still in the caller's buffer. */
  datatype Buffer = Buffer(path: string, content: array<Byte>, mode: nat)

  ghost predicate Wiped(a: array<Byte>)
    reads a
  {
    forall i | 0 <= i < a.Length :: a[i] == '\0'
  }

  /** clear(slice). */
  method Wipe(a: array<Byte>)
    modifies a
    ensures Wiped(a)
  {
    var i := 0;
    while i < a.Length
      invariant 0 <= i <= a.Length
      invariant forall k | 0 <= k < i :: a[k] == '\0'
    {
      a[i] := '\0';
      i := i + 1;
    }
  }

  // ---- The staged batch ---------------------------------------------------------------------

  function Targets(staged: seq<Staged>): set<Path> {
    set st <- staged :: st.target
  }

  function Temps(staged: seq<Staged>): set<Path> {
    set st <- staged :: st.temp
  }

  ghost predicate Distinct(staged: seq<Staged>) {
    && (forall st <- staged :: st.target.Named? && st.temp.Temp?)
    && (forall i, j | 0 <= i < j < |staged| ::
          staged[i].target != staged[j].target && staged[i].temp != staged[j].temp)
  }

  /** The temporary file of st holds what its target is to hold. */
  predicate TempReady(files: Files, temps: set<Path>, st: Staged) {
    st.temp in temps && HasBytes(files, st.temp, st.content, Perm(st.mode))
  }

  /** Nothing but temporary files was added. */
  ghost predicate OnlyAddsTemps(before: Files, files: Files, temps: set<Path>) {
    && (forall p <- before :: p in files && files[p] == before[p])
    && (forall p <- files :: p in before || p in temps)
  }

  /** resolve stands for filepath.Abs after filepath.Clean, and parent for filepath.Dir. */
  class Writer {
    const fs: FileSystem
    const resolve: string -> Option<string>
    const parent: string -> string

    constructor (fs: FileSystem, resolve: string -> Option<string>, parent: string -> string)
      ensures this.fs == fs && this.resolve == resolve && this.parent == parent
    {
      this.fs, this.resolve, this.parent := fs, resolve, parent;
    }

    ghost predicate HasParent(files: Files, name: string) {
      var p := Named(parent(name));
      p in files && files[p].Special? && files[p].directory
    }

    /** Absent, or a regular file that can be read back. */
    ghost predicate Replaceable(files: Files, p: Path) {
      p in files ==> files[p].File? && |files[p].content| <= MAXIMUM_ORIGINAL_BYTES
    }

    /** What the writer demands of a target. */
    ghost predicate GoodTarget(files: Files, update: Update) {
      && update.path != "" && resolve(update.path).Some?
      && HasParent(files, resolve(update.path).value) && Replaceable(files, Named(resolve(update.path).value))
    }

    /** What the writer demands of a batch. */
    ghost predicate Good(files: Files, updates: seq<Update>) {
      && (forall k | 0 <= k < |updates| :: GoodTarget(files, updates[k]))
      && (forall i, j | 0 <= i < j < |updates| :: resolve(updates[i].path) != resolve(updates[j].path))
    }

    method ValidateAtomicTarget(path: string, seen: set<string>) returns (r: Result<string, ()>)
      ensures r.Ok? ==> path != "" && resolve(path) == Some(r.value) && r.value !in seen
      ensures r.Ok? ==> HasParent(fs.files, r.value)
      ensures fs.calm && path != "" && resolve(path).Some? && resolve(path).value !in seen ==>
                (r.Ok? <==> HasParent(fs.files, resolve(path).value))
    {
      if path == "" {
        return Err(());
      }
      var clean := resolve(path);
      if clean.None? || clean.value in seen {
        return Err(());
      }
      var directory := fs.IsDirectory(Named(parent(clean.value)));
      if directory.Err? || !directory.value {
        return Err(());
      }
      r := Ok(clean.value);
    }

    /** Lstat and snapshotExistingFile; others may act between the two. */
    method Snapshot(target: Path) returns (r: Result<Option<Node>, ()>)
      requires fs.Valid() && fs.Untouched({})
      modifies fs`files, fs`outside
      ensures fs.Valid() && fs.Untouched({})
      ensures forall p: Path :: p.Temp? ==> Same(fs.files, old(fs.files), p)
      ensures r.Ok? ==> r.value == (if target in fs.files then Some(fs.files[target]) else None)
      ensures r.Ok? && r.value.Some? ==> r.value.value.File? && |r.value.value.content| <= MAXIMUM_ORIGINAL_BYTES
      ensures fs.calm ==> fs.files == old(fs.files) && fs.outside == old(fs.outside)
      ensures fs.calm ==> (r.Ok? <==> Replaceable(fs.files, target))
    {
      var info := fs.Lstat(target);
      if info.Err? {
        return Err(());
      }
      if info.value.None? {
        return Ok(None);
      }
      if !info.value.value.regular {
        return Err(());
      }
      fs.Interfere();
      var node := fs.ReadExpected(target, info.value.value, MAXIMUM_ORIGINAL_BYTES);
      if node.Err? {
        return Err(());
      }
      r := Ok(Some(node.value));
    }

    /** stagePEMReader: create, copy, chmod, sync and close; remove the file again on any error. */
    method StageContent(content: Bytes, mode: nat) returns (r: Result<Path, ()>)
      requires fs.Valid()
      modifies fs
      ensures fs.Valid() && fs.outside == old(fs.outside)
      ensures OnlyAddsTemps(old(fs.files), fs.files, fs.temps) && old(fs.temps) <= fs.temps
      ensures r.Ok? ==> fs.removalFailed == old(fs.removalFailed)
      ensures r.Ok? ==> r.value.Temp? && r.value !in old(fs.files) && r.value !in old(fs.temps)
      ensures r.Ok? ==> fs.temps == old(fs.temps) + {r.value}
      ensures r.Ok? ==> HasBytes(fs.files, r.value, content, Perm(mode))
      ensures r.Err? && !fs.removalFailed ==> !old(fs.removalFailed) && fs.temps == old(fs.temps)
      ensures fs.calm ==> r.Ok?
    {
      var created := fs.CreateTemp();
      if created.Err? {
        return Err(());
      }
      var temp := created.value;
      var ok := fs.Write(temp, content);
      if ok {
        ok := fs.Chmod(temp, Perm(mode));
      }
      if ok {
        ok := fs.Sync();
      }
      if ok {
        return Ok(temp);
      }
      fs.RemoveTemp(temp);
      r := Err(());
    }

    method Cleanup(staged: seq<Staged>, from: nat)
      requires fs.Valid() && Distinct(staged) && from <= |staged|
      requires forall k | from <= k < |staged| :: staged[k].temp in fs.temps
      modifies fs`files, fs`temps, fs`removalFailed
      ensures fs.Valid() && fs.temps <= old(fs.temps)
      ensures forall p: Path :: p !in old(fs.temps) ==> Same(fs.files, old(fs.files), p)
      ensures forall p: Path :: p in old(fs.temps) && p !in fs.temps ==> p !in fs.files
      ensures !fs.removalFailed ==> !old(fs.removalFailed) && fs.temps == old(fs.temps) - Temps(staged[from..])
      ensures fs.calm ==> fs.removalFailed == old(fs.removalFailed)
    {
      var i := from;
      while i < |staged|
        invariant from <= i <= |staged|
        invariant fs.Valid() && fs.temps <= old(fs.temps)
        invariant forall k | i <= k < |staged| :: staged[k].temp in fs.temps
        invariant forall p: Path :: p !in old(fs.temps) ==> Same(fs.files, old(fs.files), p)
        invariant forall p: Path :: p in old(fs.temps) && p !in fs.temps ==> p !in fs.files
        invariant !fs.removalFailed ==> !old(fs.removalFailed) && fs.temps == old(fs.temps) - Temps(staged[from..i])
        invariant fs.calm ==> fs.removalFailed == old(fs.removalFailed)
      {
        assert staged[from..i + 1] == staged[from..i] + [staged[i]];
        fs.RemoveTemp(staged[i].temp);
        i := i + 1;
      }
      assert staged[from..i] == staged[from..];
    }

    /** One round of the staging loop; `staged` are the rounds before it. */
    method StageOne(update: Update, seen: set<string>, ghost staged: seq<Staged>)
      returns (r: Result<Staged, ()>, name: string)
      requires fs.Valid() && fs.Untouched({})
      requires forall st <- staged :: TempReady(fs.files, fs.temps, st)
      requires !fs.removalFailed ==> fs.temps == Temps(staged)
      modifies fs
      ensures fs.Valid() && fs.Untouched({})
      ensures forall st <- staged :: TempReady(fs.files, fs.temps, st)
      ensures r.Err? && !fs.removalFailed ==> fs.temps == Temps(staged)
      ensures r.Ok? ==>
                && fs.removalFailed == old(fs.removalFailed)
                && TempReady(fs.files, fs.temps, r.value) && r.value.temp.Temp? && r.value.temp !in Temps(staged)
                && (!fs.removalFailed ==> fs.temps == Temps(staged) + {r.value.temp})
                && name !in seen && resolve(update.path) == Some(name)
                && r.value.target == Named(name) && r.value.content == update.content && r.value.mode == update.mode
                && ExactSnapshot(fs.outside, r.value)
      ensures fs.calm ==> fs.outside == old(fs.outside) && fs.removalFailed == old(fs.removalFailed)
      ensures fs.calm ==> (r.Ok? <==> GoodTarget(fs.outside, update) && resolve(update.path).value !in seen)
    {
      fs.Interfere();
      name := "";
      var clean := ValidateAtomicTarget(update.path, seen);
      if clean.Err? {
        return Err(()), name;
      }
      name := clean.value;
      var snapshot := Snapshot(Named(name));
      if snapshot.Err? {
        return Err(()), name;
      }
      var temp := StageContent(update.content, update.mode);
      if temp.Err? {
        return Err(()), name;
      }
      assert temp.value !in Temps(staged);
      var original := snapshot.value;
      r := Ok(Staged(Named(name), update.content, update.mode, temp.value, original.Some?,
                     if original.Some? then original.value.content else [],
                     if original.Some? then Perm(original.value.mode) else 0,
                     if original.Some? then original.value.inode else 0));
    }

    /** The staged batch is the given updates, in order. */
    ghost predicate Describes(staged: seq<Staged>, updates: seq<Update>) {
      |staged| <= |updates| && forall k | 0 <= k < |staged| ::
        && resolve(updates[k].path).Some?
        && staged[k].target == Named(resolve(updates[k].path).value)
        && staged[k].content == updates[k].content && staged[k].mode == updates[k].mode
    }

    /** The names the paths resolve to. */
    ghost function Names(updates: seq<Update>): set<string> {
      set u <- updates | resolve(u.path).Some? :: resolve(u.path).value
    }

    /** The first k updates, one after the other: each is good and names a new path. */
    ghost predicate GoodUpTo(files: Files, updates: seq<Update>, k: nat)
      requires k <= |updates|
    {
      k > 0 ==>
        && GoodUpTo(files, updates, k - 1)
        && GoodTarget(files, updates[k - 1]) && resolve(updates[k - 1].path).value !in Names(updates[..k - 1])
    }

    lemma {:induction false} GoodUpToMeansGood(files: Files, updates: seq<Update>, k: nat)
      requires k <= |updates|
      ensures GoodUpTo(files, updates, k) <==> Good(files, updates[..k])
    {
      if k > 0 {
        var front, more, last := updates[..k - 1], updates[..k], updates[k - 1];
        assert more == front + [last];
        GoodUpToMeansGood(files, updates, k - 1);
        if GoodTarget(files, last) {
          NewName(front, resolve(last.path).value);
        }
      }
    }

    lemma NewName(front: seq<Update>, name: string)
      ensures name !in Names(front) <==> forall i | 0 <= i < |front| :: resolve(front[i].path) != Some(name)
    {
      forall i | 0 <= i < |front| && resolve(front[i].path) == Some(name)
        ensures name in Names(front)
      {
        assert front[i] in front;
      }
    }

    lemma {:induction false} NoLongerGood(files: Files, updates: seq<Update>, k: nat, n: nat)
      requires k <= n <= |updates| && GoodUpTo(files, updates, n)
      ensures GoodUpTo(files, updates, k)
      decreases n
    {
      if k < n {
        NoLongerGood(files, updates, k, n - 1);
      }
    }

    /** The batch is good, as the staging loop finds out. */
    lemma GoodAsStaged(files: Files, updates: seq<Update>)
      ensures GoodUpTo(files, updates, |updates|) <==> Good(files, updates)
    {
      GoodUpToMeansGood(files, updates, |updates|);
      assert updates[..|updates|] == updates;
    }

    lemma NamesOfNext(updates: seq<Update>, k: nat)
      requires k < |updates| && resolve(updates[k].path).Some?
      ensures Names(updates[..k + 1]) == Names(updates[..k]) + {resolve(updates[k].path).value}
    {
      assert updates[..k + 1] == updates[..k] + [updates[k]];
    }

    /** The first |staged| updates are staged; `seen` are their paths, and nothing else was written. */
    ghost predicate Staging(staged: seq<Staged>, updates: seq<Update>, seen: set<string>)
      reads fs
    {
      && fs.Valid() && fs.Untouched({}) && Distinct(staged) && Describes(staged, updates)
      && (forall st <- staged :: TempReady(fs.files, fs.temps, st))
      && (!fs.removalFailed ==> fs.temps == Temps(staged))
      && seen == Names(updates[..|staged|])
    }

    /** On a calm disk, they are good and their snapshots are still exact. */
    ghost predicate CalmlyStaged(staged: seq<Staged>, updates: seq<Update>)
      requires |staged| <= |updates|
      reads fs
    {
      GoodUpTo(fs.outside, updates, |staged|) && forall st <- staged :: ExactSnapshot(fs.outside, st)
    }

    lemma NewTarget(staged: seq<Staged>, updates: seq<Update>, name: string)
      requires Describes(staged, updates) && name !in Names(updates[..|staged|])
      ensures Named(name) !in Targets(staged)
    {
      forall st <- staged
        ensures st.target != Named(name)
      {
        var k :| 0 <= k < |staged| && staged[k] == st;
        assert updates[k] in updates[..|staged|];
      }
    }

    /** One round of the staging loop. */
    method StageNext(updates: seq<Update>, staged: seq<Staged>, seen: set<string>)
      returns (ok: bool, more: seq<Staged>, names: set<string>)
      requires Staging(staged, updates, seen) && |staged| < |updates| && !fs.removalFailed
      requires fs.calm ==> CalmlyStaged(staged, updates)
      modifies fs
      ensures Staging(more, updates, names)
      ensures if ok then |more| == |staged| + 1 && !fs.removalFailed else more == staged
      ensures fs.calm ==> fs.outside == old(fs.outside) && !fs.removalFailed && CalmlyStaged(more, updates)
      ensures fs.calm ==> (ok <==> GoodUpTo(fs.outside, updates, |staged| + 1))
    {
      var file, name := StageOne(updates[|staged|], seen, staged);
      if file.Err? {
        return false, staged, seen;
      }
      NamesOfNext(updates, |staged|);
      NewTarget(staged, updates, name);
      DistinctAppend(staged, file.value);
      more := staged + [file.value];
      assert Temps(more) == Temps(staged) + {file.value.temp};
      ok, names := true, seen + {name};
    }

    method StageAll(updates: seq<Update>) returns (ok: bool, staged: seq<Staged>)
      requires fs.Valid() && fs.Untouched({}) && fs.temps == {} && !fs.removalFailed
      modifies fs
      ensures fs.Valid() && fs.Untouched({}) && Distinct(staged) && Describes(staged, updates)
      ensures forall st <- staged :: TempReady(fs.files, fs.temps, st)
      ensures !fs.removalFailed ==> fs.temps == Temps(staged)
      ensures ok ==> |staged| == |updates| && !fs.removalFailed
      ensures fs.calm ==> fs.outside == old(fs.outside) && !fs.removalFailed && (ok <==> Good(fs.outside, updates))
      ensures fs.calm ==> forall st <- staged :: ExactSnapshot(fs.outside, st)
    {
      staged := [];
      var seen: set<string> := {};
      GoodAsStaged(fs.outside, updates);
      ok := true;
      while ok && |staged| < |updates|
        invariant Staging(staged, updates, seen) && (ok ==> !fs.removalFailed)
        invariant fs.calm ==> fs.outside == old(fs.outside) && !fs.removalFailed && CalmlyStaged(staged, updates)
        invariant fs.calm && !ok ==> !GoodUpTo(fs.outside, updates, |updates|)
        decreases ok, |updates| - |staged|
      {
        ghost var k := |staged| + 1;
        ok, staged, seen := StageNext(updates, staged, seen);
        if GoodUpTo(fs.outside, updates, |updates|) {
          NoLongerGood(fs.outside, updates, k, |updates|);
        }
      }
    }

    /** validateStagedTargetsUnchanged. */
    method ValidateUnchanged(staged: seq<Staged>) returns (ok: bool)
      requires fs.Valid() && fs.Untouched({}) && Distinct(staged)
      ensures ok ==> forall st <- staged :: SnapshotMatches(fs.outside, st)
      ensures fs.calm && (forall st <- staged :: ExactSnapshot(fs.outside, st)) ==> ok
    {
      var i := 0;
      while i < |staged|
        invariant 0 <= i <= |staged|
        invariant forall k | 0 <= k < i :: SnapshotMatches(fs.outside, staged[k])
      {
        var st := staged[i];
        assert st in staged;
        assert Same(fs.files, fs.outside, st.target);
        var info := fs.Lstat(st.target);
        if info.Err? || st.existed != info.value.Some? {
          return false;
        }
        if st.existed {
          if !info.value.value.regular || info.value.value.inode != st.originalInode {
            return false;
          }
          var now := fs.ReadExpected(st.target, info.value.value, MAXIMUM_ORIGINAL_BYTES);
          if now.Err? || Perm(now.value.mode) != st.originalMode || now.value.content != st.originalContent {
            return false;
          }
        }
        i := i + 1;
      }
      ok := true;
    }

    /** Staging, and the check that nobody changed a target meanwhile. */
    method StageAndCheck(updates: seq<Update>) returns (ok: bool, staged: seq<Staged>)
      requires fs.Valid() && fs.Untouched({}) && fs.temps == {} && !fs.removalFailed
      modifies fs
      ensures fs.Valid() && fs.Untouched({}) && Distinct(staged) && Describes(staged, updates)
      ensures forall st <- staged :: TempReady(fs.files, fs.temps, st)
      ensures !fs.removalFailed ==> fs.temps == Temps(staged)
      ensures ok ==> |staged| == |updates| && !fs.removalFailed && forall st <- staged :: SnapshotMatches(fs.outside, st)
      ensures fs.calm ==> fs.outside == old(fs.outside) && !fs.removalFailed && (ok <==> Good(fs.outside, updates))
    {
      ok, staged := StageAll(updates);
      if ok {
        fs.Interfere();
        ok := ValidateUnchanged(staged);
      }
    }

    /** The commit loop: `done` targets were replaced before the first failure. */
    method Commit(staged: seq<Staged>) returns (done: nat)
      requires fs.Valid() && fs.Untouched({}) && Distinct(staged)
      requires forall st <- staged :: TempReady(fs.files, fs.temps, st)
      modifies fs`files, fs`temps
      ensures fs.Valid() && fs.Untouched(Targets(staged))
      ensures done <= |staged| && HalfCommitted(fs.files, fs.temps, fs.outside, staged, done)
      ensures fs.temps == old(fs.temps) - Temps(staged[..done])
      ensures fs.calm ==> done == |staged|
    {
      done := 0;
      assert HalfCommitted(fs.files, fs.temps, fs.outside, staged, 0) by {
        assert forall k | 0 <= k < |staged| :: staged[k] in staged;
      }
      while done < |staged|
        invariant fs.Valid() && fs.Untouched(Targets(staged))
        invariant done <= |staged| && HalfCommitted(fs.files, fs.temps, fs.outside, staged, done)
        invariant fs.temps == old(fs.temps) - Temps(staged[..done])
      {
        TempsOfNext(staged, done);
        assert staged[done] in staged;
        ghost var files, temps := fs.files, fs.temps;
        var ok := fs.Rename(staged[done].temp, staged[done].target);
        if !ok {
          return;
        }
        CommitOne(files, temps, fs.outside, staged, done);
        done := done + 1;
      }
    }

    /** One round of rollbackStagedPEMFiles. */
    method Restore(st: Staged) returns (ok: bool)
      requires fs.Valid() && st.target.Named?
      requires HoldsNew(fs.files, st) && SnapshotMatches(fs.outside, st)
      modifies fs
      ensures fs.Valid() && fs.outside == old(fs.outside) && old(fs.temps) <= fs.temps
      ensures if ok then Restored(fs.files, fs.outside, st.target) else AllOrNothing(fs.files, fs.outside, st)
      ensures ok ==>
                (HasOriginalMode(fs.files, fs.outside, st.target)
                 <==> st.existed ==> fs.outside[st.target].mode < 0x200)
      ensures forall p: Path :: p in old(fs.temps) || (p !in fs.temps && p != st.target) ==> Same(fs.files, old(fs.files), p)
      ensures !fs.removalFailed ==> !old(fs.removalFailed) && fs.temps == old(fs.temps)
      ensures fs.calm ==> ok && fs.removalFailed == old(fs.removalFailed)
    {
      if !st.existed {
        ok := fs.RemoveTarget(st.target);
        return;
      }
      var temp := StageContent(st.originalContent, OWNER_ONLY);
      if temp.Err? {
        return false;
      }
      ok := fs.Rename(temp.value, st.target);
      if !ok {
        fs.RemoveTemp(temp.value);
        return;
      }
      ok := fs.Chmod(st.target, st.originalMode);
    }

    /** rollbackStagedPEMFiles for the first n targets, last one first. */
    method Rollback(staged: seq<Staged>, n: nat) returns (clean: bool)
      requires fs.Valid() && fs.Untouched(Targets(staged)) && Distinct(staged) && n <= |staged|
      requires forall st <- staged :: SnapshotMatches(fs.outside, st)
      requires HalfCommitted(fs.files, fs.temps, fs.outside, staged, n)
      modifies fs
      ensures fs.Valid() && fs.Untouched(Targets(staged)) && fs.outside == old(fs.outside) && old(fs.temps) <= fs.temps
      ensures HalfRolledBack(fs.files, fs.outside, staged, 0, n, clean)
      ensures !fs.removalFailed ==> !old(fs.removalFailed) && fs.temps == old(fs.temps)
      ensures fs.calm ==> clean && fs.removalFailed == old(fs.removalFailed)
    {
      clean := true;
      var i := n;
      while i > 0
        invariant 0 <= i <= n
        invariant fs.Valid() && fs.Untouched(Targets(staged)) && fs.outside == old(fs.outside) && old(fs.temps) <= fs.temps
        invariant HalfRolledBack(fs.files, fs.outside, staged, i, n, clean)
        invariant !fs.removalFailed ==> !old(fs.removalFailed) && fs.temps == old(fs.temps)
        invariant fs.calm ==> clean && fs.removalFailed == old(fs.removalFailed)
      {
        i := i - 1;
        assert staged[i] in staged;
        ghost var files := fs.files;
        var ok := Restore(staged[i]);
        assert forall st <- staged :: st.target != staged[i].target ==> Same(fs.files, files, st.target);
        RollbackOne(files, fs.files, fs.outside, staged, i, n, clean, ok);
        clean := clean && ok;
      }
      var synced := fs.Sync();
      clean := clean && synced;
    }

    /**
     Everything after the last check of the targets; `replaced` of them were replaced, if only for
     a while. `synced` is the answer of syncFn.
     */
    method CommitOrRollback(staged: seq<Staged>, synced: bool) returns (outcome: Outcome, ghost replaced: nat)
      requires fs.Valid() && fs.Untouched({}) && Distinct(staged) && fs.temps == Temps(staged) && !fs.removalFailed
      requires forall st <- staged :: TempReady(fs.files, fs.temps, st) && SnapshotMatches(fs.outside, st)
      modifies fs
      ensures replaced <= |staged|
      ensures fs.Valid() && fs.Untouched(Targets(staged[..replaced])) && fs.outside == old(fs.outside)
      ensures !fs.removalFailed ==> fs.temps == {}
      ensures outcome.Success? ==> replaced == |staged| && fs.temps == {} && forall st <- staged :: HoldsNew(fs.files, st)
      ensures outcome.Failed? ==> HalfRolledBack(fs.files, fs.outside, staged, 0, replaced, outcome.clean)
      ensures outcome.Success? ==> synced
      ensures fs.calm ==> replaced == |staged| && !fs.removalFailed && outcome == if synced then Success else Failed(true)
    {
      var done := Commit(staged);
      replaced := done;
      if done == |staged| {
        assert staged[..done] == staged;
        if synced {
          return Success, replaced;
        }
      }
      var clean := Rollback(staged, done);
      ghost var files := fs.files;
      Cleanup(staged, done);
      SameTargets(files, fs.files, fs.outside, staged, done, clean);
      OnlyReplacedTouched(staged, done);
      outcome := Failed(clean);
    }

    lemma OnlyReplacedTouched(staged: seq<Staged>, n: nat)
      requires n <= |staged| && fs.Untouched(Targets(staged))
      requires forall k | n <= k < |staged| :: Same(fs.files, fs.outside, staged[k].target)
      ensures fs.Untouched(Targets(staged[..n]))
    {
      forall p <- Targets(staged) - Targets(staged[..n])
        ensures Same(fs.files, fs.outside, p)
      {
        assert staged == staged[..n] + staged[n..];
        var st :| st in staged[n..] && st.target == p;
      }
    }

    /** The path an update is about. */
    ghost function TargetOf(update: Update): Path
      requires resolve(update.path).Some?
    {
      Named(resolve(update.path).value)
    }

    /** The paths an update batch may replace. */
    ghost function TargetPaths(updates: seq<Update>): set<Path> {
      set u <- updates | resolve(u.path).Some? :: TargetOf(u)
    }

    /** Every update whose path resolves is in place as a whole or not at all. */
    ghost predicate AllWhole(files: Files, outside: Files, updates: seq<Update>) {
      forall u <- updates | resolve(u.path).Some? :: Whole(files, outside, TargetOf(u), u.content, Perm(u.mode))
    }

    ghost predicate AllNew(files: Files, updates: seq<Update>) {
      forall u <- updates :: resolve(u.path).Some? && HasBytes(files, TargetOf(u), u.content, Perm(u.mode))
    }

    /**
     After a clean failure a target has its original mode exactly when it was never replaced, did
     not exist, or had permission bits alone: setuid, setgid and sticky bits are not restored.
     */
    ghost predicate ModesAfterRollback(files: Files, outside: Files, updates: seq<Update>, replaced: nat) {
      forall k | 0 <= k < |updates| && resolve(updates[k].path).Some? ::
        var p := TargetOf(updates[k]);
        HasOriginalMode(files, outside, p)
        <==> k >= replaced || p !in outside || !outside[p].File? || outside[p].mode < 0x200
    }

    /**
     What a caller can tell before the call: on a calm disk the batch is written exactly when it is
     good, and put back only if syncFn fails.
     */
    ghost predicate CalmOutcome(outcome: Outcome, outside: Files, updates: seq<Update>, synced: bool, replaced: nat) {
      if updates == [] then outcome == Success && replaced == 0
      else if !Good(outside, updates) then outcome == Failed(true) && replaced == 0
      else replaced == |updates| && outcome == if synced then Success else Failed(true)
    }

    /** A target has its original mode exactly when it is absent or had permission bits alone. */
    ghost predicate ModesSurviveExactly(files: Files, outside: Files, updates: seq<Update>) {
      forall u <- updates | resolve(u.path).Some? ::
        var p := TargetOf(u);
        HasOriginalMode(files, outside, p) <==> p !in outside || !outside[p].File? || outside[p].mode < 0x200
    }

    /**
     writePEMFilesAtomicallyWithSync; `synced` is the answer of syncFn, which is an fsync of the
     directories. `batch` and `replaced` report, for the specification, what was staged
     and how many targets were replaced, even if only for a while.
     */
    method WriteFiles(updates: seq<Update>, synced: bool) returns (outcome: Outcome, ghost batch: seq<Staged>, ghost replaced: nat)
      requires fs.Valid() && fs.Untouched({}) && fs.temps == {} && !fs.removalFailed
      modifies fs
      ensures fs.Valid() && fs.Untouched(TargetPaths(updates)) && (replaced == 0 ==> fs.Untouched({}))
      ensures !fs.removalFailed ==> fs.temps == {}
      ensures outcome.Success? ==> replaced == |updates| && fs.temps == {} && AllNew(fs.files, updates)
      ensures outcome == Failed(true) ==> forall p: Path :: p !in fs.temps ==> HoldsOriginal(fs.files, fs.outside, p)
      ensures outcome == Failed(true) ==> ModesAfterRollback(fs.files, fs.outside, updates, replaced)
      ensures AllWhole(fs.files, fs.outside, updates)
      ensures Describes(batch, updates) && replaced <= |batch|
      ensures replaced > 0 ==> |batch| == |updates| && forall st <- batch :: SnapshotMatches(fs.outside, st)
      ensures fs.calm ==> fs.outside == old(fs.outside) && fs.temps == {}
      ensures fs.calm ==> CalmOutcome(outcome, old(fs.outside), updates, synced, replaced)
      ensures fs.calm && !synced && Good(old(fs.outside), updates) ==> ModesSurviveExactly(fs.files, old(fs.outside), updates)
    {
      batch, replaced := [], 0;
      if updates == [] {
        return Success, batch, replaced;
      }
      var ok, staged := StageAndCheck(updates);
      batch := staged;
      if !ok {
        assert forall k | 0 <= k < |staged| :: staged[k] in staged;
        Cleanup(staged, 0);
        UntouchedIsWhole(updates);
        return Failed(true), batch, replaced;
      }
      outcome, replaced := CommitOrRollback(staged, synced);
      TargetsDescribed(staged, updates);
      if outcome.Success? {
        BatchIsNew(staged, updates);
      } else {
        BatchIsWhole(staged, updates, replaced, outcome.clean);
        if outcome.clean && replaced == |updates| {
          AllReplacedModes(fs.files, fs.outside, updates);
        }
      }
    }

    /** A disk nobody but others touched is as they left it. */
    lemma UntouchedIsWhole(updates: seq<Update>)
      requires fs.Valid() && fs.Untouched({})
      ensures forall p: Path :: p !in fs.temps ==> HoldsOriginal(fs.files, fs.outside, p)
      ensures AllWhole(fs.files, fs.outside, updates) && ModesAfterRollback(fs.files, fs.outside, updates, 0)
    {
      forall p: Path | p !in fs.temps
        ensures HoldsOriginal(fs.files, fs.outside, p) && HasOriginalMode(fs.files, fs.outside, p)
      {
        assert Same(fs.files, fs.outside, p);
      }
    }

    lemma AllReplacedModes(files: Files, outside: Files, updates: seq<Update>)
      requires ModesAfterRollback(files, outside, updates, |updates|)
      ensures ModesSurviveExactly(files, outside, updates)
    {
      forall u <- updates | resolve(u.path).Some?
        ensures var p := TargetOf(u);
                HasOriginalMode(files, outside, p) <==> p !in outside || !outside[p].File? || outside[p].mode < 0x200
      {
        var k :| 0 <= k < |updates| && updates[k] == u;
      }
    }

    lemma TargetsDescribed(staged: seq<Staged>, updates: seq<Update>)
      requires Describes(staged, updates)
      ensures Targets(staged) <= TargetPaths(updates)
    {
      forall st <- staged
        ensures st.target in TargetPaths(updates)
      {
        var k :| 0 <= k < |staged| && staged[k] == st;
        assert updates[k] in updates;
      }
    }

    lemma BatchIsNew(staged: seq<Staged>, updates: seq<Update>)
      requires Describes(staged, updates) && |staged| == |updates|
      requires forall st <- staged :: HoldsNew(fs.files, st)
      ensures AllNew(fs.files, updates)
    {
      forall u <- updates
        ensures resolve(u.path).Some? && HasBytes(fs.files, TargetOf(u), u.content, Perm(u.mode))
      {
        var k :| 0 <= k < |updates| && updates[k] == u;
        assert staged[k] in staged;
      }
    }

    lemma BatchIsWhole(staged: seq<Staged>, updates: seq<Update>, replaced: nat, clean: bool)
      requires Describes(staged, updates) && |staged| == |updates| && replaced <= |staged|
      requires HalfRolledBack(fs.files, fs.outside, staged, 0, replaced, clean)
      ensures AllWhole(fs.files, fs.outside, updates)
      ensures clean ==> ModesAfterRollback(fs.files, fs.outside, updates, replaced)
    {
      forall u <- updates | resolve(u.path).Some?
        ensures Whole(fs.files, fs.outside, TargetOf(u), u.content, Perm(u.mode))
      {
        var k :| 0 <= k < |updates| && updates[k] == u;
        assert AllOrNothing(fs.files, fs.outside, staged[k]);
      }
      if clean {
        forall k | 0 <= k < |updates| && resolve(updates[k].path).Some?
          ensures var p := TargetOf(updates[k]);
                  HasOriginalMode(fs.files, fs.outside, p)
                  <==> k >= replaced || p !in fs.outside || !fs.outside[p].File? || fs.outside[p].mode < 0x200
        {
          assert staged[k].target == TargetOf(updates[k]);
          if k < replaced {
            RestoredMode(fs.files, fs.outside, staged[k].target);
          } else {
            assert Same(fs.files, fs.outside, staged[k].target);
          }
        }
      }
    }

    /** WriteFiles on the caller's buffers, which are wiped whatever the outcome is. */
    method WriteAndWipe(buffers: seq<Buffer>, synced: bool) returns (outcome: Outcome, ghost batch: seq<Staged>, ghost replaced: nat)
      requires fs.Valid() && fs.Untouched({}) && fs.temps == {} && !fs.removalFailed
      modifies fs, set b <- buffers :: b.content
      ensures fs.Valid() && fs.Untouched(TargetPaths(old(Updates(buffers)))) && (replaced == 0 ==> fs.Untouched({}))
      ensures !fs.removalFailed ==> fs.temps == {}
      ensures outcome.Success? ==> replaced == |buffers| && fs.temps == {} && AllNew(fs.files, old(Updates(buffers)))
      ensures outcome == Failed(true) ==> forall p: Path :: p !in fs.temps ==> HoldsOriginal(fs.files, fs.outside, p)
      ensures outcome == Failed(true) ==> ModesAfterRollback(fs.files, fs.outside, old(Updates(buffers)), replaced)
      ensures AllWhole(fs.files, fs.outside, old(Updates(buffers)))
      ensures Describes(batch, old(Updates(buffers))) && replaced <= |batch|
      ensures replaced > 0 ==> |batch| == |buffers| && forall st <- batch :: SnapshotMatches(fs.outside, st)
      ensures forall b <- buffers :: Wiped(b.content)
      ensures fs.calm ==> fs.outside == old(fs.outside) && fs.temps == {}
      ensures fs.calm ==> CalmOutcome(outcome, old(fs.outside), old(Updates(buffers)), synced, replaced)
    {
      var updates := seq(|buffers|, k requires 0 <= k < |buffers| reads set b <- buffers :: b.content =>
        Update(buffers[k].path, buffers[k].content[..], buffers[k].mode));
      assert updates == Updates(buffers);
      outcome, batch, replaced := WriteFiles(updates, synced);
      WipeAll(buffers);
    }

    method WipeAll(buffers: seq<Buffer>)
      modifies set b <- buffers :: b.content
      ensures forall b <- buffers :: Wiped(b.content)
    {
      var k := 0;
      while k < |buffers|
        invariant 0 <= k <= |buffers|
        invariant forall j | 0 <= j < k :: Wiped(buffers[j].content)
        modifies set b <- buffers :: b.content
      {
        Wipe(buffers[k].content);
        k := k + 1;
      }
    }
  }

  /** What the buffers hold now. */
  ghost function Updates(buffers: seq<Buffer>): seq<Update>
    reads set b <- buffers :: b.content
  {
    seq(|buffers|, k requires 0 <= k < |buffers| reads set b <- buffers :: b.content =>
      Update(buffers[k].path, buffers[k].content[..], buffers[k].mode))
  }

  /** A restored file has its original mode exactly when that was made of permission bits alone. */
  lemma RestoredMode(files: Files, outside: Files, p: Path)
    requires Restored(files, outside, p)
    ensures HasOriginalMode(files, outside, p) <==> p in outside ==> outside[p].mode < 0x200
  {
  }

  /**
   A setuid program of mode 0o4755 in a directory is the one target of a batch, on a calm disk, and
   syncFn fails: the failure is clean, the content is back, but the mode is 0o755.
   */
  method SetuidIsLost(directory: string, name: string, program: Bytes, content: Bytes)
    returns (fs: FileSystem, outcome: Outcome)
    requires name != "" && name != directory && |program| <= MAXIMUM_ORIGINAL_BYTES
    ensures outcome == Failed(true)
    ensures fs.outside == map[Named(name) := File(program, 0x9ED, 0), Named(directory) := Special(true)]
    ensures HasBytes(fs.files, Named(name), program, 0x1ED)
  {
    var p := Named(name);
    var files := map[p := File(program, 0x9ED, 0), Named(directory) := Special(true)];
    fs := new FileSystem(files, 0, true);
    var writer := new Writer(fs, path => Some(path), path => directory);
    var updates := [Update(name, content, 0x1A4)];
    assert writer.Good(files, updates);
    ghost var batch, replaced;
    outcome, batch, replaced := writer.WriteFiles(updates, false);
    assert writer.TargetOf(updates[0]) == p;
  }

  /** The first `done` targets are new, the others untouched and still staged. */
  ghost predicate HalfCommitted(files: Files, temps: set<Path>, outside: Files, staged: seq<Staged>, done: nat)
    requires done <= |staged|
  {
    && (forall k | 0 <= k < done :: HoldsNew(files, staged[k]))
    && (forall k | done <= k < |staged| ::
          TempReady(files, temps, staged[k]) && Same(files, outside, staged[k].target))
  }

  lemma TempsOfNext(staged: seq<Staged>, done: nat)
    requires done < |staged|
    ensures Temps(staged[..done + 1]) == Temps(staged[..done]) + {staged[done].temp}
  {
    assert staged[..done + 1] == staged[..done] + [staged[done]];
  }

  lemma CommitOne(files: Files, temps: set<Path>, outside: Files, staged: seq<Staged>, done: nat)
    requires Distinct(staged) && done < |staged| && HalfCommitted(files, temps, outside, staged, done)
    ensures var st := staged[done];
            HalfCommitted((files - {st.temp})[st.target := files[st.temp]], temps - {st.temp}, outside, staged, done + 1)
  {
    assert forall k | 0 <= k < |staged| :: staged[k] in staged;
  }

  /**
   Of the n replaced targets the first i are still new and the others restored, or damaged if the
   rollback is not clean; the targets after them were never touched.
   */
  ghost predicate HalfRolledBack(files: Files, outside: Files, staged: seq<Staged>, i: nat, n: nat, clean: bool)
    requires i <= n <= |staged|
  {
    && (forall k | 0 <= k < i :: HoldsNew(files, staged[k]))
    && (forall k | i <= k < |staged| :: AllOrNothing(files, outside, staged[k]))
    && (clean ==> forall k | i <= k < n :: Restored(files, outside, staged[k].target))
    && (forall k | n <= k < |staged| :: Same(files, outside, staged[k].target))
  }

  lemma RollbackOne(
      before: Files, files: Files, outside: Files, staged: seq<Staged>, i: nat, n: nat, clean: bool, ok: bool)
    requires Distinct(staged) && i < n <= |staged| && HalfRolledBack(before, outside, staged, i + 1, n, clean)
    requires forall st <- staged :: st.target != staged[i].target ==> Same(files, before, st.target)
    requires if ok then Restored(files, outside, staged[i].target) else AllOrNothing(files, outside, staged[i])
    ensures HalfRolledBack(files, outside, staged, i, n, clean && ok)
  {
    forall k | 0 <= k < |staged| && k != i
      ensures Same(files, before, staged[k].target)
    {
      assert staged[k] in staged;
    }
  }

  lemma SameTargets(before: Files, files: Files, outside: Files, staged: seq<Staged>, n: nat, clean: bool)
    requires n <= |staged| && HalfRolledBack(before, outside, staged, 0, n, clean)
    requires forall k | 0 <= k < |staged| :: Same(files, before, staged[k].target)
    ensures HalfRolledBack(files, outside, staged, 0, n, clean)
  {
  }

  lemma DistinctAppend(staged: seq<Staged>, st: Staged)
    requires Distinct(staged) && st.target.Named? && st.temp.Temp?
    requires st.target !in Targets(staged) && st.temp !in Temps(staged)
    ensures Distinct(staged + [st])
  {
    forall k | 0 <= k < |staged|
      ensures staged[k].target != st.target && staged[k].temp != st.temp
    {
      assert staged[k] in staged;
    }
  }
}
