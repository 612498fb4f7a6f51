/** The directory branch of `apply` and the update it performs on a disk that may lose power
    before any single action. */
module Apply {
  import opened Bytes
  import opened PatchTypes
  import opened PatchCodec
  import opened Compile
  import opened ApplySpec

  datatype Step = Completed | Refused | PowerCut

  /** The output root: `tree` is its visible part, `staged` and `journal` are what `apply` keeps at
      its reserved names. `budget` counts the actions left before the power goes; `None` means it
      stays on. `tear` is what an interrupted write leaves in the file it was writing. */
  class Disk {
    var tree: Tree
    var staged: map<nat, Data>
    var journal: Option<Journal>
    var budget: Option<nat>
    var tear: Option<Data>

    constructor (t: Tree)
      ensures tree == t && staged == map[] && journal == None && budget == None
    {
      tree, staged, journal, budget, tear := t, map[], None, None, None;
    }

    method Tick() returns (on: bool)
      modifies this`budget
      ensures old(budget).None? ==> on && budget.None?
    {
      match budget
      case None => on := true;
      case Some(n) =>
        on := n > 0;
        budget := Some(if n > 0 then n - 1 else 0);
    }

    /** A write is not atomic: cut short, it leaves `tear`. */
    method WriteStaged(i: nat, data: Data) returns (step: Step)
      modifies this`staged, this`budget
      ensures old(budget).None? ==> step.Completed? && budget.None?
      ensures !step.Refused?
      ensures step.Completed? ==> staged == old(staged)[i := data]
      ensures step.PowerCut? ==> staged == Torn(old(staged), i)
    {
      var on := Tick();
      if on {
        staged := staged[i := data];
        return Completed;
      }
      staged := Torn(staged, i);
      return PowerCut;
    }

    function Torn(files: map<nat, Data>, i: nat): map<nat, Data>
      reads this`tear
    {
      if tear.Some? then files[i := tear.value] else files
    }

    method RemoveStaged(i: nat) returns (step: Step)
      modifies this`staged, this`budget
      ensures old(budget).None? ==> step.Completed? && budget.None?
      ensures !step.Refused?
      ensures staged == if step.Completed? then old(staged) - {i} else old(staged)
    {
      var on := Tick();
      if on {
        staged := staged - {i};
        return Completed;
      }
      return PowerCut;
    }

    /** Journal saves go through a temporary file and a rename, so they are atomic. */
    method SaveJournal(j: Option<Journal>) returns (step: Step)
      modifies this`journal, this`budget
      ensures old(budget).None? ==> step.Completed? && budget.None?
      ensures !step.Refused?
      ensures journal == if step.Completed? then j else old(journal)
    {
      var on := Tick();
      if on {
        journal := j;
        return Completed;
      }
      return PowerCut;
    }

    method Mkdir(q: Path) returns (step: Step)
      modifies this`tree, this`budget
      ensures old(budget).None? ==> !step.PowerCut? && budget.None?
      ensures step.Refused? ==> FileAt(old(tree), q).Some?
      ensures step.Completed? ==> FileAt(old(tree), q).None?
      ensures tree == if step.Completed? && q !in old(tree) then old(tree)[q := Dir] else old(tree)
    {
      if q in tree {
        return if tree[q].Dir? then Completed else Refused;
      }
      var on := Tick();
      if on {
        tree := tree[q := Dir];
        return Completed;
      }
      return PowerCut;
    }

    /** The commit rename: atomic, and refused by a directory of that name. */
    method Commit(i: nat, q: Path) returns (step: Step)
      modifies this`tree, this`staged, this`budget
      ensures old(budget).None? ==> !step.PowerCut? && budget.None?
      ensures step.Refused? ==> IsDir(old(tree), q) || i !in old(staged)
      ensures step.Completed? ==>
        && !IsDir(old(tree), q) && i in old(staged)
        && tree == old(tree)[q := File(old(staged)[i])] && staged == old(staged) - {i}
      ensures !step.Completed? ==> tree == old(tree) && staged == old(staged)
    {
      if i !in staged || (q in tree && tree[q].Dir?) {
        return Refused;
      }
      var on := Tick();
      if on {
        tree, staged := tree[q := File(staged[i])], staged - {i};
        return Completed;
      }
      return PowerCut;
    }

    /** An action at a reserved name. What it does to the staged copies and the journal, and whether
        it succeeds, is left open. */
    method Scramble(mayFail: bool) returns (step: Step)
      modifies this`staged, this`journal, this`budget
      ensures old(budget).None? ==> !step.PowerCut? && budget.None?
      ensures !mayFail ==> !step.Refused?
    {
      staged, journal := *, *;
      var on := Tick();
      if !on {
        return PowerCut;
      }
      var failed := *;
      return if mayFail && failed then Refused else Completed;
    }

    /** What a read at a reserved name finds is left open. */
    method Look(q: Path) returns (content: Option<Data>)
      ensures !Reserved(q) ==> content == FileAt(tree, q)
    {
      content := *;
      if !Reserved(q) {
        content := FileAt(tree, q);
      }
    }

    method Remove(q: Path) returns (step: Step)
      modifies this`tree, this`budget
      ensures old(budget).None? ==> step.Completed? && budget.None?
      ensures !step.Refused?
      ensures tree == if step.Completed? then old(tree) - {q} else old(tree)
    {
      var on := Tick();
      if on {
        tree := tree - {q};
        return Completed;
      }
      return PowerCut;
    }
  }

  ghost predicate DiskInv(job: Job, begun: Tree, goal: map<Path, Data>, disk: Disk)
    reads disk
  {
    Inv(job, begun, goal, disk.tree, disk.staged, disk.journal)
  }

  // ---------- Staging ----------

  ghost predicate OthersKept(a: map<nat, Data>, b: map<nat, Data>, i: nat) {
    forall j :: j != i ==> (j in a <==> j in b) && (j in a ==> a[j] == b[j])
  }

  /** `reconstruct_file`: write the entry's staged copy and verify it, deleting it on mismatch. */
  method Reconstruct(job: Job, disk: Disk, i: nat) returns (step: Step)
    requires Runnable(job) && i < |job.patch.newEntries| && IsFile(job.patch.newEntries[i])
    modifies disk`staged, disk`budget
    ensures old(disk.budget).None? ==> !step.PowerCut? && disk.budget.None?
    ensures OthersKept(old(disk.staged), disk.staged, i)
    ensures step.Completed? ==> StagedOk(job, disk.staged, i)
    ensures step.Refused? ==>
      var r := Rebuild(job, disk.tree, job.patch.newEntries[i]);
      r.None? || !HashOk(job, job.patch.newEntries[i], r.value)
  {
    var e := job.patch.newEntries[i];
    assert e in job.patch.newEntries;
    assert ValidEntry(e, job.patch.mode, |job.patch.oldFiles|, |job.patch.sections|);
    var data: Option<Data>;
    match e.strategy.value {
      case PlanOps(section, ops) =>
        var inline := SectionBytes(job.tools, job.patch.sections[section]);
        if inline.Some? {
          data := StreamOps(ops, OldContents(job.patch.oldFiles, Source(job, disk.tree)), inline.value);
        } else {
          data := None;
        }
      case _ => data := Rebuild(job, disk.tree, e);
    }
    if data.None? {
      disk.staged := disk.Torn(disk.staged, i);
      return Refused;
    }
    step := disk.WriteStaged(i, data.value);
    if step.Completed? && job.tools.hash(data.value) != e.blake3.value {
      step := disk.RemoveStaged(i);
      if step.Completed? {
        step := Refused;
      }
    }
  }

  /** One turn of the staging loop: what is neither in place nor already staged is rebuilt. */
  method StageOne(job: Job, disk: Disk, i: nat, ghost begun: Tree, ghost goal: map<Path, Data>)
    returns (step: Step, listed: bool)
    requires Runnable(job) && DiskInv(job, begun, goal, disk)
    requires disk.journal == Some(Journal(job.identity, Staging, []))
    requires i < |job.patch.newEntries| && IsFile(job.patch.newEntries[i])
    modifies disk`staged, disk`budget
    ensures DiskInv(job, begun, goal, disk)
    ensures old(disk.budget).None? ==> !step.PowerCut? && disk.budget.None?
    ensures OthersKept(old(disk.staged), disk.staged, i)
    ensures step.Refused? ==> !Sound(job, begun, goal)
    ensures step.Completed? ==>
      if listed then StagedOk(job, disk.staged, i)
      else Reserved(job.patch.newEntries[i].path) || FinalOk(job, disk.tree, i)
  {
    hide Reserved;
    var e := job.patch.newEntries[i];
    assert e in job.patch.newEntries;
    var there := disk.Look(e.path);
    if Matches(job, e, there) {
      return Completed, false;
    }
    if Matches(job, e, if i in disk.staged then Some(disk.staged[i]) else None) {
      return Completed, true;
    }
    if Sound(job, begun, goal) {
      NothingLost(job, begun, goal, disk.tree, disk.staged, i);
    }
    step := Reconstruct(job, disk, i);
    listed := true;
  }

  /** The staging loop. */
  method StageAll(job: Job, disk: Disk, ghost begun: Tree, ghost goal: map<Path, Data>)
    returns (step: Step, pending: seq<nat>)
    requires Runnable(job) && DiskInv(job, begun, goal, disk)
    requires disk.journal == Some(Journal(job.identity, Staging, []))
    modifies disk`staged, disk`budget
    ensures DiskInv(job, begun, goal, disk)
    ensures old(disk.budget).None? ==> !step.PowerCut? && disk.budget.None?
    ensures step.Refused? ==> !Sound(job, begun, goal)
    ensures step.Completed? ==> PendingOk(job, disk.tree, disk.staged, pending, 0)
  {
    hide Inv;
    pending := [];
    for i := 0 to |job.patch.newEntries|
      invariant DiskInv(job, begun, goal, disk)
      invariant old(disk.budget).None? ==> disk.budget.None?
      invariant PendingUpTo(job, disk.tree, disk.staged, pending, i)
    {
      if IsFile(job.patch.newEntries[i]) {
        var listed;
        step, listed := StageOne(job, disk, i, begun, goal);
        if !step.Completed? {
          return;
        }
        if listed {
          pending := pending + [i];
        }
      }
    }
    step := Completed;
    StagedIsPending(job, disk.tree, disk.staged, pending);
  }

  lemma StagedIsPending(job: Job, t: Tree, staged: map<nat, Data>, pending: seq<nat>)
    requires PendingUpTo(job, t, staged, pending, |job.patch.newEntries|)
    ensures PendingOk(job, t, staged, pending, 0)
  {
    hide Reserved;
    assert pending[0..] == pending;
    assert forall i | 0 <= i < |job.patch.newEntries| :: job.patch.newEntries[i] in job.patch.newEntries;
  }

  /** The staged copies still to be committed are listed in order; every file entry before
      `upto` is in place or listed. */
  ghost predicate PendingUpTo(job: Job, t: Tree, staged: map<nat, Data>, pending: seq<nat>, upto: nat) {
    && (forall k :: 0 <= k < |pending| ==>
          && pending[k] < upto && pending[k] < |job.patch.newEntries|
          && IsFile(job.patch.newEntries[pending[k]]) && StagedOk(job, staged, pending[k]))
    && (forall k, l :: 0 <= k < l < |pending| ==> pending[k] < pending[l])
    && (forall i :: 0 <= i < upto && i < |job.patch.newEntries| && IsFile(job.patch.newEntries[i]) ==>
          Reserved(job.patch.newEntries[i].path) || FinalOk(job, t, i) || i in pending)
  }

  /** From position `done` of `pending` on, what remains to be committed. */
  ghost predicate PendingOk(job: Job, t: Tree, staged: map<nat, Data>, pending: seq<nat>, done: nat) {
    && done <= |pending|
    && (forall k :: done <= k < |pending| ==>
          && pending[k] < |job.patch.newEntries|
          && IsFile(job.patch.newEntries[pending[k]]) && (Clear(job.patch) ==> StagedOk(job, staged, pending[k])))
    && (forall k, l :: 0 <= k < l < |pending| ==> pending[k] < pending[l])
    && (WellPlanned(job.patch) || (Clear(job.patch) && done == 0) ==>
          forall i :: 0 <= i < |job.patch.newEntries| && IsFile(job.patch.newEntries[i]) ==>
            FinalOk(job, t, i) || i in pending[done..])
  }

  /** Rewriting the staged copy of an entry that matches nowhere cannot cost the only good copy. */
  lemma NothingLost(job: Job, begun: Tree, goal: map<Path, Data>, t: Tree, staged: map<nat, Data>, i: nat)
    requires Sound(job, begun, goal) && Recoverable(job, begun, t, staged)
    requires i < |job.patch.newEntries| && IsFile(job.patch.newEntries[i])
    requires !Matches(job, job.patch.newEntries[i], FileAt(t, job.patch.newEntries[i].path))
    requires !Matches(job, job.patch.newEntries[i], if i in staged then Some(staged[i]) else None)
    ensures SameFiles(t, begun)
    ensures var r := Rebuild(job, t, job.patch.newEntries[i]);
      r.Some? && HashOk(job, job.patch.newEntries[i], r.value)
  {
    var e := job.patch.newEntries[i];
    assert e in job.patch.newEntries;
    if AllSafe(job, t, staged) {
      if FinalOk(job, t, i) {
        HashIdentifies(job, begun, goal, i, FileAt(t, e.path).value);
      } else {
        HashIdentifies(job, begun, goal, i, staged[i]);
      }
      assert false;
    }
    RebuildReadsFiles(job, t, begun, e);
  }

  // ---------- Directories ----------

  /** Only directories were added. */
  ghost predicate Grown(t: Tree, u: Tree) {
    && (forall q <- t :: q in u && u[q] == t[q])
    && SameFiles(t, u)
  }

  method MkdirOne(job: Job, disk: Disk, q: Path, ghost begun: Tree, ghost goal: map<Path, Data>) returns (step: Step)
    requires DiskInv(job, begun, goal, disk) && MustBeDir(job.patch, q) && !Reserved(q)
    requires forall a :: IsAncestor(a, q) ==> IsDir(disk.tree, a)
    modifies disk`tree, disk`budget
    ensures DiskInv(job, begun, goal, disk) && Grown(old(disk.tree), disk.tree)
    ensures old(disk.budget).None? ==> !step.PowerCut? && disk.budget.None?
    ensures step.Completed? ==> IsDir(disk.tree, q)
    ensures step.Refused? ==> !NoConflict(job.patch, disk.tree)
  {
    if q !in disk.tree {
      MkdirKeeps(job, begun, disk.tree, q);
    }
    step := disk.Mkdir(q);
  }

  /** The ancestors of `path` shorter than `k` are directories. */
  ghost predicate DirsBelow(t: Tree, path: Path, k: nat) {
    forall a :: IsAncestor(a, path) && |a| < k ==> IsDir(t, a)
  }

  lemma DirsStep(t: Tree, path: Path, k: nat)
    requires k < |path| && DirsBelow(t, path, k)
    ensures path[k] == SLASH ==> IsAncestor(path[..k], path)
    ensures forall a :: IsAncestor(a, path[..k]) ==> IsDir(t, a)
    ensures path[k] != SLASH || IsDir(t, path[..k]) ==> DirsBelow(t, path, k + 1)
  {
    forall a | IsAncestor(a, path[..k]) ensures IsDir(t, a) {
      assert IsAncestor(a, path);
    }
    forall a | IsAncestor(a, path) && |a| == k ensures path[k] == SLASH && a == path[..k] {
    }
  }

  /** `create_dir_all`, shallowest directory first. */
  method CreateDirAll(job: Job, disk: Disk, path: Path, itself: bool, ghost begun: Tree, ghost goal: map<Path, Data>)
    returns (step: Step)
    requires DiskInv(job, begun, goal, disk) && !Reserved(path)
    requires forall a :: IsAncestor(a, path) || (itself && a == path) ==> MustBeDir(job.patch, a)
    modifies disk`tree, disk`budget
    ensures DiskInv(job, begun, goal, disk) && Grown(old(disk.tree), disk.tree)
    ensures old(disk.budget).None? ==> !step.PowerCut? && disk.budget.None?
    ensures step.Completed? ==> forall a :: IsAncestor(a, path) || (itself && a == path) ==> IsDir(disk.tree, a)
    ensures step.Refused? ==> !NoConflict(job.patch, disk.tree)
  {
    for k := 0 to |path|
      invariant DiskInv(job, begun, goal, disk) && Grown(old(disk.tree), disk.tree)
      invariant old(disk.budget).None? ==> disk.budget.None?
      invariant DirsBelow(disk.tree, path, k)
    {
      DirsStep(disk.tree, path, k);
      if path[k] == SLASH {
        ReservedTogether(path[..k], path);
        step := MkdirOne(job, disk, path[..k], begun, goal);
        if !step.Completed? {
          return;
        }
        DirsStep(disk.tree, path, k);
      }
    }
    step := Completed;
    if itself {
      step := MkdirOne(job, disk, path, begun, goal);
    }
  }

  method MakeDirs(job: Job, disk: Disk, ghost begun: Tree, ghost goal: map<Path, Data>) returns (step: Step)
    requires DiskInv(job, begun, goal, disk)
    modifies disk`tree, disk`staged, disk`journal, disk`budget
    ensures DiskInv(job, begun, goal, disk) && Grown(old(disk.tree), disk.tree)
    ensures Clear(job.patch) ==> disk.staged == old(disk.staged) && disk.journal == old(disk.journal)
    ensures old(disk.budget).None? ==> !step.PowerCut? && disk.budget.None?
    ensures step.Completed? && Clear(job.patch) ==> DirsMade(job.patch, disk.tree)
    ensures step.Refused? && Clear(job.patch) ==> !NoConflict(job.patch, disk.tree)
  {
    hide Reserved, NoConflict;
    for i := 0 to |job.patch.newEntries|
      invariant DiskInv(job, begun, goal, disk) && Grown(old(disk.tree), disk.tree)
      invariant Clear(job.patch) ==> disk.staged == old(disk.staged) && disk.journal == old(disk.journal)
      invariant old(disk.budget).None? ==> disk.budget.None?
      invariant forall j :: 0 <= j < i && job.patch.newEntries[j].kind.DirectoryEntry? && Clear(job.patch) ==>
        IsDir(disk.tree, job.patch.newEntries[j].path)
    {
      var e := job.patch.newEntries[i];
      assert e in job.patch.newEntries;
      if e.kind.DirectoryEntry? {
        if Reserved(e.path) {
          step := disk.Scramble(true);
        } else {
          assert forall a :: IsAncestor(a, e.path) || a == e.path ==> NeedsDir(e, a);
          step := CreateDirAll(job, disk, e.path, true, begun, goal);
        }
        if !step.Completed? {
          return;
        }
      }
    }
    step := Completed;
  }

  // ---------- Commit ----------

  lemma PendingIsSafe(job: Job, t: Tree, staged: map<nat, Data>, pending: seq<nat>, done: nat)
    requires PendingOk(job, t, staged, pending, done) && WellPlanned(job.patch)
    ensures AllSafe(job, t, staged)
  {
    forall i | 0 <= i < |job.patch.newEntries| && IsFile(job.patch.newEntries[i])
      ensures FinalOk(job, t, i) || StagedOk(job, staged, i)
    {
      if i in pending[done..] {
        var k :| done <= k < |pending| && pending[k] == i;
      }
    }
  }

  /** One turn of the commit loop. */
  method CommitOne(job: Job, disk: Disk, pending: seq<nat>, k: nat, ghost begun: Tree, ghost goal: map<Path, Data>)
    returns (step: Step)
    requires DiskInv(job, begun, goal, disk) && k < |pending|
    requires PendingOk(job, disk.tree, disk.staged, pending, k)
    requires WellPlanned(job.patch) ==> DirsMade(job.patch, disk.tree)
    modifies disk`tree, disk`staged, disk`journal, disk`budget
    ensures DiskInv(job, begun, goal, disk)
    ensures old(disk.budget).None? ==> !step.PowerCut? && disk.budget.None?
    ensures step.Completed? ==> PendingOk(job, disk.tree, disk.staged, pending, k + 1)
    ensures step.Completed? && WellPlanned(job.patch) ==> DirsMade(job.patch, disk.tree)
    ensures step.Refused? && WellPlanned(job.patch) ==> !NoConflict(job.patch, begun)
  {
    hide Between, NoConflict, Consistent, Reserved, Restores, PendingOk, StagedOk, FinalOk;
    PendingIsFile(job, disk.tree, disk.staged, pending, k);
    var i := pending[k];
    var e := job.patch.newEntries[i];
    assert e in job.patch.newEntries;
    if Reserved(e.path) {
      ghost var staged, journal := disk.staged, disk.journal;
      step := disk.Scramble(true);
      RegionIsFree(job, begun, goal, disk.tree, staged, journal, disk.staged, disk.journal);
      PendingUnclear(job, disk.tree, staged, disk.tree, disk.staged, pending, k);
      return;
    }
    assert forall a :: IsAncestor(a, e.path) ==> NeedsDir(e, a);
    step := CreateDirAll(job, disk, e.path, false, begun, goal);
    if step.Completed? {
      ghost var t, staged := disk.tree, disk.staged;
      step := disk.Commit(i, e.path);
      if step.Completed? {
        CommitKeeps(job, begun, goal, t, staged, disk.journal, pending, k);
      }
    }
    if step.Refused? && WellPlanned(job.patch) && NoConflict(job.patch, begun) {
      assert IsNewFile(job.patch, e.path);
      ConflictsDoNotAppear(job, begun, disk.tree);
      NewFileHasRoom(job.patch, disk.tree, e);
      assert false;
    }
  }

  lemma PendingIsFile(job: Job, t: Tree, staged: map<nat, Data>, pending: seq<nat>, k: nat)
    requires k < |pending| && PendingOk(job, t, staged, pending, k)
    ensures pending[k] < |job.patch.newEntries| && IsFile(job.patch.newEntries[pending[k]])
    ensures Clear(job.patch) ==> pending[k] in staged
    ensures forall u :: Grown(t, u) ==> PendingOk(job, u, staged, pending, k)
  {
  }

  lemma PendingUnclear(job: Job, t: Tree, staged: map<nat, Data>, u: Tree, files: map<nat, Data>,
                       pending: seq<nat>, k: nat)
    requires k < |pending| && PendingOk(job, t, staged, pending, k) && !Clear(job.patch)
    ensures PendingOk(job, u, files, pending, k + 1)
  {
  }

  /** Once nothing staged is needed, what happens at the reserved names does not matter. */
  lemma RegionIsFree(job: Job, begun: Tree, goal: map<Path, Data>, t: Tree, staged: map<nat, Data>,
                     journal: Option<Journal>, files: map<nat, Data>, record: Option<Journal>)
    requires Inv(job, begun, goal, t, staged, journal)
    requires WellPlanned(job.patch) ==> AllFinal(job, t)
    ensures Inv(job, begun, goal, t, files, record)
  {
  }

  /** A commit keeps the invariant and shortens what is pending. */
  lemma CommitKeeps(job: Job, begun: Tree, goal: map<Path, Data>, t: Tree, staged: map<nat, Data>,
                    journal: Option<Journal>, pending: seq<nat>, k: nat)
    requires Inv(job, begun, goal, t, staged, journal)
    requires k < |pending| && PendingOk(job, t, staged, pending, k) && pending[k] in staged
    requires var q := job.patch.newEntries[pending[k]].path;
      && !Reserved(q) && !IsDir(t, q) && forall a :: IsAncestor(a, q) ==> IsDir(t, a)
    ensures var i := pending[k];
      var u := t[job.patch.newEntries[i].path := File(staged[i])];
      && Inv(job, begun, goal, u, staged - {i}, journal)
      && PendingOk(job, u, staged - {i}, pending, k + 1)
      && (DirsMade(job.patch, t) ==> DirsMade(job.patch, u))
  {
    var i := pending[k];
    var q := job.patch.newEntries[i].path;
    var u := t[q := File(staged[i])];
    CommitAdvances(job, t, staged, pending, k);
    hide Reserved, Consistent, TreeOk, Visible;
    FilePutKeepsTree(t, q, staged[i]);
    if Clear(job.patch) {
      InstallKeeps(job, begun, t, i, staged[i]);
    }
    if WellPlanned(job.patch) {
      PendingIsSafe(job, u, staged - {i}, pending, k + 1);
    }
  }

  lemma NewFileHasRoom(p: Patch, t: Tree, e: NewEntry)
    requires NoConflict(p, t) && e in p.newEntries && IsFile(e)
    ensures !IsDir(t, e.path)
  {
    assert IsNewFile(p, e.path);
  }

  lemma CommitAdvances(job: Job, t: Tree, staged: map<nat, Data>, pending: seq<nat>, k: nat)
    requires k < |pending| && PendingOk(job, t, staged, pending, k) && pending[k] in staged
    ensures var i := pending[k];
      PendingOk(job, t[job.patch.newEntries[i].path := File(staged[i])], staged - {i}, pending, k + 1)
  {
    hide Reserved, NeedsDir;
    var i := pending[k];
    var u := t[job.patch.newEntries[i].path := File(staged[i])];
    if WellPlanned(job.patch) {
      assert pending[k..] == [i] + pending[k + 1..];
      forall j | 0 <= j < |job.patch.newEntries| && IsFile(job.patch.newEntries[j])
        ensures FinalOk(job, u, j) || j in pending[k + 1..]
      {
        assert job.patch.newEntries[j] in job.patch.newEntries && job.patch.newEntries[i] in job.patch.newEntries;
        assert Agree(job.patch.newEntries[j], job.patch.newEntries[i]);
        assert FinalOk(job, t, j) || j in pending[k..];
      }
    }
  }

  method CommitAll(job: Job, disk: Disk, pending: seq<nat>, ghost begun: Tree, ghost goal: map<Path, Data>)
    returns (step: Step, moved: seq<Path>)
    requires DiskInv(job, begun, goal, disk)
    requires PendingOk(job, disk.tree, disk.staged, pending, 0)
    requires WellPlanned(job.patch) ==> DirsMade(job.patch, disk.tree)
    modifies disk`tree, disk`staged, disk`journal, disk`budget
    ensures DiskInv(job, begun, goal, disk)
    ensures old(disk.budget).None? ==> !step.PowerCut? && disk.budget.None?
    ensures step.Completed? && WellPlanned(job.patch) ==> AllFinal(job, disk.tree) && DirsMade(job.patch, disk.tree)
    ensures step.Refused? && WellPlanned(job.patch) ==> !NoConflict(job.patch, begun)
  {
    moved := [];
    for k := 0 to |pending|
      invariant DiskInv(job, begun, goal, disk)
      invariant old(disk.budget).None? ==> disk.budget.None?
      invariant PendingOk(job, disk.tree, disk.staged, pending, k)
      invariant WellPlanned(job.patch) ==> DirsMade(job.patch, disk.tree)
    {
      step := CommitOne(job, disk, pending, k, begun, goal);
      if !step.Completed? {
        return;
      }
      moved := moved + [job.patch.newEntries[pending[k]].path];
    }
    step := Completed;
  }

  // ---------- Deletion ----------

  predicate Childless(t: Tree, d: Path) {
    forall x <- t :: !IsAncestor(d, x)
  }

  /** One managed deletion: files go, directories only when empty. */
  function DeleteOne(t: Tree, d: Path): Tree {
    if d in t && (t[d].File? || Childless(t, d)) then t - {d} else t
  }

  /** The deletion pass over the patch's list, in its order. */
  function DeletePass(t: Tree, ds: seq<Path>): Tree {
    if ds == [] then t else DeletePass(DeleteOne(t, ds[0]), ds[1..])
  }

  method DeleteRemoved(job: Job, disk: Disk, ghost begun: Tree, ghost goal: map<Path, Data>) returns (step: Step)
    requires job.deleteRemoved && DiskInv(job, begun, goal, disk)
    requires WellPlanned(job.patch) ==> AllFinal(job, disk.tree) && DirsMade(job.patch, disk.tree)
    modifies disk`tree, disk`staged, disk`journal, disk`budget
    ensures DiskInv(job, begun, goal, disk)
    ensures old(disk.budget).None? ==> step.Completed? && disk.budget.None?
    ensures !step.Refused?
    ensures WellPlanned(job.patch) ==> AllFinal(job, disk.tree) && DirsMade(job.patch, disk.tree)
    ensures step.Completed? ==> disk.tree == DeletePass(old(disk.tree), job.patch.deleted)
    ensures step.Completed? ==> forall d <- job.patch.deleted :: FileAt(disk.tree, d).None?
  {
    hide Reserved, Inv, WellPlanned, Childless;
    var ds := job.patch.deleted;
    assert ds[0..] == ds;
    for k := 0 to |ds|
      invariant DiskInv(job, begun, goal, disk)
      invariant old(disk.budget).None? ==> disk.budget.None?
      invariant WellPlanned(job.patch) ==> AllFinal(job, disk.tree) && DirsMade(job.patch, disk.tree)
      invariant DeletePass(old(disk.tree), ds) == DeletePass(disk.tree, ds[k..])
      invariant forall j :: 0 <= j < k ==> FileAt(disk.tree, ds[j]).None?
    {
      var d := ds[k];
      assert ds[k..][1..] == ds[k + 1..] && d in ds;
      if Reserved(d) {
        ghost var staged, journal := disk.staged, disk.journal;
        step := disk.Scramble(false);
        RegionIsFree(job, begun, goal, disk.tree, staged, journal, disk.staged, disk.journal);
        ReservedIsAbsent(job, begun, goal, disk, d);
        if !step.Completed? {
          return;
        }
      } else if d in disk.tree && (disk.tree[d].File? || Childless(disk.tree, d)) {
        DeletionKeeps(job, begun, goal, disk.tree, disk.staged, disk.journal, d);
        step := disk.Remove(d);
        if !step.Completed? {
          return;
        }
      }
    }
    step := Completed;
  }

  lemma ReservedIsAbsent(job: Job, begun: Tree, goal: map<Path, Data>, disk: Disk, q: Path)
    requires DiskInv(job, begun, goal, disk) && Reserved(q)
    ensures q !in disk.tree
  {
  }

  /** Deleting a listed file or empty directory keeps the invariant and everything new. */
  lemma DeletionKeeps(job: Job, begun: Tree, goal: map<Path, Data>, t: Tree, staged: map<nat, Data>,
                      journal: Option<Journal>, d: Path)
    requires Inv(job, begun, goal, t, staged, journal) && Deletes(job, d)
    requires d in t && (t[d].File? || Childless(t, d))
    requires WellPlanned(job.patch) ==> AllFinal(job, t) && DirsMade(job.patch, t)
    ensures Inv(job, begun, goal, t - {d}, staged, journal)
    ensures WellPlanned(job.patch) ==> AllFinal(job, t - {d}) && DirsMade(job.patch, t - {d})
  {
    RemoveKeeps(job, begun, t, d);
  }

  // ---------- Clean-up ----------

  method CleanUp(job: Job, disk: Disk, ghost begun: Tree, ghost goal: map<Path, Data>) returns (step: Step)
    requires DiskInv(job, begun, goal, disk)
    requires WellPlanned(job.patch) ==> AllFinal(job, disk.tree)
    modifies disk`staged, disk`journal, disk`budget
    ensures DiskInv(job, begun, goal, disk)
    ensures old(disk.budget).None? ==> step.Completed? && disk.budget.None?
    ensures !step.Refused?
    ensures step.Completed? ==> disk.staged == map[] && disk.journal == None
  {
    while disk.staged != map[]
      invariant DiskInv(job, begun, goal, disk)
      invariant old(disk.budget).None? ==> disk.budget.None?
      decreases |disk.staged|
    {
      var i :| i in disk.staged;
      assert |disk.staged - {i}| < |disk.staged| by {
        assert disk.staged.Keys == (disk.staged - {i}).Keys + {i};
      }
      step := disk.RemoveStaged(i);
      if !step.Completed? {
        return;
      }
    }
    step := disk.SaveJournal(None);
  }

  // ---------- apply ----------

  datatype Outcome = Done | Failed(reconstructing: bool) | Interrupted

  /** The directory branch of `apply`. Whatever happens, the invariant holds afterwards: no file
      is ever a torn mix, an honest journal stays honest, and a sound patch stays recoverable. */
  method Apply(job: Job, disk: Disk, ghost begun: Tree, ghost goal: map<Path, Data>) returns (r: Outcome)
    requires Runnable(job) && TreeOk(begun) && DiskInv(job, begun, goal, disk)
    modifies disk`tree, disk`staged, disk`journal, disk`budget
    ensures DiskInv(job, begun, goal, disk)
    ensures old(disk.budget).None? ==> !r.Interrupted? && disk.budget.None?
    // a failing reconstruction leaves every user file as it was
    ensures r == Failed(true) ==> disk.tree == old(disk.tree) && !Sound(job, begun, goal)
    // with a planned patch the only other failure is a file where a directory must go, or the reverse
    ensures WellPlanned(job.patch) && r == Failed(false) ==> !NoConflict(job.patch, begun)
    ensures WellPlanned(job.patch) && r == Done ==>
      NoConflict(job.patch, begun) && AllFinal(job, disk.tree) && DirsMade(job.patch, disk.tree)
    // planned or not, a finished apply has cleaned up and made every deletion
    ensures r == Done ==> disk.staged == map[] && disk.journal == None
    ensures r == Done && job.deleteRemoved ==> forall d <- job.patch.deleted :: FileAt(disk.tree, d).None?
    ensures Sound(job, begun, goal) && r == Done ==> Updated(job, begun, goal, disk.tree)
  {
    var step := disk.SaveJournal(Some(Journal(job.identity, Staging, [])));
    if step.PowerCut? {
      return Interrupted;
    }
    var pending;
    step, pending := StageAll(job, disk, begun, goal);
    if step.Refused? {
      step := disk.SaveJournal(Some(Journal(job.identity, FailedRun, [])));
      return if step.PowerCut? then Interrupted else Failed(true);
    } else if step.PowerCut? {
      return Interrupted;
    }
    if WellPlanned(job.patch) {
      PendingIsSafe(job, disk.tree, disk.staged, pending, 0);
    }
    step := disk.SaveJournal(Some(Journal(job.identity, Verified, [])));
    if step.PowerCut? {
      return Interrupted;
    }
    r := Finish(job, disk, pending, begun, goal);
  }

  /** Any journal may be written once every new file is safe. */
  lemma JournalIsFree(job: Job, begun: Tree, goal: map<Path, Data>, t: Tree, staged: map<nat, Data>,
                      journal: Option<Journal>, record: Option<Journal>)
    requires Inv(job, begun, goal, t, staged, journal) && (WellPlanned(job.patch) ==> AllSafe(job, t, staged))
    ensures Inv(job, begun, goal, t, staged, record)
  {
  }

  lemma StillNoConflict(job: Job, begun: Tree, goal: map<Path, Data>, t: Tree, staged: map<nat, Data>,
                        journal: Option<Journal>)
    requires Inv(job, begun, goal, t, staged, journal) && WellPlanned(job.patch) && NoConflict(job.patch, begun)
    ensures NoConflict(job.patch, t)
  {
    ConflictsDoNotAppear(job, begun, t);
  }

  /** New directories do not disturb what is pending. */
  lemma PendingStays(job: Job, t: Tree, u: Tree, staged: map<nat, Data>, files: map<nat, Data>, pending: seq<nat>)
    requires PendingOk(job, t, staged, pending, 0) && Grown(t, u) && (Clear(job.patch) ==> files == staged)
    ensures PendingOk(job, u, files, pending, 0)
  {
  }

  /** `apply` from the verified state on. */
  method Finish(job: Job, disk: Disk, pending: seq<nat>, ghost begun: Tree, ghost goal: map<Path, Data>)
    returns (r: Outcome)
    requires Runnable(job) && TreeOk(begun) && DiskInv(job, begun, goal, disk)
    requires PendingOk(job, disk.tree, disk.staged, pending, 0)
    modifies disk`tree, disk`staged, disk`journal, disk`budget
    ensures DiskInv(job, begun, goal, disk)
    ensures old(disk.budget).None? ==> !r.Interrupted? && disk.budget.None?
    ensures r != Failed(true)
    ensures WellPlanned(job.patch) && r == Failed(false) ==> !NoConflict(job.patch, begun)
    ensures WellPlanned(job.patch) && r == Done ==>
      NoConflict(job.patch, begun) && AllFinal(job, disk.tree) && DirsMade(job.patch, disk.tree)
    // planned or not, a finished apply has cleaned up and made every deletion
    ensures r == Done ==> disk.staged == map[] && disk.journal == None
    ensures r == Done && job.deleteRemoved ==> forall d <- job.patch.deleted :: FileAt(disk.tree, d).None?
    ensures Sound(job, begun, goal) && r == Done ==> Updated(job, begun, goal, disk.tree)
  {
    hide Inv, PendingOk, AllSafe, Consistent, Reserved;
    ghost var t, staged := disk.tree, disk.staged;
    var step := MakeDirs(job, disk, begun, goal);
    PendingStays(job, t, disk.tree, staged, disk.staged, pending);
    if step.Refused? {
      if WellPlanned(job.patch) && NoConflict(job.patch, begun) {
        StillNoConflict(job, begun, goal, disk.tree, disk.staged, disk.journal);
      }
      return Failed(false);
    } else if step.PowerCut? {
      return Interrupted;
    }
    if WellPlanned(job.patch) {
      PendingIsSafe(job, disk.tree, disk.staged, pending, 0);
    }
    var record := Some(Journal(job.identity, Committing, []));
    JournalIsFree(job, begun, goal, disk.tree, disk.staged, disk.journal, record);
    step := disk.SaveJournal(record);
    if step.PowerCut? {
      return Interrupted;
    }
    var moved;
    step, moved := CommitAll(job, disk, pending, begun, goal);
    if !step.Completed? {
      return if step.Refused? then Failed(false) else Interrupted;
    }
    r := Conclude(job, disk, moved, begun, goal);
  }

  /** `apply` once every file is in place. */
  method Conclude(job: Job, disk: Disk, moved: seq<Path>, ghost begun: Tree, ghost goal: map<Path, Data>)
    returns (r: Outcome)
    requires Runnable(job) && TreeOk(begun) && DiskInv(job, begun, goal, disk)
    requires WellPlanned(job.patch) ==> AllFinal(job, disk.tree) && DirsMade(job.patch, disk.tree)
    modifies disk`tree, disk`staged, disk`journal, disk`budget
    ensures DiskInv(job, begun, goal, disk)
    ensures old(disk.budget).None? ==> r == Done && disk.budget.None?
    ensures r.Done? || r.Interrupted?
    ensures WellPlanned(job.patch) && r == Done ==>
      NoConflict(job.patch, begun) && AllFinal(job, disk.tree) && DirsMade(job.patch, disk.tree)
    // planned or not, a finished apply has cleaned up and made every deletion
    ensures r == Done ==> disk.staged == map[] && disk.journal == None
    ensures r == Done && job.deleteRemoved ==> forall d <- job.patch.deleted :: FileAt(disk.tree, d).None?
    ensures Sound(job, begun, goal) && r == Done ==> Updated(job, begun, goal, disk.tree)
  {
    var step;
    if job.deleteRemoved {
      step := DeleteRemoved(job, disk, begun, goal);
      if step.PowerCut? {
        return Interrupted;
      }
    }
    if WellPlanned(job.patch) {
      CompletionRefutesConflict(job, begun, disk.tree);
    }
    if Sound(job, begun, goal) {
      FinishedIsUpdated(job, begun, goal, disk.tree);
    }
    step := disk.SaveJournal(Some(Journal(job.identity, Committed, moved)));
    if step.PowerCut? {
      return Interrupted;
    }
    step := CleanUp(job, disk, begun, goal);
    return if step.PowerCut? then Interrupted else Done;
  }

  // ---------- Recovery ----------

  /** A power cut: how many actions it allows, and what it leaves of a write in progress. */
  datatype Cut = Cut(actions: nat, tear: Option<Data>)

  /** Crash recovery: the same apply is re-run after each power cut and finally left alone. However
      the cuts fall, it ends with every file of the new build in place, every managed deletion made
      and every other file untouched, exactly when no path changes between file and directory and
      nothing new is to go to a reserved name. */
  method ApplyThroughPowerCuts(job: Job, disk: Disk, cuts: seq<Cut>, ghost goal: map<Path, Data>)
    returns (r: Outcome)
    requires Runnable(job) && TreeOk(disk.tree) && Visible(disk.tree)
    requires Honest(job, disk.tree, disk.staged, disk.journal)
    modifies disk
    ensures !r.Interrupted?
    ensures Inv(job, old(disk.tree), goal, disk.tree, disk.staged, disk.journal)
    ensures Restores(job, old(disk.tree), goal) ==>
      (r == Done && Updated(job, old(disk.tree), goal, disk.tree) && DirsMade(job.patch, disk.tree)
       <==> NoConflict(job.patch, old(disk.tree)) && Clear(job.patch))
    ensures Sound(job, old(disk.tree), goal) ==> (r == Done <==> NoConflict(job.patch, old(disk.tree)))
    ensures r == Done ==> disk.staged == map[] && disk.journal == None
    ensures r == Done && job.deleteRemoved ==> forall d <- job.patch.deleted :: FileAt(disk.tree, d).None?
  {
    hide Updated, NoConflict, Consistent, Clear, Honest, Between;
    ghost var begun := disk.tree;
    InvAtStart(job, begun, goal, disk.staged, disk.journal);
    for k := 0 to |cuts|
      invariant DiskInv(job, begun, goal, disk)
    {
      disk.budget, disk.tear := Some(cuts[k].actions), cuts[k].tear;
      r := Apply(job, disk, begun, goal);
      if !r.Interrupted? {
        LostAtReservedNames(job, disk, begun, goal);
        return;
      }
    }
    disk.budget := None;
    r := Apply(job, disk, begun, goal);
    LostAtReservedNames(job, disk, begun, goal);
  }

  lemma LostAtReservedNames(job: Job, disk: Disk, begun: Tree, goal: map<Path, Data>)
    requires DiskInv(job, begun, goal, disk)
    ensures Restores(job, begun, goal) && !Clear(job.patch) ==>
      !(Updated(job, begun, goal, disk.tree) && DirsMade(job.patch, disk.tree))
  {
    hide Clear, Updated, Restores;
    if Restores(job, begun, goal) && !Clear(job.patch) {
      ReservedIsLost(job, begun, goal, disk.tree);
    }
  }

  // ---------- Empty directories ----------

  lemma {:induction false} DeletePassFiles(t: Tree, ds: seq<Path>, q: Path)
    ensures FileAt(DeletePass(t, ds), q) == if q in ds then None else FileAt(t, q)
    decreases |ds|
  {
    if ds != [] {
      DeletePassFiles(DeleteOne(t, ds[0]), ds[1..], q);
    }
  }

  /** A sorted walk: a directory comes before everything below it. */
  ghost predicate ParentsFirst(ds: seq<Path>) {
    forall i, j :: 0 <= i < j < |ds| ==> !IsAncestor(ds[j], ds[i])
  }

  /** Whether the pass over `ds` removes `q`: a listed file, or a listed directory with nothing in it. */
  predicate Goes(t: Tree, ds: seq<Path>, q: Path) {
    q in t && q in ds && (t[q].File? || Childless(t, q))
  }

  function AfterDeletes(t: Tree, ds: seq<Path>): Tree {
    map q | q in t && !Goes(t, ds, q) :: t[q]
  }

  lemma GoesLater(t: Tree, ds: seq<Path>, q: Path)
    requires ds != [] && ParentsFirst(ds)
    ensures var u := DeleteOne(t, ds[0]); Goes(t, ds, q) <==> (q in t && q !in u) || Goes(u, ds[1..], q)
  {
    var d, u := ds[0], DeleteOne(t, ds[0]);
    if q in ds[1..] {
      var j :| 1 <= j < |ds| && ds[j] == q;
      assert !IsAncestor(q, d);
      assert Childless(u, q) <==> Childless(t, q);
    }
  }

  /** In a list with parents first, what goes can be read off the tree the pass starts from. */
  lemma {:induction false} DeletePassExact(t: Tree, ds: seq<Path>)
    requires ParentsFirst(ds)
    ensures DeletePass(t, ds) == AfterDeletes(t, ds)
    decreases |ds|
  {
    if ds != [] {
      var u := DeleteOne(t, ds[0]);
      DeletePassExact(u, ds[1..]);
      forall q ensures q in AfterDeletes(u, ds[1..]) <==> q in AfterDeletes(t, ds) {
        GoesLater(t, ds, q);
      }
    }
  }

  /** The pass leaves no listed directory behind if and only if none had anything in it; each one
      that had stays, even if all of it went. */
  lemma DirectoriesLeftBehind(t: Tree, ds: seq<Path>)
    requires ParentsFirst(ds)
    ensures forall d <- ds :: IsDir(t, d) ==> (d in DeletePass(t, ds) <==> !Childless(t, d))
    ensures (forall d <- ds :: d !in DeletePass(t, ds)) <==> (forall d <- ds :: IsDir(t, d) ==> Childless(t, d))
  {
    DeletePassExact(t, ds);
  }

  /** A listed directory whose whole content goes, which the pass therefore leaves empty. */
  predicate Emptied(t: Tree, ds: seq<Path>, d: Path) {
    IsDir(t, d) && !Childless(t, d) && forall q <- t :: IsAncestor(d, q) ==> Goes(t, ds, q)
  }

  /** Re-running the deletion pass changes no file, and nothing at all if and only if no listed
      directory is emptied by it. */
  lemma SecondDeletePass(t: Tree, ds: seq<Path>)
    requires ParentsFirst(ds)
    ensures SameFiles(DeletePass(DeletePass(t, ds), ds), DeletePass(t, ds))
    ensures DeletePass(DeletePass(t, ds), ds) == DeletePass(t, ds) <==> forall d <- ds :: !Emptied(t, ds, d)
  {
    var u := DeletePass(t, ds);
    forall q ensures FileAt(DeletePass(u, ds), q) == FileAt(u, q) {
      DeletePassFiles(t, ds, q);
      DeletePassFiles(u, ds, q);
    }
    forall d | d in ds ensures FileAt(u, d).None? {
      DeletePassFiles(t, ds, d);
    }
    DeletePassIdle(u, ds);
    DeletePassExact(t, ds);
    forall d | d in ds ensures IsDir(u, d) && Childless(u, d) <==> Emptied(t, ds, d) {
      assert Childless(u, d) <==> forall q <- t :: IsAncestor(d, q) ==> Goes(t, ds, q);
    }
  }

  lemma {:induction false} DeletePassIdle(u: Tree, ds: seq<Path>)
    requires forall d <- ds :: FileAt(u, d).None?
    ensures DeletePass(u, ds) == u <==> forall d <- ds :: IsDir(u, d) ==> !Childless(u, d)
    decreases |ds|
  {
    if ds != [] {
      var v := DeleteOne(u, ds[0]);
      if v == u {
        DeletePassIdle(u, ds[1..]);
        assert forall d :: d in ds <==> d == ds[0] || d in ds[1..];
      } else {
        assert ds[0] in u && ds[0] !in v && ds[0] in ds;
        DeletePassShrinks(v, ds[1..]);
      }
    }
  }

  lemma {:induction false} DeletePassShrinks(t: Tree, ds: seq<Path>)
    ensures DeletePass(t, ds).Keys <= t.Keys
    decreases |ds|
  {
    if ds != [] {
      DeletePassShrinks(DeleteOne(t, ds[0]), ds[1..]);
    }
  }

  /** The deletion list `generate` writes names a directory before its files, so an uninterrupted
      apply leaves the emptied directory behind and a second run would remove it. */
  lemma EmptiedDirectoryStays()
    ensures var d, f: Path := [100], [100, SLASH, 102];
      var t: Tree := map[d := Dir, f := File([7])];
      && DeletePass(t, [d, f]) == map[d := Dir]
      && DeletePass(DeletePass(t, [d, f]), [d, f]) == map[]
  {
    var d, f: Path := [100], [100, SLASH, 102];
    var t: Tree := map[d := Dir, f := File([7])];
    assert IsAncestor(d, f) && f in t;
    var u := DeletePass(t, [d, f]);
    assert [d, f][1..] == [f] && [f][1..] == [];
    assert DeleteOne(t, d) == t;
    assert u == DeletePass(t, [f]) == DeletePass(DeleteOne(t, f), []);
    assert DeleteOne(t, f) == map[d := Dir];
    assert Childless(u, d);
    assert DeleteOne(u, d) == map[];
    assert DeletePass(u, [d, f]) == DeletePass(map[], [f]) == DeleteOne(map[], f);
  }
}
