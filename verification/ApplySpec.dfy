/** What a directory apply works on and what it must keep true at every moment: the file tree,
    the staged copies, the journal, and the meaning of a patch entry. */
module ApplySpec {
  import opened Bytes
  import opened PatchTypes
  import opened PatchCodec
  import opened Compile

  type Path = Data

  datatype Node = File(data: Data) | Dir

  /** A directory tree: a build, or the visible part of the output root. */
  type Tree = map<Path, Node>

  predicate Under(root: Path, q: Path) {
    q == root || IsAncestor(root, q)
  }

  /** The names `apply` uses for itself in the output root, and all below them. */
  predicate Reserved(q: Path) {
    Under(STAGING, q) || Under(JOURNAL, q) || Under(JOURNAL_TMP, q)
  }

  /** Nothing sits at a reserved name. */
  ghost predicate Visible(t: Tree) {
    forall q <- t :: !Reserved(q)
  }

  function FileAt(t: Tree, q: Path): Option<Data> {
    if q in t && t[q].File? then Some(t[q].data) else None
  }

  predicate IsDir(t: Tree, q: Path) {
    q in t && t[q].Dir?
  }

  predicate IsAncestor(a: Path, q: Path) {
    |a| < |q| && q[..|a|] == a && q[|a|] == SLASH
  }

  /** A file system tree: whatever has a path lies in directories. */
  ghost predicate TreeOk(t: Tree) {
    forall q, a :: q in t && IsAncestor(a, q) ==> IsDir(t, a)
  }

  // ---------- The foreign tools and the job ----------

  /** Hashing, compression and the external delta tools, known by their contracts only. */
  datatype Tools = Tools(hash: Data -> ChunkHash,
                         compress: (Data, Data) -> Option<Data>,
                         decompress: (Data, Data, nat) -> Option<Data>,
                         bsdiff: (Data, Data) -> Option<Data>,
                         bspatch: (Data, Data) -> Option<Data>,
                         xdelta: (Data, Data) -> Option<Data>,
                         xpatch: (Data, Data) -> Option<Data>)

  /** `oldRoot` is `None` when the update runs in place. */
  datatype Job = Job(tools: Tools, patch: Patch, identity: ChunkHash,
                     deleteRemoved: bool, checkOld: bool, oldRoot: Option<Tree>)

  predicate Runnable(job: Job) {
    job.patch.mode.Directory? && Valid(job.patch)
  }

  function Source(job: Job, t: Tree): Tree {
    if job.oldRoot.Some? then job.oldRoot.value else t
  }

  // ---------- One entry ----------

  predicate IsFile(e: NewEntry) {
    e.kind.FileEntry?
  }

  predicate HashOk(job: Job, e: NewEntry, data: Data) {
    e.blake3.Some? && job.tools.hash(data) == e.blake3.value
  }

  /** `file_matches`: same size and same hash. */
  predicate Matches(job: Job, e: NewEntry, content: Option<Data>) {
    content.Some? && |content.value| == e.size && HashOk(job, e, content.value)
  }

  /** What reconstruction works with besides the entry itself. */
  datatype Parts = Parts(tools: Tools, checkOld: bool, oldFiles: seq<OldFile>, sections: seq<Section>)

  function PartsOf(job: Job): Parts {
    Parts(job.tools, job.checkOld, job.patch.oldFiles, job.patch.sections)
  }

  function OldContents(oldFiles: seq<OldFile>, src: Tree): (r: seq<Option<Data>>)
    ensures |r| == |oldFiles|
  {
    seq(|oldFiles|, i requires 0 <= i < |oldFiles| => FileAt(src, oldFiles[i].path))
  }

  /** The `check_old` closure: the old file, if it is there with its recorded size (and hash). */
  function CheckedOld(parts: Parts, src: Tree, idx: nat): Option<Data>
    requires idx < |parts.oldFiles|
  {
    var f := parts.oldFiles[idx];
    var content := FileAt(src, f.path);
    if content.None? || |content.value| != f.size then None
    else if parts.checkOld && parts.tools.hash(content.value) != f.blake3 then None
    else content
  }

  /** `decompress_section_to`. */
  function SectionBytes(tools: Tools, s: Section): Option<Data> {
    match tools.decompress(s.compression, s.data, s.rawLen)
    case None => None
    case Some(raw) =>
      if |raw| == s.rawLen && tools.hash(raw) == s.rawBlake3 then Some(raw) else None
  }

  /** The bytes `reconstruct_file` writes by a strategy, before they are verified. */
  function RunStrategy(parts: Parts, src: Tree, x: Strategy, size: U64): Option<Data>
    requires ValidStrategy(x, size, |parts.oldFiles|, |parts.sections|)
  {
    match x
    case CopyWhole(idx) => CheckedOld(parts, src, idx)
    case FullData(sec) => SectionBytes(parts.tools, parts.sections[sec])
    case PlanOps(sec, ops) =>
      var raw := SectionBytes(parts.tools, parts.sections[sec]);
      if raw.None? then None else RunOps(ops, OldContents(parts.oldFiles, src), raw.value)
    case Bsdiff(idx, sec) => Patched(parts, src, idx, sec, parts.tools.bspatch)
    case Xdelta3(idx, sec) => Patched(parts, src, idx, sec, parts.tools.xpatch)
  }

  function Patched(parts: Parts, src: Tree, idx: nat, sec: nat, tool: (Data, Data) -> Option<Data>): Option<Data>
    requires idx < |parts.oldFiles| && sec < |parts.sections|
  {
    var old_ := CheckedOld(parts, src, idx);
    var raw := SectionBytes(parts.tools, parts.sections[sec]);
    if old_.None? || raw.None? then None else tool(old_.value, raw.value)
  }

  /** `RunStrategy` for a file entry of the job's patch. */
  function Rebuild(job: Job, t: Tree, e: NewEntry): Option<Data>
    requires Runnable(job) && e in job.patch.newEntries && IsFile(e)
  {
    assert ValidEntry(e, job.patch.mode, |job.patch.oldFiles|, |job.patch.sections|);
    RunStrategy(PartsOf(job), Source(job, t), e.strategy.value, e.size)
  }

  /** Reconstruction reads nothing but the listed old files. */
  lemma StrategyReadsOldFiles(parts: Parts, src: Tree, other: Tree, x: Strategy, size: U64)
    requires ValidStrategy(x, size, |parts.oldFiles|, |parts.sections|)
    requires forall f <- parts.oldFiles :: FileAt(src, f.path) == FileAt(other, f.path)
    ensures RunStrategy(parts, src, x, size) == RunStrategy(parts, other, x, size)
  {
    assert OldContents(parts.oldFiles, src) == OldContents(parts.oldFiles, other);
    assert forall i | 0 <= i < |parts.oldFiles| :: parts.oldFiles[i] in parts.oldFiles;
  }

  /** The same files, whatever the directories. */
  ghost predicate SameFiles(t: Tree, u: Tree) {
    forall q :: FileAt(t, q) == FileAt(u, q)
  }

  lemma RebuildReadsFiles(job: Job, t: Tree, u: Tree, e: NewEntry)
    requires Runnable(job) && e in job.patch.newEntries && IsFile(e) && SameFiles(t, u)
    ensures Rebuild(job, t, e) == Rebuild(job, u, e)
  {
    assert ValidEntry(e, job.patch.mode, |job.patch.oldFiles|, |job.patch.sections|);
    StrategyReadsOldFiles(PartsOf(job), Source(job, t), Source(job, u), e.strategy.value, e.size);
  }

  // ---------- The new tree's shape ----------

  ghost predicate IsNewFile(p: Patch, q: Path) {
    exists e <- p.newEntries :: IsFile(e) && e.path == q
  }

  predicate NeedsDir(e: NewEntry, q: Path) {
    (IsFile(e) && IsAncestor(q, e.path)) || (e.kind.DirectoryEntry? && (e.path == q || IsAncestor(q, e.path)))
  }

  ghost predicate MustBeDir(p: Patch, q: Path) {
    exists e <- p.newEntries :: NeedsDir(e, q)
  }

  /** Entries for the same path expect the same content there. */
  predicate Agree(e: NewEntry, f: NewEntry) {
    e.path == f.path ==> e.blake3 == f.blake3
  }

  /** The new side is a tree and removes nothing it adds. `validate` does not check this;
      `generate` provides it. */
  ghost predicate Consistent(p: Patch) {
    && (forall e <- p.newEntries, f <- p.newEntries :: IsFile(e) && IsFile(f) ==> Agree(e, f))
    && (forall q :: IsNewFile(p, q) ==> !MustBeDir(p, q))
    && (forall d <- p.deleted, e <- p.newEntries :: d != e.path && !NeedsDir(e, d))
  }

  /** No file or directory is to be created at a reserved name. Nothing checks this. */
  predicate Clear(p: Patch) {
    forall e <- p.newEntries :: IsFile(e) || e.kind.DirectoryEntry? ==> !Reserved(e.path)
  }

  ghost predicate WellPlanned(p: Patch) {
    Consistent(p) && Clear(p)
  }

  /** No path is a file on one side and a directory on the other. */
  ghost predicate NoConflict(p: Patch, t: Tree) {
    && (forall q :: IsNewFile(p, q) ==> !IsDir(t, q))
    && (forall q :: MustBeDir(p, q) ==> FileAt(t, q).None?)
  }

  // ---------- Invariants ----------

  /** Where `q` stands between the tree the update began with and the one it aims at: as it
      was, a whole new file carrying its recorded hash, a directory made for the new tree, or
      gone because it was to be deleted. Never a torn mix. */
  ghost predicate Settled(job: Job, begun: Tree, t: Tree, q: Path) {
    || (q in t && q in begun && t[q] == begun[q])
    || (q !in t && q !in begun)
    || (q in t && t[q].File? && Installs(job, q, t[q].data) && (IsDir(begun, q) ==> Deletes(job, q)))
    || (q in t && t[q].Dir? && MustBeDir(job.patch, q) && (q in begun ==> Deletes(job, q)))
    || (q !in t && Deletes(job, q))
  }

  predicate Deletes(job: Job, q: Path) {
    job.deleteRemoved && q in job.patch.deleted
  }

  ghost predicate Installs(job: Job, q: Path, data: Data) {
    exists e <- job.patch.newEntries :: IsFile(e) && e.path == q && HashOk(job, e, data)
  }

  ghost predicate Between(job: Job, begun: Tree, t: Tree) {
    forall q :: Settled(job, begun, t, q)
  }

  ghost predicate FinalOk(job: Job, t: Tree, i: nat)
    requires i < |job.patch.newEntries|
  {
    var e := job.patch.newEntries[i];
    FileAt(t, e.path).Some? && HashOk(job, e, FileAt(t, e.path).value)
  }

  ghost predicate StagedOk(job: Job, staged: map<nat, Data>, i: nat)
    requires i < |job.patch.newEntries|
  {
    i in staged && HashOk(job, job.patch.newEntries[i], staged[i])
  }

  ghost predicate AllFinal(job: Job, t: Tree) {
    forall i :: 0 <= i < |job.patch.newEntries| && IsFile(job.patch.newEntries[i]) ==> FinalOk(job, t, i)
  }

  /** Every file of the new build exists whole, in place or staged. */
  ghost predicate AllSafe(job: Job, t: Tree, staged: map<nat, Data>) {
    forall i :: 0 <= i < |job.patch.newEntries| && IsFile(job.patch.newEntries[i]) ==>
      FinalOk(job, t, i) || StagedOk(job, staged, i)
  }

  datatype JournalState = Staging | Verified | Committing | Committed | FailedRun

  datatype Journal = Journal(patch: ChunkHash, state: JournalState, moved: seq<Path>)

  /** A journal of this patch that says `verified` or later is telling the truth. */
  ghost predicate Honest(job: Job, t: Tree, staged: map<nat, Data>, journal: Option<Journal>) {
    && journal.Some? && journal.value.patch == job.identity
    && (journal.value.state.Verified? || journal.value.state.Committing? || journal.value.state.Committed?)
    && WellPlanned(job.patch)
    ==> AllSafe(job, t, staged)
  }

  /** `goal` gives each new file its content, and the patch rebuilds it from the old build. */
  ghost predicate Restores(job: Job, begun: Tree, goal: map<Path, Data>) {
    && Runnable(job) && Consistent(job.patch)
    && forall e <- job.patch.newEntries :: IsFile(e) ==>
         && e.path in goal && Rebuild(job, begun, e) == Some(goal[e.path])
         && Matches(job, e, Some(goal[e.path])) && NoCollision(job.tools.hash, goal[e.path])
  }

  ghost predicate Sound(job: Job, begun: Tree, goal: map<Path, Data>) {
    Restores(job, begun, goal) && Clear(job.patch)
  }

  /** Either no file has been touched yet, or nothing of the old build is needed any more. */
  ghost predicate Recoverable(job: Job, begun: Tree, t: Tree, staged: map<nat, Data>) {
    SameFiles(t, begun) || AllSafe(job, t, staged)
  }

  ghost predicate Inv(job: Job, begun: Tree, goal: map<Path, Data>,
                      t: Tree, staged: map<nat, Data>, journal: Option<Journal>) {
    && TreeOk(t) && Visible(t) && (Clear(job.patch) ==> Between(job, begun, t))
    && Honest(job, t, staged, journal)
    && (Sound(job, begun, goal) ==> Recoverable(job, begun, t, staged))
  }

  lemma InvAtStart(job: Job, t: Tree, goal: map<Path, Data>, staged: map<nat, Data>, journal: Option<Journal>)
    requires TreeOk(t) && Visible(t) && Honest(job, t, staged, journal)
    ensures Inv(job, t, goal, t, staged, journal)
  {
  }

  /** With a sound patch the recorded hash identifies the content. */
  lemma HashIdentifies(job: Job, begun: Tree, goal: map<Path, Data>, i: nat, data: Data)
    requires Sound(job, begun, goal)
    requires i < |job.patch.newEntries| && IsFile(job.patch.newEntries[i])
    requires HashOk(job, job.patch.newEntries[i], data)
    ensures data == goal[job.patch.newEntries[i].path] && Matches(job, job.patch.newEntries[i], Some(data))
  {
    assert job.patch.newEntries[i] in job.patch.newEntries;
  }

  // ---------- Single changes to the tree ----------

  lemma MkdirKeeps(job: Job, begun: Tree, t: Tree, q: Path)
    requires TreeOk(t) && Visible(t) && q !in t && !Reserved(q) && MustBeDir(job.patch, q)
    requires forall a :: IsAncestor(a, q) ==> IsDir(t, a)
    ensures TreeOk(t[q := Dir]) && Visible(t[q := Dir]) && SameFiles(t, t[q := Dir])
    ensures Between(job, begun, t) ==> Between(job, begun, t[q := Dir])
    ensures forall i | 0 <= i < |job.patch.newEntries| :: FinalOk(job, t, i) ==> FinalOk(job, t[q := Dir], i)
  {
    hide Reserved;
    var u := t[q := Dir];
    if Between(job, begun, t) {
      forall x ensures Settled(job, begun, u, x) {
        assert Settled(job, begun, t, x);
      }
    }
    forall x, a | x in u && IsAncestor(a, x) ensures IsDir(u, a) {
      assert x != q ==> IsDir(t, a);
    }
  }

  /** A file put where no directory is, below directories, keeps the tree a tree. */
  lemma FilePutKeepsTree(t: Tree, q: Path, data: Data)
    requires TreeOk(t) && Visible(t) && !Reserved(q)
    requires !IsDir(t, q) && forall a :: IsAncestor(a, q) ==> IsDir(t, a)
    ensures TreeOk(t[q := File(data)]) && Visible(t[q := File(data)])
  {
    hide Reserved;
    var u := t[q := File(data)];
    forall x, a | x in u && IsAncestor(a, x) ensures IsDir(u, a) {
      assert x != q ==> IsDir(t, a);
    }
  }

  lemma InstallKeeps(job: Job, begun: Tree, t: Tree, i: nat, data: Data)
    requires Between(job, begun, t)
    requires i < |job.patch.newEntries| && IsFile(job.patch.newEntries[i])
    requires HashOk(job, job.patch.newEntries[i], data) && !IsDir(t, job.patch.newEntries[i].path)
    ensures var u := t[job.patch.newEntries[i].path := File(data)];
      && Between(job, begun, u) && FinalOk(job, u, i)
      && (WellPlanned(job.patch) ==> forall j | 0 <= j < |job.patch.newEntries| && IsFile(job.patch.newEntries[j]) ::
            FinalOk(job, t, j) ==> FinalOk(job, u, j))
  {
    hide Clear;
    var e := job.patch.newEntries[i];
    var q := e.path;
    var u := t[q := File(data)];
    assert e in job.patch.newEntries;
    forall x ensures Settled(job, begun, u, x) {
      assert Settled(job, begun, t, x);
      assert x == q ==> Installs(job, q, data);
    }
    if WellPlanned(job.patch) {
      forall j | 0 <= j < |job.patch.newEntries| && IsFile(job.patch.newEntries[j]) && FinalOk(job, t, j)
        ensures FinalOk(job, u, j)
      {
        assert job.patch.newEntries[j] in job.patch.newEntries && Agree(job.patch.newEntries[j], e);
      }
    }
  }

  /** A path can go when nothing lies below it. */
  lemma RemoveKeeps(job: Job, begun: Tree, t: Tree, q: Path)
    requires TreeOk(t) && Visible(t) && Deletes(job, q)
    requires forall x <- t :: !IsAncestor(q, x)
    ensures TreeOk(t - {q}) && Visible(t - {q})
    ensures Between(job, begun, t) ==> Between(job, begun, t - {q})
    ensures WellPlanned(job.patch) && AllFinal(job, t) ==> AllFinal(job, t - {q})
  {
    hide Reserved, Clear;
    var u := t - {q};
    if Between(job, begun, t) {
      forall x ensures Settled(job, begun, u, x) {
        assert Settled(job, begun, t, x);
      }
    }
    forall x, a | x in u && IsAncestor(a, x) ensures IsDir(u, a) {
      assert IsDir(t, a) && a != q;
    }
    if WellPlanned(job.patch) && AllFinal(job, t) {
      forall i | 0 <= i < |job.patch.newEntries| && IsFile(job.patch.newEntries[i])
        ensures FinalOk(job, u, i)
      {
        assert FinalOk(job, t, i) && job.patch.newEntries[i] in job.patch.newEntries;
      }
    }
  }

  /** No conflict at the start means none at any later moment. */
  lemma ConflictsDoNotAppear(job: Job, begun: Tree, t: Tree)
    requires WellPlanned(job.patch) && Between(job, begun, t) && NoConflict(job.patch, begun)
    ensures NoConflict(job.patch, t)
  {
    forall q | IsNewFile(job.patch, q) ensures !IsDir(t, q) {
      assert Settled(job, begun, t, q);
    }
    forall q | MustBeDir(job.patch, q) ensures FileAt(t, q).None? {
      assert Settled(job, begun, t, q);
      assert !IsNewFile(job.patch, q);
    }
  }

  /** A tree in which the new files and directories stand shows the start had no conflict. */
  lemma CompletionRefutesConflict(job: Job, begun: Tree, t: Tree)
    requires WellPlanned(job.patch) && TreeOk(begun) && TreeOk(t) && Between(job, begun, t)
    requires AllFinal(job, t) && DirsMade(job.patch, t)
    ensures NoConflict(job.patch, begun)
  {
    forall q | IsNewFile(job.patch, q) ensures !IsDir(begun, q) {
      var e :| e in job.patch.newEntries && IsFile(e) && e.path == q;
      var i :| 0 <= i < |job.patch.newEntries| && job.patch.newEntries[i] == e;
      assert FinalOk(job, t, i) && Settled(job, begun, t, q);
    }
    forall q | MustBeDir(job.patch, q) ensures FileAt(begun, q).None? {
      var e :| e in job.patch.newEntries && NeedsDir(e, q);
      var i :| 0 <= i < |job.patch.newEntries| && job.patch.newEntries[i] == e;
      assert IsFile(e) ==> FinalOk(job, t, i);
      assert e.path in t;
      assert IsDir(t, q);
      assert Settled(job, begun, t, q);
    }
  }

  ghost predicate DirsMade(p: Patch, t: Tree) {
    forall e <- p.newEntries :: e.kind.DirectoryEntry? ==> IsDir(t, e.path)
  }

  /** The files a finished update leaves. */
  ghost predicate Updated(job: Job, begun: Tree, goal: map<Path, Data>, t: Tree) {
    forall q :: FileAt(t, q) ==
      if IsNewFile(job.patch, q) then (if q in goal then Some(goal[q]) else None)
      else if Deletes(job, q) then None
      else FileAt(begun, q)
  }

  lemma FinishedIsUpdated(job: Job, begun: Tree, goal: map<Path, Data>, t: Tree)
    requires Sound(job, begun, goal) && Between(job, begun, t) && AllFinal(job, t)
    requires job.deleteRemoved ==> forall d <- job.patch.deleted :: FileAt(t, d).None?
    ensures Updated(job, begun, goal, t)
  {
    forall q
      ensures FileAt(t, q) ==
        if IsNewFile(job.patch, q) then (if q in goal then Some(goal[q]) else None)
        else if Deletes(job, q) then None
        else FileAt(begun, q)
    {
      assert Settled(job, begun, t, q);
      if IsNewFile(job.patch, q) {
        var e :| e in job.patch.newEntries && IsFile(e) && e.path == q;
        var i :| 0 <= i < |job.patch.newEntries| && job.patch.newEntries[i] == e;
        assert FinalOk(job, t, i);
        HashIdentifies(job, begun, goal, i, FileAt(t, q).value);
      }
    }
  }

  // ---------- Reserved names ----------

  lemma RootsHaveNoSlash()
    ensures SLASH !in STAGING && SLASH !in JOURNAL && SLASH !in JOURNAL_TMP
    ensures STAGING != [] && JOURNAL != [] && JOURNAL_TMP != []
  {
  }

  lemma UnderTogether(root: Path, a: Path, q: Path)
    requires SLASH !in root && IsAncestor(a, q)
    ensures Under(root, a) <==> Under(root, q)
  {
    assert Under(root, q) && |a| >= |root| ==> a[..|root|] == q[..|root|];
  }

  /** A path and its ancestors are reserved together. */
  lemma ReservedTogether(a: Path, q: Path)
    requires IsAncestor(a, q)
    ensures Reserved(a) <==> Reserved(q)
  {
    hide STAGING, JOURNAL, JOURNAL_TMP;
    RootsHaveNoSlash();
    UnderTogether(STAGING, a, q);
    UnderTogether(JOURNAL, a, q);
    UnderTogether(JOURNAL_TMP, a, q);
  }

  /** What a patch puts at a reserved name is not there in the end. */
  lemma ReservedIsLost(job: Job, begun: Tree, goal: map<Path, Data>, t: Tree)
    requires Restores(job, begun, goal) && Visible(t) && !Clear(job.patch)
    ensures !(Updated(job, begun, goal, t) && DirsMade(job.patch, t))
  {
    hide Reserved;
    var e :| e in job.patch.newEntries && (IsFile(e) || e.kind.DirectoryEntry?) && Reserved(e.path);
    assert e.path !in t;
    if IsFile(e) {
      assert IsNewFile(job.patch, e.path) && FileAt(t, e.path).None?;
    } else {
      assert !IsDir(t, e.path);
    }
  }

  lemma {:induction false} NoSplit(p: Path)
    requires SLASH !in p
    ensures Split(p, SLASH) == [p]
  {
    if p != [] {
      NoSplit(p[1..]);
      assert [p[0]] + p[1..] == p;
    }
  }

  /** A single component of ordinary characters is a safe path. */
  lemma ComponentIsSafe(p: Path)
    requires SLASH !in p && p != [] && p != [46] && p != [46, 46]
    requires 92 !in p && 58 !in p && 0 !in p
    ensures PathIsSafe(p) && forall a :: !IsAncestor(a, p)
  {
    NoSplit(p);
    hide Split;
    assert p[0] in p;
    forall a ensures !IsAncestor(a, p) {
      assert |a| < |p| ==> p[|a|] in p;
    }
  }

  // ---------- Accepted, yet not planned ----------

  function FileEntryAt(path: Path, digest: ChunkHash): NewEntry {
    NewEntry(path, FileEntry, 1, false, None, Some(digest), Some(FullData(0)))
  }

  function SmallPatch(entries: seq<NewEntry>, deleted: seq<Path>): Patch {
    Patch(Directory, [], 0, [], 0, [], entries, deleted, [Section([], 1, seq(32, _ => 0), [0])])
  }

  lemma SmallPatchIsValid(paths: seq<Path>, digests: seq<ChunkHash>, deleted: seq<Path>)
    requires |paths| == |digests|
    requires forall q <- paths + deleted :: PathIsSafe(q)
    ensures Valid(SmallPatch(seq(|paths|, i requires 0 <= i < |paths| => FileEntryAt(paths[i], digests[i])), deleted))
  {
    hide PathIsSafe;
    var p := SmallPatch(seq(|paths|, i requires 0 <= i < |paths| => FileEntryAt(paths[i], digests[i])), deleted);
    forall e | e in p.newEntries ensures ValidEntry(e, p.mode, 0, 1) {
      var i :| 0 <= i < |paths| && p.newEntries[i] == e;
      assert paths[i] in paths + deleted;
    }
    assert forall d <- deleted :: d in paths + deleted;
  }

  /** A new file whose path holds no file is not final, whatever else the tree has: so ends a new file that
      is listed as deleted too. */
  lemma DeletedIsNotFinal(job: Job, t: Tree, i: nat)
    requires i < |job.patch.newEntries| && IsFile(job.patch.newEntries[i])
    requires FileAt(t, job.patch.newEntries[i].path).None?
    ensures !AllFinal(job, t)
  {
    assert !FinalOk(job, t, i);
  }

  /** Two file entries for one path with different hashes: no tree has every new file. */
  lemma RepeatedPathsDisagree(job: Job, t: Tree, i: nat, j: nat)
    requires i < |job.patch.newEntries| && IsFile(job.patch.newEntries[i])
    requires j < |job.patch.newEntries| && IsFile(job.patch.newEntries[j])
    requires !Agree(job.patch.newEntries[i], job.patch.newEntries[j])
    ensures !AllFinal(job, t)
  {
    if FinalOk(job, t, i) {
      assert !FinalOk(job, t, j);
    }
  }

  /** Where the first hash has a content at all, some tree has both files exactly when the hashes agree. */
  lemma RepeatedPathsExact(job: Job, i: nat, j: nat, data: Data)
    requires i < |job.patch.newEntries| && IsFile(job.patch.newEntries[i])
    requires j < |job.patch.newEntries| && IsFile(job.patch.newEntries[j])
    requires job.patch.newEntries[i].path == job.patch.newEntries[j].path
    requires HashOk(job, job.patch.newEntries[i], data)
    ensures (exists t: Tree :: FinalOk(job, t, i) && FinalOk(job, t, j))
       <==> Agree(job.patch.newEntries[i], job.patch.newEntries[j])
  {
    var e := job.patch.newEntries[i];
    var t: Tree := map[e.path := File(data)];
    assert FileAt(t, e.path) == Some(data);
    assert FinalOk(job, t, i);
    assert Agree(e, job.patch.newEntries[j]) ==> FinalOk(job, t, j);
  }

  /** `validate` accepts a new file that is also listed as deleted. No tree without it is final, and an
      apply that deletes always ends without it. */
  lemma NewAndDeleted(digest: ChunkHash, job: Job, t: Tree)
    requires job.patch == SmallPatch([FileEntryAt([97], digest)], [[97]])
    ensures Valid(job.patch) && Clear(job.patch) && !Consistent(job.patch)
    ensures FileAt(t, [97]).None? ==> !AllFinal(job, t)
  {
    ComponentIsSafe([97]);
    SmallPatchIsValid([[97]], [digest], [[97]]);
    hide PathIsSafe;
    var e := FileEntryAt([97], digest);
    assert seq(1, i requires 0 <= i < 1 => FileEntryAt([[97]][i], [digest][i])) == [e];
    assert [97] in job.patch.deleted && e in job.patch.newEntries && job.patch.newEntries[0] == e;
    if FileAt(t, [97]).None? {
      DeletedIsNotFinal(job, t, 0);
    }
  }

  /** `validate` accepts the same path twice. It is harmless exactly when the hashes agree: otherwise
      no tree holds both files. */
  lemma SamePathTwice(first: ChunkHash, second: ChunkHash, job: Job, t: Tree)
    requires job.patch == SmallPatch([FileEntryAt([97], first), FileEntryAt([97], second)], [])
    ensures Valid(job.patch) && Clear(job.patch) && (Consistent(job.patch) <==> first == second)
    ensures first != second ==> !AllFinal(job, t)
  {
    ComponentIsSafe([97]);
    SmallPatchIsValid([[97], [97]], [first, second], []);
    var e, f := FileEntryAt([97], first), FileEntryAt([97], second);
    assert seq(2, i requires 0 <= i < 2 => FileEntryAt([[97], [97]][i], [first, second][i])) == [e, f];
    hide PathIsSafe;
    assert job.patch.newEntries[0] == e && job.patch.newEntries[1] == f;
    assert e in job.patch.newEntries && f in job.patch.newEntries;
    assert forall x <- job.patch.newEntries :: x == e || x == f;
    if first == second {
      forall q | IsNewFile(job.patch, q) ensures !MustBeDir(job.patch, q) {
      }
    } else {
      assert !Agree(e, f);
      RepeatedPathsDisagree(job, t, 0, 1);
    }
  }

  /** `validate` accepts a new file at a reserved name. */
  lemma ReservedNewFile(q: Path, digest: ChunkHash, p: Patch)
    requires PathIsSafe(q) && Reserved(q)
    requires p == SmallPatch([FileEntryAt(q, digest)], [])
    ensures Valid(p) && Consistent(p) && !Clear(p)
  {
    SmallPatchIsValid([q], [digest], []);
    var e := FileEntryAt(q, digest);
    assert seq(1, i requires 0 <= i < 1 => FileEntryAt([q][i], [digest][i])) == [e];
    hide PathIsSafe, Reserved, STAGING, JOURNAL, JOURNAL_TMP;
    assert e in p.newEntries && forall x <- p.newEntries :: x == e;
    forall r | IsNewFile(p, r) ensures !MustBeDir(p, r) {
    }
  }
}
