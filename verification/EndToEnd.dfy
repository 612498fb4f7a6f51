/** From two builds to an updated installation: generate, encode, decode, apply. */
module EndToEnd {
  import opened Bytes
  import opened PatchTypes
  import opened Codec
  import opened PatchCodec
  import opened PatchIO
  import opened ApplySpec
  import opened Apply
  import opened Generate
  import Diff
  import Sections
  import Compare
  import Signing

  /** The files of a build. */
  function Goal(u: Tree): map<Path, Data> {
    map q | q in u && u[q].File? :: u[q].data
  }

  /** The installation still has every old file; it may have any other files besides. */
  ghost predicate HasOldFiles(t: Tree, installed: Tree) {
    forall q :: FileAt(t, q).Some? ==> FileAt(installed, q) == FileAt(t, q)
  }

  /** No path is a file in one tree and a directory in the other. */
  ghost predicate SameShape(u: Tree, installed: Tree) {
    && (forall q :: FileAt(u, q).Some? ==> !IsDir(installed, q))
    && (forall q :: IsDir(u, q) ==> FileAt(installed, q).None?)
  }

  /** The patch `generate` writes rebuilds every new file from any installation with the old files. */
  lemma {:induction false} GeneratedRestores(tools: Tools, oldWalk: seq<Path>, t: Tree, newWalk: seq<Path>, u: Tree,
                                             o: OldSide, job: Job, installed: Tree)
    requires Builds(tools, oldWalk, t, newWalk, u)
    requires Generated(tools, oldWalk, t, newWalk, u, o, job.patch)
    requires Valid(job.patch) && Consistent(job.patch) && job.tools == tools
    requires HasOldFiles(t, Source(job, installed))
    ensures Restores(job, installed, Goal(u))
  {
    forall f | f in job.patch.oldFiles ensures FileAt(Source(job, installed), f.path) == FileAt(t, f.path) {
      var k :| 0 <= k < |o.files| && o.files[k] == f;
      assert Records(tools, t, o.files[k]);
    }
    forall e | e in job.patch.newEntries && IsFile(e)
      ensures e.path in Goal(u) && Rebuild(job, installed, e) == Some(Goal(u)[e.path])
      ensures Matches(job, e, Some(Goal(u)[e.path])) && NoCollision(job.tools.hash, Goal(u)[e.path])
    {
      var i :| 0 <= i < |job.patch.newEntries| && job.patch.newEntries[i] == e;
      EntryIsSound(tools, t, u, newWalk[i], o, job, installed, e);
    }
  }

  lemma EntryIsSound(tools: Tools, t: Tree, u: Tree, q: Path, o: OldSide, job: Job, installed: Tree, e: NewEntry)
    requires Runnable(job) && job.tools == tools && job.patch.oldFiles == o.files
    requires GoodEntry(tools, t, o, job.patch.sections, u, q, e) && e in job.patch.newEntries && IsFile(e)
    requires forall f <- o.files :: FileAt(Source(job, installed), f.path) == FileAt(t, f.path)
    ensures q in Goal(u) && Rebuild(job, installed, e) == Some(Goal(u)[q])
    ensures Matches(job, e, Some(Goal(u)[q]))
  {
    StrategyReadsOldFiles(PartsOf(job), Source(job, installed), t, e.strategy.value, e.size);
  }

  /** What the patch's entries say of a path is what the new build has there. */
  lemma GeneratedShape(tools: Tools, oldWalk: seq<Path>, t: Tree, newWalk: seq<Path>, u: Tree, o: OldSide, p: Patch)
    requires WalkOf(newWalk, u) && Generated(tools, oldWalk, t, newWalk, u, o, p)
    ensures forall q :: IsNewFile(p, q) <==> FileAt(u, q).Some?
    ensures forall q :: MustBeDir(p, q) <==> IsDir(u, q)
  {
    EntriesFit(tools, oldWalk, t, newWalk, u, o, p);
    forall q | q in u
      ensures FileAt(u, q).Some? ==> IsNewFile(p, q)
      ensures IsDir(u, q) ==> MustBeDir(p, q)
    {
      var i :| 0 <= i < |newWalk| && newWalk[i] == q;
      assert GoodEntry(tools, t, o, p.sections, u, newWalk[i], p.newEntries[i]);
      assert p.newEntries[i] in p.newEntries;
      assert IsDir(u, q) ==> NeedsDir(p.newEntries[i], q);
    }
  }

  /** A generated patch is clear of the reserved names exactly when the new build is. */
  lemma GeneratedIsClear(tools: Tools, oldWalk: seq<Path>, t: Tree, newWalk: seq<Path>, u: Tree, o: OldSide, p: Patch)
    requires WalkOf(newWalk, u) && Generated(tools, oldWalk, t, newWalk, u, o, p)
    ensures Clear(p) <==> Visible(u)
  {
    hide Reserved, TreeOk, Rebuilds, OldSideOk;
    forall e | e in p.newEntries ensures e.path in u && (IsFile(e) || e.kind.DirectoryEntry?) {
      var i :| 0 <= i < |p.newEntries| && p.newEntries[i] == e;
      assert GoodEntry(tools, t, o, p.sections, u, newWalk[i], e);
    }
    forall q | q in u ensures exists e <- p.newEntries :: e.path == q {
      var i :| 0 <= i < |newWalk| && newWalk[i] == q;
      assert GoodEntry(tools, t, o, p.sections, u, newWalk[i], p.newEntries[i]);
      assert p.newEntries[i] in p.newEntries;
    }
  }

  lemma SameShapeIsNoConflict(tools: Tools, oldWalk: seq<Path>, t: Tree, newWalk: seq<Path>, u: Tree,
                              o: OldSide, p: Patch, installed: Tree)
    requires WalkOf(newWalk, u) && Generated(tools, oldWalk, t, newWalk, u, o, p)
    ensures NoConflict(p, installed) <==> SameShape(u, installed)
  {
    GeneratedShape(tools, oldWalk, t, newWalk, u, o, p);
  }

  /** `after` holds exactly the new files, and of the files in neither build the same as `before`. */
  ghost predicate Delivered(t: Tree, u: Tree, before: Tree, after: Tree) {
    && (forall q :: FileAt(after, q) ==
          if FileAt(u, q).Some? then FileAt(u, q) else if q in t then None else FileAt(before, q))
    && (forall q :: IsDir(u, q) ==> IsDir(after, q))
  }

  lemma {:induction false} UpdatedIsDelivered(tools: Tools, oldWalk: seq<Path>, t: Tree, newWalk: seq<Path>, u: Tree,
                                                o: OldSide, job: Job, before: Tree, after: Tree)
    requires WalkOf(oldWalk, t) && WalkOf(newWalk, u) && Generated(tools, oldWalk, t, newWalk, u, o, job.patch)
    requires job.deleteRemoved && NoConflict(job.patch, before)
    requires Updated(job, before, Goal(u), after) && DirsMade(job.patch, after)
    ensures Delivered(t, u, before, after)
  {
    GeneratedShape(tools, oldWalk, t, newWalk, u, o, job.patch);
    forall q | IsDir(u, q) ensures IsDir(after, q) {
      var i :| 0 <= i < |newWalk| && newWalk[i] == q;
      assert GoodEntry(tools, t, o, job.patch.sections, u, newWalk[i], job.patch.newEntries[i]);
      assert job.patch.newEntries[i] in job.patch.newEntries;
    }
    forall q
      ensures FileAt(after, q) ==
        if FileAt(u, q).Some? then FileAt(u, q) else if q in t then None else FileAt(before, q)
    {
      assert FileAt(u, q).None? && q in newWalk ==> IsDir(u, q);
    }
  }

  lemma GeneratedIsAddressable(tools: Tools, opts: Sections.Options, oldWalk: seq<Path>, t: Tree, newWalk: seq<Path>,
                               u: Tree, o: OldSide, p: Patch)
    requires WalkOf(oldWalk, t) && WalkOf(newWalk, u) && Generated(tools, oldWalk, t, newWalk, u, o, p)
    requires forall q <- oldWalk + newWalk :: |q| < TWO_64
    requires |p.oldLabel| < TWO_64 && |p.newLabel| < TWO_64
    requires |opts.compression| < TWO_64
    requires forall s <- p.sections :: Sections.Known(opts, s.compression) && |s.data| < TWO_64
    ensures Addressable(p)
  {
    forall f | f in p.oldFiles ensures |f.path| < TWO_64 {
      var k :| 0 <= k < |o.files| && o.files[k] == f;
      assert Records(tools, t, f) && f.path in oldWalk + newWalk;
    }
    forall d | d in p.deleted ensures |d| < TWO_64 {
      assert d in oldWalk + newWalk;
    }
    forall e | e in p.newEntries ensures AddressableEntry(e) {
      var i :| 0 <= i < |p.newEntries| && p.newEntries[i] == e;
      assert GoodEntry(tools, t, o, p.sections, u, newWalk[i], e);
      assert newWalk[i] in oldWalk + newWalk;
    }
  }

  /** The excluded case is real: a file `a` replaced by a directory `a` holding `a/b`. */
  lemma FileBecomesDirectory()
    ensures var t: Tree := map[[97] := File([1])];
      var u: Tree := map[[97] := Dir, [97, 47, 98] := File([2])];
      TreeOk(t) && TreeOk(u) && HasOldFiles(t, t) && !SameShape(u, t)
  {
    var t: Tree := map[[97] := File([1])];
    var u: Tree := map[[97] := Dir, [97, 47, 98] := File([2])];
    assert IsDir(u, [97]) && FileAt(t, [97]).Some?;
    forall q, a | q in u && IsAncestor(a, q) ensures a == [97] {
      assert q == [97, 47, 98] ==> |a| == 1 && q[..1] == [97];
    }
  }

  /** So is this one: a new file named like the journal passes the path check and `validate` and
      clashes with no shape, yet no installation can hold it once `apply` has cleaned up. */
  lemma JournalNameIsAccepted(after: Tree, digest: ChunkHash)
    requires Visible(after)
    ensures Valid(SmallPatch([FileEntryAt(JOURNAL, digest)], []))
    ensures var u: Tree := map[JOURNAL := File([1])];
      && TreeOk(u) && PathIsSafe(JOURNAL) && SameShape(u, map[])
      && !Visible(u) && !Delivered(map[], u, map[], after)
  {
    hide PathIsSafe, Split;
    RootsHaveNoSlash();
    ComponentIsSafe(JOURNAL);
    var u: Tree := map[JOURNAL := File([1])];
    assert Under(JOURNAL, JOURNAL) && JOURNAL in u;
    ReservedNewFile(JOURNAL, digest, SmallPatch([FileEntryAt(JOURNAL, digest)], []));
    ReservedIsNotDelivered(map[], u, map[], after);
  }

  lemma ReservedIsNotDelivered(t: Tree, u: Tree, before: Tree, after: Tree)
    requires Visible(after) && !Visible(u)
    ensures !Delivered(t, u, before, after)
  {
    hide Reserved;
    var q :| q in u && Reserved(q);
    assert q !in after && (FileAt(u, q).Some? || IsDir(u, q));
  }

  /** A walked tree as signing sees it. */
  function AsBuild(t: Tree): Compare.Build {
    map q | q in t :: if t[q].File? then Compare.File(t[q].data) else Compare.Dir
  }

  lemma {:induction false} AsContents(walk: seq<Path>, t: Tree, blockSize: nat, hash: Data -> ChunkHash)
    requires |walk| < TWO_32 && (forall q <- walk :: q in t) && Signing.Trusted(AsBuild(t), blockSize, hash)
    ensures var c := Signing.Contents(AsBuild(t), walk);
      forall i: U32 | 0 <= i < |c| ::
        && Signing.Collisionless(c[i], blockSize, hash)
        && c[i] == match FileAt(t, walk[i]) case Some(data) => data case None => []
  {
    hide Signing.Collisionless;
    if walk != [] {
      AsContents(walk[..|walk| - 1], t, blockSize, hash);
    }
  }

  /** `generate` signs the old build first, in blocks of the default size. */
  method SignOld(walk: seq<Path>, t: Tree, hash: Data -> ChunkHash) returns (sig: Diff.Signature)
    requires WalkOf(walk, t) && Signing.Trusted(AsBuild(t), DEFAULT_BLOCK_SIZE, hash)
    ensures Diff.Describes(sig, Contents(walk, t), hash) && sig.blockSize == DEFAULT_BLOCK_SIZE
  {
    hide Signing.Collisionless, Signing.AllBlocks, Signing.Contents, Signing.Entries;
    var taken := Signing.SignDir(AsBuild(t), walk, DEFAULT_BLOCK_SIZE, hash);
    AsContents(walk, t, DEFAULT_BLOCK_SIZE, hash);
    Signing.AllBlocksFaithful(Signing.Contents(AsBuild(t), walk), taken.blockSize, hash, Contents(walk, t));
    sig := Diff.Signature(taken.blockSize, taken.blocks, map i: U32 | 0 <= i < |walk| :: walk[i]);
  }

  // ---------- The deletion list ----------

  lemma {:induction false} WithoutInOrder(walk: seq<Path>, others: seq<Path>)
    requires ParentsFirst(walk)
    ensures ParentsFirst(Without(walk, others))
  {
    if walk != [] {
      var n := |walk| - 1;
      var rest := Without(walk[..n], others);
      WithoutInOrder(walk[..n], others);
      forall q | q in rest ensures !IsAncestor(walk[n], q) {
        var i :| 0 <= i < n && walk[i] == q;
      }
    }
  }

  /** The deletions of a generated patch: of an old directory that the new build drops, whatever tree
      they are run on, exactly the ones with something in them are left behind. */
  lemma DroppedDirectories(tools: Tools, oldWalk: seq<Path>, t: Tree, newWalk: seq<Path>, u: Tree, o: OldSide,
                           p: Patch, now: Tree, d: Path)
    requires Generated(tools, oldWalk, t, newWalk, u, o, p) && ParentsFirst(oldWalk)
    requires d in oldWalk && d !in newWalk && IsDir(now, d)
    ensures d in DeletePass(now, p.deleted) <==> !Childless(now, d)
  {
    WithoutInOrder(oldWalk, newWalk);
    DirectoriesLeftBehind(now, p.deleted);
  }

  // ---------- Delivery ----------

  /** Both builds fit the format: names and labels are short text, there are not too many entries, and
      no file needs more ops than a plan may have (some eight terabytes). */
  ghost predicate WithinLimits(opts: Sections.Options, oldLabel: Data, newLabel: Data,
                               oldWalk: seq<Path>, newWalk: seq<Path>, u: Tree)
  {
    && WfStr(oldLabel) && WfStr(newLabel) && WfStr(opts.compression)
    && |oldWalk| <= MAX_ENTRIES && |newWalk| <= MAX_ENTRIES && (forall q <- oldWalk + newWalk :: WfStr(q))
    && forall q <- u :: u[q].File? ==> OpBound(|u[q].data|) <= MAX_OPS
  }

  lemma KnownIsText(opts: Sections.Options, tag: Data)
    requires WfStr(opts.compression) && Sections.Known(opts, tag)
    ensures WfStr(tag)
  {
  }

  /** A patch generated within the limits survives the wire. */
  lemma GeneratedIsWellformed(tools: Tools, opts: Sections.Options, oldWalk: seq<Path>, t: Tree, newWalk: seq<Path>,
                              u: Tree, o: OldSide, p: Patch)
    requires WalkOf(oldWalk, t) && WalkOf(newWalk, u) && Generated(tools, oldWalk, t, newWalk, u, o, p)
    requires WithinLimits(opts, p.oldLabel, p.newLabel, oldWalk, newWalk, u)
    requires forall s <- p.sections :: Sections.Known(opts, s.compression) && |s.data| < TWO_64
    ensures WfPatch(p)
  {
    hide ValidUtf8, TreeOk, Sections.Known, ValidStrategy, Without, TotalSize;
    forall f | f in p.oldFiles ensures WfOldFile(f) {
      var k :| 0 <= k < |o.files| && o.files[k] == f;
      assert Records(tools, t, f) && f.path in oldWalk + newWalk;
    }
    forall d | d in p.deleted ensures WfStr(d) {
      assert d in oldWalk + newWalk;
    }
    forall e | e in p.newEntries ensures WfEntry(e) {
      var i :| 0 <= i < |p.newEntries| && p.newEntries[i] == e;
      assert GoodEntry(tools, t, o, p.sections, u, newWalk[i], e);
      assert newWalk[i] in oldWalk + newWalk;
    }
    forall s | s in p.sections ensures WfSection(s) {
      KnownIsText(opts, s.compression);
    }
  }

  datatype Delivery = UpToDate | NotGenerated | NotDecodable | ShapeConflict

  /** What the sender can check before: within the limits, safe paths, compression that works. */
  ghost predicate Shippable(tools: Tools, opts: Sections.Options, oldLabel: Data, newLabel: Data,
                            oldWalk: seq<Path>, newWalk: seq<Path>, u: Tree)
  {
    && Sections.CompressionWorks(tools, opts) && (forall q <- oldWalk + newWalk :: PathIsSafe(q))
    && WithinLimits(opts, oldLabel, newLabel, oldWalk, newWalk, u)
  }

  /** The old build is signed, the patch generated, written and read back. */
  method Ship(tools: Tools, opts: Sections.Options, oldLabel: Data, newLabel: Data,
              oldWalk: seq<Path>, t: Tree, newWalk: seq<Path>, u: Tree, execs: set<Path>, checkOld: bool)
    returns (job: Option<Job>, generated: bool, ghost o: OldSide)
    requires Builds(tools, oldWalk, t, newWalk, u) && Distinct(newWalk)
    requires Signing.Trusted(AsBuild(t), DEFAULT_BLOCK_SIZE, tools.hash)
    requires |opts.compression| < TWO_64 && |oldLabel| < TWO_64 && |newLabel| < TWO_64
    requires forall q <- oldWalk + newWalk :: |q| < TWO_64
    ensures job.Some? ==>
      && Runnable(job.value) && job.value.tools == tools && job.value.deleteRemoved && job.value.oldRoot.None?
    ensures Shippable(tools, opts, oldLabel, newLabel, oldWalk, newWalk, u) ==>
      && job.Some? && Generated(tools, oldWalk, t, newWalk, u, o, job.value.patch) && Consistent(job.value.patch)
  {
    hide Diff.Describes, Signing.Trusted, WfPatch, WithinLimits, Generated, Consistent, Tallies, Explained, Valid;
    var sig := SignOld(oldWalk, t, tools.hash);
    var patch, report;
    patch, report, o := Generate.Generate(tools, opts, oldLabel, newLabel, oldWalk, t, newWalk, u, sig, execs);
    if patch.None? {
      return None, false, o;
    }
    GeneratedIsAddressable(tools, opts, oldWalk, t, newWalk, u, o, patch.value);
    var bytes := Encode(patch.value, tools.hash);
    var decoded := Decode(bytes, tools.hash);
    if WithinLimits(opts, oldLabel, newLabel, oldWalk, newWalk, u) {
      GeneratedIsWellformed(tools, opts, oldWalk, t, newWalk, u, o, patch.value);
      GeneratedIsDirectory(tools, oldWalk, t, newWalk, u, o, patch.value);
      DecodeEncode(patch.value, tools.hash);
    }
    if decoded.Err? || decoded.value.mode.Artifact? {
      return None, true, o;
    }
    DecodeEncodeValid(bytes, tools.hash);
    return Some(Job(tools, decoded.value, tools.hash(bytes), true, checkOld, None)), true, o;
  }

  lemma GeneratedIsDirectory(tools: Tools, oldWalk: seq<Path>, t: Tree, newWalk: seq<Path>, u: Tree, o: OldSide,
                             p: Patch)
    requires Generated(tools, oldWalk, t, newWalk, u, o, p)
    ensures p.mode.Directory?
  {
  }

  lemma DecodeEncodeValid(bytes: Data, hash: Data -> ChunkHash)
    requires DecodeSpec(bytes, hash).Ok?
    ensures Valid(DecodeSpec(bytes, hash).value)
  {
    EncodeDecode(bytes, hash);
  }

  /** What an apply of a generated patch achieves, told by the builds alone. */
  lemma DeliveredExactly(tools: Tools, oldWalk: seq<Path>, t: Tree, newWalk: seq<Path>, u: Tree, o: OldSide,
                         job: Job, before: Tree, after: Tree, done: bool)
    requires WalkOf(oldWalk, t) && WalkOf(newWalk, u) && Generated(tools, oldWalk, t, newWalk, u, o, job.patch)
    requires job.deleteRemoved && Restores(job, before, Goal(u)) && Visible(after)
    requires done && Updated(job, before, Goal(u), after) && DirsMade(job.patch, after)
        <==> NoConflict(job.patch, before) && Clear(job.patch)
    requires Clear(job.patch) ==> (done <==> NoConflict(job.patch, before))
    ensures done && Delivered(t, u, before, after) <==> SameShape(u, before) && Visible(u)
    ensures Visible(u) ==> (done <==> SameShape(u, before))
  {
    SameShapeIsNoConflict(tools, oldWalk, t, newWalk, u, o, job.patch, before);
    GeneratedIsClear(tools, oldWalk, t, newWalk, u, o, job.patch);
    hide Delivered, Updated, NoConflict, SameShape, Generated, Restores, Clear, Reserved, DirsMade, WalkOf;
    if !Visible(u) {
      ReservedIsNotDelivered(t, u, before, after);
    } else if NoConflict(job.patch, before) {
      UpdatedIsDelivered(tools, oldWalk, t, newWalk, u, o, job, before, after);
    }
  }

  /** End to end: the old build is signed, the patch generated for two builds is sent over the wire
      and applied in place with `delete_removed`, the power failing any number of times. For builds
      within the format's limits, with safe paths and working compression, the installation becomes
      the new build plus its own extra files exactly when no path is a file on one side and a
      directory on the other and the new build keeps off the reserved names. */
  method Deliver(tools: Tools, opts: Sections.Options, oldLabel: Data, newLabel: Data,
                 oldWalk: seq<Path>, t: Tree, newWalk: seq<Path>, u: Tree, execs: set<Path>,
                 disk: Disk, checkOld: bool, cuts: seq<Cut>)
    returns (r: Delivery)
    requires Builds(tools, oldWalk, t, newWalk, u) && Distinct(newWalk)
    requires Signing.Trusted(AsBuild(t), DEFAULT_BLOCK_SIZE, tools.hash)
    requires |opts.compression| < TWO_64 && |oldLabel| < TWO_64 && |newLabel| < TWO_64
    requires forall q <- oldWalk + newWalk :: |q| < TWO_64
    requires TreeOk(disk.tree) && Visible(disk.tree) && HasOldFiles(t, disk.tree) && disk.journal.None?
    modifies disk
    ensures Shippable(tools, opts, oldLabel, newLabel, oldWalk, newWalk, u) ==>
      && (r.UpToDate? && Delivered(t, u, old(disk.tree), disk.tree)
          <==> SameShape(u, old(disk.tree)) && Visible(u))
      && (Visible(u) ==> r == if SameShape(u, old(disk.tree)) then UpToDate else ShapeConflict)
    ensures r.UpToDate? ==> disk.staged == map[] && disk.journal == None
    ensures r.NotGenerated? || r.NotDecodable? ==> disk.tree == old(disk.tree)
  {
    hide Diff.Describes, Signing.Trusted, Delivered, Updated, NoConflict, SameShape, Reserved, Shippable, Generated;
    hide Consistent, Clear, DirsMade, Between;
    var job, generated, o := Ship(tools, opts, oldLabel, newLabel, oldWalk, t, newWalk, u, execs, checkOld);
    if job.None? {
      return if generated then NotDecodable else NotGenerated;
    }
    ghost var before, shipped := disk.tree, Shippable(tools, opts, oldLabel, newLabel, oldWalk, newWalk, u);
    if shipped {
      GeneratedRestores(tools, oldWalk, t, newWalk, u, o, job.value, before);
    }
    var outcome := ApplyThroughPowerCuts(job.value, disk, cuts, Goal(u));
    if shipped {
      DeliveredExactly(tools, oldWalk, t, newWalk, u, o, job.value, before, disk.tree, outcome == Done);
    }
    return if outcome == Done then UpToDate else ShapeConflict;
  }
}
