/** `generate`: a directory patch from an old and a new build, one strategy per file. */
module Generate {
  import opened Bytes
  import opened PatchTypes
  import opened PatchCodec
  import opened PatchIO
  import opened Compile
  import opened ApplySpec
  import opened Sections
  import Diff

  const BSDIFF_MAX_FILE: nat := 536870912
  const DEFAULT_BLOCK_SIZE: nat := 65536

  // ---------- The old side ----------

  ghost predicate Distinct(walk: seq<Path>) {
    forall i, j :: 0 <= i < j < |walk| ==> walk[i] != walk[j]
  }

  /** `walk` lists the tree's paths. */
  ghost predicate WalkOf(walk: seq<Path>, t: Tree) {
    && (forall q :: q in walk <==> q in t)
    && |walk| < TWO_32
    && TreeOk(t)
    && forall q <- t :: t[q].File? ==> |t[q].data| < TWO_64
  }

  /** Old entry ids are positions in the walk. */
  function Contents(walk: seq<Path>, t: Tree): map<U32, Data>
    requires |walk| < TWO_32
  {
    map i: U32 | 0 <= i < |walk| && FileAt(t, walk[i]).Some? :: FileAt(t, walk[i]).value
  }

  /** The bytes of all files of a walk. */
  function TotalSize(walk: seq<Path>, t: Tree): nat {
    if walk == [] then 0
    else
      var file := FileAt(t, walk[|walk| - 1]);
      TotalSize(walk[..|walk| - 1], t) + if file.Some? then |file.value| else 0
  }

  datatype OldSide = OldSide(files: seq<OldFile>, byPath: map<Path, U32>,
                             byHash: map<ChunkHash, U32>, toOld: map<U32, U32>)

  predicate Records(tools: Tools, t: Tree, f: OldFile) {
    && FileAt(t, f.path).Some?
    && |FileAt(t, f.path).value| == f.size && tools.hash(FileAt(t, f.path).value) == f.blake3
  }

  /** The tables cover the first `n` walked paths. */
  ghost predicate OldSideOk(tools: Tools, walk: seq<Path>, t: Tree, o: OldSide, n: nat)
    requires n <= |walk|
  {
    && |o.files| <= n
    && (forall k :: 0 <= k < |o.files| ==> Records(tools, t, o.files[k]))
    && (forall k :: 0 <= k < |o.files| ==> o.files[k].blake3 in o.byHash)
    && (forall h <- o.byHash :: o.byHash[h] < |o.files| && o.files[o.byHash[h]].blake3 == h)
    && (forall q <- o.byPath :: o.byPath[q] < |o.files| && o.files[o.byPath[q]].path == q)
    && (forall id <- o.toOld :: id < n && o.toOld[id] < |o.files| && o.files[o.toOld[id]].path == walk[id])
    && (forall id: U32 :: id < n && FileAt(t, walk[id]).Some? ==> id in o.toOld && walk[id] in o.byPath)
  }

  lemma OldSideGrows(tools: Tools, walk: seq<Path>, t: Tree, o: OldSide, i: nat)
    requires WalkOf(walk, t) && i < |walk| && OldSideOk(tools, walk, t, o, i) && FileAt(t, walk[i]).Some?
    ensures var idx, data := |o.files|, FileAt(t, walk[i]).value;
      var hash := tools.hash(data);
      OldSideOk(tools, walk, t,
                OldSide(o.files + [OldFile(walk[i], |data|, hash)], o.byPath[walk[i] := idx],
                        if hash in o.byHash then o.byHash else o.byHash[hash := idx], o.toOld[i := idx]), i + 1)
  {
    hide TreeOk;
  }

  function SizeOf(files: seq<OldFile>): nat {
    if files == [] then 0 else SizeOf(files[..|files| - 1]) + files[|files| - 1].size
  }

  method SumSizes(files: seq<OldFile>) returns (total: U64)
    ensures total == SizeOf(files) % TWO_64
  {
    total := 0;
    for i := 0 to |files|
      invariant total == SizeOf(files[..i]) % TWO_64
    {
      assert files[..i + 1][..i] == files[..i];
      WrapOnce(SizeOf(files[..i]), files[i].size);
      total := (total + files[i].size) % TWO_64;
    }
    assert files[..|files|] == files;
  }

  lemma NoOldSide(tools: Tools, walk: seq<Path>, t: Tree)
    ensures OldSideOk(tools, walk, t, OldSide([], map[], map[], map[]), 0)
  {
  }

  lemma OldSideSkips(tools: Tools, walk: seq<Path>, t: Tree, o: OldSide, i: nat)
    requires i < |walk| && OldSideOk(tools, walk, t, o, i) && FileAt(t, walk[i]).None?
    ensures OldSideOk(tools, walk, t, o, i + 1)
  {
  }

  lemma SizesStep(walk: seq<Path>, t: Tree, i: nat, files: seq<OldFile>)
    requires i < |walk| && SizeOf(files) == TotalSize(walk[..i], t)
    ensures FileAt(t, walk[i]).None? ==> SizeOf(files) == TotalSize(walk[..i + 1], t)
    ensures forall f: OldFile :: FileAt(t, walk[i]).Some? && f.size == |FileAt(t, walk[i]).value| ==>
      SizeOf(files + [f]) == TotalSize(walk[..i + 1], t)
  {
    assert walk[..i + 1][..i] == walk[..i];
    forall f: OldFile ensures SizeOf(files + [f]) == SizeOf(files) + f.size {
      assert (files + [f])[..|files|] == files;
    }
  }

  lemma NoSizes(walk: seq<Path>, t: Tree)
    ensures SizeOf([]) == TotalSize(walk[..0], t) && walk[..|walk|] == walk
  {
  }

  method IndexOld(tools: Tools, walk: seq<Path>, t: Tree) returns (o: OldSide, total: U64)
    requires WalkOf(walk, t)
    ensures OldSideOk(tools, walk, t, o, |walk|)
    ensures total == TotalSize(walk, t) % TWO_64
  {
    hide OldSideOk, TreeOk, Records, SizeOf, TotalSize;
    o := OldSide([], map[], map[], map[]);
    NoOldSide(tools, walk, t);
    NoSizes(walk, t);
    for i := 0 to |walk|
      invariant OldSideOk(tools, walk, t, o, i) && |o.files| <= i
      invariant SizeOf(o.files) == TotalSize(walk[..i], t)
    {
      assert walk[i] in t;
      SizesStep(walk, t, i, o.files);
      match t[walk[i]] {
        case Dir =>
          OldSideSkips(tools, walk, t, o, i);
        case File(data) =>
          OldSideGrows(tools, walk, t, o, i);
          var idx, hash := |o.files|, tools.hash(data);
          o := OldSide(o.files + [OldFile(walk[i], |data|, hash)], o.byPath[walk[i] := idx],
                       if hash in o.byHash then o.byHash else o.byHash[hash := idx], o.toOld[i := idx]);
      }
    }
    total := SumSizes(o.files);
  }

  // ---------- One file ----------

  /** How many ops a plan of `n` bytes may take. */
  function OpBound(n: nat): nat {
    2 * n / DEFAULT_BLOCK_SIZE + 1
  }

  /** `x` rebuilds `data` from the old build, whether or not old hashes are re-checked. */
  ghost predicate Rebuilds(tools: Tools, t: Tree, files: seq<OldFile>, sections: seq<Section>, x: Strategy,
                           data: Data)
  {
    && |data| < TWO_64 && ValidStrategy(x, |data|, |files|, |sections|) && (x.PlanOps? ==> |x.ops| <= OpBound(|data|))
    && RunStrategy(Parts(tools, true, files, sections), t, x, |data|) == Some(data)
    && RunStrategy(Parts(tools, false, files, sections), t, x, |data|) == Some(data)
  }

  /** Adding sections disturbs no earlier strategy. */
  lemma RebuildsStill(tools: Tools, t: Tree, files: seq<OldFile>, sections: seq<Section>,
                      more: seq<Section>, x: Strategy, data: Data)
    requires Rebuilds(tools, t, files, sections, x, data)
    requires |sections| <= |more| && more[..|sections|] == sections
    ensures Rebuilds(tools, t, files, more, x, data)
  {
    match x {
      case CopyWhole(_) =>
      case PlanOps(sec, _) => assert more[sec] == sections[sec];
      case Bsdiff(_, sec) => assert more[sec] == sections[sec];
      case Xdelta3(_, sec) => assert more[sec] == sections[sec];
      case FullData(sec) => assert more[sec] == sections[sec];
    }
  }

  lemma {:induction false} CompiledShape(diff: seq<DiffOp>, new_: Data, toOld: map<U32, U32>, at: nat, n: nat)
    requires WithinNew(diff, |new_|) && Tiles(diff, at, |new_|) && Diff.Capped(diff)
    requires forall op <- diff :: op.CopyOldRange? ==> op.entryId in toOld
    requires forall id <- toOld :: toOld[id] < n
    ensures CompileOps(diff, new_, toOld).Some? && at <= |new_|
    ensures var c := CompileOps(diff, new_, toOld).value;
      TotalLength(c.ops) == |new_| - at && OpsInRange(c.ops, n) && |c.inline| <= |new_| - at
      && |c.ops| == |diff|
    decreases |diff|
  {
    if diff != [] {
      CompiledShape(diff[1..], new_, toOld, at + diff[0].len, n);
      var rest := CompileOps(diff[1..], new_, toOld).value;
      var c := CompileOps(diff, new_, toOld).value;
      assert diff[0] in diff;
      assert c.ops[1..] == rest.ops;
      assert forall op <- c.ops :: op == c.ops[0] || op in rest.ops;
    }
  }

  lemma SourcesAgree(tools: Tools, walk: seq<Path>, t: Tree, o: OldSide)
    requires WalkOf(walk, t) && OldSideOk(tools, walk, t, o, |walk|)
    ensures SameSources(Contents(walk, t), o.toOld, OldContents(o.files, t))
    ensures forall id <- Contents(walk, t) :: id in o.toOld
  {
    forall id | id in o.toOld
      ensures id in Contents(walk, t) && OldContents(o.files, t)[o.toOld[id]] == Some(Contents(walk, t)[id])
    {
      assert Records(tools, t, o.files[o.toOld[id]]);
    }
  }

  lemma OpsRebuild(tools: Tools, t: Tree, files: seq<OldFile>, sections: seq<Section>, sec: U32, c: Compiled,
                   data: Data)
    requires sec < |sections| && SectionBytes(tools, sections[sec]) == Some(c.inline)
    requires RunOps(c.ops, OldContents(files, t), c.inline) == Some(data)
    requires OpsInRange(c.ops, |files|) && TotalLength(c.ops) == |data| < TWO_64 && |c.ops| <= OpBound(|data|)
    ensures Rebuilds(tools, t, files, sections, PlanOps(sec, c.ops), data)
  {
  }

  lemma CopyRebuilds(tools: Tools, t: Tree, files: seq<OldFile>, sections: seq<Section>, idx: U32, data: Data)
    requires idx < |files| && Records(tools, t, files[idx]) && |data| < TWO_64
    requires files[idx].blake3 == tools.hash(data) && NoCollision(tools.hash, data)
    ensures Rebuilds(tools, t, files, sections, CopyWhole(idx), data)
  {
    assert FileAt(t, files[idx].path).value == data;
  }

  lemma DeltaRebuilds(tools: Tools, t: Tree, files: seq<OldFile>, sections: seq<Section>, idx: U32, sec: U32,
                      raw: Data, data: Data)
    requires idx < |files| && Records(tools, t, files[idx]) && |data| < TWO_64
    requires sec < |sections| && SectionBytes(tools, sections[sec]) == Some(raw)
    ensures tools.bspatch(FileAt(t, files[idx].path).value, raw) == Some(data) ==>
      Rebuilds(tools, t, files, sections, Bsdiff(idx, sec), data)
    ensures tools.xpatch(FileAt(t, files[idx].path).value, raw) == Some(data) ==>
      Rebuilds(tools, t, files, sections, Xdelta3(idx, sec), data)
  {
  }

  // ---------- Candidates ----------

  datatype Measured = Measured(plan: Option<Compiled>, bsdiffRaw: Option<Data>, xdeltaRaw: Option<Data>,
                               candidates: seq<Candidate>)

  function PackedSize(tools: Tools, opts: Options, raw: Data): nat {
    match Pack(tools, opts, raw) case Some(p) => |p.data| case None => 0
  }

  /** What a candidate is charged. An empty inline stream is charged nothing, although choosing
      the plan still pushes a (compressed, empty) section. */
  function Charge(tools: Tools, opts: Options, m: Measured, bytes: Data, tag: Label): nat {
    match tag
    case PlanLabel =>
      if m.plan.None? then 0
      else OpsCost(m.plan.value.ops)
           + (if m.plan.value.inline == [] then 0 else PackedSize(tools, opts, m.plan.value.inline))
    case BsdiffLabel => if m.bsdiffRaw.None? then 0 else PackedSize(tools, opts, m.bsdiffRaw.value)
    case XdeltaLabel => if m.xdeltaRaw.None? then 0 else PackedSize(tools, opts, m.xdeltaRaw.value)
    case FullLabel => PackedSize(tools, opts, bytes)
  }

  /** Every candidate is backed by its payload and charged for it, and everything measurable
      was measured. */
  ghost predicate Backed(tools: Tools, opts: Options, m: Measured, bytes: Data) {
    && (m.plan.Some? <==> Offers(m.candidates, PlanLabel))
    && (m.bsdiffRaw.Some? <==> Offers(m.candidates, BsdiffLabel))
    && (m.xdeltaRaw.Some? <==> Offers(m.candidates, XdeltaLabel))
    && Offers(m.candidates, FullLabel)
    && forall c <- m.candidates :: c.size == Charge(tools, opts, m, bytes, c.tag)
  }

  /** The external deltas tried against the old file at the same path: exactly those asked for,
      available and, for bsdiff, small enough. */
  ghost predicate DeltasOf(tools: Tools, opts: Options, m: Measured, old_: Option<Data>, bytes: Data) {
    && m.bsdiffRaw == (if WantsBsdiff(opts, old_, bytes) then tools.bsdiff(old_.value, bytes) else None)
    && m.xdeltaRaw == (if WantsXdelta(opts, old_) then tools.xdelta(old_.value, bytes) else None)
  }

  predicate Asked(opts: Options, tag: Label) {
    opts.algo.Auto? || opts.algo.tag == Some(tag)
  }

  predicate WantsBsdiff(opts: Options, old_: Option<Data>, bytes: Data) {
    && old_.Some? && Asked(opts, BsdiffLabel) && opts.bsdiff
    && |old_.value| <= BSDIFF_MAX_FILE && |bytes| <= BSDIFF_MAX_FILE
  }

  predicate WantsXdelta(opts: Options, old_: Option<Data>) {
    old_.Some? && Asked(opts, XdeltaLabel) && opts.xdelta3
  }

  /** The candidate of a payload, if there is one. */
  function Offered(tools: Tools, opts: Options, raw: Option<Data>, tag: Label): seq<Candidate> {
    match raw
    case None => []
    case Some(bytes) => [Candidate(tag, PackedSize(tools, opts, bytes))]
  }

  function PlanOffered(tools: Tools, opts: Options, plan: Option<Compiled>): seq<Candidate> {
    match plan
    case None => []
    case Some(p) =>
      [Candidate(PlanLabel, OpsCost(p.ops) + if p.inline == [] then 0 else PackedSize(tools, opts, p.inline))]
  }

  lemma OfferedFor(tools: Tools, opts: Options, raw: Option<Data>, tag: Label)
    ensures raw.Some? <==> Offers(Offered(tools, opts, raw, tag), tag)
    ensures forall x <- Offered(tools, opts, raw, tag) ::
      x.tag == tag && raw.Some? && x.size == PackedSize(tools, opts, raw.value)
  {
    hide PackedSize;
    assert raw.Some? ==> Offered(tools, opts, raw, tag)[0] in Offered(tools, opts, raw, tag);
  }

  lemma PlanOfferedFor(tools: Tools, opts: Options, m: Measured, bytes: Data)
    ensures m.plan.Some? <==> Offers(PlanOffered(tools, opts, m.plan), PlanLabel)
    ensures forall x <- PlanOffered(tools, opts, m.plan) ::
      x.tag == PlanLabel && x.size == Charge(tools, opts, m, bytes, PlanLabel)
  {
    hide PackedSize, OpsCost;
    assert m.plan.Some? ==> PlanOffered(tools, opts, m.plan)[0] in PlanOffered(tools, opts, m.plan);
  }

  lemma OffersJoin(a: seq<Candidate>, b: seq<Candidate>)
    ensures forall tag :: Offers(a + b, tag) <==> Offers(a, tag) || Offers(b, tag)
  {
    assert forall x :: x in a + b <==> x in a || x in b;
  }

  lemma {:induction false} AllBacked(tools: Tools, opts: Options, m: Measured, bytes: Data)
    requires m.candidates == PlanOffered(tools, opts, m.plan) + Offered(tools, opts, m.bsdiffRaw, BsdiffLabel)
                             + Offered(tools, opts, m.xdeltaRaw, XdeltaLabel)
                             + Offered(tools, opts, Some(bytes), FullLabel)
    ensures Backed(tools, opts, m, bytes)
  {
    hide PackedSize, OpsCost, Offered, PlanOffered;
    var a, b := PlanOffered(tools, opts, m.plan), Offered(tools, opts, m.bsdiffRaw, BsdiffLabel);
    var c, d := Offered(tools, opts, m.xdeltaRaw, XdeltaLabel), Offered(tools, opts, Some(bytes), FullLabel);
    PlanOfferedFor(tools, opts, m, bytes);
    OfferedFor(tools, opts, m.bsdiffRaw, BsdiffLabel);
    OfferedFor(tools, opts, m.xdeltaRaw, XdeltaLabel);
    OfferedFor(tools, opts, Some(bytes), FullLabel);
    OffersJoin(a, b);
    OffersJoin(a + b, c);
    OffersJoin(a + b + c, d);
    assert forall x :: x in m.candidates <==> x in a || x in b || x in c || x in d;
  }

  /** A payload that exists is probed and joins the candidates. */
  method Offer(builder: SectionBuilder, candidates: seq<Candidate>, raw: Option<Data>, tag: Label)
    returns (r: Option<seq<Candidate>>)
    requires raw.Some? ==> |raw.value| < TWO_64
    ensures CompressionWorks(builder.tools, builder.opts) ==> r.Some?
    ensures r.Some? ==> r.value == candidates + Offered(builder.tools, builder.opts, raw, tag)
  {
    hide Pack, CompressionWorks;
    if raw.None? {
      assert candidates + [] == candidates;
      return Some(candidates);
    }
    var size := builder.Probe(raw.value);
    if size.None? {
      return None;
    }
    return Some(candidates + [Candidate(tag, size.value)]);
  }

  method Measure(builder: SectionBuilder, plan: Option<Compiled>, old_: Option<Data>, bytes: Data)
    returns (r: Option<Measured>)
    requires Contract(builder.tools) && |bytes| < TWO_64 && (plan.Some? ==> |plan.value.inline| < TWO_64)
    ensures CompressionWorks(builder.tools, builder.opts) ==> r.Some?
    ensures r.Some? ==>
      && Backed(builder.tools, builder.opts, r.value, bytes) && r.value.plan == plan
      && DeltasOf(builder.tools, builder.opts, r.value, old_, bytes)
  {
    hide OpsCost, Pack, CompressionWorks, Offered, Backed;
    var tools, opts := builder.tools, builder.opts;
    var candidates: seq<Candidate> := [];
    if plan.Some? {
      var inlineSize := Some(0);
      if plan.value.inline != [] {
        inlineSize := builder.Probe(plan.value.inline);
        if inlineSize.None? {
          return None;
        }
      }
      candidates := [Candidate(PlanLabel, inlineSize.value + OpsCost(plan.value.ops))];
    }
    var bsdiffRaw: Option<Data>, xdeltaRaw: Option<Data> := None, None;
    if old_.Some? {
      if (opts.algo.Auto? || opts.algo.tag == Some(BsdiffLabel)) && opts.bsdiff
         && |old_.value| <= BSDIFF_MAX_FILE && |bytes| <= BSDIFF_MAX_FILE {
        bsdiffRaw := tools.bsdiff(old_.value, bytes);
      }
      if (opts.algo.Auto? || opts.algo.tag == Some(XdeltaLabel)) && opts.xdelta3 {
        xdeltaRaw := tools.xdelta(old_.value, bytes);
      }
    }
    var more := Offer(builder, candidates, bsdiffRaw, BsdiffLabel);
    if more.None? {
      return None;
    }
    more := Offer(builder, more.value, xdeltaRaw, XdeltaLabel);
    if more.None? {
      return None;
    }
    more := Offer(builder, more.value, Some(bytes), FullLabel);
    if more.None? {
      return None;
    }
    var m := Measured(plan, bsdiffRaw, xdeltaRaw, more.value);
    AllBacked(tools, opts, m, bytes);
    return Some(m);
  }

  /** What the report records of a file: where it moved from, or what was measured and chosen. */
  datatype Decision =
    | Moved(path: Path, size: nat, from: Path)
    | Chosen(path: Path, size: nat, measured: Measured, chosen: Candidate)

  datatype Counters = Counters(filesTotal: nat, copyOld: nat, planOps: nat, bsdiff: nat, xdelta3: nat,
                               fullData: nat, renames: nat)

  class Report {
    var filesTotal: nat
    var copyOld: nat
    var planOps: nat
    var bsdiff: nat
    var xdelta3: nat
    var fullData: nat
    var renames: nat
    var decisions: seq<Decision>

    constructor ()
      ensures Now() == Counters(0, 0, 0, 0, 0, 0, 0) && decisions == []
    {
      filesTotal, copyOld, planOps, bsdiff, xdelta3, fullData, renames := 0, 0, 0, 0, 0, 0, 0;
      decisions := [];
    }

    function Now(): Counters
      reads this
    {
      Counters(filesTotal, copyOld, planOps, bsdiff, xdelta3, fullData, renames)
    }
  }

  /** The counters after a changed file has been given strategy `tag`. */
  function Bumped(c: Counters, tag: Label): Counters {
    match tag
    case PlanLabel => c.(planOps := c.planOps + 1)
    case BsdiffLabel => c.(bsdiff := c.bsdiff + 1)
    case XdeltaLabel => c.(xdelta3 := c.xdelta3 + 1)
    case FullLabel => c.(fullData := c.fullData + 1)
  }

  function LabelOf(x: Strategy): Option<Label> {
    match x
    case CopyWhole(_) => None
    case PlanOps(_, _) => Some(PlanLabel)
    case Bsdiff(_, _) => Some(BsdiffLabel)
    case Xdelta3(_, _) => Some(XdeltaLabel)
    case FullData(_) => Some(FullLabel)
  }

  function SectionOf(x: Strategy): Option<U32> {
    match x
    case CopyWhole(_) => None
    case PlanOps(sec, _) => Some(sec)
    case Bsdiff(_, sec) => Some(sec)
    case Xdelta3(_, sec) => Some(sec)
    case FullData(sec) => Some(sec)
  }

  /** The bytes a chosen strategy adds to the patch: its section, and 12 or 5 per op. */
  function Payload(x: Strategy, sections: seq<Section>): nat {
    (if SectionOf(x).Some? && SectionOf(x).value < |sections| then |sections[SectionOf(x).value].data| else 0)
    + (if x.PlanOps? then OpsCost(x.ops) else 0)
  }

  /** The old file at a new file's own path. */
  function OldHere(t: Tree, o: OldSide, rel: Path): Option<Data> {
    if rel in o.byPath && o.byPath[rel] < |o.files| then FileAt(t, o.files[o.byPath[rel]].path) else None
  }

  /** The decision for a changed file is the best of what was measured, everything measurable was
      measured, the strategy is what was decided, and the patch pays the measured size but for the
      section of an empty inline stream. */
  ghost predicate Justified(tools: Tools, opts: Options, t: Tree, o: OldSide, sections: seq<Section>,
                            rel: Path, bytes: Data, x: Strategy, d: Decision) {
    && d.Chosen? && d.path == rel && d.size == |bytes| && d.measured.plan.Some?
    && Backed(tools, opts, d.measured, bytes) && DeltasOf(tools, opts, d.measured, OldHere(t, o, rel), bytes)
    && Best(d.measured.candidates, opts.algo, d.chosen) && LabelOf(x) == Some(d.chosen.tag)
    && Payload(x, sections) ==
         d.chosen.size + (if x.PlanOps? && d.measured.plan.value.inline == [] then PackedSize(tools, opts, []) else 0)
  }

  /** The state of `generate` while it walks the new side. */
  ghost predicate Ready(tools: Tools, walk: seq<Path>, t: Tree, o: OldSide, sig: Diff.Signature,
                        builder: SectionBuilder)
    reads builder
  {
    && builder.tools == tools && Contract(tools) && builder.Addressable()
    && WalkOf(walk, t) && OldSideOk(tools, walk, t, o, |walk|)
    && Diff.Describes(sig, Contents(walk, t), tools.hash) && sig.blockSize == DEFAULT_BLOCK_SIZE
  }

  /** A changed or new file: candidates are measured, one is chosen, its section is kept. */
  method ChangedFile(tools: Tools, walk: seq<Path>, t: Tree, o: OldSide, sig: Diff.Signature,
                     builder: SectionBuilder, report: Report, rel: Path, bytes: Data)
    returns (r: Option<Strategy>)
    requires Ready(tools, walk, t, o, sig, builder) && |bytes| < TWO_64 && |builder.sections| < TWO_32
    modifies builder, report
    ensures builder.Addressable()
    ensures CompressionWorks(tools, builder.opts) ==> r.Some?
    ensures r.Some? ==>
      && |builder.sections| == |old(builder.sections)| + 1
      && builder.sections[..|old(builder.sections)|] == old(builder.sections)
      && SectionOf(r.value) == Some(|old(builder.sections)|)
      && Rebuilds(tools, t, o.files, builder.sections, r.value, bytes)
    ensures r.Some? ==>
      && report.decisions != [] && report.decisions[..|report.decisions| - 1] == old(report.decisions)
      && Justified(tools, builder.opts, t, o, builder.sections, rel, bytes, r.value,
                   report.decisions[|report.decisions| - 1])
      && report.Now() == Bumped(old(report.Now()), LabelOf(r.value).value)
  {
    hide Diff.Describes, Diff.GoodPlan, Rebuilds, Pack, PackedSize, OpsCost, DeltasOf, Backed, Usable;
    hide CompressionWorks, Contract, OpBound;
    ghost var src := Contents(walk, t);
    var diff := Diff.DiffBytes(sig, bytes, Some(rel), tools.hash, src);
    assert WithinNew(diff, |bytes|) by { PlanStaysWithin(diff, src, bytes); }
    var plan, cost := CompileDiff(diff, bytes, o.toOld);
    PlanExists(tools, walk, t, o, diff, bytes);
    var samePath := if rel in o.byPath then Some(o.byPath[rel]) else None;
    var old_ := if samePath.Some? then FileAt(t, o.files[samePath.value].path) else None;
    var measured := Measure(builder, plan, old_, bytes);
    if measured.None? {
      return None;
    }
    var m := measured.value;
    BackedOffersFull(tools, builder.opts, m, bytes);
    var chosen := Choose(m.candidates, builder.opts.algo);
    PlanIsUsable(tools, t, o, m, samePath, bytes);
    ChosenIsUsable(tools, t, o, builder.opts, m, chosen, samePath, old_, bytes);
    report.decisions := report.decisions + [Chosen(rel, |bytes|, m, chosen)];
    r := KeepChosen(tools, t, o, builder, report, m, chosen, samePath, bytes);
  }

  /** The chosen candidate has its payload and the payload rebuilds `bytes`: what makes the
      unwraps after the choice safe. */
  predicate Usable(tools: Tools, t: Tree, o: OldSide, m: Measured, tag: Label, samePath: Option<U32>, bytes: Data) {
    match tag
    case PlanLabel =>
      && m.plan.Some? && RunOps(m.plan.value.ops, OldContents(o.files, t), m.plan.value.inline) == Some(bytes)
      && OpsInRange(m.plan.value.ops, |o.files|) && TotalLength(m.plan.value.ops) == |bytes|
      && |m.plan.value.inline| < TWO_64 && |m.plan.value.ops| <= OpBound(|bytes|)
    case BsdiffLabel =>
      && m.bsdiffRaw.Some? && |m.bsdiffRaw.value| < TWO_64 && OldAt(tools, t, o, samePath)
      && tools.bspatch(FileAt(t, o.files[samePath.value].path).value, m.bsdiffRaw.value) == Some(bytes)
    case XdeltaLabel =>
      && m.xdeltaRaw.Some? && |m.xdeltaRaw.value| < TWO_64 && OldAt(tools, t, o, samePath)
      && tools.xpatch(FileAt(t, o.files[samePath.value].path).value, m.xdeltaRaw.value) == Some(bytes)
    case FullLabel => true
  }

  lemma PlanStaysWithin(diff: seq<DiffOp>, src: map<U32, Data>, bytes: Data)
    requires Diff.GoodPlan(diff, src, bytes, |bytes|)
    ensures WithinNew(diff, |bytes|)
  {
  }

  lemma BackedOffersFull(tools: Tools, opts: Options, m: Measured, bytes: Data)
    requires Backed(tools, opts, m, bytes)
    ensures Offers(m.candidates, FullLabel)
  {
  }

  lemma PlanIsUsable(tools: Tools, t: Tree, o: OldSide, m: Measured, samePath: Option<U32>, bytes: Data)
    requires |bytes| < TWO_64 && m.plan.Some?
    requires var c := m.plan.value;
      && |c.inline| <= |bytes| && RunOps(c.ops, OldContents(o.files, t), c.inline) == Some(bytes)
      && OpsInRange(c.ops, |o.files|) && TotalLength(c.ops) == |bytes| && |c.ops| <= OpBound(|bytes|)
    ensures Usable(tools, t, o, m, PlanLabel, samePath, bytes)
  {
  }

  /** Whatever candidate is chosen, its payload exists and it is charged what it costs. */
  lemma ChosenIsUsable(tools: Tools, t: Tree, o: OldSide, opts: Options, m: Measured, chosen: Candidate,
                       samePath: Option<U32>, old_: Option<Data>, bytes: Data)
    requires Contract(tools) && Backed(tools, opts, m, bytes) && DeltasOf(tools, opts, m, old_, bytes)
    requires chosen in m.candidates && Usable(tools, t, o, m, PlanLabel, samePath, bytes)
    requires samePath.Some? ==> OldAt(tools, t, o, samePath)
    requires old_ == if samePath.Some? then FileAt(t, o.files[samePath.value].path) else None
    ensures Usable(tools, t, o, m, chosen.tag, samePath, bytes)
    ensures chosen.size == Charge(tools, opts, m, bytes, chosen.tag)
  {
    hide PackedSize, OpsCost, OpBound, OpsInRange, TotalLength;
    assert Offers(m.candidates, chosen.tag);
  }

  predicate OldAt(tools: Tools, t: Tree, o: OldSide, samePath: Option<U32>) {
    samePath.Some? && samePath.value < |o.files| && Records(tools, t, o.files[samePath.value])
  }

  /** The chosen candidate's payload becomes a section. */
  method KeepChosen(tools: Tools, t: Tree, o: OldSide, builder: SectionBuilder, report: Report,
                    m: Measured, chosen: Candidate, samePath: Option<U32>, bytes: Data)
    returns (r: Option<Strategy>)
    requires builder.tools == tools && Contract(tools) && builder.Addressable()
    requires |bytes| < TWO_64 && |builder.sections| < TWO_32
    requires Usable(tools, t, o, m, chosen.tag, samePath, bytes)
    requires chosen.size == Charge(tools, builder.opts, m, bytes, chosen.tag)
    modifies builder, report
    ensures builder.Addressable()
    ensures CompressionWorks(tools, builder.opts) ==> r.Some?
    ensures report.Now() == Bumped(old(report.Now()), chosen.tag) && report.decisions == old(report.decisions)
    ensures r.Some? ==>
      && |builder.sections| == |old(builder.sections)| + 1
      && builder.sections[..|old(builder.sections)|] == old(builder.sections)
      && SectionOf(r.value) == Some(|old(builder.sections)|)
      && Rebuilds(tools, t, o.files, builder.sections, r.value, bytes)
      && LabelOf(r.value) == Some(chosen.tag)
      && Payload(r.value, builder.sections) ==
           chosen.size + (if r.value.PlanOps? && m.plan.value.inline == []
                          then PackedSize(tools, builder.opts, []) else 0)
  {
    hide OpBound, CompressionWorks, Contract;
    var raw, sec;
    match chosen.tag {
      case PlanLabel =>
        report.planOps := report.planOps + 1;
        raw := m.plan.value.inline;
      case BsdiffLabel =>
        report.bsdiff := report.bsdiff + 1;
        raw := m.bsdiffRaw.value;
      case XdeltaLabel =>
        report.xdelta3 := report.xdelta3 + 1;
        raw := m.xdeltaRaw.value;
      case FullLabel =>
        report.fullData := report.fullData + 1;
        raw := bytes;
    }
    sec := builder.Push(raw);
    if sec.None? {
      return None;
    }
    match chosen.tag {
      case PlanLabel =>
        OpsRebuild(tools, t, o.files, builder.sections, sec.value, m.plan.value, bytes);
        r := Some(PlanOps(sec.value, m.plan.value.ops));
      case BsdiffLabel =>
        DeltaRebuilds(tools, t, o.files, builder.sections, samePath.value, sec.value, raw, bytes);
        r := Some(Bsdiff(samePath.value, sec.value));
      case XdeltaLabel =>
        DeltaRebuilds(tools, t, o.files, builder.sections, samePath.value, sec.value, raw, bytes);
        r := Some(Xdelta3(samePath.value, sec.value));
      case FullLabel =>
        r := Some(FullData(sec.value));
    }
  }

  /** The plan candidate is always available: every block the diff copies has an old file. */
  lemma PlanExists(tools: Tools, walk: seq<Path>, t: Tree, o: OldSide, diff: seq<DiffOp>, bytes: Data)
    requires WalkOf(walk, t) && OldSideOk(tools, walk, t, o, |walk|)
    requires Diff.GoodPlan(diff, Contents(walk, t), bytes, |bytes|)
    requires |diff| * DEFAULT_BLOCK_SIZE <= 2 * |bytes| + DEFAULT_BLOCK_SIZE
    ensures CompileOps(diff, bytes, o.toOld).Some?
    ensures var c := CompileOps(diff, bytes, o.toOld).value;
      && |c.inline| <= |bytes| && RunOps(c.ops, OldContents(o.files, t), c.inline) == Some(bytes)
      && OpsInRange(c.ops, |o.files|) && TotalLength(c.ops) == |bytes| && |c.ops| <= OpBound(|bytes|)
  {
    SourcesAgree(tools, walk, t, o);
    forall op | op in diff && op.CopyOldRange? ensures op.entryId in o.toOld {
      assert OpReadable(op, Contents(walk, t));
    }
    CompiledShape(diff, bytes, o.toOld, 0, |o.files|);
    CompiledRebuilds(diff, Contents(walk, t), bytes, o.toOld, OldContents(o.files, t));
  }

  // ---------- What an empty inline stream costs ----------

  /** Codecs that put one byte before the content, and a delta of eleven bytes for a first block. */
  function FramingTools(hash: Data -> ChunkHash): Tools {
    Tools(hash,
          (raw: Data, tag: Data) =>
            if |raw| + 1 < TWO_64 then Some([7] + raw) else if |raw| < TWO_64 then Some(raw) else None,
          (tag: Data, packed: Data, n: nat) =>
            if n + 1 < TWO_64 && packed != [] then Some(packed[1..]) else Some(packed),
          (o: Data, n: Data) =>
            if |o| > DEFAULT_BLOCK_SIZE && n == o[..DEFAULT_BLOCK_SIZE] then Some(Zeros(11)) else None,
          (o: Data, d: Data) => Some(o[..Min(DEFAULT_BLOCK_SIZE, |o|)]),
          (o: Data, n: Data) => None,
          (o: Data, d: Data) => None)
  }

  const FRAMING: Options := Options(Auto, ZSTD_19, false, true, false)

  lemma FramingToolsWork(hash: Data -> ChunkHash)
    ensures Contract(FramingTools(hash)) && CompressionWorks(FramingTools(hash), FRAMING)
  {
    var tools := FramingTools(hash);
    forall raw, tag | tools.compress(raw, tag).Some?
      ensures var c := tools.compress(raw, tag).value;
        |c| < TWO_64 && tools.decompress(tag, c, |raw|) == Some(raw)
    {
      assert ([7] + raw)[1..] == raw;
    }
  }

  /** The first block of an old file, as a diff against it and compiled. */
  const BLOCK_DIFF: seq<DiffOp> := [CopyOldRange(0, 0, 0, DEFAULT_BLOCK_SIZE)]
  const BLOCK_PLAN: Compiled := Compiled([CopyOld(0, 0, DEFAULT_BLOCK_SIZE)], [])

  lemma BlockIsPlanned(block: Data)
    requires |block| == DEFAULT_BLOCK_SIZE
    ensures Diff.GoodPlan(BLOCK_DIFF, map[0 := block + [0]], block, |block|)
    ensures CompileOps(BLOCK_DIFF, block, map[0 := 0]) == Some(BLOCK_PLAN) && OpsCost(BLOCK_PLAN.ops) == 12
  {
    assert BLOCK_DIFF[1..] == [] && BLOCK_PLAN.ops[1..] == [];
    assert (block + [0])[0..DEFAULT_BLOCK_SIZE] == block == block[0..DEFAULT_BLOCK_SIZE];
    assert CompileOne(BLOCK_DIFF[0], block, map[0 := 0]) == Some(BLOCK_PLAN);
    assert CompileOps(BLOCK_DIFF[1..], block, map[0 := 0]) == Some(Compiled([], []));
    assert BLOCK_PLAN.ops + [] == BLOCK_PLAN.ops && BLOCK_PLAN.inline + [] == BLOCK_PLAN.inline;
  }

  /** The signature of a file "a" that holds `block` and one more byte. */
  function BlockSignature(hash: Data -> ChunkHash, block: Data): Diff.Signature
    requires |block| == DEFAULT_BLOCK_SIZE
  {
    Diff.Signature(DEFAULT_BLOCK_SIZE,
                   [Diff.Block(0, 0, DEFAULT_BLOCK_SIZE, Diff.Weak(block), hash(block)),
                    Diff.Block(0, DEFAULT_BLOCK_SIZE, 1, Diff.Weak([0]), hash([0]))],
                   map[0 := [97]])
  }

  lemma BlockSigned(hash: Data -> ChunkHash, block: Data)
    requires |block| == DEFAULT_BLOCK_SIZE && NoCollision(hash, block) && NoCollision(hash, [0])
    ensures var sig, src := BlockSignature(hash, block), map[0 := block + [0]];
      Diff.Describes(sig, src, hash) && Diff.Reusable(sig, src, block, 0)
  {
    hide Diff.Weak;
    var sig, src := BlockSignature(hash, block), map[0 := block + [0]];
    assert src[0][0..DEFAULT_BLOCK_SIZE] == block == block[0..DEFAULT_BLOCK_SIZE];
    assert src[0][DEFAULT_BLOCK_SIZE..DEFAULT_BLOCK_SIZE + 1] == [0];
    assert sig.blocks[0] in sig.blocks;
    assert forall b <- sig.blocks :: b == sig.blocks[0] || b == sig.blocks[1];
  }

  /** The differ cannot answer anything else for that file. */
  lemma OnlyBlockDiff(hash: Data -> ChunkHash, block: Data, diff: seq<DiffOp>)
    requires |block| == DEFAULT_BLOCK_SIZE
    requires var sig, src := BlockSignature(hash, block), map[0 := block + [0]];
      && Diff.GoodPlan(diff, src, block, |block|)
      && diff != [] && Diff.CopiesFirst(sig, src, block, diff[0])
    ensures diff == BLOCK_DIFF
  {
    hide Diff.Weak, Agrees;
    var sig := BlockSignature(hash, block);
    assert forall b <- sig.blocks :: b == sig.blocks[0] || b == sig.blocks[1];
    assert diff[0] in diff && diff[0] == BLOCK_DIFF[0];
    var rest := diff[1..];
    assert diff == [diff[0]] + rest && Tiles(rest, DEFAULT_BLOCK_SIZE, DEFAULT_BLOCK_SIZE);
    assert forall i | 0 <= i < |rest| :: rest[i] in diff;
  }

  const PLAN_WINS: Candidate := Candidate(PlanLabel, 12)
  const DELTA_LOSES: Candidate := Candidate(BsdiffLabel, 12)
  const BLOCK_MEASURED: Measured :=
    Measured(Some(BLOCK_PLAN), Some(Zeros(11)), None,
             [PLAN_WINS, DELTA_LOSES, Candidate(FullLabel, DEFAULT_BLOCK_SIZE + 1)])

  lemma PlanWins()
    ensures forall c :: Best(BLOCK_MEASURED.candidates, Auto, c) <==> c == PLAN_WINS
    ensures Offers(BLOCK_MEASURED.candidates, PlanLabel) && Offers(BLOCK_MEASURED.candidates, BsdiffLabel)
    ensures Offers(BLOCK_MEASURED.candidates, FullLabel) && !Offers(BLOCK_MEASURED.candidates, XdeltaLabel)
  {
    var cs := BLOCK_MEASURED.candidates;
    assert cs[0] == PLAN_WINS && cs[1] == DELTA_LOSES && cs[2] == Candidate(FullLabel, DEFAULT_BLOCK_SIZE + 1);
    assert PLAN_WINS in cs && DELTA_LOSES in cs && cs[2] in cs;
  }

  lemma FramedSizes(hash: Data -> ChunkHash, block: Data)
    requires |block| == DEFAULT_BLOCK_SIZE
    ensures var tools := FramingTools(hash);
      && PackedSize(tools, FRAMING, []) == 1 && PackedSize(tools, FRAMING, Zeros(11)) == 12
      && PackedSize(tools, FRAMING, block) == DEFAULT_BLOCK_SIZE + 1
  {
    assert ZSTD_19[0] != AUTO[0];
  }

  lemma BlockIsCharged(hash: Data -> ChunkHash, block: Data)
    requires |block| == DEFAULT_BLOCK_SIZE
    ensures Backed(FramingTools(hash), FRAMING, BLOCK_MEASURED, block)
  {
    PlanWins();
    BlockIsPlanned(block);
    FramedSizes(hash, block);
    hide FramingTools, PackedSize, OpsCost, Offers, Best, CompileOps, Diff.GoodPlan;
    var cs := BLOCK_MEASURED.candidates;
    assert cs == [PLAN_WINS, DELTA_LOSES, Candidate(FullLabel, DEFAULT_BLOCK_SIZE + 1)];
  }

  lemma BlockDeltas(hash: Data -> ChunkHash, block: Data)
    requires |block| == DEFAULT_BLOCK_SIZE
    ensures DeltasOf(FramingTools(hash), FRAMING, BLOCK_MEASURED, Some(block + [0]), block)
  {
    assert (block + [0])[..DEFAULT_BLOCK_SIZE] == block;
  }

  /** An old file cut down to its first block is a plan without inline bytes. It is charged 12 and wins
      the tie against a delta of 12, yet with its empty section 13 bytes go into the patch. */
  lemma EmptyInlineIsUnderpriced(hash: Data -> ChunkHash, block: Data)
    requires |block| == DEFAULT_BLOCK_SIZE
    ensures var tools := FramingTools(hash);
      && Contract(tools) && CompressionWorks(tools, FRAMING)
      && Diff.GoodPlan(BLOCK_DIFF, map[0 := block + [0]], block, |block|)
      && CompileOps(BLOCK_DIFF, block, map[0 := 0]) == BLOCK_MEASURED.plan
      && Backed(tools, FRAMING, BLOCK_MEASURED, block)
      && DeltasOf(tools, FRAMING, BLOCK_MEASURED, Some(block + [0]), block)
      && (forall c :: Best(BLOCK_MEASURED.candidates, Auto, c) <==> c == PLAN_WINS)
      && OpsCost(BLOCK_PLAN.ops) + PackedSize(tools, FRAMING, BLOCK_PLAN.inline)
         == 13 > DELTA_LOSES.size == PackedSize(tools, FRAMING, Zeros(11))
  {
    FramingToolsWork(hash);
    BlockIsPlanned(block);
    BlockIsCharged(hash, block);
    BlockDeltas(hash, block);
    FramedSizes(hash, block);
    PlanWins();
    hide Contract, CompressionWorks, Diff.GoodPlan, CompileOps, OpsCost, PackedSize, Best, Offers, Backed, DeltasOf;
  }

  lemma PlanIsChosen(hash: Data -> ChunkHash, block: Data, m: Measured, chosen: Candidate)
    requires |block| == DEFAULT_BLOCK_SIZE && m.plan == Some(BLOCK_PLAN)
    requires Backed(FramingTools(hash), FRAMING, m, block)
    requires DeltasOf(FramingTools(hash), FRAMING, m, Some(block + [0]), block)
    requires Best(m.candidates, Auto, chosen)
    ensures chosen == PLAN_WINS
  {
    BlockIsPlanned(block);
    FramedSizes(hash, block);
    BlockDeltas(hash, block);
    hide FramingTools, PackedSize, OpsCost, CompileOps, Diff.GoodPlan;
    var c :| c in m.candidates && c.tag == PlanLabel;
    assert NoWorse(chosen, c);
  }

  /** From the signature on, the code makes that choice. */
  method FirstBlockKept(hash: Data -> ChunkHash, block: Data)
    returns (diff: seq<DiffOp>, plan: Option<Compiled>, chosen: Candidate)
    requires |block| == DEFAULT_BLOCK_SIZE && NoCollision(hash, block) && NoCollision(hash, [0])
    ensures diff == BLOCK_DIFF && plan == Some(BLOCK_PLAN) && chosen == PLAN_WINS
  {
    BlockSigned(hash, block);
    BlockIsPlanned(block);
    FramingToolsWork(hash);
    hide Diff.Describes, Diff.Reusable, Diff.GoodPlan, Diff.CopiesFirst, CompileOps, OpsCost, Backed, DeltasOf, Best;
    hide Contract, CompressionWorks, FramingTools;
    var builder := new SectionBuilder(FramingTools(hash), FRAMING);
    diff := Diff.DiffBytes(BlockSignature(hash, block), block, Some([97]), hash, map[0 := block + [0]]);
    OnlyBlockDiff(hash, block, diff);
    var cost;
    plan, cost := CompileDiff(diff, block, map[0 := 0]);
    var m := Measure(builder, plan, Some(block + [0]), block);
    BackedOffersFull(builder.tools, FRAMING, m.value, block);
    chosen := Choose(m.value.candidates, FRAMING.algo);
    PlanIsChosen(hash, block, m.value, chosen);
  }

  // ---------- The whole patch ----------

  /** The entry written for what the new build has at `q`. */
  ghost predicate GoodEntry(tools: Tools, t: Tree, o: OldSide, sections: seq<Section>, u: Tree, q: Path, e: NewEntry) {
    && q in u && e.path == q && e.symlinkTarget.None?
    && match u[q]
       case Dir => e.kind.DirectoryEntry? && e.blake3.None? && e.strategy.None?
       case File(data) =>
         && e.kind.FileEntry? && e.size == |data| && e.blake3 == Some(tools.hash(data))
         && e.strategy.Some? && Rebuilds(tools, t, o.files, sections, e.strategy.value, data)
         // content already present costs no payload, the same path being preferred
         && (e.strategy.value.CopyWhole? <==> tools.hash(data) in o.byHash)
         && (StaysPut(tools, o, q, tools.hash(data)) ==> e.strategy.value == CopyWhole(o.byPath[q]))
  }

  ghost predicate GoodEntries(tools: Tools, t: Tree, o: OldSide, sections: seq<Section>, u: Tree,
                              walk: seq<Path>, entries: seq<NewEntry>) {
    |entries| <= |walk| && forall i :: 0 <= i < |entries| ==> GoodEntry(tools, t, o, sections, u, walk[i], entries[i])
  }

  /** Exactly the files in `execs` are marked executable. */
  predicate Flagged(e: NewEntry, execs: set<Path>) {
    e.executable <==> IsFile(e) && e.path in execs
  }

  function SectionUse(e: NewEntry): seq<U32> {
    if e.strategy.Some? && SectionOf(e.strategy.value).Some? then [SectionOf(e.strategy.value).value] else []
  }

  /** The sections the entries refer to, in order. */
  function UsedSections(entries: seq<NewEntry>): seq<U32> {
    if entries == [] then []
    else UsedSections(entries[..|entries| - 1]) + SectionUse(entries[|entries| - 1])
  }

  function Indices(n: nat): (r: seq<nat>)
    ensures |r| == n
  {
    seq(n, i => i)
  }

  // ---------- The report ----------

  /** The old file at the path itself has the content. */
  predicate StaysPut(tools: Tools, o: OldSide, q: Path, hash: ChunkHash) {
    q in o.byPath && o.byPath[q] < |o.files| && o.files[o.byPath[q]].blake3 == hash
  }

  /** What the report gains by a file of strategy `x`; `moved` marks a renamed one. */
  function Counted(c: Counters, x: Strategy, moved: bool): Counters {
    var d := c.(filesTotal := c.filesTotal + 1);
    match LabelOf(x)
    case Some(tag) => Bumped(d, tag)
    case None => d.(copyOld := d.copyOld + 1, renames := d.renames + if moved then 1 else 0)
  }

  predicate Carries(e: NewEntry, tag: Option<Label>) {
    e.strategy.Some? && LabelOf(e.strategy.value) == tag
  }

  function Tally(entries: seq<NewEntry>, tag: Option<Label>): nat {
    if entries == [] then 0
    else Tally(entries[..|entries| - 1], tag) + if Carries(entries[|entries| - 1], tag) then 1 else 0
  }

  function FileCount(entries: seq<NewEntry>): nat {
    if entries == [] then 0
    else FileCount(entries[..|entries| - 1]) + if IsFile(entries[|entries| - 1]) then 1 else 0
  }

  function MoveCount(decisions: seq<Decision>): nat {
    if decisions == [] then 0
    else MoveCount(decisions[..|decisions| - 1]) + if decisions[|decisions| - 1].Moved? then 1 else 0
  }

  /** The counters agree with the entries and the decisions, and the five strategies make up the total. */
  predicate Tallies(c: Counters, entries: seq<NewEntry>, decisions: seq<Decision>) {
    && c.filesTotal == FileCount(entries) && c.renames == MoveCount(decisions)
    && c.copyOld == Tally(entries, None) && c.planOps == Tally(entries, Some(PlanLabel))
    && c.bsdiff == Tally(entries, Some(BsdiffLabel)) && c.xdelta3 == Tally(entries, Some(XdeltaLabel))
    && c.fullData == Tally(entries, Some(FullLabel))
    && c.filesTotal == c.copyOld + c.planOps + c.bsdiff + c.xdelta3 + c.fullData
  }

  /** A file entry is recorded unless its content stayed at its path. */
  predicate Recorded(tools: Tools, o: OldSide, u: Tree, e: NewEntry) {
    FileAt(u, e.path).Some? && !StaysPut(tools, o, e.path, tools.hash(FileAt(u, e.path).value))
  }

  /** What the report must record of a file with strategy `x`. */
  ghost predicate Fitting(tools: Tools, opts: Options, t: Tree, o: OldSide, sections: seq<Section>, rel: Path,
                          bytes: Data, x: Strategy, d: Decision)
  {
    match x
    case CopyWhole(idx) => idx < |o.files| && d == Moved(rel, |bytes|, o.files[idx].path)
    case _ => Justified(tools, opts, t, o, sections, rel, bytes, x, d)
  }

  ghost predicate RightDecision(tools: Tools, opts: Options, t: Tree, o: OldSide, sections: seq<Section>, u: Tree,
                                e: NewEntry, d: Decision)
    requires Recorded(tools, o, u, e)
  {
    && e.strategy.Some?
    && Fitting(tools, opts, t, o, sections, e.path, FileAt(u, e.path).value, e.strategy.value, d)
  }

  /** The decisions explain the entries, one for each recorded file, in order. */
  ghost predicate Explained(tools: Tools, opts: Options, t: Tree, o: OldSide, sections: seq<Section>, u: Tree,
                            entries: seq<NewEntry>, decisions: seq<Decision>)
  {
    if entries == [] then decisions == []
    else
      var e, init := entries[|entries| - 1], entries[..|entries| - 1];
      if Recorded(tools, o, u, e) then
        && decisions != []
        && RightDecision(tools, opts, t, o, sections, u, e, decisions[|decisions| - 1])
        && Explained(tools, opts, t, o, sections, u, init, decisions[..|decisions| - 1])
      else Explained(tools, opts, t, o, sections, u, init, decisions)
  }

  lemma {:induction false} ExplainedStill(tools: Tools, opts: Options, t: Tree, o: OldSide, sections: seq<Section>,
                                          more: seq<Section>, u: Tree, entries: seq<NewEntry>,
                                          decisions: seq<Decision>)
    requires Explained(tools, opts, t, o, sections, u, entries, decisions)
    requires |sections| <= |more| && more[..|sections|] == sections
    requires forall e <- entries :: UsesWithin(e, |sections|)
    ensures Explained(tools, opts, t, o, more, u, entries, decisions)
    decreases |entries|
  {
    hide Justified, Recorded;
    if entries != [] {
      var e, init := entries[|entries| - 1], entries[..|entries| - 1];
      assert forall x <- init :: x in entries;
      if Recorded(tools, o, u, e) {
        JustifiedStill(tools, opts, t, o, sections, more, u, e, decisions[|decisions| - 1]);
        ExplainedStill(tools, opts, t, o, sections, more, u, init, decisions[..|decisions| - 1]);
      } else {
        ExplainedStill(tools, opts, t, o, sections, more, u, init, decisions);
      }
    }
  }

  predicate UsesWithin(e: NewEntry, n: nat) {
    e.strategy.Some? && SectionOf(e.strategy.value).Some? ==> SectionOf(e.strategy.value).value < n
  }

  lemma JustifiedStill(tools: Tools, opts: Options, t: Tree, o: OldSide, sections: seq<Section>, more: seq<Section>,
                       u: Tree, e: NewEntry, d: Decision)
    requires Recorded(tools, o, u, e) && RightDecision(tools, opts, t, o, sections, u, e, d)
    requires |sections| <= |more| && more[..|sections|] == sections && UsesWithin(e, |sections|)
    ensures RightDecision(tools, opts, t, o, more, u, e, d)
  {
    hide Backed, DeltasOf, Best, PackedSize, Recorded, OldHere;
    var sec := SectionOf(e.strategy.value);
    assert sec.Some? ==> more[sec.value] == sections[sec.value];
  }

  lemma TalliesGrow(c: Counters, entries: seq<NewEntry>, decisions: seq<Decision>, e: NewEntry, added: seq<Decision>)
    requires Tallies(c, entries, decisions) && (IsFile(e) <==> e.strategy.Some?)
    requires added == [] || (|added| == 1 && e.strategy.Some? && (added[0].Moved? ==> e.strategy.value.CopyWhole?))
    ensures e.strategy.None? && added == [] ==> Tallies(c, entries + [e], decisions)
    ensures e.strategy.Some? ==>
      Tallies(Counted(c, e.strategy.value, added != [] && added[0].Moved?), entries + [e], decisions + added)
  {
    assert (entries + [e])[..|entries|] == entries;
    if added != [] {
      assert (decisions + added)[..|decisions|] == decisions;
    } else {
      assert decisions + added == decisions;
    }
  }

  // ---------- One file's strategy ----------

  /** Unchanged or renamed: an old file with the new content, its own path first. */
  method Unchanged(tools: Tools, walk: seq<Path>, t: Tree, o: OldSide, report: Report, rel: Path, bytes: Data)
    returns (idx: Option<U32>)
    requires WalkOf(walk, t) && OldSideOk(tools, walk, t, o, |walk|)
    modifies report
    ensures idx.Some? <==> tools.hash(bytes) in o.byHash
    ensures idx.Some? ==>
      && idx.value < |o.files| && Records(tools, t, o.files[idx.value])
      && o.files[idx.value].blake3 == tools.hash(bytes)
    ensures StaysPut(tools, o, rel, tools.hash(bytes)) ==> idx == Some(o.byPath[rel])
    ensures idx.None? ==> report.Now() == old(report.Now()) && report.decisions == old(report.decisions)
    ensures idx.Some? ==>
      var moved := !StaysPut(tools, o, rel, tools.hash(bytes));
      && report.Now() == old(report.Now()).(copyOld := old(report.copyOld) + 1,
                                            renames := old(report.renames) + if moved then 1 else 0)
      && report.decisions == old(report.decisions)
           + if moved then [Moved(rel, |bytes|, o.files[idx.value].path)] else []
  {
    hide WalkOf, FileAt;
    var hash := tools.hash(bytes);
    if rel in o.byPath && o.files[o.byPath[rel]].blake3 == hash {
      report.copyOld := report.copyOld + 1;
      assert report.decisions == old(report.decisions) + [];
      return Some(o.byPath[rel]);
    }
    if hash in o.byHash {
      report.copyOld := report.copyOld + 1;
      report.renames := report.renames + 1;
      report.decisions := report.decisions + [Moved(rel, |bytes|, o.files[o.byHash[hash]].path)];
      return Some(o.byHash[hash]);
    }
    return None;
  }

  /** One turn of the loop over the new build's files. */
  method FileStrategy(tools: Tools, walk: seq<Path>, t: Tree, o: OldSide, sig: Diff.Signature,
                      builder: SectionBuilder, report: Report, rel: Path, bytes: Data)
    returns (r: Option<Strategy>, ghost added: seq<Decision>)
    requires Ready(tools, walk, t, o, sig, builder) && |bytes| < TWO_64 && |builder.sections| < TWO_32
    requires NoCollision(tools.hash, bytes)
    modifies builder, report
    ensures builder.Addressable()
    ensures CompressionWorks(tools, builder.opts) ==> r.Some?
    ensures r.Some? ==>
      && |old(builder.sections)| <= |builder.sections|
      && builder.sections[..|old(builder.sections)|] == old(builder.sections)
      && Rebuilds(tools, t, o.files, builder.sections, r.value, bytes)
      && |builder.sections| == |old(builder.sections)| + (if r.value.CopyWhole? then 0 else 1)
      && SectionOf(r.value) == (if r.value.CopyWhole? then None else Some(|old(builder.sections)|))
      && (r.value.CopyWhole? <==> tools.hash(bytes) in o.byHash)
      && (StaysPut(tools, o, rel, tools.hash(bytes)) ==> r.value == CopyWhole(o.byPath[rel]))
    // the report counts the file and says why it got its strategy
    ensures r.Some? ==>
      && report.decisions == old(report.decisions) + added
      && report.Now() == Counted(old(report.Now()), r.value, added != [] && added[0].Moved?)
      && (StaysPut(tools, o, rel, tools.hash(bytes)) ==> added == [])
      && (!StaysPut(tools, o, rel, tools.hash(bytes)) ==>
            |added| == 1 && Fitting(tools, builder.opts, t, o, builder.sections, rel, bytes, r.value, added[0]))
  {
    hide ValidStrategy, Backed, Best, Rebuilds, Records, Justified, OldSideOk, WalkOf;
    report.filesTotal := report.filesTotal + 1;
    added := [];
    var same := Unchanged(tools, walk, t, o, report, rel, bytes);
    if same.Some? {
      CopyRebuilds(tools, t, o.files, builder.sections, same.value, bytes);
      added := report.decisions[|old(report.decisions)|..];
      return Some(CopyWhole(same.value)), added;
    }
    r := ChangedFile(tools, walk, t, o, sig, builder, report, rel, bytes);
    if r.Some? {
      added := [report.decisions[|report.decisions| - 1]];
      assert report.decisions == report.decisions[..|report.decisions| - 1] + added;
    }
  }

  /** The paths of `walk` that are not in `others`, in order. */
  function Without(walk: seq<Path>, others: seq<Path>): (r: seq<Path>)
    ensures |r| <= |walk|
    ensures forall d :: d in r <==> d in walk && d !in others
  {
    if walk == [] then []
    else
      var last, rest := walk[|walk| - 1], Without(walk[..|walk| - 1], others);
      assert walk == walk[..|walk| - 1] + [last];
      if last in others then rest else rest + [last]
  }

  /** Managed deletions: old paths the new build no longer has, in the order of the old walk. */
  method Deletions(oldWalk: seq<Path>, newWalk: seq<Path>) returns (deleted: seq<Path>)
    ensures deleted == Without(oldWalk, newWalk)
  {
    deleted := [];
    for i := 0 to |oldWalk|
      invariant deleted == Without(oldWalk[..i], newWalk)
    {
      assert oldWalk[..i + 1][..i] == oldWalk[..i];
      if oldWalk[i] !in newWalk {
        deleted := deleted + [oldWalk[i]];
      }
    }
    assert oldWalk[..|oldWalk|] == oldWalk;
  }

  lemma GoodEntryStill(tools: Tools, t: Tree, o: OldSide, sections: seq<Section>, more: seq<Section>,
                       u: Tree, walk: seq<Path>, entries: seq<NewEntry>)
    requires GoodEntries(tools, t, o, sections, u, walk, entries)
    requires |sections| <= |more| && more[..|sections|] == sections
    ensures GoodEntries(tools, t, o, more, u, walk, entries)
  {
    forall i | 0 <= i < |entries| ensures GoodEntry(tools, t, o, more, u, walk[i], entries[i]) {
      assert GoodEntry(tools, t, o, sections, u, walk[i], entries[i]);
      if u[walk[i]].File? {
        RebuildsStill(tools, t, o.files, sections, more, entries[i].strategy.value, u[walk[i]].data);
      }
    }
  }

  lemma {:induction false} SideStep(tools: Tools, t: Tree, o: OldSide, sections: seq<Section>, more: seq<Section>,
                 u: Tree, walk: seq<Path>, entries: seq<NewEntry>, e: NewEntry)
    requires GoodEntries(tools, t, o, sections, u, walk, entries) && |entries| < |walk|
    requires |sections| <= |more| && more[..|sections|] == sections
    requires GoodEntry(tools, t, o, more, u, walk[|entries|], e)
    requires UsedSections(entries) == Indices(|sections|)
    requires |more| == |sections| + |SectionUse(e)| && (SectionUse(e) == [] || SectionUse(e) == [|sections|])
    ensures GoodEntries(tools, t, o, more, u, walk, entries + [e])
    ensures UsedSections(entries + [e]) == Indices(|more|)
  {
    GoodEntryStill(tools, t, o, sections, more, u, walk, entries);
    GoodEntriesAppend(tools, t, o, more, u, walk, entries, e);
    UsedAppend(entries, e, |sections|);
  }

  lemma GoodEntriesAppend(tools: Tools, t: Tree, o: OldSide, sections: seq<Section>,
                          u: Tree, walk: seq<Path>, entries: seq<NewEntry>, e: NewEntry)
    requires GoodEntries(tools, t, o, sections, u, walk, entries) && |entries| < |walk|
    requires GoodEntry(tools, t, o, sections, u, walk[|entries|], e)
    ensures GoodEntries(tools, t, o, sections, u, walk, entries + [e])
  {
    forall i | 0 <= i < |entries + [e]| ensures GoodEntry(tools, t, o, sections, u, walk[i], (entries + [e])[i]) {
      assert i < |entries| ==> (entries + [e])[i] == entries[i];
    }
  }

  lemma UsedAppend(entries: seq<NewEntry>, e: NewEntry, n: nat)
    requires UsedSections(entries) == Indices(n)
    ensures SectionUse(e) == [] ==> UsedSections(entries + [e]) == Indices(n)
    ensures SectionUse(e) == [n] ==> UsedSections(entries + [e]) == Indices(n + 1)
  {
    assert (entries + [e])[..|entries|] == entries;
  }

  /** The inputs of a directory `generate`: both builds as walked, the old build's signature, and
      new contents whose hashes identify them. */
  ghost predicate Inputs(tools: Tools, oldWalk: seq<Path>, t: Tree, newWalk: seq<Path>, u: Tree, sig: Diff.Signature) {
    && Builds(tools, oldWalk, t, newWalk, u)
    && Diff.Describes(sig, Contents(oldWalk, t), tools.hash) && sig.blockSize == DEFAULT_BLOCK_SIZE
  }

  ghost predicate Builds(tools: Tools, oldWalk: seq<Path>, t: Tree, newWalk: seq<Path>, u: Tree) {
    && Contract(tools) && WalkOf(oldWalk, t) && WalkOf(newWalk, u)
    && forall q <- u :: u[q].File? ==> NoCollision(tools.hash, u[q].data)
  }

  /** From counters `c` and decisions `ds` the report went to `c2` and `ds2`: what entry `e` accounts for. */
  ghost predicate Accounts(tools: Tools, opts: Options, t: Tree, o: OldSide, sections: seq<Section>, u: Tree,
                           c: Counters, ds: seq<Decision>, c2: Counters, ds2: seq<Decision>,
                           e: NewEntry, added: seq<Decision>)
  {
    && ds2 == ds + added
    && (if Recorded(tools, o, u, e)
        then |added| == 1 && RightDecision(tools, opts, t, o, sections, u, e, added[0]) else added == [])
    && c2 == (if e.strategy.None? then c else Counted(c, e.strategy.value, added != [] && added[0].Moved?))
  }

  lemma ReportStep(tools: Tools, opts: Options, t: Tree, o: OldSide, sections: seq<Section>, more: seq<Section>,
                   u: Tree, walk: seq<Path>, entries: seq<NewEntry>, e: NewEntry, c: Counters, c2: Counters,
                   ds: seq<Decision>, ds2: seq<Decision>, added: seq<Decision>)
    requires GoodEntries(tools, t, o, sections, u, walk, entries)
    requires |sections| <= |more| && more[..|sections|] == sections
    requires Tallies(c, entries, ds) && Explained(tools, opts, t, o, sections, u, entries, ds)
    requires Accounts(tools, opts, t, o, more, u, c, ds, c2, ds2, e, added)
    requires IsFile(e) <==> e.strategy.Some?
    requires Recorded(tools, o, u, e) ==> e.strategy.Some?
    ensures Tallies(c2, entries + [e], ds2) && Explained(tools, opts, t, o, more, u, entries + [e], ds2)
  {
    hide UsesWithin, Recorded, Tallies, Explained, GoodEntries, Counted, RightDecision;
    AllWithin(tools, t, o, sections, u, walk, entries);
    ExplainedStill(tools, opts, t, o, sections, more, u, entries, ds);
    AddedMoves(tools, opts, t, o, more, u, e, added);
    TalliesGrow(c, entries, ds, e, added);
    ExplainedGrows(tools, opts, t, o, more, u, entries, ds, e, added);
    assert ds + [] == ds;
  }

  lemma ExplainedGrows(tools: Tools, opts: Options, t: Tree, o: OldSide, sections: seq<Section>, u: Tree,
                       entries: seq<NewEntry>, ds: seq<Decision>, e: NewEntry, added: seq<Decision>)
    requires Explained(tools, opts, t, o, sections, u, entries, ds)
    requires if Recorded(tools, o, u, e)
             then |added| == 1 && RightDecision(tools, opts, t, o, sections, u, e, added[0]) else added == []
    ensures Explained(tools, opts, t, o, sections, u, entries + [e], ds + added)
  {
    hide Recorded, RightDecision;
    assert (entries + [e])[..|entries|] == entries && ds + [] == ds;
    assert added != [] ==> (ds + added)[..|ds|] == ds && (ds + added)[|ds|] == added[0];
  }

  lemma AllWithin(tools: Tools, t: Tree, o: OldSide, sections: seq<Section>, u: Tree, walk: seq<Path>,
                  entries: seq<NewEntry>)
    requires GoodEntries(tools, t, o, sections, u, walk, entries)
    ensures forall x <- entries :: UsesWithin(x, |sections|)
  {
    hide UsesWithin, GoodEntries;
    forall x | x in entries ensures UsesWithin(x, |sections|) {
      UsesItsSections(tools, t, o, sections, u, walk, entries, x);
    }
  }

  lemma AddedMoves(tools: Tools, opts: Options, t: Tree, o: OldSide, sections: seq<Section>, u: Tree, e: NewEntry,
                   added: seq<Decision>)
    requires Recorded(tools, o, u, e) ==> |added| == 1 && RightDecision(tools, opts, t, o, sections, u, e, added[0])
    requires !Recorded(tools, o, u, e) ==> added == []
    ensures added == [] || (|added| == 1 && e.strategy.Some? && (added[0].Moved? ==> e.strategy.value.CopyWhole?))
  {
    hide Recorded, Backed, DeltasOf, Best;
  }

  lemma UsesItsSections(tools: Tools, t: Tree, o: OldSide, sections: seq<Section>, u: Tree, walk: seq<Path>,
                        entries: seq<NewEntry>, x: NewEntry)
    requires GoodEntries(tools, t, o, sections, u, walk, entries) && x in entries
    ensures UsesWithin(x, |sections|)
  {
    var i :| 0 <= i < |entries| && entries[i] == x;
    assert GoodEntry(tools, t, o, sections, u, walk[i], x);
  }

  /** The entry for `q` is good and its section, if any, is the one just added. */
  ghost predicate Advances(tools: Tools, opts: Options, t: Tree, o: OldSide, sections: seq<Section>,
                           more: seq<Section>, u: Tree, q: Path, e: NewEntry)
  {
    && |sections| <= |more| && more[..|sections|] == sections
    && GoodEntry(tools, t, o, more, u, q, e) && (IsFile(e) <==> e.strategy.Some?)
    && |more| == |sections| + |SectionUse(e)| && (SectionUse(e) == [] || SectionUse(e) == [|sections|])
  }

  /** What holds after each turn of the loop over the new build. */
  ghost predicate SideOk(tools: Tools, opts: Options, t: Tree, o: OldSide, sections: seq<Section>, u: Tree,
                         walk: seq<Path>, entries: seq<NewEntry>, c: Counters, ds: seq<Decision>)
  {
    && GoodEntries(tools, t, o, sections, u, walk, entries)
    && |sections| <= |entries| && UsedSections(entries) == Indices(|sections|)
    && Tallies(c, entries, ds) && Explained(tools, opts, t, o, sections, u, entries, ds)
  }

  lemma SideAdvances(tools: Tools, opts: Options, t: Tree, o: OldSide, sections: seq<Section>, more: seq<Section>,
                     u: Tree, walk: seq<Path>, entries: seq<NewEntry>, e: NewEntry, c: Counters, c2: Counters,
                     ds: seq<Decision>, ds2: seq<Decision>, added: seq<Decision>)
    requires SideOk(tools, opts, t, o, sections, u, walk, entries, c, ds) && |entries| < |walk|
    requires Advances(tools, opts, t, o, sections, more, u, walk[|entries|], e)
    requires Accounts(tools, opts, t, o, more, u, c, ds, c2, ds2, e, added)
    ensures SideOk(tools, opts, t, o, more, u, walk, entries + [e], c2, ds2)
  {
    assert Recorded(tools, o, u, e) ==> e.strategy.Some?;
    hide GoodEntries, UsedSections, Tallies, Explained, Accounts, GoodEntry, Recorded;
    SideStep(tools, t, o, sections, more, u, walk, entries, e);
    ReportStep(tools, opts, t, o, sections, more, u, walk, entries, e, c, c2, ds, ds2, added);
  }

  method NewItem(tools: Tools, oldWalk: seq<Path>, t: Tree, o: OldSide, sig: Diff.Signature,
                 builder: SectionBuilder, report: Report, u: Tree, q: Path, executable: bool)
    returns (r: Option<NewEntry>, ghost added: seq<Decision>)
    requires Ready(tools, oldWalk, t, o, sig, builder) && |builder.sections| < TWO_32
    requires q in u && (u[q].File? ==> |u[q].data| < TWO_64 && NoCollision(tools.hash, u[q].data))
    modifies builder, report
    ensures builder.Addressable()
    ensures CompressionWorks(tools, builder.opts) ==> r.Some?
    ensures r.Some? ==>
      && r.value.executable == (executable && IsFile(r.value)) && r.value.path == q
      && r.value.size == (match FileAt(u, q) case Some(data) => |data| case None => 0)
      && Advances(tools, builder.opts, t, o, old(builder.sections), builder.sections, u, q, r.value)
      && Accounts(tools, builder.opts, t, o, builder.sections, u, old(report.Now()), old(report.decisions),
                  report.Now(), report.decisions, r.value, added)
  {
    hide Justified, Rebuilds, Counted, Fitting, OldSideOk, WalkOf;
    match u[q]
    case Dir =>
      assert report.decisions == report.decisions + [];
      return Some(NewEntry(q, DirectoryEntry, 0, false, None, None, None)), [];
    case File(bytes) =>
      var x;
      x, added := FileStrategy(tools, oldWalk, t, o, sig, builder, report, q, bytes);
      if x.None? {
        return None, added;
      }
      return Some(NewEntry(q, FileEntry, |bytes|, executable, None, Some(tools.hash(bytes)), x)), added;
  }

  /** The loop over the new build. */
  method NewSide(tools: Tools, opts: Options, oldWalk: seq<Path>, t: Tree, newWalk: seq<Path>, u: Tree,
                 sig: Diff.Signature, o: OldSide, execs: set<Path>)
    returns (ok: bool, entries: seq<NewEntry>, sections: seq<Section>, total: U64, report: Report)
    requires |opts.compression| < TWO_64
    requires Inputs(tools, oldWalk, t, newWalk, u, sig) && OldSideOk(tools, oldWalk, t, o, |oldWalk|)
    ensures CompressionWorks(tools, opts) && (forall q <- newWalk :: PathIsSafe(q)) ==> ok
    ensures ok ==>
      && |entries| == |newWalk| && GoodEntries(tools, t, o, sections, u, newWalk, entries)
      && (forall q <- newWalk :: PathIsSafe(q))
      && UsedSections(entries) == Indices(|sections|) && |sections| <= |newWalk|
      && (forall s <- sections :: Known(opts, s.compression) && |s.data| < TWO_64)
      && total == TotalSize(newWalk, u) % TWO_64
      && forall e <- entries :: Flagged(e, execs)
    ensures fresh(report)
    ensures ok ==>
      && Tallies(report.Now(), entries, report.decisions)
      && Explained(tools, opts, t, o, sections, u, entries, report.decisions)
  {
    hide Records, OldSideOk, SideOk, Advances, Accounts, PathIsSafe, TotalSize, Diff.Describes, Contract;
    var builder := new SectionBuilder(tools, opts);
    report := new Report();
    entries, sections, total := [], [], 0;
    NothingYet(tools, opts, t, o, u, newWalk);
    for i := 0 to |newWalk|
      invariant fresh(builder) && fresh(report) && builder.tools == tools && builder.opts == opts
      invariant builder.Addressable()
      invariant |entries| == i && |builder.sections| <= i
      invariant forall e <- entries :: Flagged(e, execs)
      invariant forall j :: 0 <= j < i ==> PathIsSafe(newWalk[j])
      invariant SideOk(tools, opts, t, o, builder.sections, u, newWalk, entries, report.Now(), report.decisions)
      invariant total == TotalSize(newWalk[..i], u) % TWO_64
    {
      var q := newWalk[i];
      assert q in u;
      if !PathIsSafe(q) {
        return false, entries, sections, total, report;
      }
      ghost var before, counters, decisions := builder.sections, report.Now(), report.decisions;
      var made;
      ghost var added;
      made, added := NewItem(tools, oldWalk, t, o, sig, builder, report, u, q, q in execs);
      if made.None? {
        return false, entries, sections, total, report;
      }
      var e := made.value;
      TotalStep(newWalk, u, i, e.size, total);
      total := (total + e.size) % TWO_64;
      SideAdvances(tools, opts, t, o, before, builder.sections, u, newWalk, entries, e, counters, report.Now(),
                   decisions, report.decisions, added);
      AddsOne(tools, opts, t, o, before, builder.sections, u, q, e);
      entries := entries + [e];
    }
    assert newWalk[..|newWalk|] == newWalk;
    sections := builder.sections;
    SideDone(tools, opts, t, o, sections, u, newWalk, entries, report.Now(), report.decisions);
    ok := true;
  }

  lemma TotalStep(walk: seq<Path>, u: Tree, i: nat, size: nat, total: nat)
    requires i < |walk| && total == TotalSize(walk[..i], u) % TWO_64
    requires size == match FileAt(u, walk[i]) case Some(data) => |data| case None => 0
    ensures (total + size) % TWO_64 == TotalSize(walk[..i + 1], u) % TWO_64
  {
    assert walk[..i + 1][..i] == walk[..i];
    WrapOnce(TotalSize(walk[..i], u), size);
  }

  lemma NothingYet(tools: Tools, opts: Options, t: Tree, o: OldSide, u: Tree, walk: seq<Path>)
    ensures SideOk(tools, opts, t, o, [], u, walk, [], Counters(0, 0, 0, 0, 0, 0, 0), []) && TotalSize([], u) == 0
  {
  }

  lemma AddsOne(tools: Tools, opts: Options, t: Tree, o: OldSide, sections: seq<Section>, more: seq<Section>,
                u: Tree, q: Path, e: NewEntry)
    requires Advances(tools, opts, t, o, sections, more, u, q, e)
    ensures |more| <= |sections| + 1
  {
    hide GoodEntry;
  }

  lemma SideDone(tools: Tools, opts: Options, t: Tree, o: OldSide, sections: seq<Section>, u: Tree,
                 walk: seq<Path>, entries: seq<NewEntry>, c: Counters, ds: seq<Decision>)
    requires SideOk(tools, opts, t, o, sections, u, walk, entries, c, ds)
    ensures GoodEntries(tools, t, o, sections, u, walk, entries)
    ensures |sections| <= |entries| && UsedSections(entries) == Indices(|sections|)
    ensures Tallies(c, entries, ds) && Explained(tools, opts, t, o, sections, u, entries, ds)
  {
  }

  /** What a generated patch is. */
  ghost predicate Generated(tools: Tools, oldWalk: seq<Path>, t: Tree, newWalk: seq<Path>, u: Tree, o: OldSide,
                            p: Patch)
  {
    && p.mode.Directory? && p.oldFiles == o.files && OldSideOk(tools, oldWalk, t, o, |oldWalk|)
    && |p.newEntries| == |newWalk| && GoodEntries(tools, t, o, p.sections, u, newWalk, p.newEntries)
    && p.deleted == Without(oldWalk, newWalk) && |p.sections| <= |newWalk|
    && p.oldTotalSize == TotalSize(oldWalk, t) % TWO_64 && p.newTotalSize == TotalSize(newWalk, u) % TWO_64
  }

  /** `generate`, directory mode. With safe paths and working compression it cannot fail: the
      closing `validate` accepts what the loops built. The report tallies and explains the entries. */
  method Generate(tools: Tools, opts: Options, oldLabel: Data, newLabel: Data,
                  oldWalk: seq<Path>, t: Tree, newWalk: seq<Path>, u: Tree,
                  sig: Diff.Signature, execs: set<Path>)
    returns (r: Option<Patch>, report: Report, ghost o: OldSide)
    requires Inputs(tools, oldWalk, t, newWalk, u, sig) && Distinct(newWalk) && |opts.compression| < TWO_64
    ensures CompressionWorks(tools, opts) && (forall q <- oldWalk + newWalk :: PathIsSafe(q)) ==> r.Some?
    ensures r.Some? ==>
      && Generated(tools, oldWalk, t, newWalk, u, o, r.value)
      && Valid(r.value) && Consistent(r.value)
      && UsedSections(r.value.newEntries) == Indices(|r.value.sections|)
      && (forall s <- r.value.sections :: Known(opts, s.compression) && |s.data| < TWO_64)
      && r.value.oldLabel == oldLabel && r.value.newLabel == newLabel
      && forall e <- r.value.newEntries :: Flagged(e, execs)
    ensures r.Some? ==>
      && Tallies(report.Now(), r.value.newEntries, report.decisions)
      && Explained(tools, opts, t, o, r.value.sections, u, r.value.newEntries, report.decisions)
  {
    hide Explained, Tallies, Known, OldSideOk;
    var side, oldTotal := IndexOld(tools, oldWalk, t);
    o := side;
    var ok, entries, sections, newTotal;
    ok, entries, sections, newTotal, report := NewSide(tools, opts, oldWalk, t, newWalk, u, sig, side, execs);
    if !ok {
      assert forall q <- newWalk :: q in oldWalk + newWalk;
      return None, report, o;
    }
    var deleted := Deletions(oldWalk, newWalk);
    var p := Patch(Directory, oldLabel, oldTotal, newLabel, newTotal, side.files, entries, deleted, sections);
    GeneratedIsPlanned(tools, oldWalk, t, newWalk, u, side, p);
    var checked := CheckPatch(p);
    if checked.Err? {
      if forall q <- oldWalk + newWalk :: PathIsSafe(q) {
        GeneratedIsValid(tools, oldWalk, t, newWalk, u, side, p);
      }
      return None, report, o;
    }
    return Some(p), report, o;
  }

  lemma {:induction false} GeneratedIsValid(tools: Tools, oldWalk: seq<Path>, t: Tree, newWalk: seq<Path>, u: Tree,
                                              o: OldSide, p: Patch)
    requires WalkOf(oldWalk, t) && Generated(tools, oldWalk, t, newWalk, u, o, p)
    requires forall q <- oldWalk + newWalk :: PathIsSafe(q)
    ensures Valid(p)
  {
    forall f | f in p.oldFiles ensures PathIsSafe(f.path) {
      assert f.path in t && f.path in oldWalk + newWalk;
    }
    forall d | d in p.deleted ensures PathIsSafe(d) {
      assert d in oldWalk + newWalk;
    }
    forall e | e in p.newEntries ensures ValidEntry(e, p.mode, |p.oldFiles|, |p.sections|) {
      var i :| 0 <= i < |p.newEntries| && p.newEntries[i] == e;
      assert GoodEntry(tools, t, o, p.sections, u, newWalk[i], e);
      assert newWalk[i] in oldWalk + newWalk;
    }
  }

  /** What the entries say of a path holds of the new build. */
  lemma EntriesFit(tools: Tools, oldWalk: seq<Path>, t: Tree, newWalk: seq<Path>, u: Tree, o: OldSide, p: Patch)
    requires WalkOf(newWalk, u) && Generated(tools, oldWalk, t, newWalk, u, o, p)
    ensures forall e <- p.newEntries :: e.path in u && (IsFile(e) ==> FileAt(u, e.path).Some?)
    ensures forall e, q :: e in p.newEntries && NeedsDir(e, q) ==> IsDir(u, q)
  {
    hide Rebuilds, OldSideOk;
    forall e, q | e in p.newEntries
      ensures NeedsDir(e, q) ==> IsDir(u, q)
      ensures IsFile(e) ==> FileAt(u, e.path).Some?
      ensures e.path in u
    {
      var i :| 0 <= i < |p.newEntries| && p.newEntries[i] == e;
      assert GoodEntry(tools, t, o, p.sections, u, newWalk[i], e);
    }
  }

  lemma EntriesDiffer(tools: Tools, oldWalk: seq<Path>, t: Tree, newWalk: seq<Path>, u: Tree, o: OldSide, p: Patch)
    requires Distinct(newWalk) && Generated(tools, oldWalk, t, newWalk, u, o, p)
    ensures forall i, j | 0 <= i < j < |p.newEntries| :: p.newEntries[i].path != p.newEntries[j].path
  {
    hide Rebuilds, OldSideOk;
    forall i, j | 0 <= i < j < |p.newEntries| ensures p.newEntries[i].path != p.newEntries[j].path {
      assert GoodEntry(tools, t, o, p.sections, u, newWalk[i], p.newEntries[i]);
      assert GoodEntry(tools, t, o, p.sections, u, newWalk[j], p.newEntries[j]);
    }
  }

  lemma SameEntry(p: Patch, e: NewEntry, f: NewEntry)
    requires forall i, j | 0 <= i < j < |p.newEntries| :: p.newEntries[i].path != p.newEntries[j].path
    requires e in p.newEntries && f in p.newEntries && e.path == f.path
    ensures e == f
  {
    var i, j :| 0 <= i < |p.newEntries| && 0 <= j < |p.newEntries| && p.newEntries[i] == e && p.newEntries[j] == f;
    assert !(i < j) && !(j < i);
  }

  lemma {:induction false} GeneratedIsPlanned(tools: Tools, oldWalk: seq<Path>, t: Tree, newWalk: seq<Path>, u: Tree,
                                              o: OldSide, p: Patch)
    requires WalkOf(newWalk, u) && Distinct(newWalk) && Generated(tools, oldWalk, t, newWalk, u, o, p)
    ensures Consistent(p)
  {
    EntriesFit(tools, oldWalk, t, newWalk, u, o, p);
    EntriesDiffer(tools, oldWalk, t, newWalk, u, o, p);
    ConsistentIfFit(newWalk, u, p);
  }

  /** Distinct entries that fit a tree, none of them among the deletions, are consistent. */
  lemma ConsistentIfFit(newWalk: seq<Path>, u: Tree, p: Patch)
    requires forall q :: q in newWalk <==> q in u
    requires forall e <- p.newEntries :: e.path in u && (IsFile(e) ==> FileAt(u, e.path).Some?)
    requires forall e, q :: e in p.newEntries && NeedsDir(e, q) ==> IsDir(u, q)
    requires forall i, j | 0 <= i < j < |p.newEntries| :: p.newEntries[i].path != p.newEntries[j].path
    requires forall d <- p.deleted :: d !in newWalk
    ensures Consistent(p)
  {
    hide NeedsDir;
    forall q | IsNewFile(p, q) ensures !MustBeDir(p, q) {
      assert FileAt(u, q).Some?;
    }
    forall e, f | e in p.newEntries && f in p.newEntries && e.path == f.path ensures e == f {
      SameEntry(p, e, f);
    }
    forall d, e | d in p.deleted && e in p.newEntries ensures d != e.path && !NeedsDir(e, d) {
      assert d !in u;
    }
  }
}
