/** The loops that write and read a `.cavspatch` v2, each tied to its function in
    `Codec` and `PatchCodec`. */
module PatchIO {
  import opened Bytes
  import opened PatchTypes
  import opened Varint
  import opened Wire
  import opened Codec
  import opened PatchCodec

  // ---------- encode ----------

  /** Lengths fit the machine word, as those of every `Vec` do. */
  predicate Addressable(p: Patch) {
    && |p.oldLabel| < TWO_64 && |p.newLabel| < TWO_64
    && |p.oldFiles| < TWO_64 && (forall f <- p.oldFiles :: |f.path| < TWO_64)
    && |p.newEntries| < TWO_64 && (forall e <- p.newEntries :: AddressableEntry(e))
    && |p.deleted| < TWO_64 && (forall d <- p.deleted :: |d| < TWO_64)
    && |p.sections| < TWO_64
    && (forall x <- p.sections :: |x.compression| < TWO_64 && |x.data| < TWO_64)
  }

  predicate AddressableEntry(e: NewEntry) {
    && |e.path| < TWO_64
    && |TargetText(e.symlinkTarget)| < TWO_64
    && (e.strategy.Some? && e.strategy.value.PlanOps? ==> |e.strategy.value.ops| < TWO_64)
  }

  method WriteStr(sink: Sink, s: Data)
    requires |s| < TWO_64
    modifies sink
    ensures forall tail :: sink.out + tail == old(sink.out) + PutStr(s, tail)
  {
    sink.WriteVar(|s|);
    sink.Extend(s);
  }

  method WriteOps(sink: Sink, ops: seq<FileOp>)
    requires |ops| < TWO_64
    modifies sink
    ensures forall tail :: sink.out + tail == old(sink.out) + PutCounted(ops, tail, PutOp)
  {
    sink.WriteVar(|ops|);
    for i := 0 to |ops|
      invariant forall tail :: sink.out + PutList(ops[i..], tail, PutOp)
                            == old(sink.out) + PutCounted(ops, tail, PutOp)
    {
      assert ops[i..][1..] == ops[i + 1..];
      match ops[i]
      case CopyOld(oldIdx, oldOffset, len) =>
        sink.Push(1);
        sink.WriteVar(oldIdx);
        sink.WriteVar(oldOffset);
        sink.WriteVar(len);
      case Inline(len) =>
        sink.Push(2);
        sink.WriteVar(len);
    }
  }

  method WriteStrategy(sink: Sink, x: Option<Strategy>)
    requires x.Some? && x.value.PlanOps? ==> |x.value.ops| < TWO_64
    modifies sink
    ensures forall tail :: sink.out + tail == old(sink.out) + PutStrategy(x, tail)
  {
    hide PutVar, PutCounted;
    match x
    case None => sink.Push(0);
    case Some(CopyWhole(oldIdx)) =>
      sink.Push(1);
      sink.WriteVar(oldIdx);
    case Some(PlanOps(section, ops)) =>
      sink.Push(2);
      sink.WriteVar(section);
      WriteOps(sink, ops);
    case Some(Bsdiff(oldIdx, section)) =>
      sink.Push(3);
      sink.WriteVar(oldIdx);
      sink.WriteVar(section);
    case Some(Xdelta3(oldIdx, section)) =>
      sink.Push(4);
      sink.WriteVar(oldIdx);
      sink.WriteVar(section);
    case Some(FullData(section)) =>
      sink.Push(5);
      sink.WriteVar(section);
  }

  method WriteKind(sink: Sink, k: EntryKind)
    modifies sink
    ensures forall tail :: sink.out + tail == old(sink.out) + PutKind(k, tail)
  {
    match k
    case FileEntry => sink.Push(1);
    case DirectoryEntry => sink.Push(2);
    case SymlinkEntry => sink.Push(3);
  }

  method WriteOptHash(sink: Sink, h: Option<ChunkHash>)
    modifies sink
    ensures forall tail :: sink.out + tail == old(sink.out) + PutOptHash(h, tail)
  {
    match h
    case Some(digest) =>
      sink.Push(1);
      sink.Extend(digest);
    case None => sink.Push(0);
  }

  method WriteEntry(sink: Sink, e: NewEntry)
    requires AddressableEntry(e)
    modifies sink
    ensures forall tail :: sink.out + tail == old(sink.out) + PutEntry(e, tail)
  {
    hide PutVar, PutStr, PutTraits, PutKind;
    WriteStr(sink, e.path);
    WriteKind(sink, e.kind);
    sink.WriteVar(e.size);
    WriteTraits(sink, Traits(e.executable, e.symlinkTarget, e.blake3, e.strategy));
  }

  method WriteTraits(sink: Sink, t: Traits)
    requires |TargetText(t.symlinkTarget)| < TWO_64
    requires t.strategy.Some? && t.strategy.value.PlanOps? ==> |t.strategy.value.ops| < TWO_64
    modifies sink
    ensures forall tail :: sink.out + tail == old(sink.out) + PutTraits(t, tail)
  {
    hide PutStr, PutStrategy, PutOptHash;
    sink.Push(if t.executable then 1 else 0);
    WriteStr(sink, TargetText(t.symlinkTarget));
    WriteOptHash(sink, t.blake3);
    WriteStrategy(sink, t.strategy);
  }

  method WriteOldFile(sink: Sink, f: OldFile)
    requires |f.path| < TWO_64
    modifies sink
    ensures forall tail :: sink.out + tail == old(sink.out) + PutOldFile(f, tail)
  {
    hide PutVar, PutStr;
    WriteStr(sink, f.path);
    sink.WriteVar(f.size);
    sink.Extend(f.blake3);
  }

  method WriteBlob(sink: Sink, digest: ChunkHash, data: Data)
    modifies sink
    ensures forall tail :: sink.out + tail == old(sink.out) + PutBlob(digest, data, tail)
  {
    sink.Extend(digest);
    sink.Extend(data);
  }

  method WriteSection(sink: Sink, x: Section)
    requires |x.compression| < TWO_64 && |x.data| < TWO_64
    modifies sink
    ensures forall tail :: sink.out + tail == old(sink.out) + PutSection(x, tail)
  {
    hide PutVar, PutStr, PutBlob;
    WriteStr(sink, x.compression);
    sink.WriteVar(x.rawLen);
    sink.WriteVar(|x.data|);
    WriteBlob(sink, x.rawBlake3, x.data);
  }

  method WriteOldFiles(sink: Sink, xs: seq<OldFile>)
    requires |xs| < TWO_64 && forall x <- xs :: |x.path| < TWO_64
    modifies sink
    ensures forall tail :: sink.out + tail == old(sink.out) + PutCounted(xs, tail, PutOldFile)
  {
    sink.WriteVar(|xs|);
    for i := 0 to |xs|
      invariant forall tail :: sink.out + PutList(xs[i..], tail, PutOldFile)
                            == old(sink.out) + PutCounted(xs, tail, PutOldFile)
    {
      assert xs[i..][1..] == xs[i + 1..];
      WriteOldFile(sink, xs[i]);
    }
  }

  method WriteEntries(sink: Sink, xs: seq<NewEntry>)
    requires |xs| < TWO_64 && forall x <- xs :: AddressableEntry(x)
    modifies sink
    ensures forall tail :: sink.out + tail == old(sink.out) + PutCounted(xs, tail, PutEntry)
  {
    sink.WriteVar(|xs|);
    for i := 0 to |xs|
      invariant forall tail :: sink.out + PutList(xs[i..], tail, PutEntry)
                            == old(sink.out) + PutCounted(xs, tail, PutEntry)
    {
      assert xs[i..][1..] == xs[i + 1..];
      WriteEntry(sink, xs[i]);
    }
  }

  method WritePaths(sink: Sink, xs: seq<Data>)
    requires |xs| < TWO_64 && forall x <- xs :: |x| < TWO_64
    modifies sink
    ensures forall tail :: sink.out + tail == old(sink.out) + PutCounted(xs, tail, PutStr)
  {
    sink.WriteVar(|xs|);
    for i := 0 to |xs|
      invariant forall tail :: sink.out + PutList(xs[i..], tail, PutStr)
                            == old(sink.out) + PutCounted(xs, tail, PutStr)
    {
      assert xs[i..][1..] == xs[i + 1..];
      WriteStr(sink, xs[i]);
    }
  }

  method WriteSections(sink: Sink, xs: seq<Section>)
    requires |xs| < TWO_64 && forall x <- xs :: |x.compression| < TWO_64 && |x.data| < TWO_64
    modifies sink
    ensures forall tail :: sink.out + tail == old(sink.out) + PutCounted(xs, tail, PutSection)
  {
    sink.WriteVar(|xs|);
    for i := 0 to |xs|
      invariant forall tail :: sink.out + PutList(xs[i..], tail, PutSection)
                            == old(sink.out) + PutCounted(xs, tail, PutSection)
    {
      assert xs[i..][1..] == xs[i + 1..];
      WriteSection(sink, xs[i]);
    }
  }

  method WriteHeader(sink: Sink, h: Header)
    requires |h.oldLabel| < TWO_64 && |h.newLabel| < TWO_64
    modifies sink
    ensures forall tail :: sink.out + tail == old(sink.out) + PutHeader(h, tail)
  {
    sink.Push(if h.mode.Artifact? then 1 else 2);
    WriteStr(sink, h.oldLabel);
    sink.WriteVar(h.oldTotalSize);
    WriteStr(sink, h.newLabel);
    sink.WriteVar(h.newTotalSize);
  }

  method WriteTables(sink: Sink, t: Tables)
    requires |t.oldFiles| < TWO_64 && (forall f <- t.oldFiles :: |f.path| < TWO_64)
    requires |t.newEntries| < TWO_64 && (forall e <- t.newEntries :: AddressableEntry(e))
    requires |t.deleted| < TWO_64 && (forall d <- t.deleted :: |d| < TWO_64)
    requires |t.sections| < TWO_64
    requires forall x <- t.sections :: |x.compression| < TWO_64 && |x.data| < TWO_64
    modifies sink
    ensures forall tail :: sink.out + tail == old(sink.out) + PutTables(t, tail)
  {
    WriteOldFiles(sink, t.oldFiles);
    WriteEntries(sink, t.newEntries);
    WritePaths(sink, t.deleted);
    WriteSections(sink, t.sections);
  }

  /** `PatchV2::encode`. */
  method Encode(p: Patch, hash: Data -> ChunkHash) returns (bytes: Data)
    requires Addressable(p)
    ensures bytes == EncodeSpec(p, hash)
    ensures Encodable(p) <==> DecodeSpec(bytes, hash) == Ok(p)
  {
    var sink := new Sink();
    sink.Extend(MAGIC);
    sink.Extend(VERSION);
    WriteHeader(sink, HeaderOf(p));
    WriteTables(sink, TablesOf(p));
    assert sink.out + [] == sink.out;
    ghost var body := MAGIC + PutPatch(p);
    assert sink.out == [] + (MAGIC + (VERSION + PutHeader(HeaderOf(p), PutTables(TablesOf(p), [])))) == body;
    bytes := sink.out + hash(sink.out);
    DecodeEncode(p, hash);
  }

  // ---------- decode ----------

  /** How a reading method relates to the function it implements. */
  ghost predicate Reads<T>(spec: Result<Parsed<T>>, r: Result<T>, rest: Data) {
    match spec
    case Ok(p) => r == Ok(p.value) && rest == p.rest
    case Err(e) => r == Err(e)
  }

  method ReadStr(c: Cursor) returns (r: Result<Data>)
    modifies c
    ensures Reads(GetStr(old(c.input)), r, c.input)
  {
    var len :- c.NextVar();
    if len > |c.input| || len > MAX_STRING {
      return Err(PatchCorrupt);
    }
    var text := c.input[..len];
    c.input := c.input[len..];
    return if ValidUtf8(text) then Ok(text) else Err(PatchCorrupt);
  }

  method ReadIndex(c: Cursor) returns (r: Result<U32>)
    modifies c
    ensures Reads(GetIndex(old(c.input)), r, c.input)
  {
    var v :- c.NextVar();
    return Ok(AsU32(v));
  }

  method ReadOldFile(c: Cursor) returns (r: Result<OldFile>)
    modifies c
    ensures Reads(GetOldFile(old(c.input)), r, c.input)
  {
    var path :- ReadStr(c);
    var size :- c.NextVar();
    var hash :- c.TakeBytes(32);
    return Ok(OldFile(path, size, hash));
  }

  method ReadOp(c: Cursor) returns (r: Result<FileOp>)
    modifies c
    ensures Reads(GetOp(old(c.input)), r, c.input)
  {
    var tag :- c.TakeByte();
    if tag == 1 {
      var idx :- ReadIndex(c);
      var off :- c.NextVar();
      var len :- c.NextVar();
      return Ok(CopyOld(idx, off, len));
    } else if tag == 2 {
      var len :- c.NextVar();
      return Ok(Inline(len));
    }
    return Err(PatchCorrupt);
  }

  /** `done` holds the successive results of `get` on the inputs `ins`, each input being what
      the previous result left; `xs` are the values read. */
  ghost predicate Run<T>(ins: seq<Data>, done: seq<Parsed<T>>, xs: seq<T>, get: Data -> Result<Parsed<T>>) {
    && |xs| == |done| && |ins| == |done| + 1
    && forall k {:trigger done[k]} :: 0 <= k < |done| ==>
         xs[k] == done[k].value && get(ins[k]) == Ok(done[k]) && ins[k + 1] == done[k].rest
  }

  lemma RunExtends<T>(ins: seq<Data>, done: seq<Parsed<T>>, xs: seq<T>, next: Parsed<T>,
                      get: Data -> Result<Parsed<T>>)
    requires Run(ins, done, xs, get) && get(ins[|done|]) == Ok(next)
    ensures Run(ins + [next.rest], done + [next], xs + [next.value], get)
  {
  }

  /** A run of `count` steps is what `GetList` computes, and a run that cannot be extended
      to `count` steps is how it fails. */
  lemma {:induction false} RunIsList<T>(ins: seq<Data>, done: seq<Parsed<T>>, xs: seq<T>, count: nat,
                                      get: Data -> Result<Parsed<T>>, k: nat, clean: bool)
    requires Run(ins, done, xs, get) && k <= |done| <= count
    requires |done| == count || get(ins[|done|]).Err?
    ensures var r := GetList(xs[..k], count - k, ins[k], clean, get);
      if |done| == count then r.Ok? && r.value.value == xs && r.value.rest == ins[count]
      else r == Err(get(ins[|done|]).error)
    decreases |done| - k
  {
    if k < |done| {
      var x := done[k];
      assert xs[..k] + [x.value] == xs[..k + 1];
      RunIsList(ins, done, xs, count, get, k + 1, clean && x.clean);
    } else {
      assert xs[..k] == xs;
    }
  }

  lemma RunReads<T>(ins: seq<Data>, done: seq<Parsed<T>>, xs: seq<T>, count: nat,
                    get: Data -> Result<Parsed<T>>)
    requires Run(ins, done, xs, get) && |done| <= count
    requires |done| == count || get(ins[|done|]).Err?
    ensures var r := GetList([], count, ins[0], true, get);
      if |done| == count then r.Ok? && r.value.value == xs && r.value.rest == ins[count]
      else r == Err(get(ins[|done|]).error)
  {
    assert xs[..0] == [];
    RunIsList(ins, done, xs, count, get, 0, true);
  }

  method ReadOps(c: Cursor) returns (r: Result<seq<FileOp>>)
    modifies c
    ensures Reads(GetCounted(old(c.input), MAX_OPS, GetOp), r, c.input)
  {
    var count :- c.NextVar();
    if count > MAX_OPS {
      return Err(PatchCorrupt);
    }
    var ops: seq<FileOp>, i := [], 0;
    ghost var start, ins, done: seq<Parsed<FileOp>> := c.input, [c.input], [];
    while i < count
      invariant 0 <= i <= count && i == |done|
      invariant Run(ins, done, ops, GetOp) && c.input == ins[i] && ins[0] == start
    {
      ghost var next := GetOp(c.input);
      if next.Err? {
        RunReads(ins, done, ops, count, GetOp);
      } else {
        RunExtends(ins, done, ops, next.value, GetOp);
        ins, done := ins + [next.value.rest], done + [next.value];
      }
      var op :- ReadOp(c);
      ops, i := ops + [op], i + 1;
    }
    RunReads(ins, done, ops, count, GetOp);
    return Ok(ops);
  }

  method ReadStrategy(c: Cursor) returns (r: Result<Option<Strategy>>)
    modifies c
    ensures Reads(GetStrategy(old(c.input)), r, c.input)
  {
    var tag :- c.TakeByte();
    if tag == 0 {
      return Ok(None);
    } else if tag == 1 {
      var idx :- ReadIndex(c);
      return Ok(Some(CopyWhole(idx)));
    } else if tag == 2 {
      var section :- ReadIndex(c);
      var ops :- ReadOps(c);
      return Ok(Some(PlanOps(section, ops)));
    } else if tag == 3 {
      var idx :- ReadIndex(c);
      var section :- ReadIndex(c);
      return Ok(Some(Bsdiff(idx, section)));
    } else if tag == 4 {
      var idx :- ReadIndex(c);
      var section :- ReadIndex(c);
      return Ok(Some(Xdelta3(idx, section)));
    } else if tag == 5 {
      var section :- ReadIndex(c);
      return Ok(Some(FullData(section)));
    }
    return Err(PatchCorrupt);
  }

  method ReadKind(c: Cursor) returns (r: Result<EntryKind>)
    modifies c
    ensures Reads(GetKind(old(c.input)), r, c.input)
  {
    var b :- c.TakeByte();
    return if b == 1 then Ok(FileEntry) else if b == 2 then Ok(DirectoryEntry)
           else if b == 3 then Ok(SymlinkEntry) else Err(PatchCorrupt);
  }

  method ReadOptHash(c: Cursor) returns (r: Result<Option<ChunkHash>>)
    modifies c
    ensures Reads(GetOptHash(old(c.input)), r, c.input)
  {
    var flag :- c.TakeByte();
    if flag == 0 {
      return Ok(None);
    } else if flag == 1 {
      var h :- c.TakeBytes(32);
      var digest: ChunkHash := h;
      return Ok(Some(digest));
    }
    return Err(PatchCorrupt);
  }

  method ReadTraits(c: Cursor) returns (r: Result<Traits>)
    modifies c
    ensures Reads(GetTraits(old(c.input)), r, c.input)
  {
    var exec :- c.TakeByte();
    var target :- ReadStr(c);
    var hash :- ReadOptHash(c);
    var strategy :- ReadStrategy(c);
    return Ok(Traits(exec == 1, if target == [] then None else Some(target), hash, strategy));
  }

  method ReadEntry(c: Cursor) returns (r: Result<NewEntry>)
    modifies c
    ensures Reads(GetEntry(old(c.input)), r, c.input)
  {
    var path :- ReadStr(c);
    var kind :- ReadKind(c);
    var size :- c.NextVar();
    var t :- ReadTraits(c);
    return Ok(NewEntry(path, kind, size, t.executable, t.symlinkTarget, t.blake3, t.strategy));
  }

  method ReadSection(c: Cursor) returns (r: Result<Section>)
    modifies c
    ensures Reads(GetSection(old(c.input)), r, c.input)
  {
    var compression :- ReadStr(c);
    var rawLen :- c.NextVar();
    var compLen :- c.NextVar();
    var hash :- c.TakeBytes(32);
    var data :- c.TakeBytes(compLen);
    return Ok(Section(compression, rawLen, hash, data));
  }

  method ReadOldFiles(c: Cursor) returns (r: Result<seq<OldFile>>)
    modifies c
    ensures Reads(GetCounted(old(c.input), MAX_ENTRIES, GetOldFile), r, c.input)
  {
    var count :- c.NextVar();
    if count > MAX_ENTRIES {
      return Err(PatchCorrupt);
    }
    var xs: seq<OldFile>, i := [], 0;
    ghost var start, ins, done: seq<Parsed<OldFile>> := c.input, [c.input], [];
    while i < count
      invariant 0 <= i <= count && i == |done|
      invariant Run(ins, done, xs, GetOldFile) && c.input == ins[i] && ins[0] == start
    {
      ghost var next := GetOldFile(c.input);
      if next.Err? {
        RunReads(ins, done, xs, count, GetOldFile);
      } else {
        RunExtends(ins, done, xs, next.value, GetOldFile);
        ins, done := ins + [next.value.rest], done + [next.value];
      }
      var x :- ReadOldFile(c);
      xs, i := xs + [x], i + 1;
    }
    RunReads(ins, done, xs, count, GetOldFile);
    return Ok(xs);
  }

  method ReadEntries(c: Cursor) returns (r: Result<seq<NewEntry>>)
    modifies c
    ensures Reads(GetCounted(old(c.input), MAX_ENTRIES, GetEntry), r, c.input)
  {
    var count :- c.NextVar();
    if count > MAX_ENTRIES {
      return Err(PatchCorrupt);
    }
    var xs: seq<NewEntry>, i := [], 0;
    ghost var start, ins, done: seq<Parsed<NewEntry>> := c.input, [c.input], [];
    while i < count
      invariant 0 <= i <= count && i == |done|
      invariant Run(ins, done, xs, GetEntry) && c.input == ins[i] && ins[0] == start
    {
      ghost var next := GetEntry(c.input);
      if next.Err? {
        RunReads(ins, done, xs, count, GetEntry);
      } else {
        RunExtends(ins, done, xs, next.value, GetEntry);
        ins, done := ins + [next.value.rest], done + [next.value];
      }
      var x :- ReadEntry(c);
      xs, i := xs + [x], i + 1;
    }
    RunReads(ins, done, xs, count, GetEntry);
    return Ok(xs);
  }

  method ReadPaths(c: Cursor) returns (r: Result<seq<Data>>)
    modifies c
    ensures Reads(GetCounted(old(c.input), MAX_ENTRIES, GetStr), r, c.input)
  {
    var count :- c.NextVar();
    if count > MAX_ENTRIES {
      return Err(PatchCorrupt);
    }
    var xs: seq<Data>, i := [], 0;
    ghost var start, ins, done: seq<Parsed<Data>> := c.input, [c.input], [];
    while i < count
      invariant 0 <= i <= count && i == |done|
      invariant Run(ins, done, xs, GetStr) && c.input == ins[i] && ins[0] == start
    {
      ghost var next := GetStr(c.input);
      if next.Err? {
        RunReads(ins, done, xs, count, GetStr);
      } else {
        RunExtends(ins, done, xs, next.value, GetStr);
        ins, done := ins + [next.value.rest], done + [next.value];
      }
      var x :- ReadStr(c);
      xs, i := xs + [x], i + 1;
    }
    RunReads(ins, done, xs, count, GetStr);
    return Ok(xs);
  }

  method ReadSections(c: Cursor) returns (r: Result<seq<Section>>)
    modifies c
    ensures Reads(GetCounted(old(c.input), MAX_ENTRIES, GetSection), r, c.input)
  {
    var count :- c.NextVar();
    if count > MAX_ENTRIES {
      return Err(PatchCorrupt);
    }
    var xs: seq<Section>, i := [], 0;
    ghost var start, ins, done: seq<Parsed<Section>> := c.input, [c.input], [];
    while i < count
      invariant 0 <= i <= count && i == |done|
      invariant Run(ins, done, xs, GetSection) && c.input == ins[i] && ins[0] == start
    {
      ghost var next := GetSection(c.input);
      if next.Err? {
        RunReads(ins, done, xs, count, GetSection);
      } else {
        RunExtends(ins, done, xs, next.value, GetSection);
        ins, done := ins + [next.value.rest], done + [next.value];
      }
      var x :- ReadSection(c);
      xs, i := xs + [x], i + 1;
    }
    RunReads(ins, done, xs, count, GetSection);
    return Ok(xs);
  }

  method ReadHeader(c: Cursor) returns (r: Result<Header>)
    modifies c
    ensures Reads(GetHeader(old(c.input)), r, c.input)
  {
    var mode :- c.TakeByte();
    if mode != 1 && mode != 2 {
      return Err(PatchCorrupt);
    }
    var oldLabel :- ReadStr(c);
    var oldSize :- c.NextVar();
    var newLabel :- ReadStr(c);
    var newSize :- c.NextVar();
    return Ok(Header(if mode == 1 then Artifact else Directory, oldLabel, oldSize, newLabel, newSize));
  }

  method ReadTables(c: Cursor) returns (r: Result<Tables>)
    modifies c
    ensures Reads(GetTables(old(c.input)), r, c.input)
  {
    var oldFiles :- ReadOldFiles(c);
    var newEntries :- ReadEntries(c);
    var deleted :- ReadPaths(c);
    var sections :- ReadSections(c);
    return Ok(Tables(oldFiles, newEntries, deleted, sections));
  }

  /** `PatchV2::decode`. */
  method Decode(bytes: Data, hash: Data -> ChunkHash) returns (r: Result<Patch>)
    ensures r == DecodeSpec(bytes, hash)
    ensures r.Ok? ==> Encodable(r.value)
  {
    if |bytes| < 43 || bytes[..8] != MAGIC {
      return Err(PatchCorrupt);
    }
    var bodyLen := |bytes| - 32;
    if hash(bytes[..bodyLen]) != bytes[bodyLen..] {
      return Err(PatchCorrupt);
    }
    var c := new Cursor(bytes[8..bodyLen]);
    var version :- c.TakeBytes(2);
    if version != VERSION {
      return Err(PatchCorrupt);
    }
    var h :- ReadHeader(c);
    var t :- ReadTables(c);
    if c.input != [] {
      return Err(PatchCorrupt);
    }
    var patch := Patch(h.mode, h.oldLabel, h.oldTotalSize, h.newLabel, h.newTotalSize,
                       t.oldFiles, t.newEntries, t.deleted, t.sections);
    var _ :- CheckPatch(patch);
    EncodeDecode(bytes, hash);
    return Ok(patch);
  }

  // ---------- validate ----------

  method CheckCoverage(ops: seq<FileOp>, oldCount: nat, size: U64) returns (r: Result<()>)
    ensures r == match CheckOps(ops, oldCount, 0)
                 case Err(e) => Err(e)
                 case Ok(covered) => if covered != size then Err(PatchInvalid) else Ok(())
  {
    var covered: U64 := 0;
    for i := 0 to |ops|
      invariant CheckOps(ops, oldCount, 0) == CheckOps(ops[i..], oldCount, covered)
    {
      assert ops[i..][1..] == ops[i + 1..];
      if ops[i].CopyOld? && ops[i].oldIdx >= oldCount {
        return Err(PatchInvalid);
      }
      covered := (covered + ops[i].len) % TWO_64;
    }
    return if covered != size then Err(PatchInvalid) else Ok(());
  }

  method CheckOneEntry(e: NewEntry, mode: PatchMode, oldCount: nat, secCount: nat) returns (r: Result<()>)
    ensures r == CheckEntry(e, mode, oldCount, secCount)
  {
    if mode == Directory && !PathIsSafe(e.path) {
      return Err(PathTraversal);
    }
    if e.kind == FileEntry && (e.strategy == None || e.blake3 == None) {
      return Err(PatchInvalid);
    }
    if e.kind != FileEntry && e.strategy != None {
      return Err(PatchInvalid);
    }
    if e.strategy.Some? && e.strategy.value.PlanOps? {
      if e.strategy.value.section >= secCount {
        return Err(PatchInvalid);
      }
      r := CheckCoverage(e.strategy.value.ops, oldCount, e.size);
    } else {
      r := CheckStrategy(e.strategy, e.size, oldCount, secCount);
    }
  }

  /** `PatchV2::validate`. */
  method CheckPatch(p: Patch) returns (r: Result<()>)
    ensures r == Validate(p)
    ensures r.Ok? <==> Valid(p)
  {
    ValidateExact(p);
    ghost var checkOld := (f: OldFile) => CheckPath(p.mode.Directory?, f.path);
    for i := 0 to |p.oldFiles|
      invariant FirstError(p.oldFiles, checkOld) == FirstError(p.oldFiles[i..], checkOld)
    {
      assert p.oldFiles[i..][1..] == p.oldFiles[i + 1..];
      if p.mode == Directory && !PathIsSafe(p.oldFiles[i].path) {
        return Err(PathTraversal);
      }
    }
    ghost var checkDeleted := (d: Data) => CheckPath(true, d);
    for i := 0 to |p.deleted|
      invariant FirstError(p.deleted, checkDeleted) == FirstError(p.deleted[i..], checkDeleted)
    {
      assert p.deleted[i..][1..] == p.deleted[i + 1..];
      if !PathIsSafe(p.deleted[i]) {
        return Err(PathTraversal);
      }
    }
    ghost var check := (e: NewEntry) => CheckEntry(e, p.mode, |p.oldFiles|, |p.sections|);
    for i := 0 to |p.newEntries|
      invariant FirstError(p.newEntries, check) == FirstError(p.newEntries[i..], check)
    {
      assert p.newEntries[i..][1..] == p.newEntries[i + 1..];
      var _ :- CheckOneEntry(p.newEntries[i], p.mode, |p.oldFiles|, |p.sections|);
    }
    return Ok(());
  }
}
