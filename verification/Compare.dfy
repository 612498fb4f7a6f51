/** Comparing a live build with the block signature of an older one: `compare.rs`. */
module Compare {
  import opened Bytes
  import opened Sorting
  import Diff
  import PatchTypes

  type Block = Diff.Block

  datatype Kind = FileKind | DirKind | LinkKind
  datatype SigEntry = SigEntry(id: U32, path: Data, kind: Kind, size: nat, target: Option<Data>)
  datatype BuildSignature = BuildSignature(blockSize: nat, entries: seq<SigEntry>, blocks: seq<Block>)

  datatype Live = File(bytes: Data) | Dir | Link(target: Data)
  type Build = map<Data, Live>

  datatype FileState = New | Modified | Deleted | Same
  datatype EntryReport = EntryReport(path: Data, state: FileState, size: nat)

  function KindOf(live: Live): Kind {
    match live
    case File(_) => FileKind
    case Dir => DirKind
    case Link(_) => LinkKind
  }

  function SizeOf(live: Live): nat {
    if live.File? then |live.bytes| else 0
  }

  // ---------- Blocks ----------

  /** The blocks of one entry, in order. */
  function BlocksOf(blocks: seq<Block>, id: U32): seq<Block> {
    if blocks == [] then []
    else
      var b, rest := blocks[|blocks| - 1], BlocksOf(blocks[..|blocks| - 1], id);
      if b.entryId == id then rest + [b] else rest
  }

  /** `blocks` cut `bytes` into consecutive pieces whose digests no other content shares. */
  ghost predicate Cut(blocks: seq<Block>, bytes: Data, hash: Data -> ChunkHash) {
    if blocks == [] then bytes == []
    else
      var n := blocks[0].len;
      && 0 < n <= |bytes| && blocks[0].strong == hash(bytes[..n]) && NoCollision(hash, bytes[..n])
      && Cut(blocks[1..], bytes[n..], hash)
  }

  /** Every block but the last is full. */
  predicate Even(blocks: seq<Block>, blockSize: nat, size: nat) {
    if blocks == [] then size == 0
    else size > 0 && blocks[0].len == Min(blockSize, size) && Even(blocks[1..], blockSize, size - blocks[0].len)
  }

  /** Block by block, the digests agree with `data` from its start. */
  predicate BlocksMatch(blocks: seq<Block>, data: Data, hash: Data -> ChunkHash) {
    blocks == [] ||
    (blocks[0].len <= |data| && hash(data[..blocks[0].len]) == blocks[0].strong
     && BlocksMatch(blocks[1..], data[blocks[0].len..], hash))
  }

  /** Block comparison decides equality of contents. */
  lemma {:induction false} MatchIsEquality(blocks: seq<Block>, old_: Data, data: Data, hash: Data -> ChunkHash)
    requires Cut(blocks, old_, hash) && |data| == |old_|
    ensures BlocksMatch(blocks, data, hash) <==> data == old_
  {
    if blocks != [] {
      var n := blocks[0].len;
      MatchIsEquality(blocks[1..], old_[n..], data[n..], hash);
      assert data == data[..n] + data[n..] && old_ == old_[..n] + old_[n..];
    }
  }

  predicate FileMatches(size: nat, oldSize: nat, blocks: seq<Block>, data: Data, hash: Data -> ChunkHash) {
    size == oldSize && (size == 0 || (blocks != [] && BlocksMatch(blocks, data, hash)))
  }

  // ---------- Streaming ----------

  /** A file opened for reading: each read may return fewer bytes than asked for. */
  class ShortReader {
    const data: Data
    var pos: nat

    constructor (data: Data)
      ensures this.data == data && pos == 0
    {
      this.data, pos := data, 0;
    }

    method Read(buf: array<Byte>, from: nat, to: nat) returns (n: nat)
      requires pos <= |data| && from <= to <= buf.Length
      modifies this, buf
      ensures pos == old(pos) + n <= |data| && from + n <= to
      ensures n == 0 <==> from == to || old(pos) == |data|
      ensures buf[..from] == old(buf[..from]) && buf[from..from + n] == data[old(pos)..pos]
    {
      n := 0;
      if from < to && pos < |data| {
        var most := if to - from <= |data| - pos then to - from else |data| - pos;
        n :| 1 <= n <= most;
        forall i | 0 <= i < n {
          buf[from + i] := data[pos + i];
        }
        pos := pos + n;
      }
    }
  }

  /** The inner read loop: keep reading until `want` bytes or the end of the file. */
  method Fill(file: ShortReader, buf: array<Byte>, want: nat) returns (got: nat)
    requires file.pos <= |file.data| && want <= buf.Length
    modifies file, buf
    ensures got == Min(want, |file.data| - old(file.pos)) && file.pos == old(file.pos) + got
    ensures buf[..got] == file.data[old(file.pos)..file.pos]
  {
    got := 0;
    while got < want
      invariant 0 <= got <= want && file.pos == old(file.pos) + got <= |file.data|
      invariant buf[..got] == file.data[old(file.pos)..file.pos]
    {
      var n := file.Read(buf, got, want);
      if n == 0 {
        break;
      }
      assert buf[..got + n] == buf[..got] + buf[got..got + n];
      SlicesJoin(file.data, old(file.pos), file.pos - n, file.pos);
      got := got + n;
    }
  }

  /** `file_matches_blocks`. */
  method FileMatchesBlocks(data: Data, oldSize: nat, blockSize: nat, blocks: Option<seq<Block>>,
                           hash: Data -> ChunkHash) returns (r: bool)
    requires blocks.Some? ==> blocks.value != [] && forall b <- blocks.value :: b.len <= blockSize
    ensures r == FileMatches(|data|, oldSize, if blocks.Some? then blocks.value else [], data, hash)
  {
    if |data| != oldSize {
      return false;
    }
    if |data| == 0 {
      return true;
    }
    if blocks.None? {
      return false;
    }
    var file := new ShortReader(data);
    var buf := new Byte[blockSize];
    var bs := blocks.value;
    assert data[0..] == data && bs[0..] == bs;
    for i := 0 to |bs|
      invariant file.pos <= |data| == |file.data| && file.data == data
      invariant BlocksMatch(bs, data, hash) <==> BlocksMatch(bs[i..], data[file.pos..], hash)
    {
      var want := bs[i].len;
      ghost var rest := data[file.pos..];
      var got := Fill(file, buf, want);
      assert bs[i..][1..] == bs[i + 1..];
      if got < want {
        return false;
      }
      assert buf[..want] == rest[..want] && rest[want..] == data[file.pos..];
      if hash(buf[..want]) != bs[i].strong {
        return false;
      }
    }
    return true;
  }

  method IndexBlocks(sig: BuildSignature) returns (byEntry: map<U32, seq<Block>>)
    ensures forall id :: id in byEntry <==> BlocksOf(sig.blocks, id) != []
    ensures forall id <- byEntry :: byEntry[id] == BlocksOf(sig.blocks, id)
  {
    byEntry := map[];
    for i := 0 to |sig.blocks|
      invariant forall id :: id in byEntry <==> BlocksOf(sig.blocks[..i], id) != []
      invariant forall id <- byEntry :: byEntry[id] == BlocksOf(sig.blocks[..i], id)
    {
      var b := sig.blocks[i];
      assert sig.blocks[..i + 1][..i] == sig.blocks[..i];
      var list := if b.entryId in byEntry then byEntry[b.entryId] else [];
      byEntry := byEntry[b.entryId := list + [b]];
    }
    assert sig.blocks[..|sig.blocks|] == sig.blocks;
  }

  // ---------- Signature of a build ----------

  ghost predicate Describes(sig: BuildSignature, e: SigEntry, live: Live, hash: Data -> ChunkHash) {
    && e.kind == KindOf(live) && e.size == SizeOf(live)
    && (live.File? ==> Cut(BlocksOf(sig.blocks, e.id), live.bytes, hash))
    && (live.Link? ==> e.target == Some(live.target))
  }

  /** No path twice. */
  predicate DistinctPaths(entries: seq<SigEntry>) {
    entries == [] ||
    (Lookup(entries[..|entries| - 1], entries[|entries| - 1].path).None? && DistinctPaths(entries[..|entries| - 1]))
  }

  /** The path index: a later entry replaces an earlier one. */
  function Lookup(entries: seq<SigEntry>, path: Data): Option<SigEntry> {
    if entries == [] then None
    else if entries[|entries| - 1].path == path then Some(entries[|entries| - 1])
    else Lookup(entries[..|entries| - 1], path)
  }

  /** `sig` was taken of the build `old`. */
  ghost predicate Taken(sig: BuildSignature, old_: Build, hash: Data -> ChunkHash) {
    && DistinctPaths(sig.entries)
    && (forall p :: Lookup(sig.entries, p).Some? <==> p in old_)
    && (forall p <- old_ :: Described(sig, p, old_[p], hash))
  }

  ghost predicate Described(sig: BuildSignature, p: Data, live: Live, hash: Data -> ChunkHash) {
    Lookup(sig.entries, p).Some? && Describes(sig, Lookup(sig.entries, p).value, live, hash)
  }

  lemma {:induction false} LookupSome(entries: seq<SigEntry>, path: Data)
    ensures Lookup(entries, path).Some? ==>
      Lookup(entries, path).value in entries && Lookup(entries, path).value.path == path
  {
    if entries != [] && entries[|entries| - 1].path != path {
      LookupSome(entries[..|entries| - 1], path);
    }
  }

  /** With distinct paths an entry is found under its own path. */
  lemma {:induction false} LookupAt(entries: seq<SigEntry>, e: SigEntry)
    requires DistinctPaths(entries) && e in entries
    ensures Lookup(entries, e.path) == Some(e)
  {
    var n := |entries| - 1;
    assert entries == entries[..n] + [entries[n]];
    if e != entries[n] {
      LookupAt(entries[..n], e);
    }
  }

  // ---------- Classification ----------

  /** The apply machinery's own files never count against a build. */
  predicate Excluded(path: Data) {
    PatchTypes.STAGING <= path || path == PatchTypes.JOURNAL
  }

  function StateOf(sig: BuildSignature, old_: Option<SigEntry>, live: Live, hash: Data -> ChunkHash): FileState {
    match old_
    case None => New
    case Some(e) =>
      if e.kind != KindOf(live) then Modified
      else
        match live
        case Dir => Same
        case Link(target) => if e.target == Some(target) then Same else Modified
        case File(bytes) =>
          if FileMatches(|bytes|, e.size, BlocksOf(sig.blocks, e.id), bytes, hash) then Same else Modified
  }

  function LiveReport(sig: BuildSignature, path: Data, live: Live, hash: Data -> ChunkHash): seq<EntryReport> {
    var state := StateOf(sig, Lookup(sig.entries, path), live, hash);
    if Excluded(path) || (live.Dir? && state.Same?) then [] else [EntryReport(path, state, SizeOf(live))]
  }

  function LiveReports(sig: BuildSignature, build: Build, walk: seq<Data>, hash: Data -> ChunkHash): seq<EntryReport>
    requires forall p <- walk :: p in build
  {
    if walk == [] then []
    else
      var n := |walk| - 1;
      LiveReports(sig, build, walk[..n], hash) + LiveReport(sig, walk[n], build[walk[n]], hash)
  }

  function DeletedReports(entries: seq<SigEntry>, build: Build): seq<EntryReport> {
    if entries == [] then []
    else
      var n := |entries| - 1;
      var rest := DeletedReports(entries[..n], build);
      if Present(build, entries[n].path) then rest else rest + [EntryReport(entries[n].path, Deleted, 0)]
  }

  predicate Present(build: Build, path: Data) {
    path in build && !Excluded(path)
  }

  predicate LowerByte(a: Byte, b: Byte) {
    a < b
  }

  /** Lexicographic order of paths. */
  predicate ByPath(a: EntryReport, b: EntryReport) {
    LexLeq(a.path, b.path, LowerByte)
  }

  /** Every path of the build exactly once. */
  ghost predicate Lists(walk: seq<Data>, build: Build) {
    NoRepeats(walk) && forall p :: p in walk <==> p in build
  }

  predicate Wellformed(sig: BuildSignature) {
    forall b <- sig.blocks :: b.len <= sig.blockSize
  }

  lemma {:induction false} BlocksOfAreBlocks(blocks: seq<Block>, id: U32)
    ensures forall b <- BlocksOf(blocks, id) :: b in blocks && b.entryId == id
  {
    if blocks != [] {
      BlocksOfAreBlocks(blocks[..|blocks| - 1], id);
    }
  }

  method ClassifyOne(sig: BuildSignature, old_: Option<SigEntry>, live: Live, byEntry: map<U32, seq<Block>>,
                     hash: Data -> ChunkHash) returns (state: FileState)
    requires Wellformed(sig)
    requires forall id :: id in byEntry <==> BlocksOf(sig.blocks, id) != []
    requires forall id <- byEntry :: byEntry[id] == BlocksOf(sig.blocks, id)
    ensures state == StateOf(sig, old_, live, hash)
  {
    if old_.None? {
      return New;
    }
    var e := old_.value;
    if e.kind != KindOf(live) {
      return Modified;
    }
    match live {
      case Dir => return Same;
      case Link(target) => return if e.target == Some(target) then Same else Modified;
      case File(bytes) =>
        BlocksOfAreBlocks(sig.blocks, e.id);
        var blocks := if e.id in byEntry then Some(byEntry[e.id]) else None;
        var same := FileMatchesBlocks(bytes, e.size, sig.blockSize, blocks, hash);
        return if same then Same else Modified;
    }
  }

  method IndexPaths(entries: seq<SigEntry>) returns (byPath: map<Data, SigEntry>)
    ensures forall p :: p in byPath <==> Lookup(entries, p).Some?
    ensures forall p <- byPath :: Lookup(entries, p) == Some(byPath[p])
  {
    byPath := map[];
    for i := 0 to |entries|
      invariant forall p :: p in byPath <==> Lookup(entries[..i], p).Some?
      invariant forall p <- byPath :: Lookup(entries[..i], p) == Some(byPath[p])
    {
      assert entries[..i + 1][..i] == entries[..i];
      byPath := byPath[entries[i].path := entries[i]];
    }
    assert entries[..|entries|] == entries;
  }

  /** `classify_dir`; `walk` is the sorted directory walk. */
  method ClassifyDir(sig: BuildSignature, build: Build, walk: seq<Data>, hash: Data -> ChunkHash)
    returns (out: seq<EntryReport>)
    requires Wellformed(sig) && Lists(walk, build)
    ensures out == SortBy(LiveReports(sig, build, walk, hash) + DeletedReports(sig.entries, build), ByPath)
  {
    hide Excluded, StateOf, Lookup, NoRepeats, SortBy;
    var byEntry := IndexBlocks(sig);
    var byPath := IndexPaths(sig.entries);
    out := [];
    var seen: set<Data> := {};
    for i := 0 to |walk|
      invariant out == LiveReports(sig, build, walk[..i], hash)
      invariant forall p :: p in seen <==> p in walk[..i] && !Excluded(p)
    {
      var path := walk[i];
      assert walk[..i + 1][..i] == walk[..i];
      if !Excluded(path) {
        seen := seen + {path};
        var live := build[path];
        var old_ := if path in byPath then Some(byPath[path]) else None;
        var state := ClassifyOne(sig, old_, live, byEntry, hash);
        if !live.Dir? || !state.Same? {
          out := out + [EntryReport(path, state, SizeOf(live))];
        }
      }
    }
    assert walk[..|walk|] == walk;
    ghost var live := out;
    for i := 0 to |sig.entries|
      invariant out == live + DeletedReports(sig.entries[..i], build)
    {
      var e := sig.entries[i];
      assert sig.entries[..i + 1][..i] == sig.entries[..i];
      if e.path !in seen {
        out := out + [EntryReport(e.path, Deleted, 0)];
      }
    }
    assert sig.entries[..|sig.entries|] == sig.entries;
    out := SortBy(out, ByPath);
  }

  // ---------- What the classification says ----------

  /** The reports about one path, in order. */
  function ReportsFor(out: seq<EntryReport>, path: Data): seq<EntryReport> {
    if out == [] then []
    else (if out[0].path == path then [out[0]] else []) + ReportsFor(out[1..], path)
  }

  /** What a comparison of two builds owes each path: one report, or none for a path in neither
      build and for a directory that stayed. */
  function Due(old_: Build, build: Build, path: Data): seq<EntryReport> {
    if Present(build, path) then
      var live := build[path];
      if path !in old_ then [EntryReport(path, New, SizeOf(live))]
      else if old_[path] != live then [EntryReport(path, Modified, SizeOf(live))]
      else if live.Dir? then []
      else [EntryReport(path, Same, SizeOf(live))]
    else if path in old_ then [EntryReport(path, Deleted, 0)]
    else []
  }

  lemma ByPathOrders()
    ensures TotalPreorder(ByPath)
  {
    forall a, b ensures ByPath(a, b) || ByPath(b, a) {
      LexTotal(a.path, b.path, LowerByte);
    }
    forall a, b, c | ByPath(a, b) && ByPath(b, c) ensures ByPath(a, c) {
      LexTransitive(a.path, b.path, c.path, LowerByte);
    }
  }

  lemma {:induction false} ReportsAreLike(out: seq<EntryReport>, z: EntryReport)
    ensures Like(out, z, ByPath) == ReportsFor(out, z.path)
  {
    if out != [] {
      ReportsAreLike(out[1..], z);
      LexTotal(out[0].path, z.path, LowerByte);
    }
  }

  lemma {:induction false} ReportsJoin(a: seq<EntryReport>, b: seq<EntryReport>, path: Data)
    ensures ReportsFor(a + b, path) == ReportsFor(a, path) + ReportsFor(b, path)
  {
    if a == [] {
      assert a + b == b;
    } else {
      ReportsJoin(a[1..], b, path);
      assert (a + b)[1..] == a[1..] + b;
      Associates(if a[0].path == path then [a[0]] else [], ReportsFor(a[1..], path), ReportsFor(b, path));
    }
  }

  lemma StateIsRight(sig: BuildSignature, old_: Build, path: Data, live: Live, hash: Data -> ChunkHash)
    requires Taken(sig, old_, hash)
    ensures StateOf(sig, Lookup(sig.entries, path), live, hash) ==
      if path !in old_ then New else if old_[path] == live then Same else Modified
  {
    if path in old_ {
      assert Described(sig, path, old_[path], hash);
      var e := Lookup(sig.entries, path).value;
      if live.File? && old_[path].File? && |live.bytes| == e.size {
        MatchIsEquality(BlocksOf(sig.blocks, e.id), old_[path].bytes, live.bytes, hash);
      }
    }
  }

  lemma LiveReportFor(sig: BuildSignature, old_: Build, build: Build, p: Data, hash: Data -> ChunkHash, path: Data)
    requires Taken(sig, old_, hash) && p in build
    ensures ReportsFor(LiveReport(sig, p, build[p], hash), path) ==
      if p == path && !Excluded(path) then Due(old_, build, path) else []
  {
    hide Excluded, StateOf, Taken;
    StateIsRight(sig, old_, p, build[p], hash);
  }

  lemma {:induction false} LiveReportsFor(sig: BuildSignature, old_: Build, build: Build, walk: seq<Data>,
                                          hash: Data -> ChunkHash, path: Data)
    requires Taken(sig, old_, hash) && NoRepeats(walk) && forall p <- walk :: p in build
    ensures ReportsFor(LiveReports(sig, build, walk, hash), path) ==
      if path in walk && !Excluded(path) then Due(old_, build, path) else []
  {
    hide Excluded, LiveReport, Due, Taken;
    if walk != [] {
      var n := |walk| - 1;
      assert walk == walk[..n] + [walk[n]];
      LiveReportsFor(sig, old_, build, walk[..n], hash, path);
      LiveReportFor(sig, old_, build, walk[n], hash, path);
      ReportsJoin(LiveReports(sig, build, walk[..n], hash), LiveReport(sig, walk[n], build[walk[n]], hash), path);
    }
  }

  lemma {:induction false} DeletedReportsFor(entries: seq<SigEntry>, build: Build, path: Data)
    requires DistinctPaths(entries)
    ensures ReportsFor(DeletedReports(entries, build), path) ==
      if Lookup(entries, path).Some? && !Present(build, path) then [EntryReport(path, Deleted, 0)] else []
  {
    hide Present;
    if entries != [] {
      var n := |entries| - 1;
      var rest := DeletedReports(entries[..n], build);
      DeletedReportsFor(entries[..n], build, path);
      ReportsJoin(rest, [EntryReport(entries[n].path, Deleted, 0)], path);
    }
  }

  /** `classify_dir` against a signature of `old` reports exactly what is due to every path. */
  lemma ClassifiedRight(sig: BuildSignature, old_: Build, build: Build, walk: seq<Data>, hash: Data -> ChunkHash,
                        path: Data)
    requires Taken(sig, old_, hash) && Lists(walk, build)
    ensures ReportsFor(SortBy(LiveReports(sig, build, walk, hash) + DeletedReports(sig.entries, build), ByPath), path)
         == Due(old_, build, path)
  {
    hide Excluded;
    var live, gone := LiveReports(sig, build, walk, hash), DeletedReports(sig.entries, build);
    var z := EntryReport(path, Same, 0);
    ByPathOrders();
    SortStable(live + gone, ByPath, z);
    ReportsAreLike(SortBy(live + gone, ByPath), z);
    ReportsAreLike(live + gone, z);
    ReportsJoin(live, gone, path);
    LiveReportsFor(sig, old_, build, walk, hash, path);
    DeletedReportsFor(sig.entries, build, path);
  }

  // ---------- Renames ----------

  function Hashes(blocks: seq<Block>): (r: seq<ChunkHash>)
    ensures |r| == |blocks|
  {
    if blocks == [] then [] else [blocks[0].strong] + Hashes(blocks[1..])
  }

  /** The digests of `data` in blocks of `blockSize`. */
  function EvenHashes(data: Data, blockSize: nat, hash: Data -> ChunkHash): seq<ChunkHash>
    requires blockSize > 0
  {
    if data == [] then []
    else
      var n := Min(blockSize, |data|);
      [hash(data[..n])] + EvenHashes(data[n..], blockSize, hash)
  }

  /** A fingerprint agrees exactly for equal contents, provided the old file was cut evenly. */
  lemma {:induction false} FingerprintExact(blocks: seq<Block>, old_: Data, data: Data, blockSize: nat,
                                            hash: Data -> ChunkHash)
    requires blockSize > 0 && Cut(blocks, old_, hash)
    ensures |data| == |old_| && EvenHashes(data, blockSize, hash) == Hashes(blocks)
       <==> data == old_ && Even(blocks, blockSize, |old_|)
    decreases |blocks|
  {
    if blocks != [] && data != [] {
      var n, m := blocks[0].len, Min(blockSize, |data|);
      var rest := EvenHashes(data[m..], blockSize, hash);
      assert ([hash(data[..m])] + rest)[1..] == rest;
      assert ([blocks[0].strong] + Hashes(blocks[1..]))[1..] == Hashes(blocks[1..]);
      FingerprintExact(blocks[1..], old_[n..], data[m..], blockSize, hash);
      assert data == data[..m] + data[m..] && old_ == old_[..n] + old_[n..];
    }
  }

  lemma EvenStep(data: Data, blockSize: nat, hash: Data -> ChunkHash)
    requires blockSize > 0
    ensures EvenHashes([], blockSize, hash) == []
    ensures var n := Min(blockSize, |data|);
      data != [] ==> EvenHashes(data, blockSize, hash) == [hash(data[..n])] + EvenHashes(data[n..], blockSize, hash)
  {
  }

  method HashBlocks(data: Data, blockSize: nat, hash: Data -> ChunkHash) returns (hashes: seq<ChunkHash>)
    requires blockSize > 0
    ensures hashes == EvenHashes(data, blockSize, hash)
  {
    hide EvenHashes;
    hashes := [];
    var file := new ShortReader(data);
    var buf := new Byte[blockSize];
    assert data[0..] == data;
    while true
      invariant file.pos <= |data| && file.data == data
      invariant hashes + EvenHashes(data[file.pos..], blockSize, hash) == EvenHashes(data, blockSize, hash)
      decreases |data| - file.pos
    {
      ghost var rest := data[file.pos..];
      EvenStep(rest, blockSize, hash);
      var got := Fill(file, buf, blockSize);
      if got == 0 {
        assert rest == [] && data[file.pos..] == [];
        break;
      }
      assert buf[..got] == rest[..got] && rest[got..] == data[file.pos..];
      Associates(hashes, [hash(buf[..got])], EvenHashes(data[file.pos..], blockSize, hash));
      hashes := hashes + [hash(buf[..got])];
      if got < blockSize {
        assert data[file.pos..] == [];
        break;
      }
    }
    assert hashes + [] == hashes;
  }

  predicate Reported(entries: seq<EntryReport>, path: Data) {
    exists e <- entries :: e.path == path && e.state.Deleted?
  }

  /** `d` is an old file gone from the build, with this size and these block digests. */
  predicate Source(sig: BuildSignature, entries: seq<EntryReport>, d: SigEntry, size: nat, hashes: seq<ChunkHash>) {
    && d in sig.entries && d.kind.FileKind? && Reported(entries, d.path)
    && d.size == size && Hashes(BlocksOf(sig.blocks, d.id)) == hashes
  }

  method Fingerprints(sig: BuildSignature, entries: seq<EntryReport>, deleted: set<Data>)
    returns (known: map<(nat, seq<ChunkHash>), SigEntry>)
    requires forall p :: p in deleted <==> Reported(entries, p)
    ensures forall k <- known :: Source(sig, entries, known[k], k.0, k.1)
    ensures forall d, size: nat, hashes :: Source(sig, entries, d, size, hashes) ==> (size, hashes) in known
  {
    var byEntry := IndexBlocks(sig);
    known := map[];
    for i := 0 to |sig.entries|
      invariant forall k <- known :: Source(sig, entries, known[k], k.0, k.1)
      invariant forall d, size: nat, hashes :: d in sig.entries[..i] && Source(sig, entries, d, size, hashes) ==>
        (size, hashes) in known
    {
      var d := sig.entries[i];
      assert sig.entries[..i + 1] == sig.entries[..i] + [d];
      if d.kind.FileKind? && d.path in deleted {
        var hashes := Hashes(if d.id in byEntry then byEntry[d.id] else []);
        known := known[(d.size, hashes) := d];
      }
    }
    assert sig.entries[..|sig.entries|] == sig.entries;
  }

  /** `e` is a new file of the build whose blocks are those of the vanished file `d`. */
  predicate Moved(sig: BuildSignature, build: Build, entries: seq<EntryReport>, e: EntryReport, d: SigEntry,
                  hash: Data -> ChunkHash)
    requires sig.blockSize > 0
  {
    && e in entries && e.state.New? && e.size > 0 && e.path in build && build[e.path].File?
    && Source(sig, entries, d, e.size, EvenHashes(build[e.path].bytes, sig.blockSize, hash))
  }

  /** `detect_renames`. */
  method DetectRenames(sig: BuildSignature, build: Build, entries: seq<EntryReport>, hash: Data -> ChunkHash)
    returns (renames: map<Data, Data>)
    requires sig.blockSize > 0
    ensures forall p <- renames :: exists e, d ::
      Moved(sig, build, entries, e, d, hash) && p == e.path && renames[p] == d.path
    ensures forall e, d :: Moved(sig, build, entries, e, d, hash) ==> e.path in renames
  {
    renames := map[];
    var deleted := set e | e in entries && e.state.Deleted? :: e.path;
    if deleted == {} {
      assert forall e <- entries :: e.state.Deleted? ==> e.path in deleted;
      return;
    }
    var known := Fingerprints(sig, entries, deleted);
    for i := 0 to |entries|
      invariant forall p <- renames :: exists e, d ::
        Moved(sig, build, entries, e, d, hash) && p == e.path && renames[p] == d.path
      invariant forall e, d :: e in entries[..i] && Moved(sig, build, entries, e, d, hash) ==> e.path in renames
    {
      var e := entries[i];
      assert entries[..i + 1] == entries[..i] + [e];
      if e.state.New? && e.size > 0 && e.path in build && build[e.path].File? {
        var hashes := HashBlocks(build[e.path].bytes, sig.blockSize, hash);
        var key := (e.size, hashes);
        if key in known {
          assert Moved(sig, build, entries, e, known[key], hash);
          renames := renames[e.path := known[key].path];
        }
      }
    }
    assert entries[..|entries|] == entries;
  }

  /** The old file at `q` is gone, had this content, and was signed in full blocks. */
  ghost predicate Vanished(sig: BuildSignature, old_: Build, build: Build, q: Data, bytes: Data) {
    && q in old_ && !Present(build, q) && old_[q] == File(bytes)
    && Lookup(sig.entries, q).Some?
    && Even(BlocksOf(sig.blocks, Lookup(sig.entries, q).value.id), sig.blockSize, |bytes|)
  }

  /** A new, non-empty file of the build. */
  predicate Arrived(old_: Build, build: Build, p: Data) {
    Present(build, p) && p !in old_ && build[p].File? && build[p].bytes != []
  }

  lemma {:induction false} ReportsMember(out: seq<EntryReport>, e: EntryReport)
    ensures e in out <==> e in ReportsFor(out, e.path)
  {
    if out != [] {
      ReportsMember(out[1..], e);
      assert out == [out[0]] + out[1..];
    }
  }

  lemma ReportedExact(old_: Build, build: Build, out: seq<EntryReport>, path: Data)
    requires ReportsFor(out, path) == Due(old_, build, path)
    ensures Reported(out, path) <==> path in old_ && !Present(build, path)
  {
    hide Present;
    ReportsMember(out, EntryReport(path, Deleted, 0));
    if Reported(out, path) {
      var r :| r in out && r.path == path && r.state.Deleted?;
      ReportsMember(out, r);
    }
  }

  lemma NewExact(old_: Build, build: Build, out: seq<EntryReport>, e: EntryReport)
    requires ReportsFor(out, e.path) == Due(old_, build, e.path)
    ensures e in out && e.state.New? <==>
      Present(build, e.path) && e.path !in old_ && e == EntryReport(e.path, New, SizeOf(build[e.path]))
  {
    hide Excluded;
    ReportsMember(out, e);
  }

  lemma {:induction false} SourceExact(sig: BuildSignature, old_: Build, build: Build, out: seq<EntryReport>,
                                         d: SigEntry, bytes: Data, hash: Data -> ChunkHash)
    requires sig.blockSize > 0 && Taken(sig, old_, hash) && ReportsFor(out, d.path) == Due(old_, build, d.path)
    ensures Source(sig, out, d, |bytes|, EvenHashes(bytes, sig.blockSize, hash))
       <==> Lookup(sig.entries, d.path) == Some(d) && Vanished(sig, old_, build, d.path, bytes)
  {
    hide Present, EvenHashes, Even;
    LookupSome(sig.entries, d.path);
    ReportedExact(old_, build, out, d.path);
    if d in sig.entries {
      LookupAt(sig.entries, d);
      assert Described(sig, d.path, old_[d.path], hash);
      if d.kind.FileKind? {
        FingerprintExact(BlocksOf(sig.blocks, d.id), old_[d.path].bytes, bytes, sig.blockSize, hash);
      }
    }
  }

  /** A move is an arrival with the content of a vanished file. */
  lemma MovedExact(sig: BuildSignature, old_: Build, build: Build, out: seq<EntryReport>, e: EntryReport, d: SigEntry,
                   hash: Data -> ChunkHash)
    requires sig.blockSize > 0 && Taken(sig, old_, hash)
    requires ReportsFor(out, e.path) == Due(old_, build, e.path) && ReportsFor(out, d.path) == Due(old_, build, d.path)
    ensures Moved(sig, build, out, e, d, hash) <==>
      && Arrived(old_, build, e.path) && e == EntryReport(e.path, New, SizeOf(build[e.path]))
      && Lookup(sig.entries, d.path) == Some(d) && Vanished(sig, old_, build, d.path, build[e.path].bytes)
  {
    hide Excluded, Source, Vanished, Taken, Lookup;
    NewExact(old_, build, out, e);
    if e.path in build && build[e.path].File? {
      SourceExact(sig, old_, build, out, d, build[e.path].bytes, hash);
    }
  }

  /** Preview of a build against the signature of an old one: a rename is reported exactly for a new,
      non-empty file with the content of an evenly signed file that is gone, and names such a file. */
  method Preview(sig: BuildSignature, build: Build, walk: seq<Data>, hash: Data -> ChunkHash, ghost old_: Build)
    returns (out: seq<EntryReport>, renames: map<Data, Data>)
    requires Wellformed(sig) && sig.blockSize > 0 && Taken(sig, old_, hash) && Lists(walk, build)
    ensures Sorted(out, ByPath)
    ensures forall p :: ReportsFor(out, p) == Due(old_, build, p)
    ensures forall p <- renames :: Arrived(old_, build, p) && Vanished(sig, old_, build, renames[p], build[p].bytes)
    ensures forall p, q :: Arrived(old_, build, p) && Vanished(sig, old_, build, q, build[p].bytes) ==> p in renames
  {
    hide Excluded, Even, BlocksOf, Taken, Moved, Due, LiveReports, NoRepeats, Wellformed;
    out := ClassifyDir(sig, build, walk, hash);
    ByPathOrders();
    SortSorts(LiveReports(sig, build, walk, hash) + DeletedReports(sig.entries, build), ByPath);
    forall p ensures ReportsFor(out, p) == Due(old_, build, p) {
      ClassifiedRight(sig, old_, build, walk, hash, p);
    }
    renames := DetectRenames(sig, build, out, hash);
    forall e, d ensures Moved(sig, build, out, e, d, hash) <==>
      && Arrived(old_, build, e.path) && e == EntryReport(e.path, New, SizeOf(build[e.path]))
      && Lookup(sig.entries, d.path) == Some(d) && Vanished(sig, old_, build, d.path, build[e.path].bytes)
    {
      MovedExact(sig, old_, build, out, e, d, hash);
    }
    forall p, q | Arrived(old_, build, p) && Vanished(sig, old_, build, q, build[p].bytes) ensures p in renames {
      LookupSome(sig.entries, q);
      assert Moved(sig, build, out, EntryReport(p, New, SizeOf(build[p])), Lookup(sig.entries, q).value, hash);
    }
  }

  // ---------- An uneven signature ----------

  /** A file "a" of 1025 bytes, cut after its first byte, in blocks of at most 1024. */
  function UnevenSignature(bytes: Data, hash: Data -> ChunkHash): BuildSignature
    requires |bytes| == 1025
  {
    BuildSignature(1024, [SigEntry(0, [97], FileKind, 1025, None)],
                   [Diff.Block(0, 0, 1, 0, hash(bytes[..1])), Diff.Block(0, 1, 1024, 0, hash(bytes[1..]))])
  }

  lemma UnevenBlocks(bytes: Data, hash: Data -> ChunkHash)
    requires |bytes| == 1025
    ensures var sig := UnevenSignature(bytes, hash);
      && BlocksOf(sig.blocks, 0) == sig.blocks && !Even(sig.blocks, 1024, 1025)
  {
    var bs := UnevenSignature(bytes, hash).blocks;
    assert bs[..1] == [bs[0]] && bs[..1][..0] == [] && bs[..0] == [];
    assert BlocksOf([bs[0]], 0) == [] + [bs[0]] == [bs[0]];
    assert BlocksOf(bs, 0) == [bs[0]] + [bs[1]] == bs;
  }

  lemma UnevenCut(bytes: Data, hash: Data -> ChunkHash)
    requires |bytes| == 1025 && NoCollision(hash, bytes[..1]) && NoCollision(hash, bytes[1..])
    ensures Cut(UnevenSignature(bytes, hash).blocks, bytes, hash)
  {
    var bs := UnevenSignature(bytes, hash).blocks;
    assert bs[1..] == [bs[1]] && bs[1..][1..] == [];
    assert bytes[1..][..1024] == bytes[1..] && bytes[1..][1024..] == [];
    assert Cut(bs[1..], bytes[1..], hash);
  }

  /** The rename of an unevenly signed file is missed: "a" became "b" with all its bytes, and no rename
      can be found among the reports. */
  lemma UnevenRenameIsMissed(bytes: Data, hash: Data -> ChunkHash, out: seq<EntryReport>)
    requires |bytes| == 1025 && NoCollision(hash, bytes[..1]) && NoCollision(hash, bytes[1..])
    requires forall p :: ReportsFor(out, p) == Due(map[[97] := File(bytes)], map[[98] := File(bytes)], p)
    ensures var sig, old_, build := UnevenSignature(bytes, hash), map[[97] := File(bytes)], map[[98] := File(bytes)];
      && Wellformed(sig) && Taken(sig, old_, hash)
      && Arrived(old_, build, [98]) && [97] in old_ && !Present(build, [97]) && old_[[97]] == build[[98]]
      && forall e, d :: !Moved(sig, build, out, e, d, hash)
  {
    var sig, old_, build := UnevenSignature(bytes, hash), map[[97] := File(bytes)], map[[98] := File(bytes)];
    UnevenBlocks(bytes, hash);
    UnevenCut(bytes, hash);
    hide BlocksOf, Cut, Even;
    var e0 := sig.entries[0];
    assert sig.entries[..0] == [];
    assert forall p :: Lookup(sig.entries, p) == if p == [97] then Some(e0) else None;
    forall e, d ensures !Moved(sig, build, out, e, d, hash) {
      MovedExact(sig, old_, build, out, e, d, hash);
    }
  }
}
