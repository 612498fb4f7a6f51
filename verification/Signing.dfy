/** Taking the block signature of a build, and what comparing with such a signature then finds. */
module Signing {
  import opened Bytes
  import opened Sorting
  import opened Compare
  import Diff

  // ---------- Blocks of whole files ----------

  /** `data` cut into full blocks and a last shorter one. */
  function EvenBlocks(id: U32, data: Data, blockSize: nat, hash: Data -> ChunkHash, offset: nat): seq<Block>
    requires blockSize > 0 && offset + |data| < TWO_64
  {
    if data == [] then []
    else
      var n := Min(blockSize, |data|);
      [BlockOf(id, offset, data[..n], hash)] + EvenBlocks(id, data[n..], blockSize, hash, offset + n)
  }

  function BlockOf(id: U32, offset: U64, piece: Data, hash: Data -> ChunkHash): Block {
    Diff.Block(id, offset, |piece|, Diff.Weak(piece), hash(piece))
  }

  /** A length made of full blocks. */
  predicate Whole(n: nat, blockSize: nat)
    requires blockSize > 0
  {
    n == 0 || (n >= blockSize && Whole(n - blockSize, blockSize))
  }

  lemma {:induction false} WholeAppend(n: nat, blockSize: nat)
    requires blockSize > 0 && Whole(n, blockSize)
    ensures Whole(n + blockSize, blockSize)
  {
    if n != 0 {
      WholeAppend(n - blockSize, blockSize);
    }
  }

  /** A piece after full blocks is the next block. */
  lemma {:induction false} EvenAppend(id: U32, done: Data, piece: Data, blockSize: nat, hash: Data -> ChunkHash,
                                      offset: nat)
    requires blockSize > 0 && Whole(|done|, blockSize) && 0 < |piece| <= blockSize
    requires offset + |done| + |piece| < TWO_64
    ensures EvenBlocks(id, done + piece, blockSize, hash, offset)
         == EvenBlocks(id, done, blockSize, hash, offset) + [BlockOf(id, offset + |done|, piece, hash)]
    decreases |done|
  {
    hide BlockOf;
    if done == [] {
      assert done + piece == piece && piece[..|piece|] == piece;
    } else {
      assert (done + piece)[..blockSize] == done[..blockSize];
      assert (done + piece)[blockSize..] == done[blockSize..] + piece;
      EvenAppend(id, done[blockSize..], piece, blockSize, hash, offset + blockSize);
    }
  }

  ghost predicate Collisionless(data: Data, blockSize: nat, hash: Data -> ChunkHash)
    requires blockSize > 0
  {
    data == [] ||
    (NoCollision(hash, data[..Min(blockSize, |data|)])
     && Collisionless(data[Min(blockSize, |data|)..], blockSize, hash))
  }

  lemma {:induction false} EvenBlocksLabelled(id: U32, data: Data, blockSize: nat, hash: Data -> ChunkHash, offset: nat)
    requires blockSize > 0 && offset + |data| < TWO_64
    ensures forall b <- EvenBlocks(id, data, blockSize, hash, offset) :: b.entryId == id && b.len <= blockSize
  {
    if data != [] {
      var n := Min(blockSize, |data|);
      EvenBlocksLabelled(id, data[n..], blockSize, hash, offset + n);
    }
  }

  lemma {:induction false} EvenBlocksEven(id: U32, data: Data, blockSize: nat, hash: Data -> ChunkHash, offset: nat)
    requires blockSize > 0 && offset + |data| < TWO_64
    ensures Even(EvenBlocks(id, data, blockSize, hash, offset), blockSize, |data|)
  {
    if data != [] {
      var n := Min(blockSize, |data|);
      var rest := EvenBlocks(id, data[n..], blockSize, hash, offset + n);
      EvenBlocksEven(id, data[n..], blockSize, hash, offset + n);
      assert ([BlockOf(id, offset, data[..n], hash)] + rest)[1..] == rest;
    }
  }

  lemma CutStep(first: Block, rest: seq<Block>, data: Data, hash: Data -> ChunkHash)
    requires 0 < first.len <= |data| && first.strong == hash(data[..first.len])
    requires NoCollision(hash, data[..first.len]) && Cut(rest, data[first.len..], hash)
    ensures Cut([first] + rest, data, hash)
  {
    hide NoCollision;
    assert ([first] + rest)[1..] == rest;
  }

  /** Even blocks cut their data, as far as its digests are trusted. */
  lemma {:induction false} EvenBlocksCut(id: U32, data: Data, blockSize: nat, hash: Data -> ChunkHash, offset: nat)
    requires blockSize > 0 && offset + |data| < TWO_64 && Collisionless(data, blockSize, hash)
    ensures Cut(EvenBlocks(id, data, blockSize, hash, offset), data, hash)
  {
    if data != [] {
      hide NoCollision, Cut;
      var n := Min(blockSize, |data|);
      EvenBlocksCut(id, data[n..], blockSize, hash, offset + n);
      CutStep(BlockOf(id, offset, data[..n], hash), EvenBlocks(id, data[n..], blockSize, hash, offset + n), data, hash);
    }
  }

  // ---------- Builder ----------

  const MIN_BLOCK_SIZE: nat := 1024
  const MAX_BLOCK_SIZE: nat := 67_108_864

  function Clamp(n: nat): (r: nat)
    ensures MIN_BLOCK_SIZE <= r <= MAX_BLOCK_SIZE
  {
    if n < MIN_BLOCK_SIZE then MIN_BLOCK_SIZE else if n > MAX_BLOCK_SIZE then MAX_BLOCK_SIZE else n
  }

  /** The blocks of every entry, `contents[i]` being what was appended to entry `i`. */
  function AllBlocks(contents: seq<Data>, blockSize: nat, hash: Data -> ChunkHash): seq<Block>
    requires blockSize > 0 && Countable(contents)
  {
    if contents == [] then []
    else
      var n := |contents| - 1;
      AllBlocks(contents[..n], blockSize, hash) + EvenBlocks(n, contents[n], blockSize, hash, 0)
  }

  predicate Countable(contents: seq<Data>) {
    |contents| < TWO_32 && forall i | 0 <= i < |contents| :: |contents[i]| < TWO_64
  }

  predicate Numbered(entries: seq<SigEntry>, contents: seq<Data>) {
    |entries| == |contents| &&
    forall i | 0 <= i < |entries| :: entries[i].id == i && entries[i].size == |contents[i]|
  }

  class SignatureBuilder {
    const hash: Data -> ChunkHash
    const blockSize: nat
    var entries: seq<SigEntry>
    var blocks: seq<Block>
    var buf: Data
    var offset: U64
    ghost var contents: seq<Data>

    constructor (blockSize: nat, hash: Data -> ChunkHash)
      ensures Valid() && this.hash == hash && this.blockSize == Clamp(blockSize) && contents == [] && entries == []
    {
      this.hash, this.blockSize := hash, Clamp(blockSize);
      entries, blocks, buf, offset, contents := [], [], [], 0, [];
    }

    ghost predicate Valid()
      reads this
    {
      && blockSize > 0 && Countable(contents) && Numbered(entries, contents)
      && if contents == [] then blocks == [] && buf == []
         else Streaming(contents[..|contents| - 1], contents[|contents| - 1])
    }

    /** After the closed entries, the open one holds `last`: its full blocks are out, the rest is buffered. */
    ghost predicate Streaming(closed: seq<Data>, last: Data)
      reads this
    {
      && blockSize > 0 && Countable(closed) && |closed| + 1 < TWO_32
      && offset + |buf| == |last| < TWO_64 && |buf| < blockSize && Whole(offset, blockSize)
      && last[offset..] == buf
      && blocks == AllBlocks(closed, blockSize, hash) + EvenBlocks(|closed|, last[..offset], blockSize, hash, 0)
    }

    method EmitBlock()
      requires entries != [] && |entries| < TWO_32 && offset + |buf| < TWO_64
      requires entries[|entries| - 1].id == |entries| - 1
      modifies this`blocks, this`buf, this`offset
      ensures buf == [] && offset == old(offset) + |old(buf)|
      ensures blocks == old(blocks) + [BlockOf(|entries| - 1, old(offset), old(buf), hash)]
    {
      blocks := blocks + [BlockOf(entries[|entries| - 1].id, offset, buf, hash)];
      offset := offset + |buf|;
      buf := [];
    }

    /** Cuts what is buffered; afterwards every entry is wholly in blocks. */
    method FlushBlock()
      requires Valid()
      modifies this`blocks, this`buf, this`offset
      ensures buf == [] && blocks == AllBlocks(contents, blockSize, hash)
    {
      hide EvenBlocks, Whole, BlockOf, Countable;
      if entries == [] {
        return;
      }
      ghost var n := |contents| - 1;
      ghost var closed, last := AllBlocks(contents[..n], blockSize, hash), contents[n];
      ghost var out := EvenBlocks(n, last[..offset], blockSize, hash, 0);
      assert AllBlocks(contents, blockSize, hash) == closed + EvenBlocks(n, last, blockSize, hash, 0);
      assert last == last[..offset] + buf;
      if buf == [] {
        assert last[..offset] == last;
      } else {
        EvenAppend(n, last[..offset], buf, blockSize, hash, 0);
        ghost var b := BlockOf(n, offset, buf, hash);
        EmitBlock();
        assert blocks == closed + out + [b] == closed + (out + [b]);
      }
    }

    method BeginEntry(path: Data, kind: Kind, target: Option<Data>)
      requires Valid() && |entries| + 1 < TWO_32
      modifies this
      ensures Valid() && contents == old(contents) + [[]]
      ensures entries == old(entries) + [SigEntry(|old(entries)|, path, kind, 0, target)]
    {
      FlushBlock();
      entries := entries + [SigEntry(|entries|, path, kind, 0, target)];
      offset := 0;
      ghost var closed := contents;
      contents := contents + [[]];
      assert contents[..|contents| - 1] == closed;
    }

    /** One turn of `append`: fill the block buffer and cut it when it is full. */
    method Feed(piece: Data, ghost closed: seq<Data>, ghost last: Data)
      requires Streaming(closed, last) && 0 < |piece| <= blockSize - |buf| && |last| + |piece| < TWO_64
      requires |entries| == |closed| + 1 && entries[|closed|].id == |closed|
      modifies this`blocks, this`buf, this`offset
      ensures Streaming(closed, last + piece)
    {
      hide EvenBlocks, AllBlocks, Whole, BlockOf, Countable;
      ghost var flushed := last[..offset];
      assert (last + piece)[offset..] == buf + piece;
      buf := buf + piece;
      if |buf| == blockSize {
        EvenAppend(|closed|, flushed, buf, blockSize, hash, 0);
        WholeAppend(offset, blockSize);
        assert flushed + buf == last + piece == (last + piece)[..offset + blockSize];
        EmitBlock();
      } else {
        assert (last + piece)[..offset] == flushed;
      }
    }

    method Append(data: Data)
      requires Valid() && entries != [] && |contents[|contents| - 1]| + |data| < TWO_64
      modifies this
      ensures Valid()
      ensures var n := |old(contents)| - 1;
        && contents == old(contents)[n := old(contents)[n] + data]
        && entries == old(entries)[n := old(entries)[n].(size := old(entries)[n].size + |data|)]
    {
      hide EvenBlocks, AllBlocks, Whole, BlockOf;
      ghost var closed, last := contents[..|contents| - 1], contents[|contents| - 1];
      var n := |entries| - 1;
      entries := entries[n := entries[n].(size := entries[n].size + |data|)];
      var rest := data;
      ghost var done: Data := [];
      assert last + [] == last;
      while rest != []
        invariant done + rest == data && Streaming(closed, last + done)
        invariant entries == old(entries)[n := old(entries)[n].(size := |last| + |data|)]
        invariant contents == old(contents)
        decreases |rest|
      {
        var k := Min(blockSize - |buf|, |rest|);
        Feed(rest[..k], closed, last + done);
        assert last + done + rest[..k] == last + (done + rest[..k]);
        done := done + rest[..k];
        rest := rest[k..];
      }
      assert done == data;
      contents := contents[n := last + data];
      assert contents[..n] == closed;
    }
  }

  // ---------- Signing a build ----------

  function ContentOf(live: Live): Data {
    if live.File? then live.bytes else []
  }

  function EntryOf(id: U32, path: Data, live: Live): SigEntry {
    SigEntry(id, path, KindOf(live), |ContentOf(live)|, if live.Link? then Some(live.target) else None)
  }

  /** The walk's contents, by entry. */
  function Contents(build: Build, walk: seq<Data>): (c: seq<Data>)
    requires forall p <- walk :: p in build
    ensures |c| == |walk|
  {
    if walk == [] then []
    else
      var n := |walk| - 1;
      Contents(build, walk[..n]) + [ContentOf(build[walk[n]])]
  }

  function Entries(build: Build, walk: seq<Data>): (e: seq<SigEntry>)
    requires |walk| < TWO_32 && forall p <- walk :: p in build
    ensures |e| == |walk|
  {
    if walk == [] then []
    else
      var n := |walk| - 1;
      Entries(build, walk[..n]) + [EntryOf(n, walk[n], build[walk[n]])]
  }

  /** File sizes and the entry count fit their fields. */
  predicate Signable(build: Build, walk: seq<Data>) {
    && |walk| < TWO_32 && (forall p <- walk :: p in build)
    && forall p <- walk :: |ContentOf(build[p])| < TWO_64
  }

  lemma {:induction false} ContentsCountable(build: Build, walk: seq<Data>)
    requires Signable(build, walk)
    ensures Countable(Contents(build, walk))
  {
    if walk != [] {
      ContentsCountable(build, walk[..|walk| - 1]);
    }
  }

  /** The read loop of `sign_dir`: however reads are split, the entry gets the whole file. */
  method AppendFile(builder: SignatureBuilder, bytes: Data)
    requires builder.Valid() && builder.entries != [] && builder.contents[|builder.contents| - 1] == []
    requires |bytes| < TWO_64
    modifies builder
    ensures builder.Valid()
    ensures var n, was := |old(builder.contents)| - 1, old(builder.entries);
      && builder.contents == old(builder.contents)[n := bytes]
      && builder.entries == was[n := was[n].(size := was[n].size + |bytes|)]
  {
    hide AllBlocks, EvenBlocks, Whole;
    ghost var contents, entries, n := builder.contents, builder.entries, |builder.contents| - 1;
    var file := new ShortReader(bytes);
    var buf := new Byte[1_048_576];
    assert contents == contents[n := bytes[..0]];
    assert |entries| == |contents|;
    while true
      invariant builder.Valid() && file.data == bytes && file.pos <= |bytes|
      invariant builder.contents == contents[n := bytes[..file.pos]]
      invariant builder.entries == entries[n := entries[n].(size := entries[n].size + file.pos)]
      decreases |bytes| - file.pos
    {
      var k := file.Read(buf, 0, buf.Length);
      if k == 0 {
        break;
      }
      assert bytes[..file.pos] == bytes[..file.pos - k] + buf[..k];
      builder.Append(buf[..k]);
    }
    assert bytes[..|bytes|] == bytes;
  }

  /** One walked path: its entry, and for a file its bytes. */
  method SignEntry(builder: SignatureBuilder, path: Data, live: Live)
    requires builder.Valid() && |builder.entries| + 1 < TWO_32 && |ContentOf(live)| < TWO_64
    modifies builder
    ensures builder.Valid()
    ensures builder.contents == old(builder.contents) + [ContentOf(live)]
    ensures builder.entries == old(builder.entries) + [EntryOf(|old(builder.entries)|, path, live)]
  {
    hide AllBlocks, EvenBlocks, Whole, Countable;
    builder.BeginEntry(path, KindOf(live), if live.Link? then Some(live.target) else None);
    if live.File? {
      AppendFile(builder, live.bytes);
    }
  }

  /** `sign_dir`. */
  method SignDir(build: Build, walk: seq<Data>, blockSize: nat, hash: Data -> ChunkHash)
    returns (sig: BuildSignature)
    requires Signable(build, walk)
    ensures sig.blockSize == Clamp(blockSize) && sig.entries == Entries(build, walk)
    ensures Countable(Contents(build, walk))
    ensures sig.blocks == AllBlocks(Contents(build, walk), sig.blockSize, hash)
  {
    hide AllBlocks, EvenBlocks, Whole, Clamp, EntryOf, ContentOf, SignatureBuilder.Valid, SignatureBuilder.Streaming;
    var builder := new SignatureBuilder(blockSize, hash);
    for i := 0 to |walk|
      invariant builder.Valid() && fresh(builder)
      invariant builder.contents == Contents(build, walk[..i]) && builder.entries == Entries(build, walk[..i])
    {
      assert walk[..i + 1][..i] == walk[..i];
      var live := build[walk[i]];
      SignEntry(builder, walk[i], live);
    }
    assert walk[..|walk|] == walk;
    ContentsCountable(build, walk);
    builder.FlushBlock();
    sig := BuildSignature(builder.blockSize, builder.entries, builder.blocks);
  }

  // ---------- Comparing with a signature taken of a build ----------

  lemma {:induction false} BlocksJoin(a: seq<Block>, b: seq<Block>, id: U32)
    ensures BlocksOf(a + b, id) == BlocksOf(a, id) + BlocksOf(b, id)
  {
    if b == [] {
      assert a + b == a;
    } else {
      BlocksJoin(a, b[..|b| - 1], id);
      assert (a + b)[..|a + b| - 1] == a + b[..|b| - 1];
    }
  }

  lemma {:induction false} BlocksOfOne(blocks: seq<Block>, id: U32, other: U32)
    requires forall b <- blocks :: b.entryId == id
    ensures BlocksOf(blocks, other) == if id == other then blocks else []
  {
    if blocks != [] {
      BlocksOfOne(blocks[..|blocks| - 1], id, other);
      assert blocks == blocks[..|blocks| - 1] + [blocks[|blocks| - 1]];
    }
  }

  lemma BlocksAreEvenStep(init: seq<Block>, n: U32, data: Data, blockSize: nat, hash: Data -> ChunkHash, id: U32)
    requires blockSize > 0 && |data| < TWO_64 && (n <= id ==> BlocksOf(init, id) == [])
    ensures BlocksOf(init + EvenBlocks(n, data, blockSize, hash, 0), id) ==
      if n == id then EvenBlocks(n, data, blockSize, hash, 0) else BlocksOf(init, id)
  {
    hide EvenBlocks, BlocksOf;
    var last := EvenBlocks(n, data, blockSize, hash, 0);
    BlocksJoin(init, last, id);
    EvenBlocksLabelled(n, data, blockSize, hash, 0);
    BlocksOfOne(last, n, id);
    assert BlocksOf(init, id) + [] == BlocksOf(init, id) && [] + last == last;
  }

  /** Indexing by entry undoes the concatenation. */
  lemma {:induction false} BlocksAreEven(contents: seq<Data>, blockSize: nat, hash: Data -> ChunkHash, id: U32)
    requires blockSize > 0 && Countable(contents)
    ensures BlocksOf(AllBlocks(contents, blockSize, hash), id) ==
      if id < |contents| then EvenBlocks(id, contents[id], blockSize, hash, 0) else []
  {
    if contents != [] {
      hide EvenBlocks, BlocksOf;
      var n := |contents| - 1;
      BlocksAreEven(contents[..n], blockSize, hash, id);
      BlocksAreEvenStep(AllBlocks(contents[..n], blockSize, hash), n, contents[n], blockSize, hash, id);
    }
  }

  lemma {:induction false} BlocksFit(contents: seq<Data>, blockSize: nat, hash: Data -> ChunkHash)
    requires blockSize > 0 && Countable(contents)
    ensures forall b <- AllBlocks(contents, blockSize, hash) :: b.len <= blockSize
  {
    if contents != [] {
      BlocksFit(contents[..|contents| - 1], blockSize, hash);
      EvenBlocksLabelled(|contents| - 1, contents[|contents| - 1], blockSize, hash, 0);
    }
  }

  /** Every path of the walk has one entry, numbered by its place. */
  lemma {:induction false} EntriesFound(build: Build, walk: seq<Data>, path: Data) returns (id: nat)
    requires |walk| < TWO_32 && NoRepeats(walk) && forall p <- walk :: p in build
    ensures DistinctPaths(Entries(build, walk))
    ensures path in walk ==> id < |walk| && Contents(build, walk)[id] == ContentOf(build[path])
    ensures Lookup(Entries(build, walk), path) ==
      if path in walk then Some(EntryOf(id, path, build[path])) else None
  {
    id := 0;
    if walk != [] {
      var n := |walk| - 1;
      assert walk == walk[..n] + [walk[n]];
      id := EntriesFound(build, walk[..n], path);
      var same := EntriesFound(build, walk[..n], walk[n]);
      if path == walk[n] {
        id := n;
      }
    }
  }

  /** No other content shares the digest of a block of the build. */
  ghost predicate Trusted(build: Build, blockSize: nat, hash: Data -> ChunkHash) {
    blockSize > 0 && forall p <- build :: Collisionless(ContentOf(build[p]), blockSize, hash)
  }

  ghost predicate TakenOf(sig: BuildSignature, build: Build, walk: seq<Data>, hash: Data -> ChunkHash) {
    && Signable(build, walk) && Countable(Contents(build, walk))
    && sig.blockSize > 0 && sig.entries == Entries(build, walk)
    && sig.blocks == AllBlocks(Contents(build, walk), sig.blockSize, hash)
  }

  ghost predicate DescribedEvenly(sig: BuildSignature, p: Data, live: Live, hash: Data -> ChunkHash) {
    && Described(sig, p, live, hash)
    && Even(BlocksOf(sig.blocks, Lookup(sig.entries, p).value.id), sig.blockSize, SizeOf(live))
  }

  lemma SignedEvenly(sig: BuildSignature, build: Build, walk: seq<Data>, hash: Data -> ChunkHash, p: Data)
    requires Lists(walk, build) && TakenOf(sig, build, walk, hash) && Trusted(build, sig.blockSize, hash)
    ensures DistinctPaths(sig.entries) && (Lookup(sig.entries, p).Some? <==> p in build)
    ensures p in build ==> DescribedEvenly(sig, p, build[p], hash)
  {
    hide Collisionless, AllBlocks, NoRepeats, Even, Cut, Contents, Entries, Lookup;
    var id := EntriesFound(build, walk, p);
    if p in build {
      var bytes := ContentOf(build[p]);
      BlocksAreEven(Contents(build, walk), sig.blockSize, hash, id);
      EvenBlocksEven(id, bytes, sig.blockSize, hash, 0);
      EvenBlocksCut(id, bytes, sig.blockSize, hash, 0);
    }
  }

  /** The content at `q` is in the old build only. */
  predicate Gone(old_: Build, build: Build, q: Data, bytes: Data) {
    q in old_ && !Present(build, q) && old_[q] == File(bytes)
  }

  /** Sign an old build, then preview a new one against the signature alone: every path gets exactly
      the report due to it, and a rename is reported exactly when a new non-empty file carries the
      content of an old file that is gone, however the readers split their reads. */
  method SignThenPreview(old_: Build, oldWalk: seq<Data>, blockSize: nat, build: Build, walk: seq<Data>,
                         hash: Data -> ChunkHash)
    returns (out: seq<EntryReport>, renames: map<Data, Data>)
    requires Signable(old_, oldWalk) && Lists(oldWalk, old_) && Lists(walk, build)
    requires Trusted(old_, Clamp(blockSize), hash)
    ensures Sorted(out, ByPath)
    ensures forall p :: ReportsFor(out, p) == Due(old_, build, p)
    ensures forall p <- renames :: Arrived(old_, build, p) && Gone(old_, build, renames[p], build[p].bytes)
    ensures forall p, q :: Arrived(old_, build, p) && Gone(old_, build, q, build[p].bytes) ==> p in renames
  {
    hide Clamp, Due, AllBlocks, Entries, Contents, Even, BlocksOf, Describes, Lookup, Excluded, NoRepeats, Trusted;
    var sig := SignDir(old_, oldWalk, blockSize, hash);
    BlocksFit(Contents(old_, oldWalk), sig.blockSize, hash);
    forall p ensures DistinctPaths(sig.entries) && (Lookup(sig.entries, p).Some? <==> p in old_)
      && (p in old_ ==> DescribedEvenly(sig, p, old_[p], hash))
    {
      SignedEvenly(sig, old_, oldWalk, hash, p);
    }
    SignedEvenly(sig, old_, oldWalk, hash, []);
    out, renames := Preview(sig, build, walk, hash, old_);
    forall p, q | Arrived(old_, build, p) && Gone(old_, build, q, build[p].bytes) ensures p in renames {
      assert Vanished(sig, old_, build, q, build[p].bytes);
    }
  }

  // ---------- A taken signature serves the differ ----------

  /** A block holds what the differ reads of it. */
  ghost predicate Faithful(b: Block, src: map<U32, Data>, hash: Data -> ChunkHash) {
    && Diff.InSource(b, src)
    && b.strong == hash(Diff.Content(b, src)) && b.weak32 == Diff.Weak(Diff.Content(b, src))
    && NoCollision(hash, Diff.Content(b, src))
  }

  lemma {:induction false} EvenBlocksFaithful(id: U32, at: nat, blockSize: nat, hash: Data -> ChunkHash,
                                              src: map<U32, Data>)
    requires blockSize > 0 && id in src && at <= |src[id]| < TWO_64 && Collisionless(src[id][at..], blockSize, hash)
    ensures forall b <- EvenBlocks(id, src[id][at..], blockSize, hash, at) :: Faithful(b, src, hash)
    decreases |src[id]| - at
  {
    hide NoCollision, Diff.Weak;
    var rest := src[id][at..];
    if rest != [] {
      var n := Min(blockSize, |rest|);
      assert rest[n..] == src[id][at + n..];
      assert rest[..n] == src[id][at..at + n];
      EvenBlocksFaithful(id, at + n, blockSize, hash, src);
    }
  }

  lemma {:induction false} AllBlocksFaithful(contents: seq<Data>, blockSize: nat, hash: Data -> ChunkHash,
                                             src: map<U32, Data>)
    requires blockSize > 0 && Countable(contents)
    requires forall i: U32 | 0 <= i < |contents| && contents[i] != [] :: i in src && src[i] == contents[i]
    requires forall i | 0 <= i < |contents| :: Collisionless(contents[i], blockSize, hash)
    ensures forall b <- AllBlocks(contents, blockSize, hash) :: Faithful(b, src, hash)
  {
    hide Faithful, Collisionless;
    if contents != [] {
      var n := |contents| - 1;
      AllBlocksFaithful(contents[..n], blockSize, hash, src);
      if contents[n] != [] {
        assert src[n][0..] == contents[n];
        EvenBlocksFaithful(n, 0, blockSize, hash, src);
      }
    }
  }
}
