/** The self-healing chunk cache: `ChunkCache`, over a disk that may be corrupted at any time. */
module Cache {
  import opened Bytes
  import opened Sorting

  // ---------- Places on disk ----------

  /** `<root>/<shard>/<name>`. */
  datatype Slot = Slot(shard: string, name: string)

  /** What may sit there. A directory is not something the cache makes. */
  datatype Node = File(bytes: Data, mtime: nat) | Dir(len: nat, mtime: nat)

  function LenOf(n: Node): nat {
    match n
    case File(bytes, _) => |bytes|
    case Dir(len, _) => len
  }

  function Digit(n: nat): char
    requires n < 16
  {
    "0123456789abcdef"[n]
  }

  /** `to_hex`. */
  function Hex(b: Data): (s: string)
    ensures |s| == 2 * |b|
    ensures forall c <- s :: IsHexDigit(c)
  {
    if b == [] then [] else [Digit(b[0] / 16), Digit(b[0] % 16)] + Hex(b[1..])
  }

  predicate IsHexDigit(c: char) {
    '0' <= c <= '9' || 'a' <= c <= 'f' || 'A' <= c <= 'F'
  }

  function PathForHex(hex: string): Slot
    requires |hex| >= 2
  {
    Slot(hex[..2], hex)
  }

  function PathFor(key: ChunkHash): Slot {
    PathForHex(Hex(key))
  }

  function TempFor(key: ChunkHash): Slot {
    Slot(PathFor(key).shard, Hex(key) + ".tmp")
  }

  lemma DigitInjective(a: nat, b: nat)
    requires a < 16 && b < 16 && Digit(a) == Digit(b)
    ensures a == b
  {
  }

  lemma {:induction false} HexInjective(a: Data, b: Data)
    requires Hex(a) == Hex(b)
    ensures a == b
  {
    if a != [] && b != [] {
      assert Hex(a)[0] == Hex(b)[0] && Hex(a)[1] == Hex(b)[1];
      assert Hex(a)[2..] == Hex(a[1..]) && Hex(b)[2..] == Hex(b[1..]);
      DigitInjective(a[0] / 16, b[0] / 16);
      DigitInjective(a[0] % 16, b[0] % 16);
      HexInjective(a[1..], b[1..]);
    }
  }

  // ---------- Listing ----------

  predicate AllHex(s: string) {
    forall c <- s :: IsHexDigit(c)
  }

  predicate IsChunk(s: Slot) {
    |s.shard| == 2 && AllHex(s.shard) && |s.name| == 64 && AllHex(s.name)
  }

  /** A leftover of a torn write. */
  predicate IsStray(s: Slot) {
    |s.shard| == 2 && AllHex(s.shard) && !IsChunk(s) && |s.name| >= 4 && s.name[|s.name| - 4..] == ".tmp"
  }

  function Strays(files: map<Slot, Node>): set<Slot> {
    set s | s in files && IsStray(s) && files[s].File?
  }

  datatype Listed = Listed(slot: Slot, len: nat, mtime: nat)

  /** The chunk entries in directory order. */
  function Chunks(files: map<Slot, Node>, listing: seq<Slot>): seq<Listed>
    requires forall s <- listing :: s in files
  {
    if listing == [] then []
    else
      var s, rest := listing[|listing| - 1], Chunks(files, listing[..|listing| - 1]);
      if IsChunk(s) then rest + [Listed(s, LenOf(files[s]), files[s].mtime)] else rest
  }

  ghost predicate Lists(listing: seq<Slot>, files: map<Slot, Node>) {
    NoRepeats(listing) && forall s :: s in listing <==> s in files
  }

  function Total(entries: seq<Listed>): nat {
    if entries == [] then 0 else Total(entries[..|entries| - 1]) + entries[|entries| - 1].len
  }

  function Slots(entries: seq<Listed>): set<Slot> {
    set e | e in entries :: e.slot
  }

  predicate OlderFirst(a: Listed, b: Listed) {
    a.mtime <= b.mtime
  }

  /** The content does not hash to the name. */
  predicate Corrupt(files: map<Slot, Node>, s: Slot, hash: Data -> ChunkHash) {
    s in files && IsChunk(s) && !(files[s].File? && Hex(hash(files[s].bytes)) == s.name)
  }

  datatype VerifyReport = VerifyReport(total: nat, totalBytes: nat, ok: nat, corrupt: nat)
  datatype GcReport = GcReport(totalEntries: nat, totalBytes: nat, evicted: nat, evictedBytes: nat)

  lemma {:induction false} NoRepeatsAt<T>(s: seq<T>, i: nat)
    requires NoRepeats(s) && i < |s|
    ensures s[i] !in s[..i]
  {
    if i < |s| - 1 {
      NoRepeatsAt(s[..|s| - 1], i);
      assert s[..|s| - 1][..i] == s[..i];
    }
  }

  /** Each entry is a chunk on disk with its size and time, and every chunk has one. */
  lemma {:induction false} ChunksListed(files: map<Slot, Node>, listing: seq<Slot>)
    requires forall s <- listing :: s in files
    ensures forall e <- Chunks(files, listing) ::
      && e.slot in listing && IsChunk(e.slot) && e.len == LenOf(files[e.slot]) && e.mtime == files[e.slot].mtime
    ensures forall s <- listing :: IsChunk(s) ==> s in Slots(Chunks(files, listing))
  {
    if listing != [] {
      var n := |listing| - 1;
      ChunksListed(files, listing[..n]);
      assert forall e <- Chunks(files, listing[..n]) :: e in Chunks(files, listing);
    }
  }

  /** Clearing torn writes keeps every chunk. */
  lemma ChunksStay(files: map<Slot, Node>)
    ensures forall s :: s in files && IsChunk(s) ==> s in files - Strays(files)
  {
  }

  predicate DistinctSlots(entries: seq<Listed>) {
    forall i, j | 0 <= i < j < |entries| :: entries[i].slot != entries[j].slot
  }

  lemma {:induction false} ChunksDistinct(files: map<Slot, Node>, listing: seq<Slot>)
    requires NoRepeats(listing) && forall s <- listing :: s in files
    ensures DistinctSlots(Chunks(files, listing))
  {
    if listing != [] {
      ChunksDistinct(files, listing[..|listing| - 1]);
      ChunksListed(files, listing[..|listing| - 1]);
    }
  }

  /** How many entries do not hash to their names. */
  function CorruptCount(files: map<Slot, Node>, entries: seq<Listed>, hash: Data -> ChunkHash): nat {
    if entries == [] then 0
    else
      CorruptCount(files, entries[..|entries| - 1], hash)
      + if Corrupt(files, entries[|entries| - 1].slot, hash) then 1 else 0
  }

  /** Where corrupt entries may stay: a directory is in the way. */
  predicate Blocked(files: map<Slot, Node>, quarantine: map<string, Node>, s: Slot, deleteCorrupt: bool)
    requires s in files
  {
    files[s].Dir? || (!deleteCorrupt && s.name in quarantine && quarantine[s.name].Dir?)
  }

  predicate AreFiles(files: map<Slot, Node>, slots: set<Slot>) {
    forall s <- slots :: s in files && files[s].File?
  }

  /** The quarantine gained one moved node for every name moved, and nothing else. */
  ghost predicate Evidence(files: map<Slot, Node>, before: map<string, Node>, after: map<string, Node>,
                           moved: set<Slot>)
    requires moved <= files.Keys
  {
    && (forall name :: name in after <==> name in before || exists s <- moved :: s.name == name)
    && forall name <- after ::
         (name in before && before[name] == after[name])
         || exists s <- moved :: s.name == name && files[s] == after[name]
  }

  lemma OlderFirstOrders()
    ensures TotalPreorder(OlderFirst)
  {
  }

  lemma {:induction false} TotalJoin(a: seq<Listed>, b: seq<Listed>)
    ensures Total(a + b) == Total(a) + Total(b)
  {
    if b == [] {
      assert a + b == a;
    } else {
      TotalJoin(a, b[..|b| - 1]);
      assert (a + b)[..|a + b| - 1] == a + b[..|b| - 1];
    }
  }

  lemma {:induction false} TotalInsert(x: Listed, s: seq<Listed>)
    ensures Total(Insert(x, s, OlderFirst)) == x.len + Total(s)
  {
    if s == [] || OlderFirst(x, s[0]) {
      TotalJoin([x], s);
    } else {
      TotalInsert(x, s[1..]);
      TotalJoin([s[0]], Insert(x, s[1..], OlderFirst));
      TotalJoin([s[0]], s[1..]);
      assert s == [s[0]] + s[1..];
    }
  }

  /** Sorting keeps the total. */
  lemma {:induction false} TotalSorted(s: seq<Listed>)
    ensures Total(SortBy(s, OlderFirst)) == Total(s)
  {
    if s != [] {
      TotalSorted(s[1..]);
      TotalInsert(s[0], SortBy(s[1..], OlderFirst));
      TotalJoin([s[0]], s[1..]);
      assert s == [s[0]] + s[1..];
    }
  }

  lemma {:induction false} CountedOnce(a: seq<Listed>, e: Listed)
    requires DistinctSlots(a)
    ensures multiset(a)[e] <= 1
  {
    if a != [] {
      var n := |a| - 1;
      CountedOnce(a[..n], e);
      assert a == a[..n] + [a[n]];
    }
  }

  lemma CountedTwice(b: seq<Listed>, i: nat, j: nat)
    requires i < j < |b| && b[i] == b[j]
    ensures multiset(b)[b[i]] >= 2
  {
    assert b == b[..i] + [b[i]] + b[i + 1..j] + [b[j]] + b[j + 1..];
  }

  lemma SameElements(a: seq<Listed>, b: seq<Listed>)
    requires multiset(a) == multiset(b)
    ensures forall e <- b :: e in a
  {
    forall e | e in b ensures e in a {
      assert e in multiset(b);
    }
  }

  /** A sequence with the elements of a duplicate-free one is duplicate-free. */
  lemma DistinctPermuted(a: seq<Listed>, b: seq<Listed>)
    requires DistinctSlots(a) && multiset(a) == multiset(b)
    ensures DistinctSlots(b)
  {
    SameElements(a, b);
    forall i, j | 0 <= i < j < |b| ensures b[i].slot != b[j].slot {
      assert b[i] in a && b[j] in a;
      if b[i] == b[j] {
        CountedTwice(b, i, j);
        CountedOnce(a, b[i]);
      }
    }
  }

  /** The chunks, oldest first: each once, still there with its size, and the same in all. */
  lemma SortedChunks(was: map<Slot, Node>, listing: seq<Slot>) returns (sorted: seq<Listed>)
    requires NoRepeats(listing) && forall s <- listing :: s in was
    ensures sorted == SortBy(Chunks(was, listing), OlderFirst)
    ensures DistinctSlots(sorted) && Total(sorted) == Total(Chunks(was, listing))
    ensures forall e <- sorted :: e.slot in was - Strays(was) && e.len == LenOf(was[e.slot])
  {
    var all := Chunks(was, listing);
    sorted := SortBy(all, OlderFirst);
    TotalSorted(all);
    SortKeeps(all, OlderFirst);
    hide SortBy, IsStray, IsChunk, Strays;
    ChunksListed(was, listing);
    ChunksDistinct(was, listing);
    DistinctPermuted(all, sorted);
    SameElements(all, sorted);
    ChunksStay(was);
  }

  /** Removing `n` entries is exactly what it takes to fit: one fewer would not do. */
  predicate JustFits(sorted: seq<Listed>, n: nat, maxBytes: nat)
    requires n <= |sorted|
  {
    Total(sorted) - Total(sorted[..n]) <= maxBytes
    && (n > 0 ==> Total(sorted) - Total(sorted[..n - 1]) > maxBytes)
  }

  /** How many of the first entries, from the `n`th on, must go for the rest to fit. */
  function NeededFrom(sorted: seq<Listed>, maxBytes: nat, n: nat): (r: nat)
    requires n <= |sorted|
    ensures n <= r <= |sorted| && Total(sorted) - Total(sorted[..r]) <= maxBytes
    ensures forall k | n <= k < r :: Total(sorted) - Total(sorted[..k]) > maxBytes
    decreases |sorted| - n
  {
    assert sorted[..|sorted|] == sorted;
    if Total(sorted) - Total(sorted[..n]) <= maxBytes then n else NeededFrom(sorted, maxBytes, n + 1)
  }

  /** The length of the shortest prefix whose removal makes the rest fit. */
  function Needed(sorted: seq<Listed>, maxBytes: nat): (n: nat)
    ensures n <= |sorted| && JustFits(sorted, n, maxBytes)
  {
    NeededFrom(sorted, maxBytes, 0)
  }

  /** The first `n` entries are files. */
  predicate Removable(files: map<Slot, Node>, sorted: seq<Listed>, n: nat)
    requires n <= |sorted|
  {
    forall k | 0 <= k < n :: sorted[k].slot in files && files[sorted[k].slot].File?
  }

  /** Eviction ends after `n` entries, all of them files: where the rest fits if no directory is among
      the entries that must go, and otherwise before a directory that must. */
  predicate EndsAt(files: map<Slot, Node>, sorted: seq<Listed>, n: nat, maxBytes: nat) {
    && n <= |sorted| && Removable(files, sorted, n)
    && if Removable(files, sorted, Needed(sorted, maxBytes)) then n == Needed(sorted, maxBytes)
       else n < Needed(sorted, maxBytes) && sorted[n].slot in files && files[sorted[n].slot].Dir?
  }

  lemma EvidenceGrows(files: map<Slot, Node>, before: map<string, Node>, after: map<string, Node>,
                      moved: set<Slot>, s: Slot)
    requires moved <= files.Keys && s in files && Evidence(files, before, after, moved)
    ensures Evidence(files, before, after[s.name := files[s]], moved + {s})
  {
  }

  // ---------- What one key sees ----------

  /** The key's file is there and hashes to the key. */
  predicate Held(files: map<Slot, Node>, key: ChunkHash, hash: Data -> ChunkHash) {
    PathFor(key) in files && files[PathFor(key)].File? && hash(files[PathFor(key)].bytes) == key
  }

  predicate Present(files: map<Slot, Node>, hex: string) {
    |hex| == 64 && PathForHex(hex) in files && files[PathForHex(hex)].File?
  }

  /** Every chunk file holds what its key says. */
  ghost predicate AllHeld(files: map<Slot, Node>, hash: Data -> ChunkHash) {
    forall key: ChunkHash :: PathFor(key) in files && files[PathFor(key)].File? ==> Held(files, key, hash)
  }

  lemma AllHeldWithout(files: map<Slot, Node>, gone: set<Slot>, hash: Data -> ChunkHash)
    ensures AllHeld(files, hash) ==> AllHeld(files - gone, hash)
  {
    hide PathFor;
  }

  /** What a get returns. */
  function Found(files: map<Slot, Node>, key: ChunkHash, hash: Data -> ChunkHash): Option<Data> {
    if Held(files, key, hash) then Some(files[PathFor(key)].bytes) else None
  }

  /** A get drops a file that does not hash to its key. */
  function AfterGet(files: map<Slot, Node>, key: ChunkHash, hash: Data -> ChunkHash): map<Slot, Node> {
    if PathFor(key) in files && files[PathFor(key)].File? && !Held(files, key, hash)
    then files - {PathFor(key)} else files
  }

  /** A put keeps an existing entry; cut short it leaves a torn `.tmp`, otherwise the whole entry. */
  function AfterPut(files: map<Slot, Node>, key: ChunkHash, payload: Data, now: nat, crash: Option<nat>)
    : map<Slot, Node>
    requires crash.Some? ==> crash.value <= |payload|
  {
    var slot, tmp := PathFor(key), TempFor(key);
    if slot in files || (tmp in files && files[tmp].Dir?) then files
    else if crash.Some? then files[tmp := File(payload[..crash.value], now)]
    else (files - {tmp})[slot := File(payload, now)]
  }

  lemma SlotsApart(key: ChunkHash, other: ChunkHash)
    ensures PathFor(other) == PathFor(key) <==> other == key
    ensures PathFor(other) != TempFor(key)
  {
    if PathFor(other) == PathFor(key) {
      HexInjective(other, key);
    }
  }

  // ---------- The cache ----------

  class ChunkCache {
    const hash: Data -> ChunkHash
    var files: map<Slot, Node>
    var quarantine: map<string, Node>

    constructor (hash: Data -> ChunkHash)
      ensures this.hash == hash && files == map[] && quarantine == map[]
    {
      this.hash, files, quarantine := hash, map[], map[];
    }

    predicate Contains(hex: string)
      reads this
    {
      Present(files, hex)
    }

    predicate Holds(key: ChunkHash)
      reads this
    {
      Held(files, key, hash)
    }

    ghost predicate Intact()
      reads this
    {
      AllHeld(files, hash)
    }

    /** Write beside, then rename; a crash during the write leaves only a torn `.tmp`. */
    method Put(key: ChunkHash, payload: Data, now: nat, crash: Option<nat>) returns (ok: bool)
      requires crash.Some? ==> crash.value <= |payload|
      modifies this`files
      ensures files == AfterPut(old(files), key, payload, now, crash)
      ensures ok <==> PathFor(key) in old(files)
                      || (crash.None? && !(TempFor(key) in old(files) && old(files)[TempFor(key)].Dir?))
      ensures old(Intact()) && hash(payload) == key ==> Intact()
    {
      var slot, tmp := PathFor(key), TempFor(key);
      forall k: ChunkHash ensures (PathFor(k) == slot <==> k == key) && PathFor(k) != tmp {
        SlotsApart(key, k);
      }
      if slot in files {
        return true;
      }
      if tmp in files && files[tmp].Dir? {
        return false;
      }
      if crash.Some? {
        files := files[tmp := File(payload[..crash.value], now)];
        return false;
      }
      files := files[tmp := File(payload, now)];
      files := (files - {tmp})[slot := files[tmp]];
      return true;
    }

    /** Only bytes that hash to the key come back; a file with other bytes is dropped. */
    method Get(key: ChunkHash) returns (r: Option<Data>)
      modifies this`files
      ensures r == Found(old(files), key, hash) && files == AfterGet(old(files), key, hash)
      ensures r.Some? ==> hash(r.value) == key
      ensures old(Intact()) ==> Intact() && (r.Some? <==> Contains(Hex(key)))
    {
      var path := PathFor(key);
      if path !in files || files[path].Dir? {
        return None;
      }
      var payload := files[path].bytes;
      if hash(payload) != key {
        files := files - {path};
        return None;
      }
      return Some(payload);
    }

    /** What a client does with a missing chunk: look, store what was fetched, look again. The chunk is
        then there, unless a directory is in the way. */
    method Refetch(key: ChunkHash, payload: Data, now: nat) returns (r: Option<Data>)
      requires hash(payload) == key && NoCollision(hash, payload)
      modifies this`files
      ensures r == Some(payload) <==>
        !(PathFor(key) in old(files) && old(files)[PathFor(key)].Dir?) &&
        (old(Holds(key)) || !(TempFor(key) in old(files) && old(files)[TempFor(key)].Dir?))
      ensures r != Some(payload) ==> r == None
    {
      assert PathFor(key) != TempFor(key);
      var before := Get(key);
      var ok := Put(key, payload, now, None);
      r := Get(key);
    }

    /** Lists the chunks and clears torn writes; `listing` is the order the directories are read in. */
    method Entries(listing: seq<Slot>) returns (out: seq<Listed>)
      requires Lists(listing, files)
      modifies this`files
      ensures out == Chunks(old(files), listing)
      ensures files == old(files) - Strays(old(files))
    {
      out := [];
      ghost var gone: set<Slot> := {};
      for i := 0 to |listing|
        invariant out == Chunks(old(files), listing[..i])
        invariant gone == (set s | s in listing[..i] && IsStray(s) && old(files)[s].File?)
        invariant files == old(files) - gone
      {
        var s := listing[i];
        NoRepeatsAt(listing, i);
        assert listing[..i + 1][..i] == listing[..i];
        if IsChunk(s) {
          out := out + [Listed(s, LenOf(files[s]), files[s].mtime)];
        } else if IsStray(s) && files[s].File? {
          files := files - {s};
          gone := gone + {s};
        }
      }
      assert listing[..|listing|] == listing;
      assert gone == Strays(old(files));
    }

    /** `rename` into the quarantine. It works onto nothing or onto a file when a file is moved; with a
        directory on either side it may fail, and never turns a directory into a file. */
    method Rename(s: Slot) returns (moved: bool)
      requires s in files
      modifies this`files, this`quarantine
      ensures files == if moved then old(files) - {s} else old(files)
      ensures quarantine == if moved then old(quarantine)[s.name := old(files)[s]] else old(quarantine)
      ensures !moved ==> old(files)[s].Dir? || (s.name in old(quarantine) && old(quarantine)[s.name].Dir?)
      ensures moved && s.name in old(quarantine) ==> (old(files)[s].Dir? <==> old(quarantine)[s.name].Dir?)
    {
      moved := *;
      if files[s].File? && (s.name !in quarantine || quarantine[s.name].File?) {
        moved := true;
      } else if s.name in quarantine && files[s].Dir? != quarantine[s.name].Dir? {
        moved := false;
      }
      if moved {
        quarantine := quarantine[s.name := files[s]];
        files := files - {s};
      }
    }

    /** Deletes or quarantines one corrupt entry. */
    method Discard(s: Slot, deleteCorrupt: bool) returns (moved: bool)
      requires s in files
      modifies this`files, this`quarantine
      ensures files == if moved then old(files) - {s} else old(files)
      ensures deleteCorrupt ==> quarantine == old(quarantine) && (moved <==> old(files)[s].File?)
      ensures !deleteCorrupt ==>
        && quarantine == (if moved then old(quarantine)[s.name := old(files)[s]] else old(quarantine))
        && (!moved ==> old(files)[s].Dir? || (s.name in old(quarantine) && old(quarantine)[s.name].Dir?))
        && (moved && s.name in old(quarantine) ==> (old(files)[s].Dir? <==> old(quarantine)[s.name].Dir?))
    {
      if deleteCorrupt {
        moved := files[s].File?;
        if moved {
          files := files - {s};
        }
      } else {
        moved := Rename(s);
      }
    }
 
    /** The slots `seen` so far have been checked: the `moved` ones were corrupt and are gone, and a
        corrupt one that stayed has a directory in its way. */
    ghost predicate Swept(was: map<Slot, Node>, cleared: map<Slot, Node>, quarantined: map<string, Node>,
                          seen: set<Slot>, moved: set<Slot>, deleteCorrupt: bool)
      reads this
    {
      && files == cleared - moved && moved <= seen && moved <= cleared.Keys
      && (forall s <- cleared :: s in was && was[s] == cleared[s])
      && (forall s <- moved :: Corrupt(was, s, hash))
      && (forall s <- seen :: Corrupt(files, s, hash) ==> Blocked(files, quarantine, s, deleteCorrupt))
      && if deleteCorrupt then quarantine == quarantined && AreFiles(was, moved)
         else moved <= was.Keys && Evidence(was, quarantined, quarantine, moved)
    }

    method CheckOne(s: Slot, deleteCorrupt: bool, ghost was: map<Slot, Node>, ghost cleared: map<Slot, Node>,
                    ghost quarantined: map<string, Node>, ghost seen: set<Slot>, ghost moved: set<Slot>)
      returns (ok: bool, ghost now: set<Slot>)
      requires Swept(was, cleared, quarantined, seen, moved, deleteCorrupt)
      requires s in cleared && s !in seen && IsChunk(s)
      modifies this`files, this`quarantine
      ensures Swept(was, cleared, quarantined, seen + {s}, now, deleteCorrupt)
      ensures ok <==> !Corrupt(was, s, hash)
    {
      hide IsChunk, Hex, Evidence;
      ok := files[s].File? && Hex(hash(files[s].bytes)) == s.name;
      now := moved;
      if !ok {
        var gone := Discard(s, deleteCorrupt);
        if gone {
          now := moved + {s};
          if !deleteCorrupt {
            EvidenceGrows(was, quarantined, old(quarantine), moved, s);
          }
        }
      }
    }

    /** The loop over the entries. */
    method CheckAll(entries: seq<Listed>, deleteCorrupt: bool, ghost was: map<Slot, Node>,
                    ghost cleared: map<Slot, Node>, ghost quarantined: map<string, Node>)
      returns (report: VerifyReport, ghost moved: set<Slot>)
      requires Swept(was, cleared, quarantined, {}, {}, deleteCorrupt)
      requires DistinctSlots(entries) && forall e <- entries :: e.slot in cleared && IsChunk(e.slot)
      modifies this`files, this`quarantine
      ensures report.total == |entries| && report.totalBytes == Total(entries)
      ensures report.corrupt == CorruptCount(was, entries, hash) && report.ok + report.corrupt == report.total
      ensures Swept(was, cleared, quarantined, Slots(entries), moved, deleteCorrupt)
    {
      hide Corrupt, Blocked, Evidence, AreFiles, IsChunk, Swept, DistinctSlots, Slots, Total;
      NothingListed();
      moved := {};
      report := VerifyReport(0, 0, 0, 0);
      for i := 0 to |entries|
        invariant report.total == i == report.ok + report.corrupt && report.totalBytes == Total(entries[..i])
        invariant report.corrupt == CorruptCount(was, entries[..i], hash)
        invariant Swept(was, cleared, quarantined, Slots(entries[..i]), moved, deleteCorrupt)
      {
        var e := entries[i];
        assert entries[..i + 1][..i] == entries[..i];
        NotYet(entries, i);
        OneMore(entries, i);
        var ok;
        ok, moved := CheckOne(e.slot, deleteCorrupt, was, cleared, quarantined, Slots(entries[..i]), moved);
        report := report.(total := report.total + 1, totalBytes := report.totalBytes + e.len);
        report := if ok then report.(ok := report.ok + 1) else report.(corrupt := report.corrupt + 1);
      }
      assert entries[..|entries|] == entries;
    }

    /** `verify`: every entry is hashed again; those that fail are deleted or quarantined. */
    method Verify(listing: seq<Slot>, deleteCorrupt: bool) returns (report: VerifyReport, ghost moved: set<Slot>)
      requires Lists(listing, files)
      modifies this`files, this`quarantine
      ensures var all := Chunks(old(files), listing);
        && report.total == |all| && report.totalBytes == Total(all)
        && report.corrupt == CorruptCount(old(files), all, hash) && report.ok + report.corrupt == report.total
      ensures files == old(files) - Strays(old(files)) - moved
      ensures forall s <- moved :: Corrupt(old(files), s, hash)
      ensures forall s :: Corrupt(files, s, hash) ==> Blocked(files, quarantine, s, deleteCorrupt)
      ensures if deleteCorrupt then quarantine == old(quarantine) && AreFiles(old(files), moved)
              else moved <= old(files).Keys && Evidence(old(files), old(quarantine), quarantine, moved)
      ensures old(Intact()) ==> Intact()
    {
      hide Corrupt, Blocked, Evidence, AreFiles, IsStray, IsChunk, Strays, Swept, PathFor, AllHeld, DistinctSlots;
      ghost var was, quarantined := files, quarantine;
      var entries := Entries(listing);
      ghost var cleared := files;
      ChunksListed(was, listing);
      ChunksDistinct(was, listing);
      SweepBegins(was, cleared, quarantined, deleteCorrupt);
      ChunksStay(was);
      report, moved := CheckAll(entries, deleteCorrupt, was, cleared, quarantined);
      SweepEnds(was, cleared, quarantined, Slots(entries), moved, deleteCorrupt);
      AllHeldWithout(was, Strays(was), hash);
      AllHeldWithout(cleared, moved, hash);
    }

    lemma SweepBegins(was: map<Slot, Node>, cleared: map<Slot, Node>, quarantined: map<string, Node>,
                      deleteCorrupt: bool)
      requires files == cleared && cleared == was - Strays(was) && quarantine == quarantined
      ensures Swept(was, cleared, quarantined, {}, {}, deleteCorrupt)
    {
    }

    lemma SweepEnds(was: map<Slot, Node>, cleared: map<Slot, Node>, quarantined: map<string, Node>,
                    seen: set<Slot>, moved: set<Slot>, deleteCorrupt: bool)
      requires Swept(was, cleared, quarantined, seen, moved, deleteCorrupt)
      requires forall s :: s in was && IsChunk(s) ==> s in seen
      ensures files == cleared - moved && forall s <- moved :: Corrupt(was, s, hash)
      ensures if deleteCorrupt then quarantine == quarantined && AreFiles(was, moved)
              else moved <= was.Keys && Evidence(was, quarantined, quarantine, moved)
      ensures forall s :: Corrupt(files, s, hash) ==> Blocked(files, quarantine, s, deleteCorrupt)
    {
    }
 
    /** The eviction loop: removes entries in order until what is left fits. A directory cannot be
        removed as a file, so it stops exactly at one that must go. */
    method Evict(sorted: seq<Listed>, maxBytes: nat) returns (ok: bool, n: nat, bytes: nat)
      requires DistinctSlots(sorted) && forall e <- sorted :: e.slot in files && e.len == LenOf(files[e.slot])
      modifies this`files
      ensures EndsAt(old(files), sorted, n, maxBytes)
      ensures bytes == Total(sorted[..n]) && files == old(files) - Slots(sorted[..n])
      ensures ok <==> Removable(old(files), sorted, Needed(sorted, maxBytes))
    {
      hide LenOf, DistinctSlots, Total, Slots;
      ghost var was := files;
      NothingListed();
      var current := SumLengths(sorted);
      n, bytes := 0, 0;
      while n < |sorted|
        invariant 0 <= n <= |sorted| && bytes == Total(sorted[..n]) && current == Total(sorted) - bytes
        invariant n <= Needed(sorted, maxBytes) && Removable(was, sorted, n)
        invariant files == was - Slots(sorted[..n])
      {
        if current <= maxBytes {
          return true, n, bytes;
        }
        var e := sorted[n];
        NotYet(sorted, n);
        if files[e.slot].Dir? {
          return false, n, bytes;
        }
        OneMore(sorted, n);
        files := files - {e.slot};
        n, bytes, current := n + 1, bytes + e.len, current - e.len;
      }
      assert sorted[..|sorted|] == sorted;
      return true, n, bytes;
    }

    /** `gc`: oldest entries go first, and no more of them than it takes to fit. It succeeds if and only
        if every entry that must go is a file. */
    method Gc(listing: seq<Slot>, maxBytes: nat) returns (ok: bool, report: GcReport)
      requires Lists(listing, files)
      modifies this`files
      ensures Sorted(SortBy(Chunks(old(files), listing), OlderFirst), OlderFirst)
      ensures var all := Chunks(old(files), listing);
        var sorted := SortBy(all, OlderFirst);
        && report.totalEntries == |all| && report.totalBytes == Total(all)
        && EndsAt(old(files), sorted, report.evicted, maxBytes)
        && report.evictedBytes == Total(sorted[..report.evicted])
        && files == old(files) - Strays(old(files)) - Slots(sorted[..report.evicted])
        && (ok <==> Removable(old(files), sorted, Needed(sorted, maxBytes)))
      ensures old(Intact()) ==> Intact()
    {
      hide IsStray, IsChunk, Strays, Chunks, SortBy, Sorted, Needed, LenOf, AllHeld, DistinctSlots, OlderFirst;
      ghost var was := files;
      var entries := Entries(listing);
      var total := SumLengths(entries);
      ghost var chunks := SortedChunks(was, listing);
      var sorted := SortBy(entries, OlderFirst);
      OlderFirstOrders();
      SortSorts(entries, OlderFirst);
      assert sorted[..0] == [];
      AllHeldWithout(was, Strays(was), hash);
      assert Slots([]) == {};
      if total <= maxBytes {
        return true, GcReport(|entries|, total, 0, 0);
      }
      var n, bytes;
      ok, n, bytes := Evict(sorted, maxBytes);
      AllHeldWithout(was - Strays(was), Slots(sorted[..n]), hash);
      report := GcReport(|entries|, total, n, bytes);
    }
  }

  lemma NothingListed()
    ensures Total([]) == 0 && Slots([]) == {}
  {
  }

  lemma OneMore(entries: seq<Listed>, n: nat)
    requires n < |entries|
    ensures Total(entries[..n + 1]) == Total(entries[..n]) + entries[n].len
    ensures Slots(entries[..n + 1]) == Slots(entries[..n]) + {entries[n].slot}
  {
    assert entries[..n + 1][..n] == entries[..n];
    assert entries[..n + 1] == entries[..n] + [entries[n]];
  }

  lemma NotYet(entries: seq<Listed>, n: nat)
    requires DistinctSlots(entries) && n < |entries|
    ensures entries[n].slot !in Slots(entries[..n])
  {
  }

  method SumLengths(entries: seq<Listed>) returns (total: nat)
    ensures total == Total(entries)
  {
    total := 0;
    for i := 0 to |entries|
      invariant total == Total(entries[..i])
    {
      assert entries[..i + 1][..i] == entries[..i];
      total := total + entries[i].len;
    }
    assert entries[..|entries|] == entries;
  }

  // ---------- Histories ----------

  /** A use of the cache, or anything at all happening to its files behind its back. */
  datatype Event =
    | DoPut(key: ChunkHash, payload: Data, now: nat, crash: Option<nat>)
    | DoGet(key: ChunkHash)
    | DoVerify(deleteCorrupt: bool)
    | DoGc(maxBytes: nat)
    | Disturb(files: map<Slot, Node>, quarantine: map<string, Node>)

  /** Nothing is disturbed, and what is stored is stored under its own digest. */
  predicate Honest(events: seq<Event>, hash: Data -> ChunkHash) {
    forall e <- events :: !e.Disturb? && (e.DoPut? ==> hash(e.payload) == e.key)
  }

  predicate Runnable(events: seq<Event>) {
    forall e <- events :: e.DoPut? && e.crash.Some? ==> e.crash.value <= |e.payload|
  }

  method ListFiles(files: map<Slot, Node>) returns (listing: seq<Slot>)
    ensures Lists(listing, files)
  {
    listing := [];
    var rest := files.Keys;
    while rest != {}
      invariant NoRepeats(listing) && rest <= files.Keys
      invariant forall s :: s in listing <==> s in files.Keys - rest
      decreases rest
    {
      var s :| s in rest;
      assert (listing + [s])[..|listing|] == listing;
      listing, rest := listing + [s], rest - {s};
    }
  }

  datatype Answer = Answer(key: ChunkHash, bytes: Option<Data>)

  /** What is on disk at one moment. */
  datatype State = State(files: map<Slot, Node>, quarantine: map<string, Node>)

  /** `verify` moved exactly `moved` away, all of it corrupt, and cleared the torn writes. */
  ghost predicate Sweeps(hash: Data -> ChunkHash, a: State, b: State, deleteCorrupt: bool, moved: set<Slot>) {
    && b.files == a.files - Strays(a.files) - moved && (forall s <- moved :: Corrupt(a.files, s, hash))
    && (forall s :: Corrupt(b.files, s, hash) ==> Blocked(b.files, b.quarantine, s, deleteCorrupt))
    && if deleteCorrupt then b.quarantine == a.quarantine && AreFiles(a.files, moved)
       else moved <= a.files.Keys && Evidence(a.files, a.quarantine, b.quarantine, moved)
  }

  /** `gc` removed the first `n` of the sorted entries, stopping exactly at a directory that must go. */
  ghost predicate Evicts(a: map<Slot, Node>, listing: seq<Slot>, n: nat, maxBytes: nat, b: map<Slot, Node>) {
    Lists(listing, a) &&
    var sorted := SortBy(Chunks(a, listing), OlderFirst);
    EndsAt(a, sorted, n, maxBytes) && b == a - Strays(a) - Slots(sorted[..n])
  }

  /** What each event may do to the disk. */
  ghost predicate Follows(hash: Data -> ChunkHash, a: State, e: Event, b: State) {
    match e
    case DoPut(key, payload, now, crash) =>
      (crash.Some? ==> crash.value <= |payload|)
      && b == State(AfterPut(a.files, key, payload, now, crash), a.quarantine)
    case DoGet(key) => b == State(AfterGet(a.files, key, hash), a.quarantine)
    case DoVerify(deleteCorrupt) => exists moved :: Sweeps(hash, a, b, deleteCorrupt, moved)
    case DoGc(maxBytes) =>
      b.quarantine == a.quarantine && exists listing, n :: Evicts(a.files, listing, n, maxBytes, b.files)
    case Disturb(files, quarantine) => b == State(files, quarantine)
  }

  lemma OnlyListing(listing: seq<Slot>, slot: Slot)
    requires NoRepeats(listing) && forall s :: s in listing <==> s == slot
    ensures listing == [slot]
  {
    assert slot in listing && listing[0] in listing;
    if |listing| > 1 {
      assert listing[1] in listing && listing[..1] == [listing[0]];
      NoRepeatsAt(listing, 1);
    }
  }

  lemma ListsOneDirectory(key: ChunkHash, len: nat, mtime: nat)
    ensures var files := map[PathFor(key) := Dir(len, mtime)];
      Strays(files) == {} && Chunks(files, [PathFor(key)]) == [Listed(PathFor(key), len, mtime)]
  {
    var slot := PathFor(key);
    var files := map[slot := Dir(len, mtime)];
    assert IsChunk(slot) && [slot][..0] == [];
    hide PathFor, IsChunk, IsStray;
    assert Chunks(files, [slot]) == [] + [Listed(slot, len, mtime)];
  }

  lemma OneEntry(e: Listed)
    ensures SortBy([e], OlderFirst) == [e] && Total([e]) == e.len
    ensures e.len > 0 ==> Needed([e], 0) == 1
  {
    assert [e][1..] == [] && [e][..0] == [] && [e][..1] == [e];
  }

  /** A directory where the only chunk should be: a collection that must free everything frees nothing. */
  lemma DirectoryStopsGc(key: ChunkHash, len: nat, mtime: nat, listing: seq<Slot>, n: nat, b: map<Slot, Node>)
    requires len > 0 && Evicts(map[PathFor(key) := Dir(len, mtime)], listing, n, 0, b)
    ensures var files, e := map[PathFor(key) := Dir(len, mtime)], Listed(PathFor(key), len, mtime);
      && SortBy(Chunks(files, listing), OlderFirst) == [e]
      && Needed([e], 0) == 1 && !Removable(files, [e], 1) && n == 0 && b == files
  {
    var slot := PathFor(key);
    OnlyListing(listing, slot);
    ListsOneDirectory(key, len, mtime);
    OneEntry(Listed(slot, len, mtime));
    hide PathFor, Chunks, SortBy, Needed, Strays, NoRepeats;
    assert Slots([]) == {};
  }

  /** `trace` holds the disk before each event and after the last. */
  ghost predicate Run(hash: Data -> ChunkHash, trace: seq<State>, events: seq<Event>) {
    |trace| == |events| + 1 && forall i :: 0 <= i < |events| ==> Follows(hash, trace[i], events[i], trace[i + 1])
  }

  /** One answer for each get, in order, fixed by the disk just before it. */
  function Answers(hash: Data -> ChunkHash, trace: seq<State>, events: seq<Event>): seq<Answer>
    requires |trace| >= |events|
  {
    if events == [] then []
    else
      var n := |events| - 1;
      Answers(hash, trace, events[..n])
      + if events[n].DoGet? then [Answer(events[n].key, Found(trace[n].files, events[n].key, hash))] else []
  }

  lemma {:induction false} AnswersStay(hash: Data -> ChunkHash, trace: seq<State>, more: seq<State>, events: seq<Event>)
    requires |events| <= |trace| <= |more| && more[..|trace|] == trace
    ensures Answers(hash, more, events) == Answers(hash, trace, events)
    decreases |events|
  {
    if events != [] {
      AnswersStay(hash, trace, more, events[..|events| - 1]);
      assert more[..|trace|][|events| - 1] == trace[|events| - 1];
    }
  }

  /** Whatever happened to the files, a get returns only bytes that hash to its key. */
  lemma {:induction false} AnswersHash(hash: Data -> ChunkHash, trace: seq<State>, events: seq<Event>)
    requires |trace| >= |events|
    ensures forall a <- Answers(hash, trace, events) :: a.bytes.Some? ==> hash(a.bytes.value) == a.key
  {
    if events != [] {
      AnswersHash(hash, trace, events[..|events| - 1]);
    }
  }

  /** An undisturbed event keeps every chunk file its key's content. */
  lemma StepKeepsIntact(hash: Data -> ChunkHash, a: State, e: Event, b: State)
    requires Follows(hash, a, e, b) && AllHeld(a.files, hash)
    requires !e.Disturb? && (e.DoPut? ==> hash(e.payload) == e.key)
    ensures AllHeld(b.files, hash)
  {
    hide PathFor, TempFor, Strays, Corrupt, Blocked, Evidence, Lists, Chunks, JustFits;
    if e.DoPut? {
      forall k: ChunkHash ensures (PathFor(k) == PathFor(e.key) <==> k == e.key) && PathFor(k) != TempFor(e.key) {
        SlotsApart(e.key, k);
      }
    }
  }

  lemma MissesExactly(files: map<Slot, Node>, hash: Data -> ChunkHash)
    requires AllHeld(files, hash)
    ensures forall key: ChunkHash :: Found(files, key, hash).None? <==> !Present(files, Hex(key))
  {
  }

  /** In an honest history from an intact cache every moment is intact, and a get misses exactly when
      its key has no file. */
  lemma {:induction false} HonestRun(hash: Data -> ChunkHash, trace: seq<State>, events: seq<Event>, i: nat)
    requires Run(hash, trace, events) && Honest(events, hash) && AllHeld(trace[0].files, hash) && i < |trace|
    ensures AllHeld(trace[i].files, hash)
    ensures forall key: ChunkHash :: Found(trace[i].files, key, hash).None? <==> !Present(trace[i].files, Hex(key))
  {
    hide AllHeld, Found, Present, Follows;
    if i > 0 {
      HonestRun(hash, trace, events, i - 1);
      assert events[i - 1] in events && Follows(hash, trace[i - 1], events[i - 1], trace[i - 1 + 1]);
      StepKeepsIntact(hash, trace[i - 1], events[i - 1], trace[i]);
    }
    MissesExactly(trace[i].files, hash);
  }

  lemma HeldIsSound(files: map<Slot, Node>, key: ChunkHash, hash: Data -> ChunkHash)
    requires Held(files, key, hash)
    ensures !Corrupt(files, PathFor(key), hash) && PathFor(key) !in Strays(files)
  {
  }

  /** A held key is not lost by a put, a get or a verify. */
  lemma StepKeepsKey(hash: Data -> ChunkHash, a: State, e: Event, b: State, key: ChunkHash)
    requires Follows(hash, a, e, b) && Held(a.files, key, hash) && !e.Disturb? && !e.DoGc?
    ensures PathFor(key) in b.files && b.files[PathFor(key)] == a.files[PathFor(key)]
  {
    HeldIsSound(a.files, key, hash);
    hide PathFor, TempFor, Strays, Corrupt, Evicts, Evidence, Blocked;
    match e {
      case DoPut(k, _, _, _) => SlotsApart(k, key);
      case DoGet(k) => SlotsApart(k, key);
      case DoVerify(deleteCorrupt) =>
        var moved :| Sweeps(hash, a, b, deleteCorrupt, moved);
        assert PathFor(key) !in moved;
      case _ => assert false;
    }
  }

  /** What a get once found it finds again, until a collection or a disturbance. */
  lemma {:induction false} FoundAgain(hash: Data -> ChunkHash, trace: seq<State>, events: seq<Event>, i: nat, j: nat,
                                      key: ChunkHash)
    requires Run(hash, trace, events) && i <= j < |trace| && Held(trace[i].files, key, hash)
    requires forall k :: i <= k < j ==> !events[k].Disturb? && !events[k].DoGc?
    ensures Found(trace[j].files, key, hash) == Found(trace[i].files, key, hash)
    decreases j
  {
    if i < j {
      FoundAgain(hash, trace, events, i, j - 1, key);
      StepKeepsKey(hash, trace[j - 1], events[j - 1], trace[j], key);
    }
  }

  /** Runs a history. Every get is answered by what was on disk just before it. In every history, whatever
      corruption it holds, only bytes that hash to the key come back; in an honest one every chunk file
      keeps holding its key's content. */
  method History(cache: ChunkCache, events: seq<Event>) returns (answers: seq<Answer>, ghost trace: seq<State>)
    requires Runnable(events)
    modifies cache
    ensures Run(cache.hash, trace, events)
    ensures trace[0] == State(old(cache.files), old(cache.quarantine))
    ensures trace[|events|] == State(cache.files, cache.quarantine)
    ensures answers == Answers(cache.hash, trace, events)
    ensures forall a <- answers :: a.bytes.Some? ==> cache.hash(a.bytes.value) == a.key
    ensures Honest(events, cache.hash) && old(cache.Intact()) ==> cache.Intact()
  {
    hide Follows, Found, AllHeld;
    answers, trace := [], [State(cache.files, cache.quarantine)];
    for i := 0 to |events|
      invariant |trace| == i + 1 && trace[0] == State(old(cache.files), old(cache.quarantine))
      invariant trace[i] == State(cache.files, cache.quarantine)
      invariant forall k :: 0 <= k < i ==> Follows(cache.hash, trace[k], events[k], trace[k + 1])
      invariant answers == Answers(cache.hash, trace, events[..i])
    {
      ghost var before := trace;
      var answer := Perform(cache, events[i]);
      assert events[i] in events && events[..i + 1][..i] == events[..i];
      if answer.Some? {
        answers := answers + [answer.value];
      }
      trace := trace + [State(cache.files, cache.quarantine)];
      AnswersStay(cache.hash, before, trace, events[..i + 1]);
    }
    assert events[..|events|] == events;
    AnswersHash(cache.hash, trace, events);
    if Honest(events, cache.hash) && old(cache.Intact()) {
      HonestRun(cache.hash, trace, events, |events|);
    }
  }

  method Perform(cache: ChunkCache, e: Event) returns (answer: Option<Answer>)
    requires e.DoPut? && e.crash.Some? ==> e.crash.value <= |e.payload|
    modifies cache
    ensures Follows(cache.hash, State(old(cache.files), old(cache.quarantine)), e, State(cache.files, cache.quarantine))
    ensures answer == if e.DoGet? then Some(Answer(e.key, Found(old(cache.files), e.key, cache.hash))) else None
  {
    hide PathFor, TempFor, Chunks, Lists, Corrupt, Blocked, Evidence, JustFits, Strays;
    hide AfterPut, AfterGet, Found, AllHeld;
    ghost var a := State(cache.files, cache.quarantine);
    answer := None;
    match e {
      case DoPut(key, payload, now, crash) =>
        var _ := cache.Put(key, payload, now, crash);
      case DoGet(key) =>
        var got := cache.Get(key);
        answer := Some(Answer(key, got));
      case DoVerify(deleteCorrupt) =>
        var listing := ListFiles(cache.files);
        var _, moved := cache.Verify(listing, deleteCorrupt);
        assert Sweeps(cache.hash, a, State(cache.files, cache.quarantine), deleteCorrupt, moved);
      case DoGc(maxBytes) =>
        var listing := ListFiles(cache.files);
        var _, report := cache.Gc(listing, maxBytes);
        assert Evicts(a.files, listing, report.evicted, maxBytes, cache.files);
      case Disturb(files, quarantine) =>
        cache.files, cache.quarantine := files, quarantine;
    }
  }
}
