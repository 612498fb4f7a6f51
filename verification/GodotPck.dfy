/** The Godot PCK directory: `synth` lays an archive out, `parse` reads the directory back. */
module GodotPck {
  import opened Bytes

  // ---------- Little-endian integers ----------

  datatype Read<T> = Read(value: T, rest: Data)

  /** `s` is `n` bytes followed by `tail`. */
  predicate Skips(s: Data, n: nat, tail: Data) {
    |s| == n + |tail| && s[n..] == tail
  }

  lemma SkipBoth(s: Data, n: nat, middle: Data, m: nat, tail: Data)
    requires Skips(s, n, middle) && Skips(middle, m, tail)
    ensures Skips(s, n + m, tail)
  {
    assert s[n + m..] == s[n..][m..];
  }

  function Put32(v: U32, tail: Data): (r: Data)
    ensures Skips(r, 4, tail)
  {
    [v % 256, v / 256 % 256, v / 65536 % 256, v / 16777216] + tail
  }

  function Get32(s: Data): Option<Read<U32>> {
    if |s| < 4 then None
    else
      var a: int, b: int, c: int, d: int := s[0], s[1], s[2], s[3];
      var v: U32 := a + 256 * b + 65536 * c + 16777216 * d;
      Some(Read(v, s[4..]))
  }

  function Put64(v: U64, tail: Data): (r: Data)
    ensures Skips(r, 8, tail)
  {
    var high := Put32(v / TWO_32, tail);
    var r := Put32(v % TWO_32, high);
    assert Skips(r, 8, tail) by { SkipBoth(r, 4, high, 4, tail); }
    r
  }

  function Get64(s: Data): Option<Read<U64>> {
    var low :- Get32(s);
    var high :- Get32(low.rest);
    var v: U64 := low.value + TWO_32 * high.value;
    Some(Read(v, high.rest))
  }

  function GetBytes(n: nat, s: Data): Option<Read<Data>> {
    if n > |s| then None else Some(Read(s[..n], s[n..]))
  }

  lemma Back32(v: U32, tail: Data)
    ensures Get32(Put32(v, tail)) == Some(Read(v, tail))
  {
    var a := v / 256;
    var b := a / 256;
    assert v == v % 256 + 256 * a && a == a % 256 + 256 * b;
    assert v / 65536 == b && v / 16777216 == b / 256;
  }

  lemma {:induction false} Back64(v: U64, tail: Data)
    ensures Get64(Put64(v, tail)) == Some(Read(v, tail))
  {
    Back32(v % TWO_32, Put32(v / TWO_32, tail));
    Back32(v / TWO_32, tail);
  }

  lemma BackBytes(b: Data, tail: Data)
    ensures GetBytes(|b|, b + tail) == Some(Read(b, tail))
  {
  }

  // ---------- Layout ----------

  const MAGIC: nat := 0x4350_4447
  const MAX_FILES: nat := 1_000_000
  const MAX_PATH: nat := 65_536

  datatype PackFile = PackFile(path: Data, bytes: Data)
  datatype Entry = Entry(path: Data, offset: U64, size: U64)
  datatype Directory = Directory(major: U32, minor: U32, patch: U32, format: U32, entries: seq<Entry>)

  function PutFlags(format: U32, tail: Data): Data {
    if format == 2 then Put32(0, tail) else tail
  }

  function FlagsSize(format: U32): nat {
    if format == 2 then 4 else 0
  }

  /** Offset, size and checksum of an entry. */
  function PutFacts(offset: U64, size: U64, tail: Data): Data {
    Put64(offset, Put64(size, Zeros(16) + tail))
  }

  function PutEntry(format: U32, path: Data, offset: U64, size: U64, tail: Data): Data
    requires |path| < TWO_32
  {
    Put32(|path|, path + PutFacts(offset, size, PutFlags(format, tail)))
  }

  function EntrySize(format: U32, path: Data): nat {
    4 + |path| + 8 + 8 + 16 + FlagsSize(format)
  }

  function DirSize(format: U32, files: seq<PackFile>): nat {
    if files == [] then 0 else EntrySize(format, files[0].path) + DirSize(format, files[1..])
  }

  /** Lengths fit their fields: the count and paths 32 bits, offsets 64. */
  predicate Fits(files: seq<PackFile>, offset: nat) {
    && |files| < TWO_32 && offset + |Payloads(files)| < TWO_64
    && forall i | 0 <= i < |files| :: |files[i].path| < TWO_32
  }

  function PutDir(format: U32, files: seq<PackFile>, offset: nat, tail: Data): Data
    requires Fits(files, offset)
  {
    if files == [] then tail
    else
      var f := files[0];
      PutEntry(format, f.path, offset, |f.bytes|, PutDir(format, files[1..], offset + |f.bytes|, tail))
  }

  function Payloads(files: seq<PackFile>): Data {
    if files == [] then [] else files[0].bytes + Payloads(files[1..])
  }

  function PutBase(format: U32, tail: Data): Data {
    if format == 2 then Put32(0, Put64(0, Zeros(64) + tail)) else Zeros(64) + tail
  }

  /** Everything up to the entry count. */
  function PutHead(format: U32, tail: Data): Data {
    Put32(MAGIC, Put32(format, Put32(4, Put32(2, Put32(0, PutBase(format, tail))))))
  }

  function HeaderSize(format: U32): nat {
    if format == 2 then 100 else 88
  }

  function PayloadStart(format: U32, files: seq<PackFile>): nat {
    HeaderSize(format) + DirSize(format, files)
  }

  function Image(format: U32, files: seq<PackFile>): Data
    requires Fits(files, PayloadStart(format, files))
  {
    PutHead(format, Put32(|files|, PutDir(format, files, PayloadStart(format, files), Payloads(files))))
  }

  // ---------- Parsing ----------

  function TrimNul(s: Data): Data {
    if s != [] && s[|s| - 1] == 0 then TrimNul(s[..|s| - 1]) else s
  }

  datatype Facts = Facts(offset: U64, size: U64)

  function GetFacts(s: Data): Option<Read<Facts>> {
    var offset :- Get64(s);
    var size :- Get64(offset.rest);
    var md5 :- GetBytes(16, size.rest);
    Some(Read(Facts(offset.value, size.value), md5.rest))
  }

  /** The entry flags of format 2, which are skipped. */
  function GetFlags(format: U32, s: Data): Option<Data> {
    if format == 2 then
      var flags :- Get32(s);
      Some(flags.rest)
    else Some(s)
  }

  /** One directory entry. `lossy` is `String::from_utf8_lossy`; format 2 offsets are relative. */
  function GetEntry(format: U32, base: U64, s: Data, lossy: Data -> Data): Option<Read<Entry>> {
    var len :- Get32(s);
    if len.value > MAX_PATH then None else
    var raw :- GetBytes(len.value, len.rest);
    var facts :- GetFacts(raw.rest);
    var rest :- GetFlags(format, facts.rest);
    Some(Read(EntryOf(format, base, lossy(raw.value), facts.value), rest))
  }

  /** Addition of 64-bit words. */
  function WrapAdd(a: U64, b: U64): U64 {
    if a + b < TWO_64 then a + b else a + b - TWO_64
  }

  function EntryOf(format: U32, base: U64, text: Data, facts: Facts): Entry {
    Entry(TrimNul(text), if format == 2 then WrapAdd(facts.offset, base) else facts.offset, facts.size)
  }

  function GetEntries(format: U32, base: U64, count: nat, s: Data, lossy: Data -> Data): Option<seq<Entry>> {
    if count == 0 then Some([])
    else
      var e :- GetEntry(format, base, s, lossy);
      var rest :- GetEntries(format, base, count - 1, e.rest, lossy);
      Some([e.value] + rest)
  }

  datatype Head = Head(major: U32, minor: U32, patch: U32, format: U32, base: U64)

  /** The format-dependent part of the header: the base offset and the reserved words. */
  function GetBase(format: U32, s: Data): Option<Read<U64>> {
    if format == 1 then
      var reserved :- GetBytes(64, s);
      Some(Read(0, reserved.rest))
    else if format == 2 then
      var flags :- Get32(s);
      if flags.value % 2 == 1 then None else  // encrypted directory
      var base :- Get64(flags.rest);
      var reserved :- GetBytes(64, base.rest);
      Some(Read(base.value, reserved.rest))
    else None
  }

  function GetHead(s: Data): Option<Read<Head>> {
    var magic :- Get32(s);
    if magic.value != MAGIC then None else
    var format :- Get32(magic.rest);
    var major :- Get32(format.rest);
    var minor :- Get32(major.rest);
    var patch :- Get32(minor.rest);
    var base :- GetBase(format.value, patch.rest);
    Some(Read(Head(major.value, minor.value, patch.value, format.value, base.value), base.rest))
  }

  function ParseSpec(data: Data, lossy: Data -> Data): Option<Directory> {
    var h :- GetHead(data);
    var count :- Get32(h.rest);
    if count.value > MAX_FILES then None else
    var entries :- GetEntries(h.value.format, h.value.base, count.value, count.rest, lossy);
    Some(Directory(h.value.major, h.value.minor, h.value.patch, h.value.format, entries))
  }

  // ---------- Round trip ----------

  /** The directory of an archive whose payloads start at `offset`. */
  function Expected(files: seq<PackFile>, offset: nat): (r: seq<Entry>)
    requires offset + |Payloads(files)| < TWO_64
    ensures |r| == |files|
  {
    if files == [] then []
    else [Entry(TrimNul(files[0].path), offset, |files[0].bytes|)] + Expected(files[1..], offset + |files[0].bytes|)
  }

  predicate ShortPaths(files: seq<PackFile>) {
    forall i | 0 <= i < |files| :: |files[i].path| <= MAX_PATH
  }

  /** Paths are well-formed text, which a lossy conversion keeps. */
  predicate Kept(files: seq<PackFile>, lossy: Data -> Data) {
    forall i | 0 <= i < |files| :: lossy(files[i].path) == files[i].path
  }

  lemma {:induction false} FactsBack(offset: U64, size: U64, tail: Data)
    ensures GetFacts(PutFacts(offset, size, tail)) == Some(Read(Facts(offset, size), tail))
  {
    Back64(offset, Put64(size, Zeros(16) + tail));
    Back64(size, Zeros(16) + tail);
    BackBytes(Zeros(16), tail);
  }

  lemma FlagsBack(format: U32, tail: Data)
    ensures GetFlags(format, PutFlags(format, tail)) == Some(tail)
  {
    Back32(0, tail);
  }

  lemma {:induction false} EntryBack(format: U32, path: Data, offset: U64, size: U64, tail: Data, lossy: Data -> Data)
    requires |path| < TWO_32 && lossy(path) == path
    ensures GetEntry(format, 0, PutEntry(format, path, offset, size, tail), lossy) ==
      if |path| <= MAX_PATH then Some(Read(Entry(TrimNul(path), offset, size), tail)) else None
  {
    var flags := PutFlags(format, tail);
    var facts := PutFacts(offset, size, flags);
    Back32(|path|, path + facts);
    BackBytes(path, facts);
    FactsBack(offset, size, flags);
    FlagsBack(format, tail);
  }

  lemma {:induction false} EntriesBack(format: U32, files: seq<PackFile>, offset: nat, tail: Data, lossy: Data -> Data)
    requires Fits(files, offset) && Kept(files, lossy)
    ensures GetEntries(format, 0, |files|, PutDir(format, files, offset, tail), lossy) ==
      if ShortPaths(files) then Some(Expected(files, offset)) else None
  {
    hide PutEntry, GetEntry;
    if files != [] {
      var f := files[0];
      EntryBack(format, f.path, offset, |f.bytes|, PutDir(format, files[1..], offset + |f.bytes|, tail), lossy);
      EntriesBack(format, files[1..], offset + |f.bytes|, tail, lossy);
      assert files == [f] + files[1..];
    }
  }

  lemma BaseBack(format: U32, tail: Data)
    ensures GetBase(format, PutBase(format, tail)) ==
      if format == 1 || format == 2 then Some(Read(0, tail)) else None
  {
    BackBytes(Zeros(64), tail);
    Back32(0, Put64(0, Zeros(64) + tail));
    Back64(0, Zeros(64) + tail);
  }

  lemma {:induction false} HeadBack(format: U32, tail: Data)
    ensures GetHead(PutHead(format, tail)) ==
      if format == 1 || format == 2 then Some(Read(Head(4, 2, 0, format, 0), tail)) else None
  {
    var t4 := PutBase(format, tail);
    var t3 := Put32(0, t4);
    var t2 := Put32(2, t3);
    var t1 := Put32(4, t2);
    Back32(MAGIC, Put32(format, t1));
    Back32(format, t1);
    Back32(4, t2);
    Back32(2, t3);
    Back32(0, t4);
    BaseBack(format, tail);
  }

  /** `parse` undoes `synth`: it succeeds exactly for formats 1 and 2 within the limits, and then
      yields every file's path (short of trailing NULs), offset and size in order. */
  lemma {:induction false} ParseSynth(format: U32, files: seq<PackFile>, lossy: Data -> Data)
    requires Fits(files, PayloadStart(format, files))
    requires Kept(files, lossy)
    ensures ParseSpec(Image(format, files), lossy) ==
      if (format == 1 || format == 2) && |files| <= MAX_FILES && ShortPaths(files)
      then Some(Directory(4, 2, 0, format, Expected(files, PayloadStart(format, files)))) else None
  {
    hide PutHead, GetHead, Put32, Get32;
    var start := PayloadStart(format, files);
    var dir := PutDir(format, files, start, Payloads(files));
    HeadBack(format, Put32(|files|, dir));
    Back32(|files|, dir);
    EntriesBack(format, files, start, Payloads(files), lossy);
  }

  lemma {:induction false} TrimNulExact(s: Data)
    ensures TrimNul(s) == s <==> s == [] || s[|s| - 1] != 0
  {
    if s != [] && s[|s| - 1] == 0 {
      TrimShortens(s[..|s| - 1]);
    }
  }

  lemma {:induction false} TrimShortens(s: Data)
    ensures |TrimNul(s)| <= |s|
  {
    if s != [] && s[|s| - 1] == 0 {
      TrimShortens(s[..|s| - 1]);
    }
  }

  lemma {:induction false} EntrySkips(format: U32, path: Data, offset: U64, size: U64, tail: Data)
    requires |path| < TWO_32
    ensures Skips(PutEntry(format, path, offset, size, tail), EntrySize(format, path), tail)
  {
    var r := PutEntry(format, path, offset, size, tail);
    var flags := PutFlags(format, tail);
    var facts := PutFacts(offset, size, flags);
    var middle := Put64(size, Zeros(16) + flags);
    SkipBoth(r, 4, path + facts, |path|, facts);
    SkipBoth(r, 4 + |path|, facts, 8, middle);
    SkipBoth(r, 12 + |path|, middle, 8, Zeros(16) + flags);
    SkipBoth(r, 20 + |path|, Zeros(16) + flags, 16, flags);
    SkipBoth(r, 36 + |path|, flags, FlagsSize(format), tail);
  }

  lemma {:induction false} DirSkips(format: U32, files: seq<PackFile>, offset: nat, tail: Data)
    requires Fits(files, offset)
    ensures Skips(PutDir(format, files, offset, tail), DirSize(format, files), tail)
  {
    hide PutEntry;
    if files != [] {
      var f := files[0];
      var rest := PutDir(format, files[1..], offset + |f.bytes|, tail);
      EntrySkips(format, f.path, offset, |f.bytes|, rest);
      DirSkips(format, files[1..], offset + |f.bytes|, tail);
      SkipBoth(PutDir(format, files, offset, tail), EntrySize(format, f.path), rest, DirSize(format, files[1..]), tail);
    }
  }

  lemma HeadSkips(format: U32, tail: Data)
    ensures Skips(PutHead(format, tail), HeaderSize(format) - 4, tail)
  {
    var r, base, rest := PutHead(format, tail), PutBase(format, tail), Zeros(64) + tail;
    var r2 := Put32(4, Put32(2, Put32(0, base)));
    SkipBoth(r, 4, Put32(format, r2), 4, r2);
    SkipBoth(r, 8, r2, 4, Put32(2, Put32(0, base)));
    SkipBoth(r, 12, Put32(2, Put32(0, base)), 4, Put32(0, base));
    SkipBoth(r, 16, Put32(0, base), 4, base);
    if format == 2 {
      SkipBoth(r, 20, base, 4, Put64(0, rest));
      SkipBoth(r, 24, Put64(0, rest), 8, rest);
      SkipBoth(r, 32, rest, 64, tail);
    } else {
      SkipBoth(r, 20, base, 64, tail);
    }
  }

  /** The whole image: header and directory take the size computed beforehand, then the payloads. */
  lemma {:induction false} ImageLayout(format: U32, files: seq<PackFile>)
    requires Fits(files, PayloadStart(format, files))
    ensures Skips(Image(format, files), PayloadStart(format, files), Payloads(files))
  {
    hide PutHead, PutDir, Put32;
    var start, image := PayloadStart(format, files), Image(format, files);
    var dir := PutDir(format, files, start, Payloads(files));
    var count := Put32(|files|, dir);
    HeadSkips(format, count);
    SkipBoth(image, HeaderSize(format) - 4, count, 4, dir);
    DirSkips(format, files, start, Payloads(files));
    SkipBoth(image, HeaderSize(format), dir, DirSize(format, files), Payloads(files));
  }

  lemma SliceSplits(image: Data, offset: nat, head: Data, rest: Data)
    requires offset <= |image| && image[offset..] == head + rest
    ensures offset + |head| <= |image|
    ensures image[offset..offset + |head|] == head && image[offset + |head|..] == rest
  {
    assert image[offset..offset + |head|] == image[offset..][..|head|];
    assert image[offset + |head|..] == image[offset..][|head|..];
  }

  /** The `i`-th range slices to the `i`-th file, starts where the previous one ends, and the
      last ends with the archive. */
  lemma {:induction false} RangesSlice(files: seq<PackFile>, offset: nat, image: Data, i: nat)
    requires offset + |Payloads(files)| == |image| < TWO_64 && image[offset..] == Payloads(files)
    requires i < |files|
    ensures var e := Expected(files, offset)[i];
      && e.offset + e.size <= |image| && image[e.offset..e.offset + e.size] == files[i].bytes
      && (i == 0 ==> e.offset == offset)
      && (if i + 1 < |files| then Expected(files, offset)[i + 1].offset == e.offset + e.size
          else e.offset + e.size == |image|)
    decreases i
  {
    var n := |files[0].bytes|;
    SliceSplits(image, offset, files[0].bytes, Payloads(files[1..]));
    if i > 0 {
      RangesSlice(files[1..], offset + n, image, i - 1);
    }
  }

  lemma {:induction false} ExpectedAt(files: seq<PackFile>, offset: nat, i: nat)
    requires offset + |Payloads(files)| < TWO_64 && i < |files|
    ensures Expected(files, offset)[i].path == TrimNul(files[i].path)
    ensures Expected(files, offset)[i].size == |files[i].bytes|
    decreases i
  {
    if i > 0 {
      ExpectedAt(files[1..], offset + |files[0].bytes|, i - 1);
    }
  }

  /** What a reader of a synthesised archive finds for a file. */
  predicate Served(image: Data, entries: seq<Entry>, files: seq<PackFile>, i: nat)
    requires i < |entries| == |files|
  {
    var e, f := entries[i], files[i];
    && (e.path == f.path <==> f.path == [] || f.path[|f.path| - 1] != 0)
    && e.size == |f.bytes| && e.offset + e.size <= |image|
    && image[e.offset..e.offset + e.size] == f.bytes
    && (if i + 1 < |files| then entries[i + 1].offset == e.offset + e.size else e.offset + e.size == |image|)
  }

  /** Within the limits every file of a synthesised archive is served: same order and size, the range
      holding its bytes, ranges adjacent to the end of the archive, and its path unless that ends in NUL. */
  lemma {:induction false} PackRoundTrip(format: U32, files: seq<PackFile>, lossy: Data -> Data, i: nat)
    requires (format == 1 || format == 2) && |files| <= MAX_FILES && ShortPaths(files) && i < |files|
    requires Fits(files, PayloadStart(format, files)) && Kept(files, lossy)
    ensures var d := ParseSpec(Image(format, files), lossy);
      d.Some? && |d.value.entries| == |files| && Served(Image(format, files), d.value.entries, files, i)
  {
    hide Image, ParseSpec, Expected, Payloads, PayloadStart;
    ImageLayout(format, files);
    ParseSynth(format, files, lossy);
    RangesSlice(files, PayloadStart(format, files), Image(format, files), i);
    ExpectedAt(files, PayloadStart(format, files), i);
    TrimNulExact(files[i].path);
  }

  // ---------- The parser ----------

  /** `r` and `rest` are what `got` found: the value read and the bytes after it. */
  predicate Reads<T(==)>(got: Option<Read<T>>, r: Option<T>, rest: Data) {
    if got.None? then r.None? else r == Some(got.value.value) && rest == got.value.rest
  }

  class Reader {
    const data: Data
    var pos: nat

    constructor (data: Data)
      ensures this.data == data && pos == 0 && Valid() && Rest() == data
    {
      this.data := data;
      pos := 0;
    }

    predicate Valid()
      reads this
    {
      pos <= |data|
    }

    function Rest(): Data
      requires Valid()
      reads this
    {
      data[pos..]
    }

    method ReadU32() returns (r: Option<U32>)
      requires Valid()
      modifies this
      ensures Valid() && Reads(Get32(old(Rest())), r, Rest())
    {
      var end := pos + 4;
      if end > |data| {
        return None;
      }
      var a: int, b: int, c: int, d: int := data[pos], data[pos + 1], data[pos + 2], data[pos + 3];
      r := Some(a + 256 * b + 65536 * c + 16777216 * d);
      pos := end;
    }

    method ReadU64() returns (r: Option<U64>)
      requires Valid()
      modifies this
      ensures Valid() && Reads(Get64(old(Rest())), r, Rest())
    {
      var end := pos + 8;
      if end > |data| {
        return None;
      }
      var low :- ReadU32();
      var high :- ReadU32();
      r := Some(low + TWO_32 * high);
    }

    method ReadBytes(n: nat) returns (r: Option<Data>)
      requires Valid()
      modifies this
      ensures Valid() && Reads(GetBytes(n, old(Rest())), r, Rest())
    {
      var end := pos + n;
      if end > |data| {
        return None;
      }
      assert data[pos..][..n] == data[pos..end] && data[pos..][n..] == data[end..];
      r := Some(data[pos..end]);
      pos := end;
    }

    method ReadBase(format: U32) returns (r: Option<U64>)
      requires Valid()
      modifies this
      ensures Valid() && Reads(GetBase(format, old(Rest())), r, Rest())
    {
      hide Get32, Get64, GetBytes;
      if format == 1 {
        var reserved :- ReadBytes(64);
        return Some(0);
      }
      if format != 2 {
        return None;
      }
      var flags :- ReadU32();
      if flags % 2 == 1 {
        return None;
      }
      var base :- ReadU64();
      var reserved :- ReadBytes(64);
      r := Some(base);
    }

    method ReadHead() returns (r: Option<Head>)
      requires Valid()
      modifies this
      ensures Valid() && Reads(GetHead(old(Rest())), r, Rest())
    {
      hide Get32, GetBase;
      var magic :- ReadU32();
      if magic != MAGIC {
        return None;
      }
      var format :- ReadU32();
      var major :- ReadU32();
      var minor :- ReadU32();
      var patch :- ReadU32();
      var base :- ReadBase(format);
      r := Some(Head(major, minor, patch, format, base));
    }

    method ReadEntry(format: U32, base: U64, lossy: Data -> Data) returns (r: Option<Entry>)
      requires Valid()
      modifies this
      ensures Valid() && Reads(GetEntry(format, base, old(Rest()), lossy), r, Rest())
    {
      hide Get32, Get64, GetBytes;
      var len :- ReadU32();
      if len > MAX_PATH {
        return None;
      }
      var raw :- ReadBytes(len);
      var path := TrimNul(lossy(raw));
      var offset :- ReadU64();
      var size :- ReadU64();
      var md5 :- ReadBytes(16);
      if format == 2 {
        var flags :- ReadU32();
        offset := WrapAdd(offset, base);
      }
      r := Some(Entry(path, offset, size));
    }
  }

  method Parse(data: Data, lossy: Data -> Data) returns (r: Option<Directory>)
    ensures r == ParseSpec(data, lossy)
  {
    hide GetHead, Get32, GetEntry;
    var reader := new Reader(data);
    var head :- reader.ReadHead();
    var count :- reader.ReadU32();
    if count > MAX_FILES {
      return None;
    }
    ghost var all := GetEntries(head.format, head.base, count, reader.Rest(), lossy);
    var entries: seq<Entry> := [];
    var i := 0;
    PrependNone(all);
    while i < count
      invariant 0 <= i <= count && reader.Valid()
      invariant all == Prepend(entries, GetEntries(head.format, head.base, count - i, reader.Rest(), lossy))
    {
      var e := reader.ReadEntry(head.format, head.base, lossy);
      if e.None? {
        return None;
      }
      PrependOne(entries, e.value, GetEntries(head.format, head.base, count - i - 1, reader.Rest(), lossy));
      entries := entries + [e.value];
      i := i + 1;
    }
    assert entries + [] == entries;
    r := Some(Directory(head.major, head.minor, head.patch, head.format, entries));
  }

  function Prepend(done: seq<Entry>, rest: Option<seq<Entry>>): Option<seq<Entry>> {
    if rest.None? then None else Some(done + rest.value)
  }

  lemma PrependNone(all: Option<seq<Entry>>)
    ensures Prepend([], all) == all
  {
    assert all.Some? ==> [] + all.value == all.value;
  }

  lemma PrependOne(done: seq<Entry>, e: Entry, rest: Option<seq<Entry>>)
    ensures Prepend(done + [e], rest) == Prepend(done, Prepend([e], rest))
  {
    assert rest.Some? ==> done + [e] + rest.value == done + ([e] + rest.value);
  }

  // ---------- The printer ----------

  lemma CountParts(count: U32, tail: Data)
    ensures Put32(count, tail) == Put32(count, []) + tail
  {
  }

  lemma WordParts(word: U64, tail: Data)
    ensures Put64(word, tail) == Put64(word, []) + tail
  {
    hide Put32;
    var low, high := word % TWO_32, word / TWO_32;
    CountParts(high, tail);
    CountParts(low, Put32(high, tail));
    CountParts(low, Put32(high, []));
  }

  lemma FactsParts(offset: U64, size: U64, tail: Data)
    ensures PutFacts(offset, size, tail) == Put64(offset, []) + Put64(size, []) + Zeros(16) + tail
  {
    WordParts(size, Zeros(16) + tail);
    WordParts(offset, Put64(size, Zeros(16) + tail));
    hide Put64;
    var o, z := Put64(offset, []), Put64(size, []);
    assert o + (z + (Zeros(16) + tail)) == o + z + Zeros(16) + tail;
  }

  lemma EntryParts(format: U32, path: Data, offset: U64, size: U64, tail: Data)
    requires |path| < TWO_32
    ensures PutEntry(format, path, offset, size, tail) ==
      Put32(|path|, []) + path + (Put64(offset, []) + Put64(size, []) + Zeros(16)) + PutFlags(format, []) + tail
  {
    hide Put32, Put64, PutFacts, Zeros;
    CountParts(|path|, path + PutFacts(offset, size, PutFlags(format, tail)));
    CountParts(0, tail);
    FactsParts(offset, size, PutFlags(format, tail));
    var n, f, g := Put32(|path|, []), Put64(offset, []) + Put64(size, []) + Zeros(16), PutFlags(format, []);
    assert PutFlags(format, tail) == g + tail;
    assert n + (path + (f + (g + tail))) == n + path + f + g + tail;
  }

  lemma BaseParts(format: U32, tail: Data)
    ensures PutBase(format, tail) == PutBase(format, []) + tail
    ensures PutBase(format, []) == (if format == 2 then Put32(0, []) + Put64(0, []) else []) + Zeros(64)
  {
    hide Put32, Put64;
    var z := Zeros(64);
    CountParts(0, Put64(0, z + tail));
    CountParts(0, Put64(0, z));
    WordParts(0, z + tail);
    WordParts(0, z);
    assert z + [] == z && [] + z == z;
    var a, b := Put32(0, []), Put64(0, []);
    assert a + (b + (z + tail)) == a + (b + z) + tail && a + (b + z) == a + b + z;
  }

  lemma {:induction false} HeadParts(format: U32, tail: Data)
    ensures PutHead(format, tail) == PutHead(format, []) + tail
    ensures PutHead(format, []) ==
      Put32(MAGIC, []) + Put32(format, []) + (Put32(4, []) + Put32(2, []) + Put32(0, [])) + PutBase(format, [])
  {
    HeadShape(format, tail);
    HeadShape(format, []);
    BaseParts(format, tail);
    hide PutHead, PutBase, Put32;
    var h := Put32(MAGIC, []) + Put32(format, []) + (Put32(4, []) + Put32(2, []) + Put32(0, []));
    assert h + (PutBase(format, []) + tail) == h + PutBase(format, []) + tail;
  }

  lemma Regroup(a: Data, b: Data, c: Data, tail: Data)
    ensures a + (b + (c + tail)) == a + b + c + tail
  {
  }

  lemma HeadShape(format: U32, tail: Data)
    ensures PutHead(format, tail) ==
      Put32(MAGIC, []) + Put32(format, []) + (Put32(4, []) + Put32(2, []) + Put32(0, [])) + PutBase(format, tail)
  {
    hide Put32, PutBase;
    var base := PutBase(format, tail);
    CountParts(0, base);
    CountParts(2, Put32(0, base));
    CountParts(4, Put32(2, Put32(0, base)));
    CountParts(format, Put32(4, Put32(2, Put32(0, base))));
    CountParts(MAGIC, Put32(format, Put32(4, Put32(2, Put32(0, base)))));
    var m, f, a, b, c := Put32(MAGIC, []), Put32(format, []), Put32(4, []), Put32(2, []), Put32(0, []);
    Regroup(a, b, c, base);
    Regroup(m, f, a + b + c, base);
  }

  method WriteHead(format: U32) returns (header: Data)
    ensures header == PutHead(format, [])
  {
    hide PutHead, PutBase, Put32, Put64;
    HeadParts(format, []);
    BaseParts(format, []);
    header := Put32(MAGIC, []) + Put32(format, []);
    header := header + (Put32(4, []) + Put32(2, []) + Put32(0, []));
    ghost var fixed := header;
    if format == 2 {
      header := header + (Put32(0, []) + Put64(0, []));
    }
    header := header + Zeros(64);
    assert header == fixed + ((if format == 2 then Put32(0, []) + Put64(0, []) else []) + Zeros(64));
  }

  method MeasureDirectory(format: U32, files: seq<PackFile>) returns (size: nat)
    ensures size == DirSize(format, files)
  {
    size := 0;
    var i := 0;
    while i < |files|
      invariant 0 <= i <= |files|
      invariant size + DirSize(format, files[i..]) == DirSize(format, files)
    {
      size := size + 4 + |files[i].path| + 8 + 8 + 16 + if format == 2 then 4 else 0;
      i := i + 1;
    }
  }

  method LayOut(format: U32, files: seq<PackFile>, start: nat) returns (dir: Data, payloads: Data)
    requires Fits(files, start)
    ensures payloads == Payloads(files) && dir + payloads == PutDir(format, files, start, payloads)
  {
    hide PutEntry, Put32, Put64, PutFlags;
    dir, payloads := [], [];
    ghost var tail := Payloads(files);
    var offset: nat := start;
    var i := 0;
    while i < |files|
      invariant 0 <= i <= |files| && Fits(files[i..], offset)
      invariant payloads + Payloads(files[i..]) == tail
      invariant dir + PutDir(format, files[i..], offset, tail) == PutDir(format, files, start, tail)
    {
      var f := files[i];
      var flags := if format == 2 then Put32(0, []) else [];
      var facts := Put64(offset, []) + Put64(|f.bytes|, []) + Zeros(16);
      var entry := Put32(|f.path|, []) + f.path + facts + flags;
      DirectoryStep(format, files[i..], offset, dir, entry, tail);
      dir := dir + entry;
      payloads := payloads + f.bytes;
      offset := offset + |f.bytes|;
      i := i + 1;
    }
  }

  lemma {:induction false} DirectoryStep(format: U32, files: seq<PackFile>, offset: nat, dir: Data, entry: Data,
                                           tail: Data)
    requires files != [] && Fits(files, offset)
    requires entry == Put32(|files[0].path|, []) + files[0].path
                    + (Put64(offset, []) + Put64(|files[0].bytes|, []) + Zeros(16))
                    + if format == 2 then Put32(0, []) else []
    ensures dir + PutDir(format, files, offset, tail)
         == dir + entry + PutDir(format, files[1..], offset + |files[0].bytes|, tail)
  {
    hide PutEntry, Put32, Put64;
    var rest := PutDir(format, files[1..], offset + |files[0].bytes|, tail);
    EntryParts(format, files[0].path, offset, |files[0].bytes|, rest);
    assert dir + (entry + rest) == dir + entry + rest;
  }

  /** `synth`: payload offsets come from a directory size computed before the directory is written. */
  method Synth(format: U32, files: seq<PackFile>) returns (image: Data)
    requires Fits(files, PayloadStart(format, files))
    ensures image == Image(format, files)
  {
    hide Put32, PutHead, PutDir;
    var header := WriteHead(format);
    HeadSkips(format, []);
    header := header + Put32(|files|, []);
    var dirSize := MeasureDirectory(format, files);
    var dir, payloads := LayOut(format, files, |header| + dirSize);
    HeadParts(format, Put32(|files|, dir + payloads));
    CountParts(|files|, dir + payloads);
    image := header + dir + payloads;
  }
}
