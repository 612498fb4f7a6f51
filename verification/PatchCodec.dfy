/** `PatchV2::encode`, `PatchV2::decode` and `validate`. */
module PatchCodec {
  import opened Bytes
  import opened PatchTypes
  import opened Varint
  import opened Wire
  import opened Codec

  // ---------- Validation ----------

  function FirstError<T>(xs: seq<T>, check: T -> Result<()>): Result<()> {
    if xs == [] then Ok(())
    else
      var _ :- check(xs[0]);
      FirstError(xs[1..], check)
  }

  lemma {:induction false} FirstErrorExact<T>(xs: seq<T>, check: T -> Result<()>)
    ensures FirstError(xs, check).Ok? <==> forall x <- xs :: check(x).Ok?
  {
    if xs != [] {
      FirstErrorExact(xs[1..], check);
      assert forall x :: x in xs <==> x == xs[0] || x in xs[1..];
    }
  }

  function CheckPath(required: bool, path: Data): Result<()> {
    if required && !PathIsSafe(path) then Err(PathTraversal) else Ok(())
  }

  function CheckIndex(idx: U32, count: nat): Result<()> {
    if idx >= count then Err(PatchInvalid) else Ok(())
  }

  /** The running `covered` sum, kept in 64 bits; a debug build would trap where this wraps. */
  function CheckOps(ops: seq<FileOp>, oldCount: nat, covered: U64): Result<U64> {
    if ops == [] then Ok(covered)
    else
      var _ :- if ops[0].CopyOld? then CheckIndex(ops[0].oldIdx, oldCount) else Ok(());
      CheckOps(ops[1..], oldCount, (covered + ops[0].len) % TWO_64)
  }

  function CheckStrategy(x: Option<Strategy>, size: U64, oldCount: nat, secCount: nat): Result<()> {
    match x
    case None => Ok(())
    case Some(CopyWhole(idx)) => CheckIndex(idx, oldCount)
    case Some(PlanOps(sec, ops)) =>
      var _ :- CheckIndex(sec, secCount);
      var covered :- CheckOps(ops, oldCount, 0);
      if covered != size then Err(PatchInvalid) else Ok(())
    case Some(Bsdiff(idx, sec)) =>
      var _ :- CheckIndex(idx, oldCount);
      CheckIndex(sec, secCount)
    case Some(Xdelta3(idx, sec)) =>
      var _ :- CheckIndex(idx, oldCount);
      CheckIndex(sec, secCount)
    case Some(FullData(sec)) => CheckIndex(sec, secCount)
  }

  function CheckEntry(e: NewEntry, mode: PatchMode, oldCount: nat, secCount: nat): Result<()> {
    var _ :- CheckPath(mode.Directory?, e.path);
    if e.kind.FileEntry? && (e.strategy.None? || e.blake3.None?) then Err(PatchInvalid)
    else if !e.kind.FileEntry? && e.strategy.Some? then Err(PatchInvalid)
    else CheckStrategy(e.strategy, e.size, oldCount, secCount)
  }

  function Validate(p: Patch): Result<()> {
    var _ :- FirstError(p.oldFiles, (f: OldFile) => CheckPath(p.mode.Directory?, f.path));
    var _ :- FirstError(p.deleted, (d: Data) => CheckPath(true, d));
    FirstError(p.newEntries, (e: NewEntry) => CheckEntry(e, p.mode, |p.oldFiles|, |p.sections|))
  }

  function TotalLength(ops: seq<FileOp>): nat {
    if ops == [] then 0 else ops[0].len + TotalLength(ops[1..])
  }

  predicate OpsInRange(ops: seq<FileOp>, oldCount: nat) {
    forall op <- ops :: op.CopyOld? ==> op.oldIdx < oldCount
  }

  /** What `validate` promises about a strategy. */
  predicate ValidStrategy(x: Strategy, size: U64, oldCount: nat, secCount: nat) {
    match x
    case CopyWhole(idx) => idx < oldCount
    case PlanOps(sec, ops) =>
      sec < secCount && OpsInRange(ops, oldCount) && TotalLength(ops) % TWO_64 == size
    case Bsdiff(idx, sec) => idx < oldCount && sec < secCount
    case Xdelta3(idx, sec) => idx < oldCount && sec < secCount
    case FullData(sec) => sec < secCount
  }

  predicate ValidEntry(e: NewEntry, mode: PatchMode, oldCount: nat, secCount: nat) {
    && (mode.Directory? ==> PathIsSafe(e.path))
    && (e.kind.FileEntry? <==> e.strategy.Some?)
    && (e.kind.FileEntry? ==> e.blake3.Some?)
    && (e.strategy.Some? ==> ValidStrategy(e.strategy.value, e.size, oldCount, secCount))
  }

  predicate Valid(p: Patch) {
    && (p.mode.Directory? ==> forall f <- p.oldFiles :: PathIsSafe(f.path))
    && (forall d <- p.deleted :: PathIsSafe(d))
    && (forall e <- p.newEntries :: ValidEntry(e, p.mode, |p.oldFiles|, |p.sections|))
  }

  lemma WrapOnce(a: nat, b: nat)
    ensures (a % TWO_64 + b) % TWO_64 == (a + b) % TWO_64
  {
  }

  lemma {:induction false} CheckOpsExact(ops: seq<FileOp>, oldCount: nat, covered: U64)
    ensures CheckOps(ops, oldCount, covered).Ok? <==> OpsInRange(ops, oldCount)
    ensures CheckOps(ops, oldCount, covered).Ok? ==>
      CheckOps(ops, oldCount, covered).value == (covered + TotalLength(ops)) % TWO_64
    decreases |ops|
  {
    if ops != [] {
      CheckOpsExact(ops[1..], oldCount, (covered + ops[0].len) % TWO_64);
      WrapOnce(covered + ops[0].len, TotalLength(ops[1..]));
      assert forall op :: op in ops <==> op == ops[0] || op in ops[1..];
    }
  }

  lemma CheckEntryExact(e: NewEntry, mode: PatchMode, oldCount: nat, secCount: nat)
    ensures CheckEntry(e, mode, oldCount, secCount).Ok? <==> ValidEntry(e, mode, oldCount, secCount)
  {
    if e.strategy.Some? && e.strategy.value.PlanOps? {
      CheckOpsExact(e.strategy.value.ops, oldCount, 0);
    }
  }

  /** `validate` accepts exactly the patches whose indices resolve, whose paths are safe, whose
      files alone carry a strategy and a hash, and whose op lists cover their file (modulo 2^64). */
  lemma ValidateExact(p: Patch)
    ensures Validate(p).Ok? <==> Valid(p)
  {
    FirstErrorExact(p.oldFiles, (f: OldFile) => CheckPath(p.mode.Directory?, f.path));
    FirstErrorExact(p.deleted, (d: Data) => CheckPath(true, d));
    FirstErrorExact(p.newEntries, (e: NewEntry) => CheckEntry(e, p.mode, |p.oldFiles|, |p.sections|));
    forall e
      ensures CheckEntry(e, p.mode, |p.oldFiles|, |p.sections|).Ok? <==>
        ValidEntry(e, p.mode, |p.oldFiles|, |p.sections|)
    {
      CheckEntryExact(e, p.mode, |p.oldFiles|, |p.sections|);
    }
  }

  // ---------- The whole patch ----------

  const MAGIC: Data := [67, 65, 86, 83, 80, 67, 72, 50]  // "CAVSPCH2"
  const VERSION: Data := [2, 0]

  datatype Header = Header(mode: PatchMode, oldLabel: Data, oldTotalSize: U64,
                           newLabel: Data, newTotalSize: U64)

  function PutHeader(h: Header, tail: Data): Data {
    PutByte(if h.mode.Artifact? then 1 else 2,
      PutStr(h.oldLabel, PutVar(h.oldTotalSize, PutStr(h.newLabel, PutVar(h.newTotalSize, tail)))))
  }

  function GetHeader(s: Data): Result<Parsed<Header>> {
    var mode :- GetByte(s);
    if mode.value != 1 && mode.value != 2 then Err(PatchCorrupt) else
    var oldLabel :- GetStr(mode.rest);
    var oldSize :- GetVar(oldLabel.rest);
    var newLabel :- GetStr(oldSize.rest);
    var newSize :- GetVar(newLabel.rest);
    Ok(Parsed(Header(if mode.value == 1 then Artifact else Directory,
                     oldLabel.value, oldSize.value, newLabel.value, newSize.value), newSize.rest, true))
  }

  predicate WfHeader(h: Header) {
    WfStr(h.oldLabel) && WfStr(h.newLabel)
  }

  lemma HeaderReadBack(h: Header, rest: Data)
    requires WfHeader(h)
    ensures GetHeader(PutHeader(h, rest)) == Ok(Parsed(h, rest, true))
  {
    var s4 := PutVar(h.newTotalSize, rest);
    var s3 := PutStr(h.newLabel, s4);
    var s2 := PutVar(h.oldTotalSize, s3);
    var s1 := PutStr(h.oldLabel, s2);
    ByteExact(PutHeader(h, rest), if h.mode.Artifact? then 1 else 2, s1);
    StrExact(s1, h.oldLabel, s2);
    VarExact(s2, h.oldTotalSize, s3);
    StrExact(s3, h.newLabel, s4);
    VarExact(s4, h.newTotalSize, rest);
  }

  lemma {:induction false} HeaderOnlyWritten(s: Data)
    requires GetHeader(s).Ok?
    ensures var r := GetHeader(s).value; WfHeader(r.value) && r.clean && s == PutHeader(r.value, r.rest)
  {
    var mode := GetByte(s).value;
    var oldLabel := GetStr(mode.rest).value;
    var oldSize := GetVar(oldLabel.rest).value;
    var newLabel := GetStr(oldSize.rest).value;
    var newSize := GetVar(newLabel.rest).value;
    ByteExact(s, mode.value, mode.rest);
    StrExact(mode.rest, oldLabel.value, oldLabel.rest);
    VarExact(oldLabel.rest, oldSize.value, oldSize.rest);
    StrExact(oldSize.rest, newLabel.value, newLabel.rest);
    VarExact(newLabel.rest, newSize.value, newSize.rest);
  }

  datatype Tables = Tables(oldFiles: seq<OldFile>, newEntries: seq<NewEntry>,
                           deleted: seq<Data>, sections: seq<Section>)

  function PutTables(t: Tables, tail: Data): Data {
    PutCounted(t.oldFiles, PutCounted(t.newEntries, PutCounted(t.deleted,
      PutCounted(t.sections, tail, PutSection), PutStr), PutEntry), PutOldFile)
  }

  function GetTables(s: Data): Result<Parsed<Tables>> {
    var oldFiles :- GetCounted(s, MAX_ENTRIES, GetOldFile);
    var newEntries :- GetCounted(oldFiles.rest, MAX_ENTRIES, GetEntry);
    var deleted :- GetCounted(newEntries.rest, MAX_ENTRIES, GetStr);
    var sections :- GetCounted(deleted.rest, MAX_ENTRIES, GetSection);
    Ok(Parsed(Tables(oldFiles.value, newEntries.value, deleted.value, sections.value), sections.rest,
              oldFiles.clean && newEntries.clean && deleted.clean && sections.clean))
  }

  predicate WfTables(t: Tables) {
    && |t.oldFiles| <= MAX_ENTRIES && (forall x <- t.oldFiles :: WfOldFile(x))
    && |t.newEntries| <= MAX_ENTRIES && (forall x <- t.newEntries :: WfEntry(x))
    && |t.deleted| <= MAX_ENTRIES && (forall x <- t.deleted :: WfStr(x))
    && |t.sections| <= MAX_ENTRIES && (forall x <- t.sections :: WfSection(x))
  }

  lemma {:induction false} TablesReadBack(t: Tables, rest: Data)
    requires WfTables(t)
    ensures GetTables(PutTables(t, rest)) == Ok(Parsed(t, rest, true))
  {
    OldFileLawful(); EntryLawful(); StrLawful(); SectionLawful();
    var s3 := PutCounted(t.sections, rest, PutSection);
    var s2 := PutCounted(t.deleted, s3, PutStr);
    var s1 := PutCounted(t.newEntries, s2, PutEntry);
    CountedExact(PutTables(t, rest), t.oldFiles, s1, MAX_ENTRIES, PutOldFile, GetOldFile, WfOldFile);
    CountedExact(s1, t.newEntries, s2, MAX_ENTRIES, PutEntry, GetEntry, WfEntry);
    CountedExact(s2, t.deleted, s3, MAX_ENTRIES, PutStr, GetStr, WfStr);
    CountedExact(s3, t.sections, rest, MAX_ENTRIES, PutSection, GetSection, WfSection);
  }

  lemma {:induction false} TablesOnlyWritten(s: Data)
    requires GetTables(s).Ok?
    ensures var r := GetTables(s).value;
      WfTables(r.value) && (r.clean ==> s == PutTables(r.value, r.rest))
  {
    OldFileLawful(); EntryLawful(); StrLawful(); SectionLawful();
    var a := GetCounted(s, MAX_ENTRIES, GetOldFile).value;
    var b := GetCounted(a.rest, MAX_ENTRIES, GetEntry).value;
    var c := GetCounted(b.rest, MAX_ENTRIES, GetStr).value;
    var d := GetCounted(c.rest, MAX_ENTRIES, GetSection).value;
    CountedExact(s, a.value, a.rest, MAX_ENTRIES, PutOldFile, GetOldFile, WfOldFile);
    CountedExact(a.rest, b.value, b.rest, MAX_ENTRIES, PutEntry, GetEntry, WfEntry);
    CountedExact(b.rest, c.value, c.rest, MAX_ENTRIES, PutStr, GetStr, WfStr);
    CountedExact(c.rest, d.value, d.rest, MAX_ENTRIES, PutSection, GetSection, WfSection);
  }

  function HeaderOf(p: Patch): Header {
    Header(p.mode, p.oldLabel, p.oldTotalSize, p.newLabel, p.newTotalSize)
  }

  function TablesOf(p: Patch): Tables {
    Tables(p.oldFiles, p.newEntries, p.deleted, p.sections)
  }

  /** Everything between the magic and the integrity trailer. */
  function PutPatch(p: Patch): Data {
    VERSION + PutHeader(HeaderOf(p), PutTables(TablesOf(p), []))
  }

  function GetPatch(s: Data): Result<Parsed<Patch>> {
    var version :- Take(s, 2);
    if version.value != VERSION then Err(PatchCorrupt) else
    var h :- GetHeader(version.rest);
    var t :- GetTables(h.rest);
    if t.rest != [] then Err(PatchCorrupt) else
    Ok(Parsed(Patch(h.value.mode, h.value.oldLabel, h.value.oldTotalSize,
                    h.value.newLabel, h.value.newTotalSize,
                    t.value.oldFiles, t.value.newEntries, t.value.deleted, t.value.sections),
              t.rest, h.clean && t.clean))
  }

  predicate WfPatch(p: Patch) {
    WfHeader(HeaderOf(p)) && WfTables(TablesOf(p))
  }

  lemma {:induction false} PatchExact(s: Data, p: Patch)
    ensures GetPatch(s) == Ok(Parsed(p, [], true)) <==> WfPatch(p) && s == PutPatch(p)
    ensures GetPatch(s).Ok? ==> WfPatch(GetPatch(s).value.value) && GetPatch(s).value.rest == []
  {
    if WfPatch(p) && s == PutPatch(p) {
      var s2 := PutTables(TablesOf(p), []);
      var s1 := PutHeader(HeaderOf(p), s2);
      TakeExact(s, VERSION, s1);
      HeaderReadBack(HeaderOf(p), s2);
      TablesReadBack(TablesOf(p), []);
    }
    if GetPatch(s).Ok? {
      var version := Take(s, 2).value;
      var h := GetHeader(version.rest).value;
      var t := GetTables(h.rest).value;
      TakeExact(s, VERSION, version.rest);
      HeaderOnlyWritten(version.rest);
      TablesOnlyWritten(h.rest);
      assert HeaderOf(GetPatch(s).value.value) == h.value;
      assert TablesOf(GetPatch(s).value.value) == t.value;
    }
  }

  function EncodeSpec(p: Patch, hash: Data -> ChunkHash): Data {
    var body := MAGIC + PutPatch(p);
    body + hash(body)
  }

  /** The bytes `decode` parses once magic and trailer are checked. */
  function Body(bytes: Data, hash: Data -> ChunkHash): Result<Data> {
    if |bytes| < 43 || bytes[..8] != MAGIC then Err(PatchCorrupt)
    else
      var bodyLen := |bytes| - 32;
      if hash(bytes[..bodyLen]) != bytes[bodyLen..] then Err(PatchCorrupt)
      else Ok(bytes[8..bodyLen])
  }

  function DecodeSpec(bytes: Data, hash: Data -> ChunkHash): Result<Patch> {
    var body :- Body(bytes, hash);
    var p :- GetPatch(body);
    var _ :- Validate(p.value);
    Ok(p.value)
  }

  lemma BodyExact(bytes: Data, body: Data, hash: Data -> ChunkHash)
    requires |body| >= 3
    ensures Body(bytes, hash) == Ok(body) <==> bytes == MAGIC + body + hash(MAGIC + body)
  {
    var whole := MAGIC + body;
    if bytes == whole + hash(whole) {
      assert bytes[..8] == MAGIC && |bytes| - 32 == |whole|;
      assert bytes[..|whole|] == whole && bytes[|whole|..] == hash(whole) && bytes[8..|whole|] == body;
    }
    if Body(bytes, hash) == Ok(body) {
      var bodyLen := |bytes| - 32;
      assert bytes[..bodyLen] == bytes[..8] + bytes[8..bodyLen] == whole;
      assert bytes == bytes[..bodyLen] + bytes[bodyLen..];
    }
  }

  /** The limits the format imposes: what a patch must satisfy to survive the wire. */
  predicate Encodable(p: Patch) {
    WfPatch(p) && Valid(p)
  }

  lemma PutPatchLength(p: Patch)
    ensures |PutPatch(p)| >= 3
  {
    assert |PutHeader(HeaderOf(p), PutTables(TablesOf(p), []))| >= 1;
  }

  /** Round trip: a patch comes back from its encoding exactly when it is within the
      format's limits and passes `validate`. */
  lemma {:induction false} DecodeEncode(p: Patch, hash: Data -> ChunkHash)
    ensures DecodeSpec(EncodeSpec(p, hash), hash) == Ok(p) <==> Encodable(p)
  {
    var bytes := EncodeSpec(p, hash);
    PutPatchLength(p);
    BodyExact(bytes, PutPatch(p), hash);
    PatchExact(PutPatch(p), p);
    ValidateExact(p);
  }

  /** Canonical form: bytes that decode re-encode to themselves exactly when every executable
      flag is 0 or 1 and every index fits 32 bits, the two places `decode` is lenient about. */
  lemma {:induction false} EncodeDecode(bytes: Data, hash: Data -> ChunkHash)
    requires DecodeSpec(bytes, hash).Ok?
    ensures var p := DecodeSpec(bytes, hash).value;
      && Encodable(p)
      && (EncodeSpec(p, hash) == bytes <==> GetPatch(Body(bytes, hash).value).value.clean)
  {
    var p := DecodeSpec(bytes, hash).value;
    var body := Body(bytes, hash).value;
    PatchExact(body, p);
    ValidateExact(p);
    PutPatchLength(p);
    BodyExact(bytes, body, hash);
    BodyExact(bytes, PutPatch(p), hash);
  }

  // ---------- Accepted, yet not canonical ----------

  /** A file entry "a" in section 0, executable or not. */
  function LooseEntry(executable: bool, digest: ChunkHash): NewEntry {
    NewEntry([97], FileEntry, 0, executable, None, Some(digest), Some(FullData(0)))
  }

  /** Its bytes with any flag byte and any 64-bit section index. */
  function LooseEntryBytes(flag: Byte, index: U64, digest: ChunkHash, tail: Data): Data {
    PutStr([97], PutKind(FileEntry, PutVar(0,
      PutByte(flag, PutStr([], PutOptHash(Some(digest), PutByte(5, PutVar(index, tail))))))))
  }

  function LoosePatch(executable: bool, digest: ChunkHash): Patch {
    Patch(Artifact, [], 0, [], 0, [], [LooseEntry(executable, digest)], [], [Section([], 0, digest, [])])
  }

  function LooseBody(flag: Byte, index: U64, digest: ChunkHash): Data {
    var p := LoosePatch(true, digest);
    var later: Data := PutCounted(p.deleted, PutCounted(p.sections, [], PutSection), PutStr);
    var entries := PutVar(1, LooseEntryBytes(flag, index, digest, later));
    VERSION + PutHeader(HeaderOf(p), PutCounted(p.oldFiles, entries, PutOldFile))
  }

  lemma TwoTexts()
    ensures WfStr([97]) && WfStr([])
  {
  }

  lemma LooseTraitsRead(flag: Byte, index: U64, digest: ChunkHash, tail: Data)
    requires index % TWO_32 == 0
    ensures GetTraits(PutByte(flag, PutStr([], PutOptHash(Some(digest), PutByte(5, PutVar(index, tail))))))
         == Ok(Parsed(Traits(flag == 1, None, Some(digest), Some(FullData(0))), tail, flag <= 1 && index < TWO_32))
  {
    hide PutVar, PutByte, PutStr, PutOptHash, GetByte, GetStr, GetOptHash, ValidUtf8;
    var s4 := PutVar(index, tail);
    var s3 := PutByte(5, s4);
    var s2 := PutOptHash(Some(digest), s3);
    var s1 := PutStr([], s2);
    ByteExact(PutByte(flag, s1), flag, s1);
    TwoTexts();
    StrExact(s1, [], s2);
    OptHashExact(s2, Some(digest), s3);
    ByteExact(s3, 5, s4);
    ReadVarExact(s4, index, tail);
    assert GetStrategy(s3) == Ok(Parsed(Some(FullData(0)), tail, index < TWO_32));
  }

  lemma LooseEntryRead(flag: Byte, index: U64, digest: ChunkHash, tail: Data)
    requires index % TWO_32 == 0
    ensures GetEntry(LooseEntryBytes(flag, index, digest, tail))
         == Ok(Parsed(LooseEntry(flag == 1, digest), tail, flag <= 1 && index < TWO_32))
  {
    hide PutVar, PutByte, PutStr, PutOptHash, PutKind, GetVar, GetStr, GetKind, GetTraits;
    var s2 := PutByte(flag, PutStr([], PutOptHash(Some(digest), PutByte(5, PutVar(index, tail)))));
    var s1 := PutVar(0, s2);
    var s0 := PutKind(FileEntry, s1);
    TwoTexts();
    StrExact(PutStr([97], s0), [97], s0);
    KindExact(s0, FileEntry, s1);
    VarExact(s1, 0, s2);
    LooseTraitsRead(flag, index, digest, tail);
  }

  lemma LooseListRead(flag: Byte, index: U64, digest: ChunkHash, tail: Data)
    requires index % TWO_32 == 0
    ensures GetCounted(PutVar(1, LooseEntryBytes(flag, index, digest, tail)), MAX_ENTRIES, GetEntry)
         == Ok(Parsed([LooseEntry(flag == 1, digest)], tail, flag <= 1 && index < TWO_32))
  {
    hide PutVar, GetEntry, LooseEntryBytes;
    var e, s := LooseEntry(flag == 1, digest), LooseEntryBytes(flag, index, digest, tail);
    ReadVarExact(PutVar(1, s), 1, s);
    LooseEntryRead(flag, index, digest, tail);
    assert [] + [e] == [e];
    assert GetList([], 1, s, true, GetEntry) == GetList([e], 0, tail, flag <= 1 && index < TWO_32, GetEntry);
  }

  lemma LooseBodyRead(flag: Byte, index: U64, digest: ChunkHash)
    requires index % TWO_32 == 0
    ensures GetPatch(LooseBody(flag, index, digest))
         == Ok(Parsed(LoosePatch(flag == 1, digest), [], flag <= 1 && index < TWO_32))
  {
    OldFileLawful(); StrLawful(); SectionLawful();
    TwoTexts();
    hide LooseEntryBytes, GetEntry, PutHeader, GetHeader, GetCounted, PutCounted, PutVar, Take;
    hide GetOldFile, GetStr, GetSection, PutStr, PutSection, PutOldFile, ValidUtf8;
    var p := LoosePatch(true, digest);
    var s4 := PutCounted(p.sections, [], PutSection);
    var s3 := PutCounted(p.deleted, s4, PutStr);
    var s2 := LooseEntryBytes(flag, index, digest, s3);
    var s1 := PutVar(1, s2);
    var s0 := PutCounted(p.oldFiles, s1, PutOldFile);
    TakeExact(LooseBody(flag, index, digest), VERSION, PutHeader(HeaderOf(p), s0));
    HeaderReadBack(HeaderOf(p), s0);
    CountedExact(s0, p.oldFiles, s1, MAX_ENTRIES, PutOldFile, GetOldFile, WfOldFile);
    LooseListRead(flag, index, digest, s3);
    CountedExact(s3, p.deleted, s4, MAX_ENTRIES, PutStr, GetStr, WfStr);
    CountedExact(s4, p.sections, [], MAX_ENTRIES, PutSection, GetSection, WfSection);
  }

  lemma LooseBodyLength(flag: Byte, index: U64, digest: ChunkHash)
    ensures |LooseBody(flag, index, digest)| >= 3
  {
    hide PutCounted, LooseEntryBytes, PutStr, PutVar;
  }

  /** Both leniencies are real: these bytes decode whatever the flag byte and whatever multiple of 2^32
      the section index, and re-encode to themselves only for a flag of 0 or 1 and the index 0. */
  lemma LooseBytesAreAccepted(flag: Byte, index: U64, digest: ChunkHash, hash: Data -> ChunkHash)
    requires index % TWO_32 == 0
    ensures var body := LooseBody(flag, index, digest);
      var bytes := MAGIC + body + hash(MAGIC + body);
      var p := LoosePatch(flag == 1, digest);
      DecodeSpec(bytes, hash) == Ok(p) && (EncodeSpec(p, hash) == bytes <==> flag <= 1 && index == 0)
  {
    var body := LooseBody(flag, index, digest);
    var p := LoosePatch(flag == 1, digest);
    hide LooseBody, GetPatch, Body, Validate, MAGIC;
    LooseBodyRead(flag, index, digest);
    LooseBodyLength(flag, index, digest);
    BodyExact(MAGIC + body + hash(MAGIC + body), body, hash);
    ValidateExact(p);
    EncodeDecode(MAGIC + body + hash(MAGIC + body), hash);
  }
}
