/** The wire format of `.cavspatch` v2 as functions: `Put…` prepends the encoding of a value
    to the bytes that follow it, `Get…` reads one value from the head of its input. */
module Codec {
  import opened Bytes
  import opened PatchTypes
  import opened Varint
  import opened Wire

  // ---------- Leaves ----------

  function GetVar(s: Data): Result<Parsed<U64>> {
    var r :- ReadVar(s);
    Ok(Parsed(r.value, r.rest, true))
  }

  /** `read_var(..)? as u32`: the upper half of the value is dropped without complaint. */
  function GetIndex(s: Data): Result<Parsed<U32>> {
    var r :- ReadVar(s);
    Ok(Parsed(AsU32(r.value), r.rest, r.value < TWO_32))
  }

  function AsU32(v: nat): (r: U32)
    ensures v < TWO_32 ==> r == v
  {
    v % TWO_32
  }

  function PutStr(s: Data, tail: Data): Data {
    PutVar(|s|, s + tail)
  }

  function GetStr(s: Data): Result<Parsed<Data>> {
    var n :- ReadVar(s);
    if n.value > |n.rest| || n.value > MAX_STRING then Err(PatchCorrupt)
    else
      var text := n.rest[..n.value];
      if ValidUtf8(text) then Ok(Parsed(text, n.rest[n.value..], true)) else Err(PatchCorrupt)
  }

  predicate WfStr(s: Data) {
    |s| <= MAX_STRING && ValidUtf8(s)
  }

  lemma {:induction false} VarExact(s: Data, v: U64, rest: Data)
    ensures GetVar(s) == Ok(Parsed(v, rest, true)) <==> s == PutVar(v, rest)
  {
    ReadVarExact(s, v, rest);
  }

  lemma {:induction false} IndexExact(s: Data, v: U32, rest: Data)
    ensures GetIndex(s) == Ok(Parsed(v, rest, true)) <==> s == PutVar(v, rest)
  {
    ReadVarExact(s, v, rest);
  }

  lemma TakeExact(s: Data, v: Data, rest: Data)
    ensures Take(s, |v|) == Ok(Parsed(v, rest, true)) <==> s == v + rest
  {
    if |v| <= |s| {
      assert s == s[..|v|] + s[|v|..];
    }
    if s == v + rest {
      assert s[..|v|] == v && s[|v|..] == rest;
    }
  }

  lemma ByteExact(s: Data, b: Byte, rest: Data)
    ensures GetByte(s) == Ok(Parsed(b, rest, true)) <==> s == PutByte(b, rest)
    ensures GetByte(s).Ok? ==> GetByte(s).value.clean
  {
    if s != [] {
      assert s == [s[0]] + s[1..];
    }
  }

  lemma StrExact(s: Data, v: Data, rest: Data)
    ensures GetStr(s) == Ok(Parsed(v, rest, true)) <==> WfStr(v) && s == PutStr(v, rest)
    ensures GetStr(s).Ok? ==> WfStr(GetStr(s).value.value) && GetStr(s).value.clean
  {
    if WfStr(v) && s == PutStr(v, rest) {
      ReadVarExact(s, |v|, v + rest);
      TakeExact(v + rest, v, rest);
    }
    if GetStr(s).Ok? {
      var n := ReadVar(s).value;
      ReadVarExact(s, n.value, n.rest);
      TakeExact(n.rest, n.rest[..n.value], n.rest[n.value..]);
    }
  }

  // ---------- Counted lists ----------

  function PutList<T>(xs: seq<T>, tail: Data, put: (T, Data) -> Data): Data {
    if xs == [] then tail else put(xs[0], PutList(xs[1..], tail, put))
  }

  /** `count` items read in order onto `acc`. */
  function GetList<T>(acc: seq<T>, count: nat, s: Data, clean: bool,
                      get: Data -> Result<Parsed<T>>): Result<Parsed<seq<T>>>
    decreases count
  {
    if count == 0 then Ok(Parsed(acc, s, clean))
    else
      var x :- get(s);
      GetList(acc + [x.value], count - 1, x.rest, clean && x.clean, get)
  }

  function PutCounted<T>(xs: seq<T>, tail: Data, put: (T, Data) -> Data): Data {
    PutVar(|xs|, PutList(xs, tail, put))
  }

  function GetCounted<T>(s: Data, limit: nat, get: Data -> Result<Parsed<T>>): Result<Parsed<seq<T>>> {
    var n :- ReadVar(s);
    if n.value > limit then Err(PatchCorrupt) else GetList([], n.value, n.rest, true, get)
  }

  /** On input `s`, `get` returns `v` exactly when `v` is well-formed and `s` is what `put`
      writes for it, and nothing `get` returns is ill-formed. */
  ghost predicate Exact<T>(put: (T, Data) -> Data, get: Data -> Result<Parsed<T>>, wf: T -> bool,
                           s: Data, v: T, rest: Data) {
    && (get(s) == Ok(Parsed(v, rest, true)) <==> wf(v) && s == put(v, rest))
    && (get(s).Ok? ==> wf(get(s).value.value))
  }

  ghost predicate Lawful<T(!new)>(put: (T, Data) -> Data, get: Data -> Result<Parsed<T>>, wf: T -> bool) {
    forall s, v, rest :: Exact(put, get, wf, s, v, rest)
  }

  lemma {:induction false} ListReadBack<T(!new)>(acc: seq<T>, xs: seq<T>, tail: Data,
                                               put: (T, Data) -> Data, get: Data -> Result<Parsed<T>>, wf: T -> bool)
    requires Lawful(put, get, wf) && forall x <- xs :: wf(x)
    ensures GetList(acc, |xs|, PutList(xs, tail, put), true, get) == Ok(Parsed(acc + xs, tail, true))
    decreases |xs|
  {
    if xs == [] {
      assert acc + xs == acc;
    } else {
      var later := PutList(xs[1..], tail, put);
      assert Exact(put, get, wf, put(xs[0], later), xs[0], later);
      ListReadBack(acc + [xs[0]], xs[1..], tail, put, get, wf);
      assert acc + [xs[0]] + xs[1..] == acc + xs;
    }
  }

  lemma {:induction false} ListOnlyWritten<T(!new)>(acc: seq<T>, count: nat, s: Data, clean: bool,
                                                  put: (T, Data) -> Data, get: Data -> Result<Parsed<T>>, wf: T -> bool)
    requires Lawful(put, get, wf) && GetList(acc, count, s, clean, get).Ok?
    ensures var r := GetList(acc, count, s, clean, get).value;
      && |r.value| == |acc| + count && r.value[..|acc|] == acc
      && (forall x <- r.value[|acc|..] :: wf(x))
      && (r.clean ==> clean && s == PutList(r.value[|acc|..], r.rest, put))
    decreases count
  {
    if count > 0 {
      var x := get(s).value;
      assert Exact(put, get, wf, s, x.value, x.rest);
      ListOnlyWritten(acc + [x.value], count - 1, x.rest, clean && x.clean, put, get, wf);
      var r := GetList(acc, count, s, clean, get).value;
      var items := r.value[|acc|..];
      assert r.value[..|acc|] == r.value[..|acc| + 1][..|acc|] == acc;
      assert items[0] == r.value[..|acc| + 1][|acc|] == x.value;
      assert items[1..] == r.value[|acc| + 1..];
      forall y | y in items ensures wf(y) {
        assert y == items[0] || y in items[1..];
      }
    }
  }

  lemma CountedExact<T(!new)>(s: Data, v: seq<T>, rest: Data, limit: nat,
                            put: (T, Data) -> Data, get: Data -> Result<Parsed<T>>, wf: T -> bool)
    requires Lawful(put, get, wf) && limit < TWO_64
    ensures GetCounted(s, limit, get) == Ok(Parsed(v, rest, true))
      <==> |v| <= limit && (forall x <- v :: wf(x)) && s == PutCounted(v, rest, put)
    ensures GetCounted(s, limit, get).Ok? ==>
      var xs := GetCounted(s, limit, get).value.value;
      |xs| <= limit && forall x <- xs :: wf(x)
  {
    if |v| <= limit && (forall x <- v :: wf(x)) && s == PutCounted(v, rest, put) {
      ReadVarExact(s, |v|, PutList(v, rest, put));
      ListReadBack([], v, rest, put, get, wf);
      assert [] + v == v;
    }
    if GetCounted(s, limit, get).Ok? {
      var n := ReadVar(s).value;
      ReadVarExact(s, n.value, n.rest);
      ListOnlyWritten([], n.value, n.rest, true, put, get, wf);
      var xs := GetCounted(s, limit, get).value.value;
      assert xs[0..] == xs;
    }
  }

  // ---------- Records ----------

  function PutOldFile(f: OldFile, tail: Data): Data {
    PutStr(f.path, PutVar(f.size, f.blake3 + tail))
  }

  function GetOldFile(s: Data): Result<Parsed<OldFile>> {
    var path :- GetStr(s);
    var size :- GetVar(path.rest);
    var hash :- Take(size.rest, 32);
    Ok(Parsed(OldFile(path.value, size.value, hash.value), hash.rest, true))
  }

  predicate WfOldFile(f: OldFile) {
    WfStr(f.path)
  }

  lemma {:induction false} OldFileExact(s: Data, f: OldFile, rest: Data)
    ensures GetOldFile(s) == Ok(Parsed(f, rest, true)) <==> WfOldFile(f) && s == PutOldFile(f, rest)
    ensures GetOldFile(s).Ok? ==> WfOldFile(GetOldFile(s).value.value)
  {
    var s1 := PutVar(f.size, f.blake3 + rest);
    StrExact(s, f.path, s1);
    VarExact(s1, f.size, f.blake3 + rest);
    TakeExact(f.blake3 + rest, f.blake3, rest);
    if GetOldFile(s).Ok? {
      var path := GetStr(s).value;
      var size := GetVar(path.rest).value;
      var hash := Take(size.rest, 32).value;
      StrExact(s, path.value, path.rest);
      VarExact(path.rest, size.value, size.rest);
      TakeExact(size.rest, hash.value, hash.rest);
    }
  }

  function PutOp(op: FileOp, tail: Data): Data {
    match op
    case CopyOld(idx, off, len) => PutByte(1, PutVar(idx, PutVar(off, PutVar(len, tail))))
    case Inline(len) => PutByte(2, PutVar(len, tail))
  }

  function GetOp(s: Data): Result<Parsed<FileOp>> {
    var tag :- GetByte(s);
    if tag.value == 1 then
      var idx :- GetIndex(tag.rest);
      var off :- GetVar(idx.rest);
      var len :- GetVar(off.rest);
      Ok(Parsed(CopyOld(idx.value, off.value, len.value), len.rest, idx.clean))
    else if tag.value == 2 then
      var len :- GetVar(tag.rest);
      Ok(Parsed(Inline(len.value), len.rest, true))
    else Err(PatchCorrupt)
  }

  lemma OpExact(s: Data, op: FileOp, rest: Data)
    ensures GetOp(s) == Ok(Parsed(op, rest, true)) <==> s == PutOp(op, rest)
  {
    if s == PutOp(op, rest) {
      match op
      case CopyOld(idx, off, len) =>
        var s2 := PutVar(off, PutVar(len, rest));
        ByteExact(s, 1, PutVar(idx, s2));
        IndexExact(PutVar(idx, s2), idx, s2);
        VarExact(s2, off, PutVar(len, rest));
        VarExact(PutVar(len, rest), len, rest);
      case Inline(len) =>
        ByteExact(s, 2, PutVar(len, rest));
        VarExact(PutVar(len, rest), len, rest);
    }
    if GetOp(s) == Ok(Parsed(op, rest, true)) {
      var tag := GetByte(s).value;
      ByteExact(s, tag.value, tag.rest);
      if tag.value == 1 {
        var idx := GetIndex(tag.rest).value;
        var off := GetVar(idx.rest).value;
        IndexExact(tag.rest, idx.value, idx.rest);
        VarExact(idx.rest, off.value, off.rest);
        VarExact(off.rest, op.len, rest);
      } else {
        VarExact(tag.rest, op.len, rest);
      }
    }
  }

  predicate WfOp(op: FileOp) {
    true
  }

  lemma OpLawful()
    ensures Lawful(PutOp, GetOp, WfOp)
  {
    forall s, op, rest ensures Exact(PutOp, GetOp, WfOp, s, op, rest) {
      OpExact(s, op, rest);
    }
  }

  /** An old-file index and a section index. */
  function PutPair(idx: U32, sec: U32, tail: Data): Data {
    PutVar(idx, PutVar(sec, tail))
  }

  function GetPair(s: Data): Result<Parsed<(U32, U32)>> {
    var idx :- GetIndex(s);
    var sec :- GetIndex(idx.rest);
    Ok(Parsed((idx.value, sec.value), sec.rest, idx.clean && sec.clean))
  }

  lemma PairExact(s: Data, idx: U32, sec: U32, rest: Data)
    ensures GetPair(s) == Ok(Parsed((idx, sec), rest, true)) <==> s == PutPair(idx, sec, rest)
  {
    IndexExact(s, idx, PutVar(sec, rest));
    IndexExact(PutVar(sec, rest), sec, rest);
    if GetPair(s).Ok? {
      var first := GetIndex(s).value;
      IndexExact(s, idx, first.rest);
      IndexExact(first.rest, sec, rest);
    }
  }

  /** The section index and op list of a plan. */
  function PutPlan(sec: U32, ops: seq<FileOp>, tail: Data): Data {
    PutVar(sec, PutCounted(ops, tail, PutOp))
  }

  function GetPlan(s: Data): Result<Parsed<(U32, seq<FileOp>)>> {
    var sec :- GetIndex(s);
    var ops :- GetCounted(sec.rest, MAX_OPS, GetOp);
    Ok(Parsed((sec.value, ops.value), ops.rest, sec.clean && ops.clean))
  }

  lemma {:induction false} PlanExact(s: Data, sec: U32, ops: seq<FileOp>, rest: Data)
    ensures GetPlan(s) == Ok(Parsed((sec, ops), rest, true))
      <==> |ops| <= MAX_OPS && s == PutPlan(sec, ops, rest)
    ensures GetPlan(s).Ok? ==> |GetPlan(s).value.value.1| <= MAX_OPS
  {
    OpLawful();
    var s1 := PutCounted(ops, rest, PutOp);
    IndexExact(s, sec, s1);
    CountedExact(s1, ops, rest, MAX_OPS, PutOp, GetOp, WfOp);
    if GetPlan(s).Ok? {
      var first := GetIndex(s).value;
      IndexExact(s, first.value, first.rest);
      CountedExact(first.rest, ops, rest, MAX_OPS, PutOp, GetOp, WfOp);
    }
  }

  function StrategyTag(x: Option<Strategy>): Byte {
    match x
    case None => 0
    case Some(CopyWhole(_)) => 1
    case Some(PlanOps(_, _)) => 2
    case Some(Bsdiff(_, _)) => 3
    case Some(Xdelta3(_, _)) => 4
    case Some(FullData(_)) => 5
  }

  function PutFields(x: Option<Strategy>, tail: Data): Data {
    match x
    case None => tail
    case Some(CopyWhole(idx)) => PutVar(idx, tail)
    case Some(PlanOps(sec, ops)) => PutPlan(sec, ops, tail)
    case Some(Bsdiff(idx, sec)) => PutPair(idx, sec, tail)
    case Some(Xdelta3(idx, sec)) => PutPair(idx, sec, tail)
    case Some(FullData(sec)) => PutVar(sec, tail)
  }

  function GetFields(tag: Byte, s: Data): Result<Parsed<Option<Strategy>>> {
    if tag == 0 then Ok(Parsed(None, s, true))
    else if tag == 2 then
      var plan :- GetPlan(s);
      Ok(Parsed(Some(PlanOps(plan.value.0, plan.value.1)), plan.rest, plan.clean))
    else if tag == 1 || tag == 5 then
      var idx :- GetIndex(s);
      Ok(Parsed(Some(if tag == 1 then CopyWhole(idx.value) else FullData(idx.value)), idx.rest, idx.clean))
    else if tag == 3 || tag == 4 then
      var pair :- GetPair(s);
      var x := if tag == 3 then Bsdiff(pair.value.0, pair.value.1) else Xdelta3(pair.value.0, pair.value.1);
      Ok(Parsed(Some(x), pair.rest, pair.clean))
    else Err(PatchCorrupt)
  }

  function PutStrategy(x: Option<Strategy>, tail: Data): Data {
    PutByte(StrategyTag(x), PutFields(x, tail))
  }

  function GetStrategy(s: Data): Result<Parsed<Option<Strategy>>> {
    var tag :- GetByte(s);
    GetFields(tag.value, tag.rest)
  }

  predicate WfStrategy(x: Option<Strategy>) {
    x.Some? && x.value.PlanOps? ==> |x.value.ops| <= MAX_OPS
  }

  lemma FieldsReadBack(x: Option<Strategy>, rest: Data)
    requires WfStrategy(x)
    ensures GetFields(StrategyTag(x), PutFields(x, rest)) == Ok(Parsed(x, rest, true))
  {
    hide PutVar, GetIndex, GetPair, PutPlan, GetPlan;
    match x
    case None =>
    case Some(CopyWhole(idx)) => IndexExact(PutVar(idx, rest), idx, rest);
    case Some(PlanOps(sec, ops)) => PlanExact(PutPlan(sec, ops, rest), sec, ops, rest);
    case Some(Bsdiff(idx, sec)) => PairExact(PutPair(idx, sec, rest), idx, sec, rest);
    case Some(Xdelta3(idx, sec)) => PairExact(PutPair(idx, sec, rest), idx, sec, rest);
    case Some(FullData(sec)) => IndexExact(PutVar(sec, rest), sec, rest);
  }

  lemma {:induction false} FieldsOnlyWritten(tag: Byte, s: Data)
    requires GetFields(tag, s).Ok?
    ensures var r := GetFields(tag, s).value;
      && WfStrategy(r.value) && tag == StrategyTag(r.value)
      && (r.clean ==> s == PutFields(r.value, r.rest))
  {
    if tag == 2 {
      var plan := GetPlan(s).value;
      PlanExact(s, plan.value.0, plan.value.1, plan.rest);
    } else if tag == 3 || tag == 4 {
      var pair := GetPair(s).value;
      PairExact(s, pair.value.0, pair.value.1, pair.rest);
    } else if tag != 0 {
      var idx := GetIndex(s).value;
      IndexExact(s, idx.value, idx.rest);
    }
  }

  lemma StrategyReadBack(x: Option<Strategy>, rest: Data)
    requires WfStrategy(x)
    ensures GetStrategy(PutStrategy(x, rest)) == Ok(Parsed(x, rest, true))
  {
    ByteExact(PutStrategy(x, rest), StrategyTag(x), PutFields(x, rest));
    FieldsReadBack(x, rest);
  }

  lemma StrategyOnlyWritten(s: Data)
    requires GetStrategy(s).Ok?
    ensures var r := GetStrategy(s).value;
      WfStrategy(r.value) && (r.clean ==> s == PutStrategy(r.value, r.rest))
  {
    var tag := GetByte(s).value;
    ByteExact(s, tag.value, tag.rest);
    FieldsOnlyWritten(tag.value, tag.rest);
  }

  function PutKind(k: EntryKind, tail: Data): Data {
    match k
    case FileEntry => PutByte(1, tail)
    case DirectoryEntry => PutByte(2, tail)
    case SymlinkEntry => PutByte(3, tail)
  }

  function GetKind(s: Data): Result<Parsed<EntryKind>> {
    var b :- GetByte(s);
    if b.value == 1 then Ok(Parsed(FileEntry, b.rest, true))
    else if b.value == 2 then Ok(Parsed(DirectoryEntry, b.rest, true))
    else if b.value == 3 then Ok(Parsed(SymlinkEntry, b.rest, true))
    else Err(PatchCorrupt)
  }

  lemma KindExact(s: Data, k: EntryKind, rest: Data)
    ensures GetKind(s) == Ok(Parsed(k, rest, true)) <==> s == PutKind(k, rest)
    ensures GetKind(s).Ok? ==> GetKind(s).value.clean
  {
    ByteExact(s, if k.FileEntry? then 1 else if k.DirectoryEntry? then 2 else 3, rest);
  }

  function PutFlag(b: bool, tail: Data): Data {
    PutByte(if b then 1 else 0, tail)
  }

  /** `take(..)?[0] == 1`: every byte but 1 reads as false. */
  function GetFlag(s: Data): Result<Parsed<bool>> {
    var b :- GetByte(s);
    Ok(Parsed(b.value == 1, b.rest, b.value <= 1))
  }

  lemma FlagExact(s: Data, b: bool, rest: Data)
    ensures GetFlag(s) == Ok(Parsed(b, rest, true)) <==> s == PutFlag(b, rest)
  {
    ByteExact(s, if b then 1 else 0, rest);
  }

  function PutOptHash(h: Option<ChunkHash>, tail: Data): Data {
    match h case None => PutByte(0, tail) case Some(x) => PutByte(1, x + tail)
  }

  function GetOptHash(s: Data): Result<Parsed<Option<ChunkHash>>> {
    var flag :- GetByte(s);
    if flag.value == 0 then Ok(Parsed(None, flag.rest, true))
    else if flag.value == 1 then
      var h :- Take(flag.rest, 32);
      var digest: ChunkHash := h.value;
      Ok(Parsed(Some(digest), h.rest, true))
    else Err(PatchCorrupt)
  }

  lemma OptHashExact(s: Data, h: Option<ChunkHash>, rest: Data)
    ensures GetOptHash(s) == Ok(Parsed(h, rest, true)) <==> s == PutOptHash(h, rest)
    ensures GetOptHash(s).Ok? ==> GetOptHash(s).value.clean
  {
    match h {
      case None => ByteExact(s, 0, rest);
      case Some(x) =>
        ByteExact(s, 1, x + rest);
        TakeExact(x + rest, x, rest);
    }
    if GetOptHash(s).Ok? {
      var flag := GetByte(s).value;
      ByteExact(s, flag.value, flag.rest);
      if flag.value == 1 {
        var x := Take(flag.rest, 32).value;
        TakeExact(flag.rest, x.value, x.rest);
      }
    }
  }

  /** The fields of an entry from the executable flag on. */
  datatype Traits = Traits(executable: bool, symlinkTarget: Option<Data>,
                           blake3: Option<ChunkHash>, strategy: Option<Strategy>)

  function TargetText(target: Option<Data>): Data {
    if target.Some? then target.value else []
  }

  function PutTraits(t: Traits, tail: Data): Data {
    PutFlag(t.executable, PutStr(TargetText(t.symlinkTarget), PutOptHash(t.blake3, PutStrategy(t.strategy, tail))))
  }

  function GetTraits(s: Data): Result<Parsed<Traits>> {
    var exec :- GetFlag(s);
    var target :- GetStr(exec.rest);
    var hash :- GetOptHash(target.rest);
    var strategy :- GetStrategy(hash.rest);
    Ok(Parsed(Traits(exec.value, if target.value == [] then None else Some(target.value),
                     hash.value, strategy.value),
              strategy.rest, exec.clean && strategy.clean))
  }

  predicate WfTraits(t: Traits) {
    && (t.symlinkTarget.Some? ==> t.symlinkTarget.value != [] && WfStr(t.symlinkTarget.value))
    && WfStrategy(t.strategy)
  }

  lemma TraitsReadBack(t: Traits, rest: Data)
    requires WfTraits(t)
    ensures GetTraits(PutTraits(t, rest)) == Ok(Parsed(t, rest, true))
  {
    var target := TargetText(t.symlinkTarget);
    var s3 := PutStrategy(t.strategy, rest);
    var s2 := PutOptHash(t.blake3, s3);
    var s1 := PutStr(target, s2);
    FlagExact(PutTraits(t, rest), t.executable, s1);
    assert WfStr(target);
    StrExact(s1, target, s2);
    OptHashExact(s2, t.blake3, s3);
    StrategyReadBack(t.strategy, rest);
  }

  lemma TraitsOnlyWritten(s: Data)
    requires GetTraits(s).Ok?
    ensures var r := GetTraits(s).value;
      WfTraits(r.value) && (r.clean ==> s == PutTraits(r.value, r.rest))
  {
    var exec := GetFlag(s).value;
    var target := GetStr(exec.rest).value;
    var hash := GetOptHash(target.rest).value;
    FlagExact(s, exec.value, exec.rest);
    StrExact(exec.rest, target.value, target.rest);
    OptHashExact(target.rest, hash.value, hash.rest);
    StrategyOnlyWritten(hash.rest);
  }

  function PutEntry(e: NewEntry, tail: Data): Data {
    PutStr(e.path, PutKind(e.kind, PutVar(e.size,
      PutTraits(Traits(e.executable, e.symlinkTarget, e.blake3, e.strategy), tail))))
  }

  function GetEntry(s: Data): Result<Parsed<NewEntry>> {
    var path :- GetStr(s);
    var kind :- GetKind(path.rest);
    var size :- GetVar(kind.rest);
    var t :- GetTraits(size.rest);
    Ok(Parsed(NewEntry(path.value, kind.value, size.value, t.value.executable, t.value.symlinkTarget,
                       t.value.blake3, t.value.strategy), t.rest, t.clean))
  }

  predicate WfEntry(e: NewEntry) {
    WfStr(e.path) && WfTraits(Traits(e.executable, e.symlinkTarget, e.blake3, e.strategy))
  }

  lemma EntryReadBack(e: NewEntry, rest: Data)
    requires WfEntry(e)
    ensures GetEntry(PutEntry(e, rest)) == Ok(Parsed(e, rest, true))
  {
    var t := Traits(e.executable, e.symlinkTarget, e.blake3, e.strategy);
    var s3 := PutTraits(t, rest);
    var s2 := PutVar(e.size, s3);
    var s1 := PutKind(e.kind, s2);
    StrExact(PutEntry(e, rest), e.path, s1);
    KindExact(s1, e.kind, s2);
    VarExact(s2, e.size, s3);
    TraitsReadBack(t, rest);
  }

  lemma {:induction false} EntryOnlyWritten(s: Data)
    requires GetEntry(s).Ok?
    ensures var r := GetEntry(s).value;
      WfEntry(r.value) && (r.clean ==> s == PutEntry(r.value, r.rest))
  {
    var path := GetStr(s).value;
    var kind := GetKind(path.rest).value;
    var size := GetVar(kind.rest).value;
    StrExact(s, path.value, path.rest);
    KindExact(path.rest, kind.value, kind.rest);
    VarExact(kind.rest, size.value, size.rest);
    TraitsOnlyWritten(size.rest);
  }

  function PutBlob(digest: ChunkHash, data: Data, tail: Data): Data {
    digest + (data + tail)
  }

  function PutSection(x: Section, tail: Data): Data {
    PutStr(x.compression, PutVar(x.rawLen, PutVar(|x.data|, PutBlob(x.rawBlake3, x.data, tail))))
  }

  function GetSection(s: Data): Result<Parsed<Section>> {
    var compression :- GetStr(s);
    var rawLen :- GetVar(compression.rest);
    var compLen :- GetVar(rawLen.rest);
    var hash :- Take(compLen.rest, 32);
    var data :- Take(hash.rest, compLen.value);
    Ok(Parsed(Section(compression.value, rawLen.value, hash.value, data.value), data.rest, true))
  }

  /** A section payload has a 64-bit length, as every `Vec` does. */
  predicate WfSection(x: Section) {
    WfStr(x.compression) && |x.data| < TWO_64
  }

  lemma {:induction false} SectionExact(s: Data, x: Section, rest: Data)
    ensures GetSection(s) == Ok(Parsed(x, rest, true)) <==> WfSection(x) && s == PutSection(x, rest)
    ensures GetSection(s).Ok? ==> WfSection(GetSection(s).value.value)
  {
    if WfSection(x) && s == PutSection(x, rest) {
      var s3 := x.rawBlake3 + (x.data + rest);
      var s2 := PutVar(|x.data|, s3);
      var s1 := PutVar(x.rawLen, s2);
      StrExact(s, x.compression, s1);
      VarExact(s1, x.rawLen, s2);
      VarExact(s2, |x.data|, s3);
      TakeExact(s3, x.rawBlake3, x.data + rest);
      TakeExact(x.data + rest, x.data, rest);
    }
    if GetSection(s).Ok? {
      var compression := GetStr(s).value;
      var rawLen := GetVar(compression.rest).value;
      var compLen := GetVar(rawLen.rest).value;
      var hash := Take(compLen.rest, 32).value;
      var data := Take(hash.rest, compLen.value).value;
      StrExact(s, compression.value, compression.rest);
      VarExact(compression.rest, rawLen.value, rawLen.rest);
      VarExact(rawLen.rest, compLen.value, compLen.rest);
      TakeExact(compLen.rest, hash.value, hash.rest);
      TakeExact(hash.rest, data.value, data.rest);
    }
  }

  lemma OldFileLawful()
    ensures Lawful(PutOldFile, GetOldFile, WfOldFile)
  {
    forall s, v, rest ensures Exact(PutOldFile, GetOldFile, WfOldFile, s, v, rest) {
      OldFileExact(s, v, rest);
    }
  }

  lemma {:induction false} StrLawful()
    ensures Lawful(PutStr, GetStr, WfStr)
  {
    forall s, v, rest ensures Exact(PutStr, GetStr, WfStr, s, v, rest) {
      StrExact(s, v, rest);
    }
  }

  lemma {:induction false} SectionLawful()
    ensures Lawful(PutSection, GetSection, WfSection)
  {
    forall s, v, rest ensures Exact(PutSection, GetSection, WfSection, s, v, rest) {
      SectionExact(s, v, rest);
    }
  }

  lemma {:induction false} EntryExact(s: Data, e: NewEntry, rest: Data)
    ensures GetEntry(s) == Ok(Parsed(e, rest, true)) <==> WfEntry(e) && s == PutEntry(e, rest)
    ensures GetEntry(s).Ok? ==> WfEntry(GetEntry(s).value.value)
  {
    if GetEntry(s).Ok? {
      EntryOnlyWritten(s);
    }
    if WfEntry(e) {
      EntryReadBack(e, rest);
    }
  }

  lemma {:induction false} EntryLawful()
    ensures Lawful(PutEntry, GetEntry, WfEntry)
  {
    forall s, v, rest ensures Exact(PutEntry, GetEntry, WfEntry, s, v, rest) {
      EntryExact(s, v, rest);
    }
  }
}
