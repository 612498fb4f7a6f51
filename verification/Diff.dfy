/** `diff_bytes`: the scan that finds ranges of a new payload among the blocks of an old build. */
module Diff {
  import opened Bytes
  import opened Compile

  // ---------- Weak rolling hash ----------

  function SumA(w: Data): nat {
    if w == [] then 0 else w[0] + SumA(w[1..])
  }

  function SumB(w: Data): nat {
    if w == [] then 0 else |w| * w[0] + SumB(w[1..])
  }

  /** `weak32`: both sums modulo 2^16. */
  function Weak(w: Data): (r: U32)
  {
    SumA(w) % 0x1_0000 + SumB(w) % 0x1_0000 * 0x1_0000
  }

  lemma OneMoreTime(n: nat, x: nat)
    ensures (n + 1) * x == n * x + x
  {
  }

  lemma {:induction false} SumsAppend(w: Data, x: Byte)
    ensures SumA(w + [x]) == SumA(w) + x
    ensures SumB(w + [x]) == SumB(w) + SumA(w) + x
  {
    if w == [] {
      assert [] + [x] == [x];
    } else {
      assert (w + [x])[1..] == w[1..] + [x];
      SumsAppend(w[1..], x);
      OneMoreTime(|w|, w[0]);
    }
  }

  lemma {:induction false} SumsSlide(w: Data, x: Byte)
    requires w != []
    ensures SumA(w[1..] + [x]) == SumA(w) - w[0] + x
    ensures SumB(w[1..] + [x]) == SumB(w) - |w| * w[0] + SumA(w[1..] + [x])
  {
    SumsAppend(w[1..], x);
  }

  function Wrap32(n: int): U32 {
    n % TWO_32
  }

  lemma ShiftWraps(a: int, q: int)
    ensures Wrap32(a + TWO_32 * q) == Wrap32(a)
  {
  }

  lemma WrapLeft(a: int, b: int)
    ensures Wrap32(Wrap32(a) + b) == Wrap32(a + b)
  {
    ShiftWraps(Wrap32(a) + b, a / TWO_32);
  }

  lemma WrapRight(a: int, b: int)
    ensures Wrap32(a - Wrap32(b)) == Wrap32(a - b)
  {
    ShiftWraps(a - b, b / TWO_32);
  }

  lemma ShiftLow(a: int, q: int)
    ensures (a + 0x1_0000 * q) % 0x1_0000 == a % 0x1_0000
  {
  }

  lemma WrapLow(a: int)
    ensures Wrap32(a) % 0x1_0000 == a % 0x1_0000
  {
    ShiftLow(Wrap32(a), 0x1_0000 * (a / TWO_32));
  }

  /** `RollingWeak`, in wrapping 32-bit arithmetic. */
  class RollingWeak {
    var a: U32
    var b: U32
    const len: U32

    ghost predicate Describes(window: Data)
      reads this
    {
      len == Wrap32(|window|) && a == Wrap32(SumA(window)) && b == Wrap32(SumB(window))
    }

    constructor (window: Data)
      ensures Describes(window)
    {
      var x: U32, y: U32, n := 0, 0, Wrap32(|window|);
      for i := 0 to |window|
        invariant Summed(window, i, x, y)
      {
        SummedStep(window, i, x, y);
        x := Wrap32(x + window[i]);
        y := Wrap32(y + Wrap32(Wrap32(n - Wrap32(i)) * window[i]));
      }
      assert window[..|window|] == window;
      a, b, len := x, y, n;
    }

    method Roll(out: Byte, inp: Byte, ghost window: Data)
      requires window != [] && window[0] == out && Describes(window)
      modifies this
      ensures Describes(window[1..] + [inp])
    {
      hide Wrap32, SumB;
      SumsSlide(window, inp);
      RollA(SumA(window), out, inp);
      MulWraps(|window|, out);
      RollB(SumB(window), |window| * out, SumA(window) - out + inp);
      a := Wrap32(Wrap32(a - out) + inp);
      b := Wrap32(Wrap32(b - Wrap32(len * out)) + a);
    }

    method Digest(ghost window: Data) returns (d: U32)
      requires Describes(window)
      ensures d == Weak(window)
    {
      WrapLow(SumA(window));
      WrapLow(SumB(window));
      d := a % 0x1_0000 + b % 0x1_0000 * 0x1_0000;
    }
  }

  /** The one-pass sums after `i` bytes. */
  predicate Summed(window: Data, i: nat, x: U32, y: U32)
    requires i <= |window|
  {
    x == Wrap32(SumA(window[..i])) && Wrap32(y + SumB(window[i..])) == Wrap32(SumB(window))
  }

  lemma {:induction false} SummedStep(window: Data, i: nat, x: U32, y: U32)
    requires i < |window| && Summed(window, i, x, y)
    ensures Summed(window, i + 1, Wrap32(x + window[i]),
                   Wrap32(y + Wrap32(Wrap32(Wrap32(|window|) - Wrap32(i)) * window[i])))
  {
    var rest := window[i..];
    assert rest[0] == window[i] && rest[1..] == window[i + 1..];
    assert window[..i + 1] == window[..i] + [window[i]];
    SumsAppend(window[..i], window[i]);
    WrapLeft(SumA(window[..i]), window[i]);
    TermWraps(|window|, i, window[i], y, SumB(window[i + 1..]));
  }

  lemma {:induction false} MulWraps(k: int, m: int)
    ensures Wrap32(Wrap32(k) * m) == Wrap32(k * m)
  {
    var q := k / TWO_32;
    assert k == Wrap32(k) + TWO_32 * q;
    assert k * m == Wrap32(k) * m + TWO_32 * (q * m) by {
      assert (Wrap32(k) + TWO_32 * q) * m == Wrap32(k) * m + TWO_32 * q * m;
    }
    ShiftWraps(Wrap32(k) * m, q * m);
  }

  lemma {:induction false} TermWraps(len: nat, i: nat, x: Byte, y: int, rest: nat)
    requires i < len
    ensures Wrap32(Wrap32(y + Wrap32(Wrap32(Wrap32(len) - Wrap32(i)) * x)) + rest)
         == Wrap32(y + ((len - i) * x + rest))
  {
    WrapRight(Wrap32(len), i);
    WrapLeft(len, 0 - i as int);
    MulWraps(len - i, x);
    var term := (len - i) * x;
    WrapLeft(term, y);
    WrapLeft(y + term, rest);
  }

  lemma RollA(a: nat, out: Byte, inp: Byte)
    ensures Wrap32(Wrap32(Wrap32(a) - out) + inp) == Wrap32(a - out + inp)
  {
    WrapLeft(a, 0 - out as int);
    WrapLeft(a - out, inp);
  }

  lemma RollB(b: nat, drop: int, a: int)
    ensures Wrap32(Wrap32(Wrap32(b) - Wrap32(drop)) + Wrap32(a)) == Wrap32(b - drop + a)
  {
    WrapRight(Wrap32(b), drop);
    WrapLeft(b, -drop);
    WrapLeft(b - drop, Wrap32(a));
    WrapLeft(a, b - drop);
  }

  // ---------- Signature ----------

  datatype Block = Block(entryId: U32, offset: U64, len: nat, weak32: U32, strong: ChunkHash)

  datatype Signature = Signature(blockSize: nat, blocks: seq<Block>, paths: map<U32, Data>)

  predicate InSource(b: Block, src: map<U32, Data>) {
    b.entryId in src && b.offset + b.len <= |src[b.entryId]|
  }

  function Content(b: Block, src: map<U32, Data>): Data
    requires InSource(b, src)
  {
    src[b.entryId][b.offset..b.offset + b.len]
  }

  /** The signature was taken of `src`, and no other content shares a block's strong hash. */
  ghost predicate Describes(sig: Signature, src: map<U32, Data>, hash: Data -> ChunkHash) {
    && sig.blockSize > 0
    && (forall id <- src :: |src[id]| < TWO_64)
    && forall b <- sig.blocks :: InSource(b, src)
         && b.strong == hash(Content(b, src)) && b.weak32 == Weak(Content(b, src))
         && NoCollision(hash, Content(b, src))
  }

  /** Some full-size old block holds exactly the window of `new_` at `q`. */
  ghost predicate Reusable(sig: Signature, src: map<U32, Data>, new_: Data, q: nat) {
    q + sig.blockSize <= |new_| &&
    exists b <- sig.blocks :: b.len == sig.blockSize && InSource(b, src)
      && Content(b, src) == new_[q..q + sig.blockSize]
  }

  /** `op` copies from where some full-size old block that holds the first window of `new_` begins. */
  ghost predicate CopiesFirst(sig: Signature, src: map<U32, Data>, new_: Data, op: DiffOp) {
    op.CopyOldRange? && op.newOffset == 0 && op.len >= sig.blockSize &&
    exists b <- sig.blocks :: b.len == sig.blockSize <= |new_| && InSource(b, src)
      && Content(b, src) == new_[..sig.blockSize] && b.entryId == op.entryId && b.offset == op.oldOffset
  }

  method BuildIndex(sig: Signature) returns (byWeak: map<U32, seq<nat>>)
    ensures IndexOf(byWeak, sig)
  {
    byWeak := map[];
    for i := 0 to |sig.blocks|
      invariant forall w, k :: w in byWeak && 0 <= k < |byWeak[w]| ==>
        byWeak[w][k] < i && sig.blocks[byWeak[w][k]].len == sig.blockSize
      invariant forall k | 0 <= k < i && sig.blocks[k].len == sig.blockSize ::
        sig.blocks[k].weak32 in byWeak && k in byWeak[sig.blocks[k].weak32]
    {
      var b := sig.blocks[i];
      if b.len == sig.blockSize {
        var bucket := if b.weak32 in byWeak then byWeak[b.weak32] else [];
        byWeak := byWeak[b.weak32 := bucket + [i]];
      }
    }
  }

  /** Preference among confirmed blocks: the target's own path, then the continuation of the
      previous copy, then low offsets and low entry ids. */
  function Score(sig: Signature, b: Block, target: Option<Data>, prev: Option<(U32, nat)>): int {
    var continues := prev.Some? && b.entryId == prev.value.0 && b.offset == prev.value.1;
    var samePath := target.Some? && b.entryId in sig.paths && sig.paths[b.entryId] == target.value;
    ((if continues then 500 else 0) + (if samePath then 1000 else 0)) * 1_000_000
      - Min(b.offset, 500_000) - b.entryId
  }

  method Pick(sig: Signature, matching: seq<nat>, target: Option<Data>, prev: Option<(U32, nat)>)
    returns (best: Option<nat>)
    requires forall k | 0 <= k < |matching| :: matching[k] < |sig.blocks|
    ensures best.Some? <==> matching != []
    ensures best.Some? ==> best.value in matching && forall m <- matching ::
      Score(sig, sig.blocks[m], target, prev) <= Score(sig, sig.blocks[best.value], target, prev)
  {
    best := None;
    for i := 0 to |matching|
      invariant best.Some? <==> i > 0
      invariant best.Some? ==> best.value in matching && forall k | 0 <= k < i ::
        Score(sig, sig.blocks[matching[k]], target, prev) <= Score(sig, sig.blocks[best.value], target, prev)
    {
      if best.None? || Score(sig, sig.blocks[best.value], target, prev)
                       <= Score(sig, sig.blocks[matching[i]], target, prev) {
        best := Some(matching[i]);
      }
    }
  }

  const MAX_INLINE: nat := 4194304

  predicate Capped(ops: seq<DiffOp>) {
    forall op <- ops :: 0 < op.len && (op.InlineData? ==> op.len <= MAX_INLINE)
  }

  /** Everything a diff of `new_` against `src` must be, over its first `end` bytes. */
  predicate GoodPlan(ops: seq<DiffOp>, src: map<U32, Data>, new_: Data, end: nat) {
    && end <= |new_| && Tiles(ops, 0, end)
    && Readable(ops, src) && WithinNew(ops, |new_|) && Agrees(ops, src, new_)
    && Capped(ops)
  }

  lemma {:induction false} TilesAppend(ops: seq<DiffOp>, at: nat, mid: nat, op: DiffOp)
    requires Tiles(ops, at, mid) && op.newOffset == mid
    ensures Tiles(ops + [op], at, mid + op.len)
    decreases |ops|
  {
    if ops == [] {
      assert [op][1..] == [];
    } else {
      assert (ops + [op])[1..] == ops[1..] + [op];
      TilesAppend(ops[1..], at + ops[0].len, mid, op);
    }
  }

  lemma PlanAppend(ops: seq<DiffOp>, src: map<U32, Data>, new_: Data, end: nat, op: DiffOp)
    requires GoodPlan(ops, src, new_, end) && op.newOffset == end && end + op.len <= |new_|
    requires OpReadable(op, src)
    requires 0 < op.len && (op.InlineData? ==> op.len <= MAX_INLINE)
    requires op.CopyOldRange? ==>
      src[op.entryId][op.oldOffset..op.oldOffset + op.len] == new_[end..end + op.len]
    ensures GoodPlan(ops + [op], src, new_, end + op.len)
  {
    TilesAppend(ops, 0, end, op);
  }

  /** `q..q + n` touches no copied range. */
  predicate Uncopied(ops: seq<DiffOp>, q: nat, n: nat) {
    forall op <- ops :: op.CopyOldRange? ==> op.newOffset + op.len <= q || q + n <= op.newOffset
  }

  method EmitInline(ops: seq<DiffOp>, from: nat, to: nat, ghost src: map<U32, Data>, ghost new_: Data)
    returns (out: seq<DiffOp>)
    requires GoodPlan(ops, src, new_, from) && from <= to <= |new_| < TWO_64
    ensures GoodPlan(out, src, new_, to)
    ensures |ops| <= |out| && (|out| > |ops| ==> (|out| - |ops| - 1) * MAX_INLINE < to - from)
    ensures out[..|ops|] == ops && (from == to ==> out == ops)
    ensures forall q, n :: Uncopied(out, q, n) ==> Uncopied(ops, q, n)
  {
    out := ops;
    var at := from;
    while at < to
      invariant from <= at <= to
      invariant |ops| <= |out| && out[..|ops|] == ops && (from == to ==> out == ops)
      invariant at < to ==> (|out| - |ops|) * MAX_INLINE == at - from
      invariant |out| > |ops| ==> (|out| - |ops| - 1) * MAX_INLINE < at - from
      invariant GoodPlan(out, src, new_, at)
      invariant forall q, n :: Uncopied(out, q, n) ==> Uncopied(ops, q, n)
    {
      var len := Min(to - at, MAX_INLINE);
      var op := InlineData(at, len);
      PlanAppend(out, src, new_, at, op);
      forall q, n | Uncopied(out + [op], q, n) ensures Uncopied(out, q, n) {
        assert forall x <- out :: x in out + [op];
      }
      out, at := out + [op], at + len;
    }
  }

  method Confirm(sig: Signature, cands: seq<nat>, strong: ChunkHash) returns (matching: seq<nat>)
    requires forall k | 0 <= k < |cands| :: cands[k] < |sig.blocks|
    ensures forall k | 0 <= k < |matching| ::
      matching[k] in cands && matching[k] < |sig.blocks| && sig.blocks[matching[k]].strong == strong
    ensures matching == [] ==> forall k | 0 <= k < |cands| :: sig.blocks[cands[k]].strong != strong
  {
    matching := [];
    for i := 0 to |cands|
      invariant forall k | 0 <= k < |matching| ::
        matching[k] in cands && matching[k] < |sig.blocks| && sig.blocks[matching[k]].strong == strong
      invariant matching == [] ==> forall k | 0 <= k < i :: sig.blocks[cands[k]].strong != strong
    {
      if sig.blocks[cands[i]].strong == strong {
        matching := matching + [cands[i]];
      }
    }
  }

  /** The block to copy at `q`, if any full-size old block holds that window. */
  method FindBlock(sig: Signature, byWeak: map<U32, seq<nat>>, new_: Data, q: nat, weak: U32,
                   target: Option<Data>, prev: Option<(U32, nat)>, hash: Data -> ChunkHash,
                   ghost src: map<U32, Data>)
    returns (found: Option<Block>)
    requires Describes(sig, src, hash)
    requires IndexOf(byWeak, sig)
    requires q + sig.blockSize <= |new_| && weak == Weak(new_[q..q + sig.blockSize])
    ensures found.Some? <==> Reusable(sig, src, new_, q)
    ensures found.Some? ==>
      && found.value in sig.blocks && InSource(found.value, src) && found.value.len == sig.blockSize
      && Content(found.value, src) == new_[q..q + sig.blockSize]
  {
    ghost var window := new_[q..q + sig.blockSize];
    var cands := if weak in byWeak then byWeak[weak] else [];
    var strong := hash(new_[q..q + sig.blockSize]);
    var matching := Confirm(sig, cands, strong);
    var best := Pick(sig, matching, target, prev);
    if best.Some? {
      var b := sig.blocks[best.value];
      assert b in sig.blocks && hash(window) == hash(Content(b, src));
      return Some(b);
    }
    return None;
  }

  /** No window before `upto` that the copies leave alone could have been copied. */
  ghost predicate NoneMissed(sig: Signature, src: map<U32, Data>, new_: Data, ops: seq<DiffOp>, upto: nat) {
    forall q: nat :: q < upto && Uncopied(ops, q, sig.blockSize) ==> !Reusable(sig, src, new_, q)
  }

  lemma NoneMissedStep(sig: Signature, src: map<U32, Data>, new_: Data, ops: seq<DiffOp>, upto: nat)
    requires NoneMissed(sig, src, new_, ops, upto) && !Reusable(sig, src, new_, upto)
    ensures NoneMissed(sig, src, new_, ops, upto + 1)
  {
  }

  lemma NoneMissedAtEnd(sig: Signature, src: map<U32, Data>, new_: Data, ops: seq<DiffOp>, upto: nat)
    requires NoneMissed(sig, src, new_, ops, upto) && upto + sig.blockSize > |new_|
    ensures NoneMissed(sig, src, new_, ops, |new_| + 1)
  {
  }

  lemma NoOps(blockSize: nat)
    ensures FewOps(0, blockSize, 0)
  {
  }

  /** A plan of blocks no larger than an inline run spends at most two ops per block. */
  predicate FewOps(count: nat, blockSize: nat, n: nat) {
    blockSize <= MAX_INLINE ==> count * blockSize <= 2 * n
  }

  /** An inline stretch of `gap` bytes takes `runs` ops, all but the last of them full. */
  lemma StretchCost(count: nat, runs: nat, gap: nat, blockSize: nat, n: nat)
    requires FewOps(count, blockSize, n) && (runs > 0 ==> (runs - 1) * MAX_INLINE < gap)
    ensures blockSize <= MAX_INLINE ==> (count + runs) * blockSize <= 2 * n + gap + blockSize
  {
    if blockSize <= MAX_INLINE && runs > 0 {
      var full := runs - 1;
      assert blockSize * full <= MAX_INLINE * full by { ScaleUp(blockSize, MAX_INLINE, full); }
      assert (count + full + 1) * blockSize == count * blockSize + blockSize * full + blockSize;
    }
  }

  lemma BlockCost(count: nat, runs: nat, gap: nat, blockSize: nat, n: nat)
    requires FewOps(count, blockSize, n) && (runs > 0 ==> (runs - 1) * MAX_INLINE < gap)
    ensures FewOps(count + runs + 1, blockSize, n + gap + blockSize)
  {
    StretchCost(count, runs, gap, blockSize, n);
    assert (count + runs + 1) * blockSize == (count + runs) * blockSize + blockSize;
  }

  method CopyBlock(raw: seq<DiffOp>, owed: nat, pos: nat, b: Block, ghost sig: Signature,
                   ghost src: map<U32, Data>, ghost new_: Data)
    returns (out: seq<DiffOp>)
    requires GoodPlan(raw, src, new_, owed) && owed <= pos && pos + b.len <= |new_| < TWO_64
    requires InSource(b, src) && Content(b, src) == new_[pos..pos + b.len]
    requires b.len == sig.blockSize > 0 && NoneMissed(sig, src, new_, raw, pos)
    ensures GoodPlan(out, src, new_, pos + b.len)
    ensures NoneMissed(sig, src, new_, out, pos + b.len)
    ensures FewOps(|raw|, b.len, owed) ==> FewOps(|out|, b.len, pos + b.len)
    ensures out != [] && (raw != [] ==> out[0] == raw[0])
    ensures owed == pos && raw == [] ==> out == [CopyOldRange(b.entryId, b.offset, pos, b.len)]
  {
    hide FewOps;
    var gap := EmitInline(raw, owed, pos, src, new_);
    if FewOps(|raw|, b.len, owed) {
      BlockCost(|raw|, |gap| - |raw|, pos - owed, b.len, owed);
    }
    var op := CopyOldRange(b.entryId, b.offset, pos, b.len);
    PlanAppend(gap, src, new_, pos, op);
    out := gap + [op];
    forall q: nat | q < pos + b.len && Uncopied(out, q, b.len) ensures !Reusable(sig, src, new_, q) {
      assert op in out;
      assert Uncopied(gap, q, b.len) by { assert forall x <- gap :: x in out; }
    }
  }

  lemma EmptyPlan(src: map<U32, Data>, new_: Data)
    ensures GoodPlan([], src, new_, 0)
  {
  }

  lemma PlanFits(ops: seq<DiffOp>, src: map<U32, Data>, new_: Data, end: nat)
    ensures GoodPlan(ops, src, new_, end) ==> end <= |new_|
  {
  }

  /** `diff_bytes`. The plan tiles the new payload with copies that agree with the old bytes and
      capped inline runs, and no inline stretch hides a window some old block could have served. */
  method DiffBytes(sig: Signature, new_: Data, target: Option<Data>, hash: Data -> ChunkHash,
                   ghost src: map<U32, Data>)
    returns (ops: seq<DiffOp>)
    requires Describes(sig, src, hash) && |new_| < TWO_64
    ensures GoodPlan(ops, src, new_, |new_|)
    ensures forall q: nat :: Uncopied(ops, q, sig.blockSize) ==> !Reusable(sig, src, new_, q)
    ensures sig.blockSize <= MAX_INLINE ==> |ops| * sig.blockSize <= 2 * |new_| + sig.blockSize
    ensures Reusable(sig, src, new_, 0) ==> ops != [] && CopiesFirst(sig, src, new_, ops[0])
  {
    hide GoodPlan, Describes;
    var bs := sig.blockSize;
    var raw: seq<DiffOp>, owed: nat := [], 0;
    EmptyPlan(src, new_);
    var byWeak := BuildIndex(sig);
    if |new_| >= bs && byWeak != map[] {
      raw, owed := Scan(sig, byWeak, new_, target, hash, src);
    }
    ghost var scanned := raw;
    PlanFits(raw, src, new_, owed);
    raw := EmitInline(raw, owed, |new_|, src, new_);
    StretchCost(|scanned|, |raw| - |scanned|, |new_| - owed, bs, owed);
    ops := Coalesce(raw, src, new_);
    ScaleUp(|ops|, |raw|, bs);
    forall q: nat | Uncopied(ops, q, bs) ensures !Reusable(sig, src, new_, q) {
      assert Uncopied(scanned, q, bs);
    }
  }

  predicate IndexOf(byWeak: map<U32, seq<nat>>, sig: Signature) {
    && (forall w, k :: w in byWeak && 0 <= k < |byWeak[w]| ==>
          byWeak[w][k] < |sig.blocks| && sig.blocks[byWeak[w][k]].len == sig.blockSize)
    && (forall i | 0 <= i < |sig.blocks| && sig.blocks[i].len == sig.blockSize ::
          sig.blocks[i].weak32 in byWeak && i in byWeak[sig.blocks[i].weak32])
  }

  lemma FirstBlockCopied(sig: Signature, src: map<U32, Data>, new_: Data, b: Block)
    requires b in sig.blocks && b.len == sig.blockSize <= |new_| < TWO_64 && InSource(b, src)
    requires Content(b, src) == new_[0..sig.blockSize]
    ensures CopiesFirst(sig, src, new_, CopyOldRange(b.entryId, b.offset, 0, b.len))
  {
  }

  lemma SlideWindow(s: Data, at: nat, n: nat)
    requires n > 0 && at + n < |s|
    ensures s[at..at + n][1..] + [s[at + n]] == s[at + 1..at + 1 + n]
  {
  }

  /** The sliding-window loop: the ops so far and where the pending inline bytes start. */
  method Scan(sig: Signature, byWeak: map<U32, seq<nat>>, new_: Data, target: Option<Data>,
              hash: Data -> ChunkHash, ghost src: map<U32, Data>)
    returns (raw: seq<DiffOp>, owed: nat)
    requires Describes(sig, src, hash) && sig.blockSize <= |new_| < TWO_64
    requires IndexOf(byWeak, sig)
    ensures GoodPlan(raw, src, new_, owed)
    ensures NoneMissed(sig, src, new_, raw, |new_| + 1)
    ensures FewOps(|raw|, sig.blockSize, owed)
    ensures Reusable(sig, src, new_, 0) ==> raw != [] && CopiesFirst(sig, src, new_, raw[0])
  {
    hide Weak, IndexOf, FewOps, CopiesFirst, Reusable;
    NoOps(sig.blockSize);
    var bs, pos := sig.blockSize, 0;
    var prev: Option<(U32, nat)> := None;
    raw, owed := [], 0;
    var rw := new RollingWeak(new_[0..bs]);
    ghost var window := new_[0..bs];
    while true
      invariant owed <= pos && pos + bs <= |new_|
      invariant GoodPlan(raw, src, new_, owed) && FewOps(|raw|, bs, owed)
      invariant window == new_[pos..pos + bs] && fresh(rw) && rw.Describes(window)
      invariant NoneMissed(sig, src, new_, raw, pos)
      invariant pos == 0 ==> raw == []
      invariant pos > 0 && Reusable(sig, src, new_, 0) ==> raw != [] && CopiesFirst(sig, src, new_, raw[0])
      decreases |new_| - pos
    {
      var weak := rw.Digest(window);
      var matched := FindBlock(sig, byWeak, new_, pos, weak, target, prev, hash, src);
      if matched.Some? {
        var b := matched.value;
        if pos == 0 {
          FirstBlockCopied(sig, src, new_, b);
        }
        raw := CopyBlock(raw, owed, pos, b, sig, src, new_);
        prev := Some((b.entryId, b.offset + bs));
        pos := pos + bs;
        owed := pos;
        if pos + bs > |new_| {
          NoneMissedAtEnd(sig, src, new_, raw, pos);
          break;
        }
        window := new_[pos..pos + bs];
        rw := new RollingWeak(new_[pos..pos + bs]);
      } else {
        NoneMissedStep(sig, src, new_, raw, pos);
        if pos + bs >= |new_| {
          NoneMissedAtEnd(sig, src, new_, raw, pos + 1);
          break;
        }
        SlideWindow(new_, pos, bs);
        rw.Roll(new_[pos], new_[pos + bs], window);
        window := window[1..] + [new_[pos + bs]];
        pos := pos + 1;
      }
    }
  }

  function Mergeable(a: DiffOp, b: DiffOp): bool {
    && a.CopyOldRange? && b.CopyOldRange? && a.entryId == b.entryId
    && a.oldOffset + a.len == b.oldOffset && a.newOffset + a.len == b.newOffset
  }

  lemma {:induction false} TilesLast(ops: seq<DiffOp>, at: nat, end: nat)
    requires ops != [] && Tiles(ops, at, end)
    ensures var last := ops[|ops| - 1];
      Tiles(ops[..|ops| - 1], at, last.newOffset) && last.newOffset + last.len == end
    decreases |ops|
  {
    if |ops| == 1 {
      assert ops[..0] == [] && ops[1..] == [];
    } else {
      TilesLast(ops[1..], at + ops[0].len, end);
      assert ops[1..][..|ops| - 2] == ops[..|ops| - 1][1..];
    }
  }

  lemma PlanPrefix(init: seq<DiffOp>, last: DiffOp, src: map<U32, Data>, new_: Data, end: nat)
    requires GoodPlan(init + [last], src, new_, end)
    ensures GoodPlan(init, src, new_, last.newOffset) && last.newOffset + last.len == end && last.len > 0
    ensures last.CopyOldRange? ==>
      && OpReadable(last, src)
      && src[last.entryId][last.oldOffset..last.oldOffset + last.len] == new_[last.newOffset..last.newOffset + last.len]
  {
    var out := init + [last];
    assert out[..|out| - 1] == init && last in out;
    TilesLast(out, 0, end);
    assert forall op <- init :: op in out;
  }

  /** The last copy of `out` lengthened by an adjacent one. */
  method Merge(out: seq<DiffOp>, op: DiffOp, ghost src: map<U32, Data>, ghost new_: Data, ghost end: nat)
    returns (r: seq<DiffOp>)
    requires GoodPlan(out, src, new_, end) && end + op.len <= |new_| < TWO_64
    requires out != [] && Mergeable(out[|out| - 1], op)
    requires OpReadable(op, src)
    requires src[op.entryId][op.oldOffset..op.oldOffset + op.len] == new_[end..end + op.len]
    ensures GoodPlan(r, src, new_, end + op.len)
    ensures |r| == |out| && r[..|out| - 1] == out[..|out| - 1] && out[|out| - 1].len + op.len < TWO_64
    ensures var last := out[|out| - 1]; r[|out| - 1] == last.(len := last.len + op.len)
    ensures forall q, n :: Uncopied(r, q, n) ==> Uncopied(out + [op], q, n)
  {
    var init, last := out[..|out| - 1], out[|out| - 1];
    assert out == init + [last];
    PlanPrefix(init, last, src, new_, end);
    var merged := last.(len := last.len + op.len);
    SlicesJoin(src[last.entryId], last.oldOffset, op.oldOffset, op.oldOffset + op.len);
    SlicesJoin(new_, last.newOffset, op.newOffset, op.newOffset + op.len);
    PlanAppend(init, src, new_, last.newOffset, merged);
    r := init + [merged];
    MergeCovers(init, last, op);
  }

  lemma MergeCovers(init: seq<DiffOp>, last: DiffOp, op: DiffOp)
    requires Mergeable(last, op) && last.len + op.len < TWO_64
    ensures forall q, n :: Uncopied(init + [last.(len := last.len + op.len)], q, n) ==>
      Uncopied(init + [last] + [op], q, n)
  {
    var merged := last.(len := last.len + op.len);
    forall q, n | Uncopied(init + [merged], q, n) ensures Uncopied(init + [last] + [op], q, n) {
      assert merged in init + [merged];
      assert forall x <- init :: x in init + [merged];
    }
  }

  lemma NextOp(raw: seq<DiffOp>, src: map<U32, Data>, new_: Data, i: nat, end: nat)
    requires GoodPlan(raw, src, new_, |new_|) && i < |raw| && Tiles(raw[i..], end, |new_|)
    ensures var op := raw[i];
      && op.newOffset == end && end + op.len <= |new_| && Tiles(raw[i + 1..], end + op.len, |new_|)
      && 0 < op.len && (op.InlineData? ==> op.len <= MAX_INLINE) && OpReadable(op, src)
      && (op.CopyOldRange? ==>
            src[op.entryId][op.oldOffset..op.oldOffset + op.len] == new_[end..end + op.len])
  {
    assert raw[i..][0] == raw[i] && raw[i..][1..] == raw[i + 1..] && raw[i] in raw;
  }

  lemma UncopiedAppend(ops: seq<DiffOp>, op: DiffOp)
    ensures forall q, n :: Uncopied(ops + [op], q, n) <==> Uncopied(ops, q, n) && Uncopied([op], q, n)
  {
    assert forall x :: x in ops + [op] <==> x in ops || x in [op];
  }

  /** `whole` is `op`, or a copy that `op` has grown into. */
  predicate Begins(op: DiffOp, whole: DiffOp) {
    whole == op || (op.CopyOldRange? && whole.CopyOldRange? && op.len <= whole.len && op == whole.(len := op.len))
  }

  /** Adjacent copy ranges are merged; the plan stays good and copies the same bytes. */
  method Coalesce(raw: seq<DiffOp>, ghost src: map<U32, Data>, ghost new_: Data) returns (out: seq<DiffOp>)
    requires GoodPlan(raw, src, new_, |new_|) && |new_| < TWO_64
    ensures GoodPlan(out, src, new_, |new_|) && |out| <= |raw|
    ensures raw != [] ==> out != [] && Begins(raw[0], out[0])
    ensures forall q, n :: Uncopied(out, q, n) ==> Uncopied(raw, q, n)
    ensures forall k | 0 < k < |out| :: !Mergeable(out[k - 1], out[k])
  {
    hide GoodPlan, Tiles, OpReadable, Uncopied;
    out := [];
    ghost var end: nat := 0;
    assert raw[0..] == raw && raw[..0] == [];
    WholePlan(raw, src, new_);
    for i := 0 to |raw|
      invariant Tiles(raw[i..], end, |new_|) && GoodPlan(out, src, new_, end) && |out| <= i
      invariant i > 0 ==> out != [] && Begins(raw[0], out[0])
      invariant forall q, n :: Uncopied(out, q, n) ==> Uncopied(raw[..i], q, n)
      invariant forall k | 0 < k < |out| :: !Mergeable(out[k - 1], out[k])
    {
      var op := raw[i];
      NextOp(raw, src, new_, i, end);
      PlanAppend(out, src, new_, end, op);
      UncopiedAppend(out, op);
      UncopiedAppend(raw[..i], op);
      assert raw[..i + 1] == raw[..i] + [op];
      if out != [] && Mergeable(out[|out| - 1], op) {
        out := Merge(out, op, src, new_, end);
      } else {
        out := out + [op];
      }
      end := end + op.len;
    }
    assert raw[..|raw|] == raw;
    PlanEnds(out, src, new_, raw[|raw|..], end);
  }

  lemma WholePlan(raw: seq<DiffOp>, src: map<U32, Data>, new_: Data)
    requires GoodPlan(raw, src, new_, |new_|)
    ensures Tiles(raw, 0, |new_|) && GoodPlan([], src, new_, 0)
  {
  }

  lemma PlanEnds(ops: seq<DiffOp>, src: map<U32, Data>, new_: Data, rest: seq<DiffOp>, end: nat)
    requires GoodPlan(ops, src, new_, end) && rest == [] && Tiles(rest, end, |new_|)
    ensures GoodPlan(ops, src, new_, |new_|)
  {
  }
}
