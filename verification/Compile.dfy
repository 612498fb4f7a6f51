/** The plan-ops strategy: random-access diff ops compiled to sequential file ops with an
    inline byte stream, the streaming reader of those ops, and the positional applier that
    gives diff ops their meaning. */
module Compile {
  import opened Bytes
  import opened PatchTypes

  datatype DiffOp =
    | CopyOldRange(entryId: U32, oldOffset: U64, newOffset: U64, len: U64)
    | InlineData(newOffset: U64, len: U64)

  /** The ops cover `at..end` of the new payload in order, without gap or overlap. */
  predicate Tiles(ops: seq<DiffOp>, at: nat, end: nat) {
    if ops == [] then at == end
    else ops[0].newOffset == at && Tiles(ops[1..], at + ops[0].len, end)
  }

  predicate OpReadable(op: DiffOp, src: map<U32, Data>) {
    op.CopyOldRange? ==> op.entryId in src && op.oldOffset + op.len <= |src[op.entryId]|
  }

  /** Every copy names a known entry and stays inside it. */
  predicate Readable(ops: seq<DiffOp>, src: map<U32, Data>) {
    forall op <- ops :: OpReadable(op, src)
  }

  predicate WithinNew(ops: seq<DiffOp>, size: nat) {
    forall op <- ops :: op.newOffset + op.len <= size
  }

  /** The bytes an op contributes. */
  function Piece(op: DiffOp, src: map<U32, Data>, new_: Data): (p: Data)
    requires OpReadable(op, src) && op.newOffset + op.len <= |new_|
    ensures |p| == op.len
  {
    if op.CopyOldRange? then src[op.entryId][op.oldOffset..op.oldOffset + op.len]
    else new_[op.newOffset..op.newOffset + op.len]
  }

  /** `buf` with `piece` written over it at `at`. */
  function Overwrite(buf: Data, at: nat, piece: Data): (r: Data)
    requires at + |piece| <= |buf|
    ensures |r| == |buf|
  {
    buf[..at] + piece + buf[at + |piece|..]
  }

  /** The positional applier: each op overwrites `buf` at its own offset. */
  function Positional(ops: seq<DiffOp>, src: map<U32, Data>, new_: Data, buf: Data): (r: Data)
    requires Readable(ops, src) && WithinNew(ops, |new_|) && |buf| == |new_|
    ensures |r| == |buf|
  {
    if ops == [] then buf
    else
      var op := ops[0];
      Positional(ops[1..], src, new_, Overwrite(buf, op.newOffset, Piece(op, src, new_)))
  }

  /** What the ops from `i` on make of `buf`. */
  ghost function PositionalFrom(ops: seq<DiffOp>, src: map<U32, Data>, new_: Data, buf: Data, i: nat): (r: Data)
    requires Readable(ops, src) && WithinNew(ops, |new_|) && |buf| == |new_| && i <= |ops|
  {
    Positional(ops[i..], src, new_, buf)
  }

  lemma PositionalEnds(ops: seq<DiffOp>, src: map<U32, Data>, new_: Data, buf: Data)
    requires Readable(ops, src) && WithinNew(ops, |new_|) && |buf| == |new_|
    ensures PositionalFrom(ops, src, new_, buf, 0) == Positional(ops, src, new_, buf)
    ensures PositionalFrom(ops, src, new_, buf, |ops|) == buf
  {
    assert ops[0..] == ops;
  }

  lemma PositionalStep(ops: seq<DiffOp>, src: map<U32, Data>, new_: Data, buf: Data, i: nat)
    requires Readable(ops, src) && WithinNew(ops, |new_|) && |buf| == |new_| && i < |ops|
    ensures OpReadable(ops[i], src) && ops[i].newOffset + ops[i].len <= |new_|
    ensures PositionalFrom(ops, src, new_, buf, i) ==
      PositionalFrom(ops, src, new_, Overwrite(buf, ops[i].newOffset, Piece(ops[i], src, new_)), i + 1)
  {
    hide Piece, Overwrite;
    assert ops[i] in ops && ops[i..][0] == ops[i] && ops[i..][1..] == ops[i + 1..];
  }

  /** The applier of the block-delta benchmark, filling `rebuilt` in place. */
  method PositionalApply(ops: seq<DiffOp>, src: map<U32, Data>, new_: Data)
    returns (rebuilt: array<Byte>, known: bool)
    requires WithinNew(ops, |new_|)
    requires forall op <- ops :: op.CopyOldRange? && op.entryId in src ==>
      op.oldOffset + op.len <= |src[op.entryId]|
    ensures known <==> Readable(ops, src)
    ensures known ==> rebuilt[..] == Positional(ops, src, new_, Zeros(|new_|))
  {
    hide Positional, PositionalFrom, Piece, Overwrite;
    rebuilt := new Byte[|new_|](_ => 0);
    assert rebuilt[..] == Zeros(|new_|);
    if Readable(ops, src) {
      PositionalEnds(ops, src, new_, Zeros(|new_|));
    }
    for i := 0 to |ops|
      invariant forall k | 0 <= k < i :: ops[k].CopyOldRange? ==> ops[k].entryId in src
      invariant Readable(ops, src) ==>
        Positional(ops, src, new_, Zeros(|new_|)) == PositionalFrom(ops, src, new_, rebuilt[..], i)
    {
      var op := ops[i];
      assert op in ops;
      if op.CopyOldRange? && op.entryId !in src {
        return rebuilt, false;
      }
      if Readable(ops, src) {
        PositionalStep(ops, src, new_, rebuilt[..], i);
      }
      WriteAt(rebuilt, op.newOffset, Piece(op, src, new_));
    }
    if Readable(ops, src) {
      PositionalEnds(ops, src, new_, rebuilt[..]);
    }
    known := true;
  }

  method WriteAt(a: array<Byte>, at: nat, piece: Data)
    requires at + |piece| <= a.Length
    modifies a
    ensures a[..] == Overwrite(old(a[..]), at, piece)
  {
    forall k | 0 <= k < |piece| {
      a[at + k] := piece[k];
    }
  }

  // ---------- Compilation ----------

  datatype Compiled = Compiled(ops: seq<FileOp>, inline: Data)

  function Join(first: Compiled, rest: Option<Compiled>): Option<Compiled> {
    match rest
    case Some(r) => Some(Compiled(first.ops + r.ops, first.inline + r.inline))
    case None => None
  }

  lemma JoinTwice(a: Compiled, b: Compiled, rest: Option<Compiled>)
    ensures Join(a, Join(b, rest)) == Join(Compiled(a.ops + b.ops, a.inline + b.inline), rest)
  {
    if rest.Some? {
      assert a.ops + (b.ops + rest.value.ops) == a.ops + b.ops + rest.value.ops;
      assert a.inline + (b.inline + rest.value.inline) == a.inline + b.inline + rest.value.inline;
    }
  }

  function CompileOne(op: DiffOp, new_: Data, toOld: map<U32, U32>): Option<Compiled>
    requires op.newOffset + op.len <= |new_|
  {
    if op.InlineData? then Some(Compiled([Inline(op.len)], new_[op.newOffset..op.newOffset + op.len]))
    else if op.entryId in toOld then Some(Compiled([CopyOld(toOld[op.entryId], op.oldOffset, op.len)], []))
    else None
  }

  /** The op loop of `generate`: `None` when a copy names an entry without an old file. */
  function CompileOps(diff: seq<DiffOp>, new_: Data, toOld: map<U32, U32>): Option<Compiled>
    requires WithinNew(diff, |new_|)
  {
    if diff == [] then Some(Compiled([], []))
    else
      match CompileOne(diff[0], new_, toOld)
      case None => None
      case Some(one) => Join(one, CompileOps(diff[1..], new_, toOld))
  }

  /** What `generate` charges for the op list itself. */
  function OpsCost(ops: seq<FileOp>): nat {
    if ops == [] then 0 else (if ops[0].CopyOld? then 12 else 5) + OpsCost(ops[1..])
  }

  lemma {:induction false} OpsCostAppend(ops: seq<FileOp>, op: FileOp)
    ensures OpsCost(ops + [op]) == OpsCost(ops) + OpsCost([op])
  {
    if ops != [] {
      assert (ops + [op])[1..] == ops[1..] + [op];
      OpsCostAppend(ops[1..], op);
    }
  }

  method CompileDiff(diff: seq<DiffOp>, new_: Data, toOld: map<U32, U32>)
    returns (r: Option<Compiled>, cost: nat)
    requires WithinNew(diff, |new_|)
    ensures r == CompileOps(diff, new_, toOld)
    ensures r.Some? ==> cost == OpsCost(r.value.ops)
  {
    hide Join;
    var ops: seq<FileOp>, inline: Data := [], [];
    cost := 0;
    assert diff[0..] == diff;
    JoinNothing(CompileOps(diff, new_, toOld));
    for i := 0 to |diff|
      invariant CompileOps(diff, new_, toOld) == Join(Compiled(ops, inline), CompileOps(diff[i..], new_, toOld))
      invariant cost == OpsCost(ops)
    {
      var op := diff[i];
      ghost var rest, one := diff[i..], CompileOne(op, new_, toOld);
      assert rest[0] == op && rest[1..] == diff[i + 1..];
      if one.Some? {
        JoinTwice(Compiled(ops, inline), one.value, CompileOps(diff[i + 1..], new_, toOld));
        OpsCostAppend(ops, one.value.ops[0]);
      }
      if op.CopyOldRange? {
        if op.entryId !in toOld {
          JoinFails(Compiled(ops, inline));
          return None, cost;
        }
        ops, cost := ops + [CopyOld(toOld[op.entryId], op.oldOffset, op.len)], cost + 12;
        assert inline + [] == inline;
      } else {
        inline := inline + new_[op.newOffset..op.newOffset + op.len];
        ops, cost := ops + [Inline(op.len)], cost + 5;
      }
    }
    JoinEmpty(Compiled(ops, inline));
    return Some(Compiled(ops, inline)), cost;
  }

  lemma JoinFails(first: Compiled)
    ensures Join(first, None) == None
  {
  }

  lemma JoinEmpty(first: Compiled)
    ensures Join(first, Some(Compiled([], []))) == Some(first)
  {
    assert first.ops + [] == first.ops && first.inline + [] == first.inline;
  }

  lemma JoinNothing(rest: Option<Compiled>)
    ensures Join(Compiled([], []), rest) == rest
  {
    if rest.Some? {
      assert [] + rest.value.ops == rest.value.ops && [] + rest.value.inline == rest.value.inline;
    }
  }

  // ---------- Sequential execution ----------

  /** The bytes the file ops spell when copies read `olds` and inline ops consume `inline`
      from its head; `None` for a missing old file or a read past an end. */
  function RunOps(ops: seq<FileOp>, olds: seq<Option<Data>>, inline: Data): Option<Data> {
    if ops == [] then Some([])
    else
      match ops[0]
      case CopyOld(idx, off, len) =>
        if idx >= |olds| || olds[idx].None? || (len > 0 && off + len > |olds[idx].value|) then None
        else
          var piece := if len == 0 then [] else olds[idx].value[off..off + len];
          Prepend(piece, RunOps(ops[1..], olds, inline))
      case Inline(len) =>
        if len > |inline| then None
        else Prepend(inline[..len], RunOps(ops[1..], olds, inline[len..]))
  }

  function Prepend(head: Data, tail: Option<Data>): Option<Data> {
    match tail case Some(t) => Some(head + t) case None => None
  }

  const BUFFER: nat := 8388608

  /** One copy loop: `len` bytes of `file` from `start`, a buffer at a time. */
  method CopyChunks(file: Data, start: nat, len: nat) returns (r: Option<Data>)
    ensures r == if len > 0 && start + len > |file| then None
                 else Some(if len == 0 then [] else file[start..start + len])
  {
    var done, out: Data := 0, [];
    while done < len
      invariant 0 <= done <= len
      invariant done > 0 ==> start + done <= |file|
      invariant out == if done == 0 then [] else file[start..start + done]
    {
      var n := Min(len - done, BUFFER);
      if start + done + n > |file| {
        return None;
      }
      SlicesJoin(file, start, start + done, start + done + n);
      out := out + file[start + done..start + done + n];
      done := done + n;
    }
    return Some(out);
  }

  /** The plan-ops branch of `reconstruct_file`. */
  method StreamOps(ops: seq<FileOp>, olds: seq<Option<Data>>, inline: Data) returns (r: Option<Data>)
    requires forall op <- ops :: op.CopyOld? ==> op.oldIdx < |olds|
    ensures r == RunOps(ops, olds, inline)
  {
    hide Prepend;
    var out: Data, at := [], 0;
    assert ops[0..] == ops && inline[0..] == inline;
    PrependNothing(RunOps(ops, olds, inline));
    for i := 0 to |ops|
      invariant 0 <= at <= |inline|
      invariant RunOps(ops, olds, inline) == Prepend(out, RunOps(ops[i..], olds, inline[at..]))
    {
      ghost var rest, here := ops[i..], RunOps(ops[i..], olds, inline[at..]);
      assert rest[0] == ops[i] && rest[1..] == ops[i + 1..];
      PrependEnds(out);
      var chunk: Option<Data>;
      match ops[i] {
        case CopyOld(idx, off, len) =>
          if olds[idx].None? {
            return None;
          }
          chunk := CopyChunks(olds[idx].value, off, len);
          if chunk.None? {
            return None;
          }
        case Inline(len) =>
          chunk := CopyChunks(inline, at, len);
          if chunk.None? {
            return None;
          }
          assert inline[at..][..len] == inline[at..at + len];
          assert inline[at..][len..] == inline[at + len..];
          at := at + len;
      }
      assert here == Prepend(chunk.value, RunOps(ops[i + 1..], olds, inline[at..]));
      PrependTwice(out, chunk.value, RunOps(ops[i + 1..], olds, inline[at..]));
      out := out + chunk.value;
    }
    PrependEnds(out);
    return Some(out);
  }

  lemma PrependEnds(head: Data)
    ensures Prepend(head, None) == None && Prepend(head, Some([])) == Some(head)
  {
    assert head + [] == head;
  }

  lemma PrependNothing(tail: Option<Data>)
    ensures Prepend([], tail) == tail
  {
    if tail.Some? {
      assert [] + tail.value == tail.value;
    }
  }

  lemma PrependTwice(a: Data, b: Data, tail: Option<Data>)
    ensures Prepend(a, Prepend(b, tail)) == Prepend(a + b, tail)
  {
    if tail.Some? {
      assert a + (b + tail.value) == a + b + tail.value;
    }
  }

  // ---------- Compilation preserves meaning ----------

  /** The old files the compiled indices address hold the entries the diff ops read. */
  predicate SameSources(src: map<U32, Data>, toOld: map<U32, U32>, olds: seq<Option<Data>>) {
    forall id <- toOld :: id in src && toOld[id] < |olds| && olds[toOld[id]] == Some(src[id])
  }

  /** The ops' contributions laid end to end. */
  function Pieces(ops: seq<DiffOp>, src: map<U32, Data>, new_: Data): Data
    requires Readable(ops, src) && WithinNew(ops, |new_|)
  {
    if ops == [] then [] else Piece(ops[0], src, new_) + Pieces(ops[1..], src, new_)
  }

  lemma {:induction false} RunCompiled(diff: seq<DiffOp>, src: map<U32, Data>, new_: Data,
                                     toOld: map<U32, U32>, olds: seq<Option<Data>>)
    requires Readable(diff, src) && WithinNew(diff, |new_|) && SameSources(src, toOld, olds)
    requires CompileOps(diff, new_, toOld).Some?
    ensures var c := CompileOps(diff, new_, toOld).value;
      RunOps(c.ops, olds, c.inline) == Some(Pieces(diff, src, new_))
  {
    if diff != [] {
      RunCompiled(diff[1..], src, new_, toOld, olds);
      var op := diff[0];
      var rest := CompileOps(diff[1..], new_, toOld).value;
      var c := CompileOps(diff, new_, toOld).value;
      assert op in diff && c.ops[1..] == rest.ops;
      if op.InlineData? {
        assert c.inline[..op.len] == Piece(op, src, new_) && c.inline[op.len..] == rest.inline;
      } else {
        assert c.inline == rest.inline;
        assert olds[toOld[op.entryId]] == Some(src[op.entryId]);
      }
    }
  }

  lemma OverwriteHead(buf: Data, at: nat, piece: Data)
    requires at + |piece| <= |buf|
    ensures Overwrite(buf, at, piece)[..at + |piece|] == buf[..at] + piece
  {
  }

  lemma {:induction false} PositionalTiles(ops: seq<DiffOp>, src: map<U32, Data>, new_: Data, buf: Data, at: nat)
    requires Readable(ops, src) && WithinNew(ops, |new_|) && |buf| == |new_|
    requires Tiles(ops, at, |new_|)
    ensures at <= |new_| && Positional(ops, src, new_, buf) == buf[..at] + Pieces(ops, src, new_)
    decreases |ops|
  {
    if ops == [] {
      assert buf[..at] == buf;
    } else {
      assert ops[0] in ops;
      hide Piece, Overwrite;
      var piece := Piece(ops[0], src, new_);
      OverwriteHead(buf, at, piece);
      PositionalTiles(ops[1..], src, new_, Overwrite(buf, at, piece), at + ops[0].len);
      Associates(buf[..at], piece, Pieces(ops[1..], src, new_));
    }
  }

  /** For every in-order tiling diff, the compiled ops run sequentially give the bytes the
      positional applier writes, whatever the sources hold. */
  lemma {:induction false} CompilationPreservesMeaning(diff: seq<DiffOp>, src: map<U32, Data>, new_: Data,
                                    toOld: map<U32, U32>, olds: seq<Option<Data>>)
    requires Readable(diff, src) && WithinNew(diff, |new_|) && SameSources(src, toOld, olds)
    requires CompileOps(diff, new_, toOld).Some? && Tiles(diff, 0, |new_|)
    ensures var c := CompileOps(diff, new_, toOld).value;
      RunOps(c.ops, olds, c.inline) == Some(Positional(diff, src, new_, Zeros(|new_|)))
  {
    RunCompiled(diff, src, new_, toOld, olds);
    PositionalTiles(diff, src, new_, Zeros(|new_|), 0);
    assert Zeros(|new_|)[..0] + Pieces(diff, src, new_) == Pieces(diff, src, new_);
  }

  /** Every copied range holds the new bytes it stands for: what a correct diff guarantees. */
  predicate Agrees(ops: seq<DiffOp>, src: map<U32, Data>, new_: Data)
    requires Readable(ops, src) && WithinNew(ops, |new_|)
  {
    forall op <- ops :: op.CopyOldRange? ==>
      src[op.entryId][op.oldOffset..op.oldOffset + op.len] == new_[op.newOffset..op.newOffset + op.len]
  }

  lemma TailsAgree(ops: seq<DiffOp>, src: map<U32, Data>, new_: Data)
    requires ops != [] && Readable(ops, src) && WithinNew(ops, |new_|) && Agrees(ops, src, new_)
    ensures OpReadable(ops[0], src) && ops[0].newOffset + ops[0].len <= |new_|
    ensures Piece(ops[0], src, new_) == new_[ops[0].newOffset..ops[0].newOffset + ops[0].len]
    ensures Readable(ops[1..], src) && WithinNew(ops[1..], |new_|) && Agrees(ops[1..], src, new_)
  {
    assert ops[0] in ops;
  }

  lemma {:induction false} AgreeingPieces(ops: seq<DiffOp>, src: map<U32, Data>, new_: Data, at: nat)
    requires Readable(ops, src) && WithinNew(ops, |new_|) && Agrees(ops, src, new_)
    requires Tiles(ops, at, |new_|)
    ensures at <= |new_| && Pieces(ops, src, new_) == new_[at..]
    decreases |ops|
  {
    if ops != [] {
      var mid := at + ops[0].len;
      TailsAgree(ops, src, new_);
      hide Agrees, Readable, WithinNew;
      AgreeingPieces(ops[1..], src, new_, mid);
      SlicesJoin(new_, at, mid, |new_|);
    }
  }

  /** A tiling, agreeing diff compiles to ops that rebuild the new file. */
  lemma CompiledRebuilds(diff: seq<DiffOp>, src: map<U32, Data>, new_: Data,
                         toOld: map<U32, U32>, olds: seq<Option<Data>>)
    requires Readable(diff, src) && WithinNew(diff, |new_|) && SameSources(src, toOld, olds)
    requires Agrees(diff, src, new_) && Tiles(diff, 0, |new_|)
    requires CompileOps(diff, new_, toOld).Some?
    ensures var c := CompileOps(diff, new_, toOld).value;
      RunOps(c.ops, olds, c.inline) == Some(new_)
  {
    RunCompiled(diff, src, new_, toOld, olds);
    AgreeingPieces(diff, src, new_, 0);
    assert new_[0..] == new_;
  }
}
