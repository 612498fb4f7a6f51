/** Payload sections and the choice among measured candidates. */
module Sections {
  import opened Bytes
  import opened PatchTypes
  import opened ApplySpec

  const AUTO: Data := [97, 117, 116, 111]                    // "auto"
  const ZSTD_19: Data := [122, 115, 116, 100, 45, 49, 57]    // "zstd-19"
  const BROTLI_9: Data := [98, 114, 111, 116, 108, 105, 45, 57]  // "brotli-9"

  datatype Label = PlanLabel | BsdiffLabel | XdeltaLabel | FullLabel

  /** `Forced(None)` is an algorithm name no candidate carries. */
  datatype Algo = Auto | Forced(tag: Option<Label>)

  datatype Options = Options(algo: Algo, compression: Data,
                             brotli: bool, bsdiff: bool, xdelta3: bool)

  /** What is relied on in the foreign tools: each undoes its partner. */
  ghost predicate Contract(tools: Tools) {
    && (forall raw, tag :: tools.compress(raw, tag).Some? ==>
          var c := tools.compress(raw, tag).value;
          |c| < TWO_64 && tools.decompress(tag, c, |raw|) == Some(raw))
    && (forall o, n :: tools.bsdiff(o, n).Some? ==>
          |tools.bsdiff(o, n).value| < TWO_64 && tools.bspatch(o, tools.bsdiff(o, n).value) == Some(n))
    && (forall o, n :: tools.xdelta(o, n).Some? ==>
          |tools.xdelta(o, n).value| < TWO_64 && tools.xpatch(o, tools.xdelta(o, n).value) == Some(n))
  }

  datatype Packed = Packed(tag: Data, data: Data)

  /** The configured codec, or under `auto` the smaller of zstd-19 and brotli-9. */
  function Pack(tools: Tools, opts: Options, raw: Data): Option<Packed> {
    if opts.compression == AUTO then
      match tools.compress(raw, ZSTD_19)
      case None => None
      case Some(z) =>
        if !opts.brotli then Some(Packed(ZSTD_19, z))
        else
          match tools.compress(raw, BROTLI_9)
          case Some(b) => Some(if |b| < |z| then Packed(BROTLI_9, b) else Packed(ZSTD_19, z))
          case None => Some(Packed(ZSTD_19, z))
    else
      match tools.compress(raw, opts.compression)
      case None => None
      case Some(c) => Some(Packed(opts.compression, c))
  }

  /** The codec the options ask for never fails on content whose length fits a machine word. */
  ghost predicate CompressionWorks(tools: Tools, opts: Options) {
    forall raw: Data :: |raw| < TWO_64 ==> tools.compress(raw, MainCodec(opts)).Some?
  }

  /** Tools that keep the contract and never fail exist, whatever the hash and the options. */
  lemma WorkingToolsExist(hash: Data -> ChunkHash, opts: Options) returns (tools: Tools)
    ensures tools.hash == hash && Contract(tools) && CompressionWorks(tools, opts)
  {
    tools := Tools(hash,
                   (raw: Data, tag: Data) => if |raw| < TWO_64 then Some(raw) else None,
                   (tag: Data, packed: Data, n: nat) => Some(packed),
                   (o: Data, n: Data) => if |n| < TWO_64 then Some(n) else None,
                   (o: Data, d: Data) => Some(d),
                   (o: Data, n: Data) => if |n| < TWO_64 then Some(n) else None,
                   (o: Data, d: Data) => Some(d));
  }

  function MainCodec(opts: Options): Data {
    if opts.compression == AUTO then ZSTD_19 else opts.compression
  }

  /** A codec name the options can lead to. */
  predicate Known(opts: Options, tag: Data) {
    tag == opts.compression || tag == ZSTD_19 || tag == BROTLI_9
  }

  lemma PackWorks(tools: Tools, opts: Options, raw: Data)
    requires Contract(tools) && |raw| < TWO_64
    ensures CompressionWorks(tools, opts) ==> Pack(tools, opts, raw).Some?
    ensures Pack(tools, opts, raw).Some? ==>
      var p := Pack(tools, opts, raw).value;
      && Known(opts, p.tag) && |p.data| < TWO_64 && tools.decompress(p.tag, p.data, |raw|) == Some(raw)
  {
    assert CompressionWorks(tools, opts) ==> tools.compress(raw, MainCodec(opts)).Some?;
  }

  class SectionBuilder {
    const tools: Tools
    const opts: Options
    var sections: seq<Section>

    constructor (tools: Tools, opts: Options)
      ensures this.tools == tools && this.opts == opts && sections == []
      ensures |opts.compression| < TWO_64 ==> Addressable()
    {
      this.tools, this.opts, sections := tools, opts, [];
    }

    /** Lengths fit the machine word and codec names are known ones. */
    ghost predicate Addressable()
      reads this
    {
      |opts.compression| < TWO_64 && forall s <- sections :: Known(opts, s.compression) && |s.data| < TWO_64
    }

    method Push(raw: Data) returns (r: Option<U32>)
      requires Contract(tools) && |raw| < TWO_64 && |sections| < TWO_32 && Addressable()
      modifies this
      ensures Addressable()
      ensures CompressionWorks(tools, opts) ==> r.Some?
      ensures r.None? ==> sections == old(sections)
      ensures r.Some? ==> r.value == |old(sections)| && |sections| == |old(sections)| + 1
      ensures r.Some? ==> sections[..|old(sections)|] == old(sections)
      ensures r.Some? ==>
        var s := sections[|old(sections)|];
        && SectionBytes(tools, s) == Some(raw) && s.rawLen == |raw|
        && Pack(tools, opts, raw) == Some(Packed(s.compression, s.data))
    {
      PackWorks(tools, opts, raw);
      hide Pack, Contract, CompressionWorks, Known;
      var packed := Pack(tools, opts, raw);
      if packed.None? {
        return None;
      }
      var p := packed.value;
      r := Some(|sections|);
      sections := sections + [Section(p.tag, |raw|, tools.hash(raw), p.data)];
    }

    /** The size `Push` would give the section, without keeping it. */
    method Probe(raw: Data) returns (r: Option<nat>)
      requires |raw| < TWO_64
      ensures CompressionWorks(tools, opts) ==> r.Some?
      ensures match Pack(tools, opts, raw) case Some(p) => r == Some(|p.data|) case None => r == None
    {
      var auto := opts.compression == AUTO;
      var z := tools.compress(raw, MainCodec(opts));
      if z.None? {
        return None;
      }
      if auto && opts.brotli {
        var b := tools.compress(raw, BROTLI_9);
        if b.Some? {
          return Some(Min(|z.value|, |b.value|));
        }
      }
      return Some(|z.value|);
    }
  }

  // ---------- Choice ----------

  datatype Candidate = Candidate(tag: Label, size: nat)

  /** Lower apply memory first. */
  function Rank(tag: Label): nat {
    match tag
    case PlanLabel => 0
    case XdeltaLabel => 1
    case FullLabel => 2
    case BsdiffLabel => 3
  }

  predicate NoWorse(a: Candidate, b: Candidate) {
    a.size < b.size || (a.size == b.size && Rank(a.tag) <= Rank(b.tag))
  }

  predicate Offers(candidates: seq<Candidate>, tag: Label) {
    exists c <- candidates :: c.tag == tag
  }

  /** What a decision must be: under `auto` nothing measured beats it, ties going to the
      lower-memory strategy; a forced algorithm when measured, the whole file otherwise. */
  ghost predicate Best(candidates: seq<Candidate>, algo: Algo, chosen: Candidate) {
    && chosen in candidates
    && match algo
       case Auto => forall c <- candidates :: NoWorse(chosen, c)
       case Forced(wanted) =>
         chosen.tag == if wanted.Some? && Offers(candidates, wanted.value) then wanted.value else FullLabel
  }

  method FindLabel(candidates: seq<Candidate>, tag: Label) returns (c: Option<Candidate>)
    ensures c.Some? <==> Offers(candidates, tag)
    ensures c.Some? ==> c.value in candidates && c.value.tag == tag
  {
    for i := 0 to |candidates|
      invariant forall j :: 0 <= j < i ==> candidates[j].tag != tag
    {
      if candidates[i].tag == tag {
        return Some(candidates[i]);
      }
    }
    return None;
  }

  method Choose(candidates: seq<Candidate>, algo: Algo) returns (chosen: Candidate)
    requires Offers(candidates, FullLabel)
    ensures Best(candidates, algo, chosen)
  {
    if algo.Auto? {
      chosen := candidates[0];
      for i := 1 to |candidates|
        invariant chosen in candidates
        invariant forall j :: 0 <= j < i ==> NoWorse(chosen, candidates[j])
      {
        if !NoWorse(chosen, candidates[i]) {
          chosen := candidates[i];
        }
      }
      return;
    }
    if algo.tag.Some? {
      var wanted := FindLabel(candidates, algo.tag.value);
      if wanted.Some? {
        return wanted.value;
      }
    }
    var full := FindLabel(candidates, FullLabel);
    return full.value;
  }
}
