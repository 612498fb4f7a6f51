/** The growing output buffer of `encode` and the shrinking input slice of `decode`. */
module Wire {
  import opened Bytes
  import opened Varint

  /** What a decoder leaves behind. `clean` is false once a byte was accepted that the
      encoder never writes; it is specification only and steers nothing. */
  datatype Parsed<T> = Parsed(value: T, rest: Data, clean: bool)

  function Take(s: Data, n: nat): Result<Parsed<Data>> {
    if n > |s| then Err(PatchCorrupt) else Ok(Parsed(s[..n], s[n..], true))
  }

  function PutByte(b: Byte, tail: Data): Data {
    [b] + tail
  }

  function GetByte(s: Data): Result<Parsed<Byte>> {
    if s == [] then Err(PatchCorrupt) else Ok(Parsed(s[0], s[1..], true))
  }

  class Sink {
    var out: Data

    constructor ()
      ensures out == []
    {
      out := [];
    }

    method Push(b: Byte)
      modifies this
      ensures forall tail :: out + tail == old(out) + PutByte(b, tail)
    {
      out := out + [b];
      forall tail: Data ensures out + tail == old(out) + ([b] + tail) {
        assert old(out) + ([b] + tail) == (old(out) + [b]) + tail;
      }
    }

    method Extend(bs: Data)
      modifies this
      ensures forall tail :: out + tail == old(out) + (bs + tail)
    {
      out := out + bs;
      forall tail: Data ensures out + tail == old(out) + (bs + tail) {
        assert old(out) + (bs + tail) == (old(out) + bs) + tail;
      }
    }

    method WriteVar(v: U64)
      modifies this
      ensures forall tail :: out + tail == old(out) + PutVar(v, tail)
    {
      var value: int := v;
      while value >= 0x80
        invariant 0 <= value < TWO_64
        invariant forall tail :: out + PutVar(value, tail) == old(out) + PutVar(v, tail)
      {
        Push(value % 0x80 + 0x80);
        value := value / 0x80;
      }
      Push(value);
    }
  }

  class Cursor {
    var input: Data

    constructor (bytes: Data)
      ensures input == bytes
    {
      input := bytes;
    }

    method TakeBytes(n: nat) returns (r: Result<Data>)
      modifies this
      ensures match Take(old(input), n)
              case Ok(p) => r == Ok(p.value) && input == p.rest
              case Err(e) => r == Err(e)
    {
      if n > |input| {
        return Err(PatchCorrupt);
      }
      var head := input[..n];
      input := input[n..];
      return Ok(head);
    }

    method TakeByte() returns (r: Result<Byte>)
      modifies this
      ensures match GetByte(old(input))
              case Ok(p) => r == Ok(p.value) && input == p.rest
              case Err(e) => r == Err(e)
    {
      var b :- TakeBytes(1);
      return Ok(b[0]);
    }

    method NextVar() returns (r: Result<U64>)
      modifies this
      ensures match ReadVar(old(input))
              case Ok(p) => r == Ok(p.value) && input == p.rest
              case Err(e) => r == Err(e)
    {
      ghost var start, whole := input, ReadVar(input);
      var value: int, scale: int, i := 0, 1, 0;
      while i < 10
        invariant 0 <= i <= 10 && i <= |start| && input == start
        invariant value >= 0 && scale >= 0 && Reading(start, i, value, scale)
      {
        ReadStep(start, i, value, scale);
        if i >= |input| {
          return Err(PatchCorrupt);
        }
        var byte := input[i];
        if byte == 0 && i != 0 {
          return Err(PatchCorrupt);
        }
        if i == 9 && byte > 1 {
          return Err(PatchCorrupt);
        }
        if byte < 0x80 {
          input := input[i + 1..];
          return Ok(Weigh(value, scale, byte));
        }
        value, scale, i := Weigh(value, scale, byte - 0x80), scale * 0x80, i + 1;
      }
      return Err(PatchCorrupt);
    }
  }

  function Weigh(value: nat, scale: nat, digit: nat): nat {
    value + digit * scale
  }

  /** With `i` bytes consumed, the varint at the head of `start` is `value` plus `scale`
      times what the remaining bytes spell, and fails when they do. */
  ghost predicate Reading(start: Data, i: nat, value: nat, scale: nat)
    requires i <= 10 && i <= |start|
  {
    match ReadFrom(start[i..], i)
    case Ok(p) => ReadFrom(start, 0) == Ok(Read(Weigh(value, scale, p.value), p.rest))
    case Err(e) => ReadFrom(start, 0) == Err(e)
  }

  lemma {:induction false} ReadStep(start: Data, i: nat, value: nat, scale: nat)
    requires i < 10 && i <= |start| && Reading(start, i, value, scale)
    ensures
      if i == |start| || (start[i] == 0 && i != 0) || (i == 9 && start[i] > 1) then
        ReadFrom(start, 0) == Err(PatchCorrupt)
      else if start[i] < 0x80 then
        ReadFrom(start, 0) == Ok(Read(Weigh(value, scale, start[i]), start[i + 1..]))
      else
        Reading(start, i + 1, Weigh(value, scale, start[i] - 0x80), scale * 0x80)
  {
    var here := start[i..];
    if i == |start| || (start[i] == 0 && i != 0) || (i == 9 && start[i] > 1) {
      return;
    }
    assert here[0] == start[i] && here[1..] == start[i + 1..];
    if start[i] < 0x80 {
      assert ReadFrom(here, i) == Ok(Read(start[i], start[i + 1..]));
    } else {
      var later := ReadFrom(start[i + 1..], i + 1);
      if later.Ok? {
        var low, high := start[i] - 0x80, later.value.value;
        assert ReadFrom(here, i) == Ok(Read(low + 0x80 * high, later.value.rest));
        Distribute(value, scale, low, high);
      } else {
        assert ReadFrom(here, i) == Err(later.error);
      }
    }
  }

  lemma Distribute(value: nat, scale: nat, low: nat, high: nat)
    ensures Weigh(value, scale, low + 0x80 * high)
         == Weigh(Weigh(value, scale, low), scale * 0x80, high)
  {
  }
}
