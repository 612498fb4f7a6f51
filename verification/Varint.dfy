/** Strict unsigned LEB128 (section 7.6 of the DWARF Debugging Information Format,
    Version 5) as `write_var` and `read_var` use it: at most ten bytes, no overlong
    form, no value beyond 64 bits. */
module Varint {
  import opened Bytes

  /** The bytes of `v` followed by `tail`. */
  function PutVar(v: nat, tail: Data): Data {
    if v < 0x80 then [v] + tail else [v % 0x80 + 0x80] + PutVar(v / 0x80, tail)
  }

  /** What is left for the value once `i` bytes are spent: 2^(64 - 7i). */
  function Room(i: nat): (r: nat)
    requires i <= 9
    ensures r > 1
    decreases 9 - i
  {
    if i == 9 then 2 else 0x80 * Room(i + 1)
  }

  datatype Read = Read(value: nat, rest: Data)

  /** The reader positioned at byte `i` of a varint; the value counts from that byte on. */
  function ReadFrom(s: Data, i: nat): Result<Read>
    requires i <= 10
    decreases 10 - i
  {
    if i == 10 || s == [] then Err(PatchCorrupt)
    else if s[0] == 0 && i != 0 then Err(PatchCorrupt)
    else if i == 9 && s[0] > 1 then Err(PatchCorrupt)
    else if s[0] < 0x80 then Ok(Read(s[0], s[1..]))
    else
      var high :- ReadFrom(s[1..], i + 1);
      Ok(Read(s[0] - 0x80 + 0x80 * high.value, high.rest))
  }

  lemma RoomAtStart()
    ensures Room(0) == TWO_64
  {
    assert Room(5) == 0x80 * (0x80 * (0x80 * (0x80 * 2)));
    assert Room(0) == 0x80 * (0x80 * (0x80 * (0x80 * (0x80 * Room(5)))));
  }

  lemma ReadMore(s: Data, i: nat, high: nat, rest: Data)
    requires i < 9 && s != [] && s[0] >= 0x80 && ReadFrom(s[1..], i + 1) == Ok(Read(high, rest))
    ensures ReadFrom(s, i) == Ok(Read(s[0] - 0x80 + 0x80 * high, rest))
  {
  }

  lemma Digits(v: nat) returns (low: nat, high: nat)
    requires v >= 0x80
    ensures v == low + 0x80 * high && low < 0x80 && high > 0
  {
    low, high := v % 0x80, v / 0x80;
  }

  lemma WriteMore(low: nat, high: nat, tail: Data)
    requires low < 0x80 && high > 0
    ensures var s := PutVar(low + 0x80 * high, tail);
      s != [] && s[0] == low + 0x80 && s[1..] == PutVar(high, tail)
  {
    assert (low + 0x80 * high) / 0x80 == high;
  }

  lemma {:induction false} ReadBack(v: nat, tail: Data, i: nat)
    requires i <= 9 && v < Room(i) && (i == 0 || v > 0)
    ensures ReadFrom(PutVar(v, tail), i) == Ok(Read(v, tail))
    decreases 9 - i
  {
    if v >= 0x80 {
      hide ReadFrom, PutVar;
      var low, high := Digits(v);
      ReadBack(high, tail, i + 1);
      WriteMore(low, high, tail);
      ReadMore(PutVar(v, tail), i, high, tail);
    } else {
      assert PutVar(v, tail) == [v] + tail;
    }
  }

  lemma {:induction false} OnlyWrittenIsRead(s: Data, i: nat)
    requires i <= 9 && ReadFrom(s, i).Ok?
    ensures var r := ReadFrom(s, i).value;
      r.value < Room(i) && (i == 0 || r.value > 0) && s == PutVar(r.value, r.rest)
    decreases 9 - i
  {
    if s[0] >= 0x80 {
      OnlyWrittenIsRead(s[1..], i + 1);
      var high := ReadFrom(s[1..], i + 1).value;
      var v := s[0] - 0x80 + 0x80 * high.value;
      assert v / 0x80 == high.value && v % 0x80 == s[0] - 0x80;
      assert s == [s[0]] + s[1..];
    } else {
      assert s == [s[0]] + s[1..];
    }
  }

  /** `read_var` accepts exactly what `write_var` produces, for every 64-bit value. */
  lemma ReadVarExact(s: Data, v: nat, rest: Data)
    ensures ReadFrom(s, 0) == Ok(Read(v, rest)) <==> v < TWO_64 && s == PutVar(v, rest)
  {
    RoomAtStart();
    if v < TWO_64 {
      ReadBack(v, rest, 0);
    }
    if ReadFrom(s, 0).Ok? {
      OnlyWrittenIsRead(s, 0);
    }
  }

  function ReadVar(s: Data): (r: Result<Read>)
    ensures r.Ok? ==> r.value.value < TWO_64
  {
    var r := ReadFrom(s, 0);
    if r.Ok? then ReadVarExact(s, r.value.value, r.value.rest); r else r
  }
}
