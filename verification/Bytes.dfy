/** Machine integers, byte strings and the result type shared by every module. */
module Bytes {
  type Byte = b: int | 0 <= b < 256
  type U32 = n: int | 0 <= n < 0x1_0000_0000
  type U64 = n: int | 0 <= n < 0x1_0000_0000_0000_0000

  const TWO_32: int := 0x1_0000_0000
  const TWO_64: int := 0x1_0000_0000_0000_0000

  type Data = seq<Byte>
  type ChunkHash = h: Data | |h| == 32 witness seq(32, _ => 0)

  const SLASH: Byte := 47

  datatype Option<T> = None | Some(value: T) {
    predicate IsFailure() {
      None?
    }

    function PropagateFailure<U>(): Option<U>
      requires None?
    {
      None
    }

    function Extract(): T
      requires Some?
    {
      value
    }
  }

  datatype ErrorCode = PatchCorrupt | PatchInvalid | PathTraversal

  datatype Result<T> = Ok(value: T) | Err(error: ErrorCode) {
    predicate IsFailure() {
      Err?
    }

    function PropagateFailure<U>(): Result<U>
      requires Err?
    {
      Err(error)
    }

    function Extract(): T
      requires Ok?
    {
      value
    }
  }

  function Min(a: nat, b: nat): nat {
    if a <= b then a else b
  }

  function Zeros(n: nat): (z: Data)
    ensures |z| == n
  {
    seq(n, _ => 0)
  }

  lemma ScaleUp(a: nat, b: nat, c: nat)
    requires a <= b
    ensures a * c <= b * c
  {
    assert b * c == a * c + (b - a) * c;
  }

  lemma Associates<T>(a: seq<T>, b: seq<T>, c: seq<T>)
    ensures a + (b + c) == a + b + c
  {
  }

  lemma SlicesJoin<T>(s: seq<T>, a: nat, b: nat, c: nat)
    requires a <= b <= c <= |s|
    ensures s[a..b] + s[b..c] == s[a..c]
  {
  }

  predicate NoRepeats<T(==)>(s: seq<T>) {
    s == [] || (s[|s| - 1] !in s[..|s| - 1] && NoRepeats(s[..|s| - 1]))
  }

  /** Well-formed UTF-8 (section 4 of RFC 3629): the strings Rust's `String` can hold. */
  predicate ValidUtf8(s: Data) {
    if s == [] then true
    else if s[0] < 0x80 then ValidUtf8(s[1..])
    else if 0xC2 <= s[0] <= 0xDF then
      |s| >= 2 && Tail(s[1]) && ValidUtf8(s[2..])
    else if 0xE0 <= s[0] <= 0xEF then
      && |s| >= 3
      && (if s[0] == 0xE0 then 0xA0 <= s[1] <= 0xBF
          else if s[0] == 0xED then 0x80 <= s[1] <= 0x9F
          else Tail(s[1]))
      && Tail(s[2]) && ValidUtf8(s[3..])
    else if 0xF0 <= s[0] <= 0xF4 then
      && |s| >= 4
      && (if s[0] == 0xF0 then 0x90 <= s[1] <= 0xBF
          else if s[0] == 0xF4 then 0x80 <= s[1] <= 0x8F
          else Tail(s[1]))
      && Tail(s[2]) && Tail(s[3]) && ValidUtf8(s[4..])
    else false
  }

  predicate Tail(b: Byte) {
    0x80 <= b <= 0xBF
  }

  /** The pieces of `p` between occurrences of `sep`. */
  function Split<T(==)>(p: seq<T>, sep: T): (parts: seq<seq<T>>)
    ensures parts != []
  {
    if p == [] then [[]]
    else
      var rest := Split(p[1..], sep);
      if p[0] == sep then [[]] + rest
      else [[p[0]] + rest[0]] + rest[1..]
  }

  /** `cavs_plan::path_is_safe`: relative, forward slashes, no empty, `.` or `..` component. */
  predicate PathIsSafe(p: Data) {
    && p != [] && p[0] != SLASH
    && 92 !in p && 58 !in p && 0 !in p
    && forall c <- Split(p, SLASH) :: c != [] && c != [46] && c != [46, 46]
  }

  /** No other content carries the digest of `b`: what a 256-bit hash is relied on for.
      It is asked of individual contents only, since no 32-byte digest is injective. */
  ghost predicate NoCollision(hash: Data -> ChunkHash, b: Data) {
    forall other: Data :: hash(other) == hash(b) ==> other == b
  }
}
