/** Bytes and the fixed-width integers of the driver, written over unbounded integers. */
module Words {
  type byte = x: int | 0 <= x < 256

  const TWO_16 := 0x1_0000
  const TWO_31 := 0x8000_0000
  const TWO_32 := 0x1_0000_0000
  const TWO_63 := 0x8000_0000_0000_0000
  const TWO_64 := 0x1_0000_0000_0000_0000

  datatype Option<+T> = None | Some(value: T)

  datatype Result<+T, +E> = Ok(value: T) | Err(error: E)

  /** Reduction to an unsigned 16-, 32- or 64-bit word. */
  function Wrap16(x: int): (r: nat)
    ensures r < TWO_16 && (0 <= x < TWO_16 ==> r == x)
  { x % 0x1_0000 }

  function Wrap32(x: int): (r: nat)
    ensures r < TWO_32 && (0 <= x < TWO_32 ==> r == x)
  { x % 0x1_0000_0000 }

  function Wrap64(x: int): (r: nat)
    ensures r < TWO_64 && (0 <= x < TWO_64 ==> r == x)
  { x % 0x1_0000_0000_0000_0000 }

  function Max(a: int, b: int): int { if a < b then b else a }

  function Min(a: int, b: int): int { if a < b then a else b }

  /** The two's-complement reading of a `2 * half`-valued word. */
  function Signed(x: int, half: int): (r: int)
    requires 0 <= x < 2 * half
    ensures -half <= r < half
  {
    if x < half then x else x - 2 * half
  }

  /** Integer division as C++ does it: rounded towards zero. */
  function TruncDiv(a: int, b: int): int
    requires 0 < b
  {
    if a >= 0 then a / b else -((-a) / b)
  }

  /** A word and its two's-complement reading are congruent. */
  lemma SignedIsCongruent(x: int, half: int)
    requires 0 <= x < 2 * half
    ensures Signed(x, half) == x || Signed(x, half) == x - 2 * half
    ensures Signed(x, half) >= 0 <==> x < half
  {
  }

  /** What is cut off is smaller than the divisor and has the sign of the dividend. */
  lemma TruncatesTowardsZero(a: int, b: int)
    requires 0 < b
    ensures a >= 0 ==> 0 <= a - TruncDiv(a, b) * b < b
    ensures a <= 0 ==> -b < a - TruncDiv(a, b) * b <= 0
  {
  }

  // ---- texts and their parts ----

  predicate OccursAt<T(==)>(s: seq<T>, text: seq<T>, i: nat) {
    i + |text| <= |s| && s[i..i + |text|] == text
  }

  predicate Contains<T(==)>(s: seq<T>, text: seq<T>) {
    exists i :: 0 <= i <= |s| && OccursAt(s, text, i)
  }

  /** The parts one after the other. */
  function Flat<T>(parts: seq<seq<T>>): seq<T> {
    if parts == [] then [] else Flat(parts[..|parts| - 1]) + parts[|parts| - 1]
  }

  // ---- unsigned little-endian words inside a byte string ----

  function U16(s: seq<byte>, at: nat): (r: nat)
    requires at + 2 <= |s|
    ensures r < TWO_16
  {
    s[at] as int + 256 * s[at + 1] as int
  }

  function U24(s: seq<byte>, at: nat): (r: nat)
    requires at + 3 <= |s|
    ensures r < 0x100_0000
  {
    s[at] as int + 256 * s[at + 1] as int + 0x1_0000 * s[at + 2] as int
  }

  function U32(s: seq<byte>, at: nat): (r: nat)
    requires at + 4 <= |s|
    ensures r < TWO_32
  {
    U16(s, at) + 0x1_0000 * U16(s, at + 2)
  }

  function Bytes16(x: nat): (s: seq<byte>)
    requires x < TWO_16
    ensures |s| == 2 && U16(s, 0) == x
  {
    [x % 256, x / 256]
  }

  function Bytes32(x: nat): (s: seq<byte>)
    requires x < TWO_32
    ensures |s| == 4 && U32(s, 0) == x
  {
    Bytes16(x % 0x1_0000) + Bytes16(x / 0x1_0000)
  }

  /** The least significant byte comes first. */
  lemma WordsAreLittleEndian(s: seq<byte>)
    requires |s| >= 4
    ensures U16(s, 0) == s[0] as int + s[1] as int * 0x100
    ensures U24(s, 0) == s[0] as int + s[1] as int * 0x100 + s[2] as int * 0x1_0000
    ensures U32(s, 0) == s[0] as int + s[1] as int * 0x100 + s[2] as int * 0x1_0000 + s[3] as int * 0x100_0000
  {
  }

  // ---- reading and overwriting a stretch of a byte string ----

  function Get(s: seq<byte>, at: nat, n: nat): (r: seq<byte>)
    requires at + n <= |s|
    ensures |r| == n
  {
    s[at..at + n]
  }

  function Put(s: seq<byte>, at: nat, v: seq<byte>): (r: seq<byte>)
    requires at + |v| <= |s|
  {
    seq(|s|, k requires 0 <= k < |s| => if at <= k < at + |v| then v[k - at] else s[k])
  }

  /** What was stored is read back, and stretches that do not meet it are unchanged. */
  lemma GetPut(s: seq<byte>, at: nat, v: seq<byte>, from: nat, n: nat)
    requires at + |v| <= |s| && from + n <= |s|
    ensures from == at && n == |v| ==> Get(Put(s, at, v), from, n) == v
    ensures from + n <= at || at + |v| <= from ==> Get(Put(s, at, v), from, n) == Get(s, from, n)
  {
    var stored := Get(Put(s, at, v), from, n);
    assert forall k :: 0 <= k < n ==> stored[k] == if at <= from + k < at + |v| then v[from + k - at] else s[from + k];
  }

  /** Storing into a stretch that was itself just stored. */
  lemma PutWithin(s: seq<byte>, base: nat, rec: seq<byte>, at: nat, v: seq<byte>)
    requires base + |rec| <= |s| && at + |v| <= |rec|
    ensures Put(Put(s, base, rec), base + at, v) == Put(s, base, Put(rec, at, v))
  {
  }

  /** Storing right behind a stretch. */
  lemma PutBehind(s: seq<byte>, at: nat, v: seq<byte>)
    requires at + |v| <= |s|
    ensures Put(s, at, v)[..at + |v|] == s[..at] + v
  {
  }

  /** Reading inside a stretch. */
  lemma GetWithin(s: seq<byte>, base: nat, len: nat, at: nat, n: nat)
    requires base + len <= |s| && at + n <= len
    ensures s[base + at..base + at + n] == Get(Get(s, base, len), at, n)
  {
    var part := Get(s, base, len);
    assert forall k :: 0 <= k < n ==> Get(part, at, n)[k] == part[at + k];
  }

  /** memcpy into a buffer. */
  method Memcpy(buf: array<byte>, at: nat, v: seq<byte>)
    requires at + |v| <= buf.Length
    modifies buf
    ensures buf[..] == Put(old(buf[..]), at, v)
  {
    for i := 0 to |v|
      invariant forall k :: 0 <= k < buf.Length ==>
        buf[k] == if at <= k < at + i then v[k - at] else old(buf[k])
    {
      buf[at + i] := v[i];
    }
  }
}
