/** Machine integers, byte strings and big-endian words, as every wire format of the system uses them. */
module Bytes {
  const TWO16: int := 0x1_0000
  const TWO32: int := 0x1_0000_0000
  const TWO63: int := 0x8000_0000_0000_0000
  const TWO64: int := 0x1_0000_0000_0000_0000

  newtype byte = n: int | 0 <= n < 0x100
  type uint32 = n: int | 0 <= n < 0x1_0000_0000
  type uint64 = n: int | 0 <= n < 0x1_0000_0000_0000_0000
  type int32 = n: int | -0x8000_0000 <= n < 0x8000_0000
  type int64 = n: int | -0x8000_0000_0000_0000 <= n < 0x8000_0000_0000_0000

  type bytes = seq<byte>

  datatype Option<+T> = None | Some(value: T) {
    predicate IsFailure() { None? }
    function PropagateFailure<U>(): Option<U> requires None? { None }
    function Extract(): T requires Some? { value }
  }

  /** A Go or C conversion of a signed integer to the unsigned type of the same width. */
  function U32Of(i: int): uint32 { i % 0x1_0000_0000 }

  function U64Of(i: int): uint64 { i % 0x1_0000_0000_0000_0000 }

  /** A conversion back to the signed type, in two's complement. */
  function I32Of(u: uint32): int32 { if u < 0x8000_0000 then u else u - 0x1_0000_0000 }

  function I64Of(u: uint64): int64 {
    if u < 0x8000_0000_0000_0000 then u else u - 0x1_0000_0000_0000_0000
  }

  function BE32(n: uint32): (r: bytes)
    ensures |r| == 4
  {
    [(n / 0x100_0000) as byte, ((n / 0x1_0000) % 0x100) as byte, ((n / 0x100) % 0x100) as byte, (n % 0x100) as byte]
  }

  function FromBE32(b: bytes): uint32
    requires |b| >= 4
  {
    (b[0] as int) * 0x100_0000 + (b[1] as int) * 0x1_0000 + (b[2] as int) * 0x100 + b[3] as int
  }

  function BE64(n: uint64): (r: bytes)
    ensures |r| == 8
  {
    BE32(n / 0x1_0000_0000) + BE32(n % 0x1_0000_0000)
  }

  function FromBE64(b: bytes): uint64
    requires |b| >= 8
  {
    var (hi: int, lo: int) := (FromBE32(b[..4]), FromBE32(b[4..8]));
    hi * 0x1_0000_0000 + lo
  }

  /** Reading a big-endian word off the front of any byte string returns the word written there. */
  lemma BE32RoundTrip(n: uint32, rest: bytes)
    ensures FromBE32(BE32(n) + rest) == n
  {
    var b := BE32(n);
    assert (b + rest)[..4] == b;
    assert n == (n / 0x100) * 0x100 + n % 0x100;
    assert n / 0x100 == (n / 0x1_0000) * 0x100 + (n / 0x100) % 0x100;
    assert n / 0x1_0000 == (n / 0x100_0000) * 0x100 + (n / 0x1_0000) % 0x100;
  }

  /** A word read off any longer byte string is the same word. */
  lemma SameWord(h: bytes, b: bytes)
    requires 4 <= |h| <= |b| && h == b[..|h|]
    ensures FromBE32(h) == FromBE32(b)
  {
  }

  lemma BE64RoundTrip(n: uint64, rest: bytes)
    ensures FromBE64(BE64(n) + rest) == n
  {
    var hi, lo := BE32(n / 0x1_0000_0000), BE32(n % 0x1_0000_0000);
    var b := BE64(n) + rest;
    assert b[..4] == hi + [] && b[4..8] == lo + [];
    BE32RoundTrip(n / 0x1_0000_0000, []);
    BE32RoundTrip(n % 0x1_0000_0000, []);
  }

  // ---- arrays of bytes -----------------------------------------------------------------------------------

  /** Copies `p` into `dst` from `at` on; everything else in it stays. */
  method CopyInto(dst: array<byte>, at: nat, p: bytes)
    requires at + |p| <= dst.Length
    modifies dst
    ensures dst[..at] == old(dst[..at]) && dst[at..at + |p|] == p && dst[at + |p|..] == old(dst[at + |p|..])
  {
    for i := 0 to |p|
      invariant dst[..at] == old(dst[..at]) && dst[at..at + i] == p[..i] && dst[at + i..] == old(dst[at + i..])
    {
      dst[at + i] := p[i];
    }
  }

  // ---- little-endian words -----------------------------------------------------------------------------

  function LE(n: nat, k: nat): (b: bytes)
    ensures |b| == k
  {
    if k == 0 then [] else [(n % 0x100) as byte] + LE(n / 0x100, k - 1)
  }

  function FromLE(b: bytes): nat { if b == [] then 0 else b[0] as int + 0x100 * FromLE(b[1..]) }

  function Limit(k: nat): nat { if k == 0 then 1 else 0x100 * Limit(k - 1) }

  lemma {:induction false} LERoundTrip(n: nat, k: nat)
    requires n < Limit(k)
    ensures FromLE(LE(n, k)) == n
  {
    if k > 0 {
      LERoundTrip(n / 0x100, k - 1);
      assert LE(n, k)[1..] == LE(n / 0x100, k - 1);
    }
  }

  lemma {:induction false} FromLEBound(b: bytes)
    ensures FromLE(b) < Limit(|b|)
  {
    if b != [] {
      FromLEBound(b[1..]);
    }
  }

  /** What a strict prefix of a concatenation is: a strict prefix of the head, or the head and a strict prefix
      of the tail. */
  lemma StrictPrefixOfConcat(p: bytes, a: bytes, b: bytes)
    requires p < a + b
    ensures p < a || (a <= p && p[|a|..] < b && p == a + p[|a|..])
  {
    assert p == (a + b)[..|p|];
    if |p| >= |a| {
      assert p[..|a|] == (a + b)[..|a|] == a;
      assert p[|a|..] == (a + b)[..|p|][|a|..] == b[..|p| - |a|];
    } else {
      assert p == a[..|p|];
    }
  }

  // ---- white space -------------------------------------------------------------------------------------

  predicate IsSpace(b: byte) { b == 32 || 9 <= b <= 13 }

  function TrimLeft(s: bytes): bytes { if s != [] && IsSpace(s[0]) then TrimLeft(s[1..]) else s }

  function TrimRight(s: bytes): bytes {
    if s != [] && IsSpace(s[|s| - 1]) then TrimRight(s[..|s| - 1]) else s
  }

  function Trim(s: bytes): bytes { TrimRight(TrimLeft(s)) }

  /** Trimming takes off spaces, tabs, line breaks, vertical tabs and form feeds at both ends, and only those. */
  lemma TrimTakesSpace(s: bytes) returns (before: bytes, after: bytes)
    ensures s == before + Trim(s) + after
    ensures forall i :: 0 <= i < |before| ==> before[i] in {9, 10, 11, 12, 13, 32}
    ensures forall i :: 0 <= i < |after| ==> after[i] in {9, 10, 11, 12, 13, 32}
    ensures Trim(s) != [] ==> Trim(s)[0] !in {9, 10, 11, 12, 13, 32}
    ensures Trim(s) != [] ==> Trim(s)[|Trim(s)| - 1] !in {9, 10, 11, 12, 13, 32}
  {
    before := TrimLeftTakes(s);
    after := TrimRightTakes(TrimLeft(s));
    assert before + (Trim(s) + after) == before + Trim(s) + after;
    if Trim(s) != [] {
      assert TrimLeft(s)[0] == (Trim(s) + after)[0] == Trim(s)[0];
    }
  }

  lemma {:induction false} TrimLeftTakes(s: bytes) returns (before: bytes)
    ensures s == before + TrimLeft(s) && forall i :: 0 <= i < |before| ==> before[i] in {9, 10, 11, 12, 13, 32}
    ensures TrimLeft(s) != [] ==> TrimLeft(s)[0] !in {9, 10, 11, 12, 13, 32}
  {
    before := [];
    if s != [] && IsSpace(s[0]) {
      var more := TrimLeftTakes(s[1..]);
      before := [s[0]] + more;
    }
  }

  lemma {:induction false} TrimRightTakes(s: bytes) returns (after: bytes)
    ensures s == TrimRight(s) + after && forall i :: 0 <= i < |after| ==> after[i] in {9, 10, 11, 12, 13, 32}
    ensures TrimRight(s) != [] ==> TrimRight(s)[|TrimRight(s)| - 1] !in {9, 10, 11, 12, 13, 32}
  {
    after := [];
    if s != [] && IsSpace(s[|s| - 1]) {
      var more := TrimRightTakes(s[..|s| - 1]);
      after := more + [s[|s| - 1]];
    }
  }
}
