/** Bytes and C strings of bytes. */
module Bytes {

  type Byte = b: int | 0 <= b < 256

  const LF: Byte := 10

  /** What a C string function sees of some bytes: those before the first NUL. */
  function UntilNul(s: seq<Byte>): (r: seq<Byte>)
    ensures r <= s && 0 !in r
    ensures 0 !in s <==> r == s
  {
    if s == [] || s[0] == 0 then [] else [s[0]] + UntilNul(s[1..])
  }

  /** A line: its only newline is its last byte. */
  predicate IsLine(l: seq<Byte>) {
    l != [] && l[|l| - 1] == LF && LF !in l[..|l| - 1]
  }

  /** memchr: the first place from `from` on, or the end. */
  function Memchr(s: seq<Byte>, b: Byte, from: nat): (k: nat)
    requires from <= |s|
    ensures from <= k <= |s| && (k < |s| ==> s[k] == b)
    ensures forall i | from <= i < k :: s[i] != b
    decreases |s| - from
  {
    if from == |s| || s[from] == b then from else Memchr(s, b, from + 1)
  }

  lemma MemchrIs(s: seq<Byte>, b: Byte, from: nat, k: nat)
    requires from <= k <= |s| && (k < |s| ==> s[k] == b) && forall i | from <= i < k :: s[i] != b
    ensures Memchr(s, b, from) == k
  {
    hide Memchr;
  }
}
