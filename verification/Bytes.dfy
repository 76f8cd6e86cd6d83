/** Little-endian integers inside byte sequences, and 512-byte disk blocks. */
module Bytes {

  type byte = x: int | 0 <= x < 256

  const BSIZE := 512
  const U32MAX := 0x1_0000_0000

  predicate IsBlock(b: seq<byte>) { |b| == BSIZE }

  type Block = b: seq<byte> | IsBlock(b) witness seq(512, i => 0)

  predicate IsZero(b: Block) { forall k :: 0 <= k < |b| ==> b[k] == 0 }

  function ZeroBlock(): (b: Block)
    ensures IsZero(b)
  {
    seq(BSIZE, i => 0)
  }

  function Pow2(n: nat): (p: nat)
    ensures p > 0
  {
    if n == 0 then 1 else 2 * Pow2(n - 1)
  }

  /** x & (1 << k) is not zero. */
  predicate BitOf(x: nat, k: nat) { if k == 0 then x % 2 == 1 else BitOf(x / 2, k - 1) }

  /** The 32-bit little-endian word at byte offset off. */
  function U32(s: seq<byte>, off: nat): (v: nat)
    requires off + 4 <= |s|
    ensures v < U32MAX
  {
    var b0: int, b1: int, b2: int, b3: int := s[off], s[off + 1], s[off + 2], s[off + 3];
    b0 + 0x100 * b1 + 0x1_0000 * b2 + 0x100_0000 * b3
  }

  function PutU32(s: seq<byte>, off: nat, v: nat): (r: seq<byte>)
    requires off + 4 <= |s| && v < U32MAX
    ensures |r| == |s|
    ensures U32(r, off) == v
    ensures forall k :: 0 <= k < |s| && !(off <= k < off + 4) ==> r[k] == s[k]
  {
    var v1 := v / 0x100;
    var v2 := v1 / 0x100;
    var v3 := v2 / 0x100;
    s[off := v % 0x100][off + 1 := v1 % 0x100][off + 2 := v2 % 0x100][off + 3 := v3]
  }

  /** A word depends on its own four bytes only. */
  lemma U32Frame(s: seq<byte>, t: seq<byte>, off: nat)
    requires off + 4 <= |s| && off + 4 <= |t|
    requires s[off] == t[off] && s[off + 1] == t[off + 1] && s[off + 2] == t[off + 2] && s[off + 3] == t[off + 3]
    ensures U32(s, off) == U32(t, off)
  {
  }

  /** s with the first n words of ws stored from byte offset off on. */
  function PutWords(s: seq<byte>, off: nat, ws: seq<nat>, n: nat): (r: seq<byte>)
    requires n <= |ws| && off + 4 * n <= |s|
    requires forall i :: 0 <= i < |ws| ==> ws[i] < U32MAX
    ensures |r| == |s|
  {
    if n == 0 then s else PutU32(PutWords(s, off, ws, n - 1), off + 4 * (n - 1), ws[n - 1])
  }

  lemma {:induction false} PutWordsFacts(s: seq<byte>, off: nat, ws: seq<nat>, n: nat)
    requires n <= |ws| && off + 4 * n <= |s|
    requires forall i :: 0 <= i < |ws| ==> ws[i] < U32MAX
    ensures var r := PutWords(s, off, ws, n);
            && (forall i :: 0 <= i < n ==> U32(r, off + 4 * i) == ws[i])
            && (forall k :: 0 <= k < |s| && !(off <= k < off + 4 * n) ==> r[k] == s[k])
  {
    if n > 0 {
      PutWordsFacts(s, off, ws, n - 1);
      var t := PutWords(s, off, ws, n - 1);
      var r := PutWords(s, off, ws, n);
      forall i | 0 <= i < n - 1 ensures U32(r, off + 4 * i) == ws[i] {
        U32Frame(r, t, off + 4 * i);
      }
    }
  }
}
