/** malloc, free and realloc over one arena and directly mapped large blocks. */
module Heap {
  import opened HeapSpec

  const ULONG := 0x1_0000_0000_0000_0000
  const DIRECT_THRESHOLD := 0x100_0000  // 16 MiB

  /** align_up to 16; 0 when the sum would wrap. */
  function AlignUp(n: nat): (r: nat)
    requires n < ULONG
    ensures r == 0 || (n <= r < n + ALIGN && r % ALIGN == 0)
    ensures r == 0 <==> n == 0 || n > ULONG - ALIGN
  {
    if n > ULONG - 1 - (ALIGN - 1) then 0 else (n + ALIGN - 1) / ALIGN * ALIGN
  }

  /** Directly mapped blocks: above the arena, aligned, apart, with their size in their header. */
  ghost predicate DirectOk(m: Mem, direct: map<nat, nat>) {
    && (forall p :: p in direct ==>
          p >= ARENA_END && p % ALIGN == 0 && direct[p] > 0 && direct[p] % ALIGN == 0 && W(m, p) == direct[p] + 3)
    && (forall p, q :: p in direct && q in direct && p < q ==> p + HDR + direct[p] <= q)
  }

  /** Where mmap may put n more bytes: page-aligned, above the arena, clear of every block. */
  ghost predicate Mappable(direct: map<nat, nat>, p: nat, n: nat) {
    p >= ARENA_END && p % 4096 == 0 && forall q :: q in direct ==> q + HDR + direct[q] <= p || p + n <= q
  }

  /** The size of the live arena block whose header is at q; 0 if there is none. */
  ghost function SizeAt(s: seq<Chunk>, q: nat): nat {
    if s == [] then 0 else if s[0].used && s[0].addr == q then s[0].size else SizeAt(s[1..], q)
  }

  lemma {:induction false} SizeConcat(s: seq<Chunk>, t: seq<Chunk>, q: nat)
    ensures SizeAt(s + t, q) == if SizeAt(s, q) != 0 then SizeAt(s, q) else SizeAt(t, q)
    requires forall i :: 0 <= i < |s| ==> s[i].size > 0
  {
    if s == [] {
      assert s + t == t;
    } else {
      assert (s + t)[0] == s[0] && (s + t)[1..] == s[1..] + t;
      SizeConcat(s[1..], t, q);
    }
  }

  lemma {:induction false} SizeIndex(s: seq<Chunk>, q: nat) returns (i: nat)
    requires SizeAt(s, q) != 0
    ensures i < |s| && s[i].used && s[i].addr == q && s[i].size == SizeAt(s, q)
  {
    if s[0].used && s[0].addr == q {
      i := 0;
    } else {
      i := SizeIndex(s[1..], q);
      i := i + 1;
    }
  }

  lemma {:induction false} SizeNone(s: seq<Chunk>, q: nat)
    requires forall i :: 0 <= i < |s| ==> !(s[i].used && s[i].addr == q)
    ensures SizeAt(s, q) == 0
  {
    if s != [] { SizeNone(s[1..], q); }
  }

  lemma {:induction false} SizeHere(s: seq<Chunk>, lo: nat, hi: nat, i: nat)
    requires Tiled(s, lo, hi) && i < |s| && s[i].used
    ensures SizeAt(s, s[i].addr) == s[i].size
  {
    if i > 0 {
      TiledApart(s, lo, hi, 0, i);
      SizeHere(s[1..], End(s[0]), hi, i - 1);
    }
  }

  ghost predicate SameWords(m: Mem, m': Mem, p: nat, n: nat) { forall a: nat :: p <= a < p + n ==> W(m', a) == W(m, a) }

  /** The whole state of the allocator. */
  datatype State = State(inited: bool, top: nat, head: nat, mem: Mem, chunks: seq<Chunk>, direct: map<nat, nat>)

  ghost predicate StateOk(t: State) {
    && (if t.inited then HeapOk(t.mem, t.head, t.top, t.chunks) else t.chunks == [] && t.head == 0 && t.top == 0)
    && DirectOk(t.mem, t.direct)
  }

  /** The size of the live block whose header is at q; 0 if there is none. */
  ghost function BlockSize(t: State, q: nat): nat { if q in t.direct then t.direct[q] else SizeAt(t.chunks, q) }

  /** Every block but the one at x is a block of the same size and contents as before, and there are no others. */
  ghost predicate OthersKept(t: State, u: State, x: nat) {
    && (forall q: nat :: q != x ==> BlockSize(u, q) == BlockSize(t, q))
    && (forall q: nat :: q != x && BlockSize(t, q) != 0 ==> SameWords(t.mem, u.mem, q + HDR, BlockSize(t, q)))
  }

  /** Blocks are 16-aligned and no two overlap. */
  lemma BlocksDisjoint(t: State, p: nat, q: nat)
    requires StateOk(t) && BlockSize(t, p) != 0 && BlockSize(t, q) != 0 && p != q
    ensures p % ALIGN == 0 && (p + HDR + BlockSize(t, p) <= q || q + HDR + BlockSize(t, q) <= p)
  {
    hide Tiled, Chain, Headers, Coalesced;
    if p !in t.direct {
      var i := SizeIndex(t.chunks, p);
      TiledSplit(t.chunks, ARENA_BASE, t.top, i);
      if q !in t.direct {
        var j := SizeIndex(t.chunks, q);
        if i < j {
          TiledApart(t.chunks, ARENA_BASE, t.top, i, j);
        } else {
          TiledApart(t.chunks, ARENA_BASE, t.top, j, i);
        }
      }
    } else if q !in t.direct {
      var j := SizeIndex(t.chunks, q);
      TiledSplit(t.chunks, ARENA_BASE, t.top, j);
    }
  }

  /** Below the arena's end, a change cannot touch a direct block. */
  lemma DirectKept(m: Mem, m': Mem, direct: map<nat, nat>, lo: nat, hi: nat, prev: nat)
    requires DirectOk(m, direct) && ChangedIn(m, m', lo, hi, prev) && hi <= ARENA_END && prev + 8 < ARENA_END
    ensures DirectOk(m', direct) && forall p :: p in direct ==> SameWords(m, m', p + HDR, direct[p])
  {
    forall p | p in direct ensures W(m', p) == W(m, p) && SameWords(m, m', p + HDR, direct[p]) {
      assert p >= ARENA_END;
    }
  }

  lemma PositiveSizes(s: seq<Chunk>, lo: nat, hi: nat)
    requires Tiled(s, lo, hi)
    ensures forall i :: 0 <= i < |s| ==> s[i].size > 0
  {
    forall i | 0 <= i < |s| ensures s[i].size > 0 { TiledSplit(s, lo, hi, i); }
  }

  /** mid may only have a block at x, and so may neu: every other block is where it was. */
  lemma SameSizes(pre: seq<Chunk>, mid: seq<Chunk>, neu: seq<Chunk>, post: seq<Chunk>, lo: nat, hi: nat, lo': nat,
                  hi': nat, x: nat, q: nat)
    requires Tiled(pre + mid + post, lo, hi) && Tiled(pre + neu + post, lo', hi') && q != x
    requires (forall j :: 0 <= j < |mid| && mid[j].used ==> mid[j].addr == x)
    requires (forall j :: 0 <= j < |neu| && neu[j].used ==> neu[j].addr == x)
    ensures SizeAt(pre + neu + post, q) == SizeAt(pre + mid + post, q)
  {
    hide Tiled;
    var s, t := pre + mid + post, pre + neu + post;
    PositiveSizes(s, lo, hi);
    PositiveSizes(t, lo', hi');
    forall i | 0 <= i < |pre| + |mid| ensures (pre + mid)[i] == s[i] { }
    forall i | 0 <= i < |pre| + |neu| ensures (pre + neu)[i] == t[i] { }
    forall i | 0 <= i < |pre| ensures pre[i] == s[i] { }
    SizeConcat(pre + mid, post, q);
    SizeConcat(pre, mid, q);
    SizeConcat(pre + neu, post, q);
    SizeConcat(pre, neu, q);
    SizeNone(mid, q);
    SizeNone(neu, q);
  }

  lemma RunBound(t: State, lo: nat, a: nat)
    requires HeapOk(t.mem, t.head, t.top, t.chunks) && a <= |t.chunks| && Tiled(t.chunks[..a], ARENA_BASE, lo)
    ensures LastFree(t.chunks[..a]) + 8 < ARENA_END
  {
    if LastFree(t.chunks[..a]) != 0 {
      var i := LastFreeAt(t.chunks[..a]);
      TiledSplit(t.chunks, ARENA_BASE, t.top, i);
    }
  }

  lemma RunPayload(t: State, u: State, a: nat, lo: nat, hi: nat, j: nat)
    requires HeapOk(t.mem, t.head, t.top, t.chunks) && a <= |t.chunks| && Tiled(t.chunks[..a], ARENA_BASE, lo)
    requires ChangedIn(t.mem, u.mem, lo, hi, LastFree(t.chunks[..a])) && j < |t.chunks| && t.chunks[j].used
    requires j < a || t.chunks[j].addr >= hi
    ensures SamePayload(t.mem, u.mem, t.chunks[j])
  {
    if LastFree(t.chunks[..a]) != 0 {
      var i := LastFreeAt(t.chunks[..a]);
      assert t.chunks[i].addr == LastFree(t.chunks[..a]);
    }
    if j < a { TiledSplit(t.chunks[..a], ARENA_BASE, lo, j); }
    PayloadOutside(t.mem, u.mem, t.chunks, t.top, lo, hi, LastFree(t.chunks[..a]), j);
  }

  /** The run s[a..e] of chunks became neu, and the only block on either side of the change is at x. */
  lemma RunReplaced(t: State, u: State, a: nat, e: nat, neu: seq<Chunk>, lo: nat, hi: nat, x: nat)
    requires StateOk(t) && t.inited && u.inited && a <= e <= |t.chunks| && Tiled(t.chunks[..a], ARENA_BASE, lo)
    requires u.chunks == t.chunks[..a] + neu + t.chunks[e..] && HeapOk(u.mem, u.head, u.top, u.chunks)
    requires ChangedIn(t.mem, u.mem, lo, hi, LastFree(t.chunks[..a])) && hi <= ARENA_END && u.direct == t.direct
    requires forall j :: e <= j < |t.chunks| ==> t.chunks[j].addr >= hi
    requires forall j :: a <= j < e && t.chunks[j].used ==> t.chunks[j].addr == x
    requires forall j :: 0 <= j < |neu| && neu[j].used ==> neu[j].addr == x
    ensures StateOk(u) && OthersKept(t, u, x)
  {
    hide HeapOk, ChangedIn, Tiled, DirectOk;
    RunBound(t, lo, a);
    DirectKept(t.mem, u.mem, t.direct, lo, hi, LastFree(t.chunks[..a]));
    var pre, mid, post := t.chunks[..a], t.chunks[a..e], t.chunks[e..];
    assert t.chunks == pre + mid + post;
    HeapTiled(t);
    HeapTiled(u);
    forall q: nat | q != x ensures BlockSize(u, q) == BlockSize(t, q) {
      SameSizes(pre, mid, neu, post, ARENA_BASE, t.top, ARENA_BASE, u.top, x, q);
    }
    forall q: nat | q != x && BlockSize(t, q) != 0 ensures SameWords(t.mem, u.mem, q + HDR, BlockSize(t, q)) {
      if q !in t.direct {
        var j := SizeIndex(t.chunks, q);
        RunPayload(t, u, a, lo, hi, j);
      }
    }
  }

  lemma HeapTiled(t: State)
    requires HeapOk(t.mem, t.head, t.top, t.chunks)
    ensures Tiled(t.chunks, ARENA_BASE, t.top) && t.top <= ARENA_END && Chain(t.mem, t.head, t.chunks, 0)
  {
  }

  /** Walking the list: the next free chunk at or after chunk j. */
  lemma NextFree(m: Mem, h: nat, s: seq<Chunk>, top: nat, j: nat, cur: nat) returns (k: nat)
    requires Chain(m, h, s, 0) && Tiled(s, ARENA_BASE, top) && j <= |s| && cur == Follow(m, h, s[..j])
    ensures j <= k <= |s| && (forall i :: j <= i < k ==> s[i].used)
    ensures if cur != 0 then k < |s| && !s[k].used && s[k].addr == cur else k == |s|
  {
    assert s == s[..j] + s[j..];
    ChainSplit(m, h, s[..j], s[j..], 0);
    k := ChainHead(m, cur, s[j..]);
    forall i | j <= i < j + k ensures s[i].used { assert s[j..][i - j].used; }
    k := j + k;
    if k < |s| { TiledSplit(s, ARENA_BASE, top, k); }
  }

  /** Passing used chunks moves neither the pointer nor the last free chunk. */
  lemma PassUsed(m: Mem, h: nat, s: seq<Chunk>, j: nat, k: nat)
    requires j <= k <= |s| && forall i :: j <= i < k ==> s[i].used
    ensures Follow(m, h, s[..k]) == Follow(m, h, s[..j]) && LastFree(s[..k]) == LastFree(s[..j])
  {
    assert s[..k] == s[..j] + s[j..k];
    FollowConcat(m, h, s[..j], s[j..k]);
    AllUsedPass(m, Follow(m, h, s[..j]), s[j..k]);
    LastFreeConcat(s[..j], s[j..k]);
  }

  /** Passing a free chunk. */
  lemma PassFree(m: Mem, h: nat, s: seq<Chunk>, k: nat)
    requires k < |s| && !s[k].used
    ensures Follow(m, h, s[..k + 1]) == W(m, s[k].addr + 8) && LastFree(s[..k + 1]) == s[k].addr
  {
    FollowStep(m, h, s, k);
  }

  /** No free chunk is large enough, and the rest of the arena is not either. */
  ghost predicate NoRoom(chunks: seq<Chunk>, top: nat, size: nat) {
    top + HDR + size > ARENA_END && forall i :: 0 <= i < |chunks| && !chunks[i].used ==> chunks[i].size < size
  }

  class Allocator {
    var inited: bool          // arena_inited
    var top: nat              // arena_top
    var head: nat             // free_list
    var mem: Mem
    ghost var chunks: seq<Chunk>
    ghost var direct: map<nat, nat>

    ghost function St(): State
      reads this
    {
      State(inited, top, head, mem, chunks, direct)
    }

    ghost predicate Valid()
      reads this
    {
      var ok := StateOk(St());
      ok
    }

    /** Before the first allocation. */
    constructor ()
      ensures Valid() && !inited && direct == map[]
    {
      inited, top, head, mem, chunks, direct := false, 0, 0, map[], [], map[];
    }

    /** arena_alloc's search: the smallest free chunk that fits, the first of equals; 0 if none does. */
    method BestFit(size: nat) returns (best: nat, bestPrev: nat, ghost b: nat)
      requires HeapOk(mem, head, top, chunks)
      ensures best == 0 ==> forall i :: 0 <= i < |chunks| && !chunks[i].used ==> chunks[i].size < size
      ensures best != 0 ==> b < |chunks| && !chunks[b].used && chunks[b].addr == best && chunks[b].size >= size
      ensures best != 0 ==> forall i :: 0 <= i < |chunks| && !chunks[i].used && chunks[i].size >= size ==>
        chunks[b].size < chunks[i].size || (chunks[b].size == chunks[i].size && b <= i)
      ensures best != 0 ==> bestPrev == LastFree(chunks[..b])
    {
      hide Chain, Tiled, Coalesced, Follow, LastFree;
      best, bestPrev, b := 0, 0, 0;
      var c, prev := head, 0;
      ghost var j := 0;
      PassUsed(mem, head, chunks, 0, 0);
      WalkStart(mem, head, chunks);
      while c != 0
        invariant j <= |chunks| && c == Follow(mem, head, chunks[..j]) && prev == LastFree(chunks[..j])
        invariant best == 0 ==> forall i :: 0 <= i < j && !chunks[i].used ==> chunks[i].size < size
        invariant best != 0 ==>
          && b < j && !chunks[b].used && chunks[b].addr == best && chunks[b].size >= size
          && bestPrev == LastFree(chunks[..b])
        invariant best != 0 ==> forall i :: 0 <= i < j && !chunks[i].used && chunks[i].size >= size ==>
          chunks[b].size < chunks[i].size || (chunks[b].size == chunks[i].size && b <= i)
        decreases |chunks| - j
      {
        ghost var k := NextFree(mem, head, chunks, top, j, c);
        PassUsed(mem, head, chunks, j, k);
        PassFree(mem, head, chunks, k);
        if W(mem, c) >= size {
          if best == 0 || W(mem, c) < W(mem, best) { best, bestPrev, b := c, prev, k; }
        }
        prev := c;
        c := W(mem, c + 8);
        j := k + 1;
      }
      ghost var k := NextFree(mem, head, chunks, top, j, c);
    }

    /** arena_alloc from free chunk b. */
    method Take(best: nat, bestPrev: nat, size: nat, ghost b: nat)
      requires Valid() && inited && size > 0 && size % ALIGN == 0 && b < |chunks| && !chunks[b].used
      requires chunks[b].addr == best
      requires chunks[b].size >= size && bestPrev == LastFree(chunks[..b])
      modifies this`head, this`mem, this`chunks
      ensures Valid() && OthersKept(old(St()), St(), best) && BlockSize(old(St()), best) == 0
      ensures size <= BlockSize(St(), best) <= size + HDR
    {
      hide HeapOk, DirectOk, ChangedIn, LastFree, OthersKept, SizeAt;
      ghost var t, m0, c := St(), mem, chunks[b];
      FreeHeader(t, b);
      var m := mem;
      if W(m, best) >= size + HDR + ALIGN {
        var rest := best + HDR + size;
        m := m[rest := W(m, best) - size - HDR];
        m := m[rest + 8 := W(m, best + 8)];
        m := m[best := size];
        if bestPrev != 0 { m := m[bestPrev + 8 := rest]; } else { head := rest; }
        m := m[best := W(m, best) + 1];
        mem := m[best + 8 := 0];
        ghost var neu := [Chunk(best, size, true), Chunk(rest, c.size - size - HDR, false)];
        chunks := chunks[..b] + neu + chunks[b + 1..];
        SplitMem(m0, t.head, best, bestPrev, rest, size, c.size, mem, head);
        TakeSplit(m0, t.head, top, t.chunks, b, size, mem, head);
        Taken(t, St(), b, neu, size);
      } else {
        var next := W(m, best + 8);
        if bestPrev != 0 { m := m[bestPrev + 8 := next]; } else { head := next; }
        m := m[best := W(m, best) + 1];
        mem := m[best + 8 := 0];
        ghost var neu := [c.(used := true)];
        chunks := chunks[..b] + neu + chunks[b + 1..];
        WholeMem(m0, t.head, best, bestPrev, next, c.size, mem, head);
        TakeWhole(m0, t.head, top, t.chunks, b, mem, head);
        Taken(t, St(), b, neu, c.size);
      }
    }

    /** arena_alloc: a free chunk that fits, else more of the arena, else nothing. */
    method ArenaAlloc(size: nat) returns (p: nat)
      requires Valid() && inited && size > 0 && size % ALIGN == 0
      modifies this`head, this`mem, this`chunks, this`top
      ensures Valid()
      ensures p == 0 <==> NoRoom(old(chunks), old(top), size)
      ensures p == 0 ==> St() == old(St())
      ensures p != 0 ==>
        && p >= HDR && OthersKept(old(St()), St(), p - HDR) && BlockSize(old(St()), p - HDR) == 0
        && size <= BlockSize(St(), p - HDR) <= size + HDR
    {
      hide HeapOk, DirectOk, ChangedIn, LastFree, OthersKept, SizeAt;
      ghost var t := St();
      var best, prev, b := BestFit(size);
      if best != 0 {
        FreeHeader(t, b);
        Take(best, prev, size, b);
        return best + HDR;
      }
      if ARENA_END - top < HDR + size { HeapTiled(t); return 0; }
      HeapTiled(t);
      var c := top;
      top := top + HDR + size;
      mem := mem[c := size + 1][c + 8 := 0];
      chunks := chunks + [Chunk(c, size, true)];
      Bump(t.mem, head, c, t.chunks, size, mem);
      Bumped(t, St(), size);
      p := c + HDR;
    }

    /** The list walk of free and realloc: the free chunks just below and at or above `limit`, where chunk i starts. */
    method WalkTo(limit: nat, ghost i: nat) returns (prev: nat, cur: nat)
      requires Chain(mem, head, chunks, 0) && Tiled(chunks, ARENA_BASE, top) && i <= |chunks|
      requires limit == if i < |chunks| then chunks[i].addr else top
      ensures prev == LastFree(chunks[..i]) && cur == Follow(mem, head, chunks[..i])
    {
      hide Chain, Tiled, Follow, LastFree;
      prev, cur := 0, head;
      ghost var j := 0;
      WalkStart(mem, head, chunks);
      while cur != 0 && cur < limit
        invariant j <= i && cur == Follow(mem, head, chunks[..j]) && prev == LastFree(chunks[..j])
        decreases |chunks| - j
      {
        ghost var k := NextFree(mem, head, chunks, top, j, cur);
        BeforeLimit(chunks, top, k, i, limit);
        PassUsed(mem, head, chunks, j, k);
        PassFree(mem, head, chunks, k);
        prev := cur;
        cur := W(mem, cur + 8);
        j := k + 1;
      }
      ghost var k := NextFree(mem, head, chunks, top, j, cur);
      if k < |chunks| { NotBefore(chunks, top, k, i, limit); }
      PassUsed(mem, head, chunks, j, i);
    }

    /** free of an arena block: it joins its free neighbours. */
    method ArenaFree(c: nat, ghost i: nat)
      requires Valid() && inited && i < |chunks| && chunks[i].used && chunks[i].addr == c
      modifies this`head, this`mem, this`chunks
      ensures Valid() && OthersKept(old(St()), St(), c) && BlockSize(St(), c) == 0
    {
      hide HeapOk, DirectOk, ChangedIn, LastFree, OthersKept, SizeAt, Follow, FreeNext, FreePrev, Chain, Tiled, Merged;
      ghost var t := St();
      UsedHeader(t, i);
      mem := mem[c := W(mem, c) - 1];
      ClearedChain(t, i, mem);
      HeapTiled(t);
      var prev, cur := WalkTo(c, i);
      NextTest(t, i);
      PrevTest(t, i);
      var m := mem;
      var joinNext := cur != 0 && c + HDR + W(m, c) == cur;
      m := FreeNext(m, c, cur, joinNext);
      PrevHeader(t, i, m, c, cur, joinNext);
      var joinPrev := prev != 0 && prev + HDR + W(m, prev) == c;
      m := FreePrev(m, c, prev, joinPrev);
      if !joinPrev && prev == 0 { head := c; }
      mem := m;
      ghost var a, e := if joinPrev then i - 1 else i, if joinNext then i + 2 else i + 1;
      IsMergeRun(t.chunks, i, a, e);
      chunks := Merged(t.chunks, a, e);
      FreedOk(t, i, a, e, St());
    }

    /** direct_alloc: a mapping of its own; `where` is what mmap returned, 0 for failure. */
    method DirectAlloc(size: nat, where: nat) returns (p: nat)
      requires Valid() && size > 0 && size % ALIGN == 0 && (where == 0 || Mappable(direct, where, HDR + size))
      modifies this`mem, this`direct
      ensures Valid() && (p == 0 <==> where == 0)
      ensures p == 0 ==> St() == old(St())
      ensures p != 0 ==>
        && p >= HDR && OthersKept(old(St()), St(), p - HDR) && BlockSize(old(St()), p - HDR) == 0
        && BlockSize(St(), p - HDR) == size
    {
      hide HeapOk, OthersKept;
      if where == 0 { return 0; }
      ghost var t := St();
      mem := mem[where := size + 3][where + 8 := 0];
      direct := direct[where := size];
      Mapped(t, St(), where, size);
      p := where + HDR;
    }

    /**
     malloc: a new 16-aligned block of at least size bytes, apart from every other, or 0; either way no other
     block changes. initOk says whether mapping the arena succeeds; where is what mmap returns for a large block.
     */
    method Malloc(size: nat, initOk: bool, where: nat) returns (p: nat)
      requires Valid() && size < ULONG && (where == 0 || Mappable(direct, where, HDR + AlignUp(size)))
      modifies this
      ensures Valid()
      ensures p == 0 <==> var n := AlignUp(size);
        || size == 0 || n == 0 || n > ULONG - 1 - HDR
        || if n + HDR >= DIRECT_THRESHOLD then where == 0
           else if old(inited) then NoRoom(old(chunks), old(top), n) else !initOk
      ensures p == 0 ==> mem == old(mem) && chunks == old(chunks) && direct == old(direct)
      ensures p != 0 ==>
        && p >= HDR && p % ALIGN == 0 && BlockSize(old(St()), p - HDR) == 0
        && AlignUp(size) <= BlockSize(St(), p - HDR) <= AlignUp(size) + HDR && OthersKept(old(St()), St(), p - HDR)
    {
      hide HeapOk, DirectOk, OthersKept, SizeAt;
      if size == 0 { return 0; }
      var n := AlignUp(size);
      if n == 0 { return 0; }
      if n > ULONG - 1 - HDR { return 0; }
      if n + HDR >= DIRECT_THRESHOLD {
        p := DirectAlloc(n, where);
        if p != 0 { BlockAligned(St(), p - HDR); }
        return;
      }
      if !inited {
        if !initOk { return 0; }
        inited, top := true, ARENA_BASE;
        EmptyArena(old(St()), St());
      }
      ghost var t := St();
      p := ArenaAlloc(n);
      if p != 0 {
        BlockAligned(St(), p - HDR);
        AfterInit(old(St()), t, St(), p - HDR);
      }
    }

    /** free: the block is gone, no other block changes; free(0) does nothing. */
    method Free(ptr: nat)
      requires Valid() && (ptr == 0 || (ptr >= HDR && BlockSize(St(), ptr - HDR) != 0))
      modifies this`head, this`mem, this`chunks, this`direct
      ensures Valid()
      ensures ptr == 0 ==> St() == old(St())
      ensures ptr != 0 ==> ptr >= HDR && OthersKept(old(St()), St(), ptr - HDR) && BlockSize(St(), ptr - HDR) == 0
    {
      hide HeapOk, DirectOk, OthersKept, SizeAt;
      if ptr == 0 { return; }
      var c := ptr - HDR;
      ghost var t := St();
      BlockHeader(t, c);
      if W(mem, c) / 2 % 2 == 1 {
        direct := direct - {c};
        Unmapped(t, St(), c);
        return;
      }
      ghost var i := SizeIndex(chunks, c);
      ArenaFree(c, i);
    }

    /** realloc's in-place paths: move arena_top, or absorb the free chunk above, giving back what is left over. */
    method GrowInPlace(c: nat, old_: nat, want: nat, ghost i: nat) returns (ok: bool)
      requires Valid() && inited && i < |chunks| && chunks[i] == Chunk(c, old_, true) && old_ < want
      requires want % ALIGN == 0
      modifies this`head, this`mem, this`chunks, this`top
      ensures Valid()
      ensures !ok ==> St() == old(St())
      ensures ok ==>
        OthersKept(old(St()), St(), c) && BlockSize(St(), c) >= want && SameWords(old(mem), mem, c + HDR, old_)
    {
      hide HeapOk, DirectOk, ChangedIn, LastFree, OthersKept, SizeAt, Follow, SameWords;
      ghost var t := St();
      UsedHeader(t, i);
      HeapTiled(t);
      var cEnd := c + HDR + old_;
      LastIffTop(t, i);
      if cEnd == top {
        var extra := want - old_;
        if ARENA_END - top >= extra {
          top := top + extra;
          mem := mem[c := want + 1];
          chunks := chunks[..i] + [Chunk(c, want, true)] + [];
          assert chunks == t.chunks[..i] + [t.chunks[i].(size := want)] && t.chunks[i + 1..] == [];
          GrowTop(t.mem, head, t.top, t.chunks, want, mem);
          HeaderOnly(t.mem, mem, c, want, old_, LastFree(t.chunks[..i]));
          Grown(t, St(), i, i + 1, [Chunk(c, want, true)], top);
          return true;
        }
      }
      var prev, cur := WalkTo(cEnd, i + 1);
      PassUsed(mem, head, chunks, i, i + 1);
      NextTest(t, i);
      if cur != 0 && cur == cEnd {
        ghost var d := chunks[i + 1];
        FreeHeader(t, i + 1);
        var combined := old_ + HDR + W(mem, cur);
        if combined >= want {
          Absorb(c, prev, cur, want, combined, i);
          return true;
        }
      }
      ok := false;
    }

    /** A block takes over the free chunk after it, and gives back what is left if that is a chunk. */
    method Absorb(c: nat, prev: nat, cur: nat, want: nat, combined: nat, ghost i: nat)
      requires Valid() && inited && i + 1 < |chunks| && chunks[i].used && chunks[i].addr == c && !chunks[i + 1].used
      requires chunks[i + 1].addr == cur
      requires chunks[i].size < want <= combined == chunks[i].size + HDR + chunks[i + 1].size && want % ALIGN == 0
      requires prev == LastFree(chunks[..i])
      modifies this`head, this`mem, this`chunks
      ensures Valid() && OthersKept(old(St()), St(), c) && BlockSize(St(), c) >= want
      ensures SameWords(old(mem), mem, c + HDR, old(chunks)[i].size)
    {
      if combined - want >= HDR + ALIGN {
        AbsorbPart(c, prev, cur, want, combined, i);
      } else {
        AbsorbAll(c, prev, cur, want, combined, i);
      }
    }

    method AbsorbPart(c: nat, prev: nat, cur: nat, want: nat, combined: nat, ghost i: nat)
      requires Valid() && inited && i + 1 < |chunks| && chunks[i].used && chunks[i].addr == c && !chunks[i + 1].used
      requires chunks[i + 1].addr == cur
      requires chunks[i].size < want <= combined == chunks[i].size + HDR + chunks[i + 1].size && want % ALIGN == 0
      requires prev == LastFree(chunks[..i])
      requires combined - want >= HDR + ALIGN
      modifies this`head, this`mem, this`chunks
      ensures Valid() && OthersKept(old(St()), St(), c) && BlockSize(St(), c) >= want
      ensures SameWords(old(mem), mem, c + HDR, old(chunks)[i].size)
    {
      hide HeapOk, DirectOk, ChangedIn, LastFree, OthersKept, SizeAt;
      ghost var t := St();
      UsedHeader(t, i);
      FreeHeader(t, i + 1);
      HeapTiled(t);
      AbsorbEnd(t, i);
      var m, leftover, tail := mem, combined - want, c + HDR + want;
      m := m[tail := leftover - HDR];
      m := m[tail + 8 := W(m, cur + 8)];
      if prev != 0 { m := m[prev + 8 := tail]; } else { head := tail; }
      mem := m[c := want + 1];
      ghost var neu := [chunks[i].(size := want), Chunk(tail, leftover - HDR, false)];
      chunks := chunks[..i] + neu + chunks[i + 2..];
      AbsorbSplit(t.mem, t.head, top, t.chunks, i, want, mem, head);
      Grown(t, St(), i, i + 2, neu, End(t.chunks[i + 1]));
    }

    method AbsorbAll(c: nat, prev: nat, cur: nat, want: nat, combined: nat, ghost i: nat)
      requires Valid() && inited && i + 1 < |chunks| && chunks[i].used && chunks[i].addr == c && !chunks[i + 1].used
      requires chunks[i + 1].addr == cur
      requires chunks[i].size < want <= combined == chunks[i].size + HDR + chunks[i + 1].size && want % ALIGN == 0
      requires prev == LastFree(chunks[..i])
      modifies this`head, this`mem, this`chunks
      ensures Valid() && OthersKept(old(St()), St(), c) && BlockSize(St(), c) >= want
      ensures SameWords(old(mem), mem, c + HDR, old(chunks)[i].size)
    {
      hide HeapOk, DirectOk, ChangedIn, LastFree, OthersKept, SizeAt;
      ghost var t := St();
      UsedHeader(t, i);
      FreeHeader(t, i + 1);
      HeapTiled(t);
      AbsorbEnd(t, i);
      var m := mem;
      if prev != 0 { m := m[prev + 8 := W(m, cur + 8)]; } else { head := W(m, cur + 8); }
      mem := m[c := combined + 1];
      ghost var neu := [chunks[i].(size := combined)];
      chunks := chunks[..i] + neu + chunks[i + 2..];
      AbsorbWhole(t.mem, t.head, top, t.chunks, i, mem, head);
      Grown(t, St(), i, i + 2, neu, End(t.chunks[i + 1]));
    }

    /** memcpy of n bytes, word by word, between two blocks. */
    method Copy(dst: nat, src: nat, n: nat)
      requires Valid() && dst >= HDR && src >= HDR && dst != src && n % ALIGN == 0
      requires n <= BlockSize(St(), src - HDR) && 0 < n <= BlockSize(St(), dst - HDR)
      modifies this`mem
      ensures Valid() && OthersKept(old(St()), St(), dst - HDR)
      ensures BlockSize(St(), dst - HDR) == BlockSize(old(St()), dst - HDR)
      ensures forall k :: 0 <= k < n / 8 ==> W(mem, dst + 8 * k) == W(old(mem), src + 8 * k)
    {
      hide HeapOk, DirectOk, OthersKept, SizeAt, StateOk;
      ghost var t := St();
      OthersSelf(t, dst - HDR);
      var k := 0;
      while k < n / 8
        invariant 0 <= k <= n / 8 && Valid() && St() == t.(mem := mem) && OthersKept(t, St(), dst - HDR)
        invariant forall j :: 0 <= j < k ==> W(mem, dst + 8 * j) == W(t.mem, src + 8 * j)
      {
        SourceKept(t, St(), src - HDR, dst - HDR, src + 8 * k);
        ghost var u := St();
        mem := mem[dst + 8 * k := W(mem, src + 8 * k)];
        PayloadWrite(t, u, St(), dst - HDR, dst + 8 * k, W(t.mem, src + 8 * k));
        k := k + 1;
      }
    }

    /**
     realloc of a block to a nonzero size. Growing keeps the block's words wherever it ends up; a failure leaves
     everything as it was; no other block ever changes.
     */
    method Resize(ptr: nat, size: nat, initOk: bool, where: nat) returns (p: nat)
      requires Valid() && size < ULONG && (where == 0 || Mappable(direct, where, HDR + AlignUp(size)))
      requires ptr != 0 && ptr >= HDR && BlockSize(St(), ptr - HDR) != 0 && size != 0
      modifies this
      ensures Valid() && (AlignUp(size) == 0 ==> p == 0)
      ensures p == 0 ==> mem == old(mem) && chunks == old(chunks) && direct == old(direct)
      ensures p == ptr ==>
        && OthersKept(old(St()), St(), ptr - HDR) && SameWords(old(mem), mem, ptr, BlockSize(old(St()), ptr - HDR))
        && BlockSize(St(), ptr - HDR) >= AlignUp(size) && BlockSize(St(), ptr - HDR) >= BlockSize(old(St()), ptr - HDR)
      ensures p != 0 && p != ptr ==>
        && p >= HDR && p % ALIGN == 0 && BlockSize(old(St()), p - HDR) == 0 && BlockSize(St(), ptr - HDR) == 0
        && BlockSize(St(), p - HDR) >= AlignUp(size) > BlockSize(old(St()), ptr - HDR)
        && (forall k :: 0 <= k < BlockSize(old(St()), ptr - HDR) / 8 ==> W(mem, p + 8 * k) == W(old(mem), ptr + 8 * k))
        && OthersKept2(old(St()), St(), ptr - HDR, p - HDR)
    {
      hide HeapOk, DirectOk, OthersKept, SizeAt, StateOk, SameWords;
      var c := ptr - HDR;
      ghost var t := St();
      BlockHeader(t, c);
      var oldSize := W(mem, c) - W(mem, c) % 4;
      var want := AlignUp(size);
      SelfWords(mem, ptr, oldSize);
      OthersSelf(t, c);
      if want == 0 { return 0; }
      if oldSize >= want { return ptr; }
      if W(mem, c) / 2 % 2 == 0 {
        ghost var i := SizeIndex(chunks, c);
        var grown := GrowInPlace(c, oldSize, want, i);
        if grown { return ptr; }
      }
      p := Malloc(size, initOk, where);
      if p == 0 { return; }
      ghost var t1 := St();
      MovedApart(t, t1, c, p - HDR);
      Copy(p, ptr, oldSize);
      ghost var t2 := St();
      MovedStill(t1, t2, c, p - HDR);
      Free(ptr);
      Moved(t, t1, t2, St(), c, p - HDR, oldSize);
    }

    /** realloc: malloc when there is no block, free when the new size is 0, and otherwise Resize. */
    method Realloc(ptr: nat, size: nat, initOk: bool, where: nat) returns (p: nat)
      requires Valid() && size < ULONG && (where == 0 || Mappable(direct, where, HDR + AlignUp(size)))
      requires ptr == 0 || (ptr >= HDR && BlockSize(St(), ptr - HDR) != 0)
      modifies this
      ensures Valid()
      ensures ptr == 0 && p != 0 ==>
        && p >= HDR && p % ALIGN == 0 && BlockSize(old(St()), p - HDR) == 0 && BlockSize(St(), p - HDR) >= size
        && OthersKept(old(St()), St(), p - HDR)
      ensures ptr != 0 && size == 0 ==>
        p == 0 && ptr >= HDR && OthersKept(old(St()), St(), ptr - HDR) && BlockSize(St(), ptr - HDR) == 0
      ensures p == 0 && (ptr == 0 || size != 0) ==> mem == old(mem) && chunks == old(chunks) && direct == old(direct)
      ensures ptr != 0 && size != 0 && p != 0 ==>
        && p >= HDR && ptr >= HDR && BlockSize(St(), p - HDR) >= size
        && (forall k :: 0 <= k < BlockSize(old(St()), ptr - HDR) / 8 ==> W(mem, p + 8 * k) == W(old(mem), ptr + 8 * k))
        && (if p == ptr then OthersKept(old(St()), St(), p - HDR)
            else
              && BlockSize(old(St()), p - HDR) == 0 == BlockSize(St(), ptr - HDR)
              && OthersKept2(old(St()), St(), ptr - HDR, p - HDR))
    {
      hide HeapOk, DirectOk, OthersKept, OthersKept2, SizeAt, StateOk;
      if ptr == 0 {
        p := Malloc(size, initOk, where);
      } else if size == 0 {
        Free(ptr);
        p := 0;
      } else {
        p := Resize(ptr, size, initOk, where);
      }
    }
  }

  lemma WalkStart(m: Mem, h: nat, s: seq<Chunk>)
    ensures Follow(m, h, s[..0]) == h && LastFree(s[..0]) == 0
  {
  }

  /** What a free chunk's header and neighbours look like. */
  lemma FreeHeader(t: State, b: nat)
    requires StateOk(t) && t.inited && b < |t.chunks| && !t.chunks[b].used
    ensures W(t.mem, t.chunks[b].addr) == t.chunks[b].size && t.chunks[b].addr >= ARENA_BASE
    ensures t.chunks[b].addr % ALIGN == 0
    ensures HeapOk(t.mem, t.head, t.top, t.chunks) && Tiled(t.chunks[..b], ARENA_BASE, t.chunks[b].addr)
    ensures t.chunks[b].size % ALIGN == 0
    ensures LastFree(t.chunks[..b]) < t.chunks[b].addr && LastFree(t.chunks[..b]) % ALIGN == 0
  {
    TiledSplit(t.chunks, ARENA_BASE, t.top, b);
    LastBelow(t.chunks[..b], ARENA_BASE, t.chunks[b].addr);
  }

  /** The word-by-word writes of a split are the split. */
  lemma SplitMem(m: Mem, h: nat, best: nat, prev: nat, rest: nat, size: nat, was: nat, m': Mem, h': nat)
    requires W(m, best) == was && rest == best + HDR + size && was >= size + HDR && prev < best && best % ALIGN == 0
    requires prev % ALIGN == 0
    requires var m1 := m[rest := was - size - HDR][rest + 8 := W(m, best + 8)][best := size];
             var m2 := if prev != 0 then m1[prev + 8 := rest] else m1;
             m' == m2[best := size + 1][best + 8 := 0] && h' == if prev != 0 then h else rest
    ensures var r := Redirected(m[rest := was - size - HDR][rest + 8 := W(m, best + 8)][best := size], h, prev, rest);
            h' == r.1 && m' == r.0[best := size + 1][best + 8 := 0]
  {
  }

  lemma WholeMem(m: Mem, h: nat, best: nat, prev: nat, next: nat, was: nat, m': Mem, h': nat)
    requires W(m, best) == was && next == W(m, best + 8) && prev < best && best % ALIGN == 0 && prev % ALIGN == 0
    requires var m2 := if prev != 0 then m[prev + 8 := next] else m;
             m' == m2[best := was + 1][best + 8 := 0] && h' == if prev != 0 then h else next
    ensures var r := Redirected(m, h, prev, next); h' == r.1 && m' == r.0[best := was + 1][best + 8 := 0]
  {
  }

  /** Free chunk b became a block, perhaps followed by a smaller free chunk. */
  lemma Taken(t: State, u: State, b: nat, neu: seq<Chunk>, size: nat)
    requires StateOk(t) && t.inited && b < |t.chunks| && !t.chunks[b].used && neu != []
    requires neu[0] == Chunk(t.chunks[b].addr, size, true)
    requires forall j :: 1 <= j < |neu| ==> !neu[j].used
    requires u == t.(mem := u.mem, head := u.head, chunks := t.chunks[..b] + neu + t.chunks[b + 1..])
    requires HeapOk(u.mem, u.head, u.top, u.chunks)
    requires ChangedIn(t.mem, u.mem, t.chunks[b].addr, End(t.chunks[b]), LastFree(t.chunks[..b]))
    ensures StateOk(u) && OthersKept(t, u, t.chunks[b].addr) && BlockSize(t, t.chunks[b].addr) == 0
    ensures BlockSize(u, t.chunks[b].addr) == size
  {
    hide HeapOk, ChangedIn, Tiled, DirectOk, OthersKept;
    var x := t.chunks[b].addr;
    HeapTiled(t);
    HeapTiled(u);
    TiledSplit(t.chunks, ARENA_BASE, t.top, b);
    BelowLo(t.chunks[b + 1..], End(t.chunks[b]), t.top);
    forall j | b + 1 <= j < |t.chunks|
      ensures t.chunks[j].addr >= End(t.chunks[b])
    {
      assert t.chunks[j] == t.chunks[b + 1..][j - b - 1];
    }
    RunReplaced(t, u, b, b + 1, neu, x, End(t.chunks[b]), x);
    NotDirect(t, x);
    assert u.chunks[b] == neu[0];
    SizeHere(u.chunks, ARENA_BASE, u.top, b);
    forall i | 0 <= i < |t.chunks| ensures !(t.chunks[i].used && t.chunks[i].addr == x) {
      if i < b { TiledApart(t.chunks, ARENA_BASE, t.top, i, b); } else if i > b {
        TiledApart(t.chunks, ARENA_BASE, t.top, b, i);
      }
    }
    SizeNone(t.chunks, x);
  }

  lemma NotDirect(t: State, x: nat)
    requires DirectOk(t.mem, t.direct) && x < ARENA_END
    ensures x !in t.direct
  {
  }

  lemma Bumped(t: State, u: State, size: nat)
    requires StateOk(t) && t.inited && size > 0
    requires u == t.(mem := u.mem, top := t.top + HDR + size, chunks := t.chunks + [Chunk(t.top, size, true)])
    requires HeapOk(u.mem, u.head, u.top, u.chunks) && ChangedIn(t.mem, u.mem, t.top, u.top, 0)
    ensures StateOk(u) && OthersKept(t, u, t.top) && BlockSize(t, t.top) == 0 && BlockSize(u, t.top) == size
  {
    hide HeapOk, ChangedIn, Tiled, DirectOk, OthersKept;
    HeapTiled(t);
    HeapTiled(u);
    var n := |t.chunks|;
    BumpChanged(t, u);
    assert t.chunks[..n] == t.chunks && t.chunks[n..] == []
      && u.chunks == t.chunks[..n] + [Chunk(t.top, size, true)] + t.chunks[n..];
    RunReplaced(t, u, n, n, [Chunk(t.top, size, true)], t.top, u.top, t.top);
    assert u.chunks[n] == Chunk(t.top, size, true);
    SizeHere(u.chunks, ARENA_BASE, u.top, n);
    BelowLo(t.chunks, ARENA_BASE, t.top);
    SizeNone(t.chunks, t.top);
    TiledSplit(u.chunks, ARENA_BASE, u.top, n);
    NotDirect(t, t.top);
  }

  lemma BumpChanged(t: State, u: State)
    requires ChangedIn(t.mem, u.mem, t.top, u.top, 0)
    ensures ChangedIn(t.mem, u.mem, t.top, u.top, LastFree(t.chunks[..|t.chunks|]))
  {
  }

  lemma BeforeLimit(s: seq<Chunk>, top: nat, k: nat, i: nat, limit: nat)
    requires Tiled(s, ARENA_BASE, top) && k < |s| && i <= |s| && limit == (if i < |s| then s[i].addr else top)
    requires s[k].addr < limit
    ensures k < i
  {
    if i < k { TiledApart(s, ARENA_BASE, top, i, k); }
  }

  lemma NotBefore(s: seq<Chunk>, top: nat, k: nat, i: nat, limit: nat)
    requires Tiled(s, ARENA_BASE, top) && k < |s| && i <= |s| && limit == (if i < |s| then s[i].addr else top)
    requires s[k].addr >= limit
    ensures k >= i
  {
    if k < i {
      TiledSplit(s, ARENA_BASE, top, k);
      if i < |s| { TiledApart(s, ARENA_BASE, top, k, i); }
    }
  }

  /** free's memory writes: first the chunk with what follows it, then with what precedes it. */
  function FreeNext(m: Mem, c: nat, cur: nat, merge: bool): Mem {
    if merge then m[c := W(m, c) + HDR + W(m, cur)][c + 8 := W(m, cur + 8)] else m[c + 8 := cur]
  }

  function FreePrev(m: Mem, c: nat, prev: nat, merge: bool): Mem {
    if merge then m[prev := W(m, prev) + HDR + W(m, c)][prev + 8 := W(m, c + 8)]
    else if prev != 0 then m[prev + 8 := c]
    else m
  }

  /** free's test on the chunk above, made by address, is a test on the neighbour. */
  lemma NextTest(t: State, i: nat)
    requires StateOk(t) && t.inited && i < |t.chunks| && t.chunks[i].used
    ensures var cur := Follow(t.mem, t.head, t.chunks[..i]);
      && (cur != 0 && End(t.chunks[i]) == cur <==> i + 1 < |t.chunks| && !t.chunks[i + 1].used)
      && (i + 1 < |t.chunks| && !t.chunks[i + 1].used ==> cur == t.chunks[i + 1].addr)
  {
    hide Tiled, Chain, Coalesced, Follow, Headers;
    var s := t.chunks;
    var k := NextFree(t.mem, t.head, s, t.top, i, Follow(t.mem, t.head, s[..i]));
    TiledSplit(s, ARENA_BASE, t.top, i);
    if i + 1 < |s| {
      TiledNext(s, ARENA_BASE, t.top, i);
      if i + 1 < k < |s| { TiledApart(s, ARENA_BASE, t.top, i + 1, k); }
    }
    if k < |s| && i + 1 < k { TiledSplit(s, ARENA_BASE, t.top, i + 1); }
  }

  /** And so is the test on the chunk below. */
  lemma PrevTest(t: State, i: nat)
    requires StateOk(t) && t.inited && i < |t.chunks|
    ensures var prev := LastFree(t.chunks[..i]);
      && (prev != 0 && prev + HDR + W(t.mem, prev) == t.chunks[i].addr <==> i > 0 && !t.chunks[i - 1].used)
      && (i > 0 && !t.chunks[i - 1].used ==> prev == t.chunks[i - 1].addr)
  {
    hide Tiled, Chain, Coalesced;
    var s, prev := t.chunks, LastFree(t.chunks[..i]);
    if i > 0 && !s[i - 1].used {
      assert s[..i][|s[..i]| - 1] == s[i - 1];
      TiledNext(s, ARENA_BASE, t.top, i - 1);
      TiledSplit(s, ARENA_BASE, t.top, i - 1);
    } else if prev != 0 {
      var q := LastFreeAt(s[..i]);
      assert s[q].addr == prev && !s[q].used && q + 1 < i;
      TiledNext(s, ARENA_BASE, t.top, q);
      TiledApart(s, ARENA_BASE, t.top, q + 1, i);
      TiledSplit(s, ARENA_BASE, t.top, q + 1);
    }
  }

  /** free's writes when the chunk below is in use. */
  lemma FreeMemLow(m: Mem, c: nat, size: nat, prev: nat, cur: nat, merge: bool, m': Mem)
    requires prev % ALIGN == 0 && c % ALIGN == 0 && (prev == 0 || prev + HDR <= c) && c > 0
    requires (merge ==> cur == c + HDR + size)
    requires m' == FreePrev(FreeNext(m[c := size], c, cur, merge), c, prev, false)
    ensures var hi := if merge then cur + HDR + W(m, cur) else c + HDR + size;
      && ChangedIn(m, m', c, hi, prev) && W(m', c) == hi - c - HDR
      && W(m', c + 8) == (if merge then W(m, cur + 8) else cur) && (prev != 0 ==> W(m', prev + 8) == c)
  {
  }

  /** free's writes when the chunk below joins. */
  lemma FreeMemJoin(m: Mem, c: nat, size: nat, prev: nat, cur: nat, merge: bool, m': Mem)
    requires prev > 0 && prev + HDR + W(m, prev) == c && (merge ==> cur == c + HDR + size)
    requires m' == FreePrev(FreeNext(m[c := size], c, cur, merge), c, prev, true)
    ensures var hi := if merge then cur + HDR + W(m, cur) else c + HDR + size;
      && ChangedIn(m, m', prev, hi, 0) && W(m', prev) == hi - prev - HDR
      && W(m', prev + 8) == if merge then W(m, cur + 8) else cur
  {
  }

  /** The memory free leaves is that of one free chunk where the run was. */
  lemma FreeWrites(t: State, i: nat, a: nat, e: nat, m': Mem, h': nat)
    requires StateOk(t) && t.inited && MergeRun(t.chunks, i, a, e)
    requires var c, prev, cur := t.chunks[i], LastFree(t.chunks[..i]), Follow(t.mem, t.head, t.chunks[..i]);
      && m' == FreePrev(FreeNext(t.mem[c.addr := c.size], c.addr, cur, e == i + 2), c.addr, prev, a < i)
      && h' == if a < i || prev != 0 then t.head else c.addr
    ensures var lo, hi := t.chunks[a].addr, End(t.chunks[e - 1]);
      && hi >= lo + HDR && ChangedIn(t.mem, m', lo, hi, LastFree(t.chunks[..a])) && W(m', lo) == hi - lo - HDR
      && W(m', lo + 8) == AfterRun(t.mem, t.head, t.chunks, i, e)
      && if LastFree(t.chunks[..a]) == 0 then h' == lo else h' == t.head && W(m', LastFree(t.chunks[..a]) + 8) == lo
  {
    hide Tiled, Chain, Coalesced, Follow, LastFree, FreeNext, FreePrev, Headers, ChangedIn, DirectOk;
    var s, c := t.chunks, t.chunks[i];
    RunHeaders(t, i, e);
    var prev, cur := LastFree(s[..i]), Follow(t.mem, t.head, s[..i]);
    RunTiled(s, t.top, i, a, e);
    ChainAfterRun(t.mem, t.head, s, i, a, e);
    PrevTest(t, i);
    TiledSplit(s, ARENA_BASE, t.top, i);
    LastBelow(s[..a], ARENA_BASE, s[a].addr);
    LastBelow(s[..i], ARENA_BASE, c.addr);
    if a < i {
      ChainAt(t.mem, t.head, s, a);
      LinkValue(t.mem, t.head, s[..a], s[a].addr, ARENA_BASE, s[a].addr);
      FreeMemJoin(t.mem, c.addr, c.size, prev, cur, e == i + 2, m');
      ChangedMore(t.mem, m', s[a].addr, End(s[e - 1]), LastFree(s[..a]));
    } else {
      PrevGap(t, i);
      FreeMemLow(t.mem, c.addr, c.size, prev, cur, e == i + 2, m');
    }
  }

  /** Nothing else changed there either. */
  lemma ChangedMore(m: Mem, m': Mem, lo: nat, hi: nat, prev: nat)
    requires ChangedIn(m, m', lo, hi, 0) && prev % ALIGN == 0 && prev < lo
    ensures ChangedIn(m, m', lo, hi, prev) && (prev != 0 && prev + 8 < lo ==> W(m', prev + 8) == W(m, prev + 8))
  {
  }

  lemma RunHeaders(t: State, i: nat, e: nat)
    requires StateOk(t) && t.inited && i < |t.chunks| && t.chunks[i].used
    requires (e == i + 2 ==> i + 1 < |t.chunks| && !t.chunks[i + 1].used)
    ensures e == i + 2 ==> W(t.mem, t.chunks[i + 1].addr) == t.chunks[i + 1].size
  {
  }

  lemma PrevGap(t: State, i: nat)
    requires StateOk(t) && t.inited && i < |t.chunks|
    ensures LastFree(t.chunks[..i]) == 0 || LastFree(t.chunks[..i]) + HDR <= t.chunks[i].addr
  {
    if LastFree(t.chunks[..i]) != 0 {
      var q := LastFreeAt(t.chunks[..i]);
      TiledApart(t.chunks, ARENA_BASE, t.top, q, i);
    }
  }

  lemma UsedHeader(t: State, i: nat)
    requires StateOk(t) && t.inited && i < |t.chunks| && t.chunks[i].used
    ensures W(t.mem, t.chunks[i].addr) == t.chunks[i].size + 1 && HeapOk(t.mem, t.head, t.top, t.chunks)
    ensures t.chunks[i].size > 0 && t.chunks[i].size % ALIGN == 0 && ARENA_BASE <= t.chunks[i].addr
    ensures End(t.chunks[i]) <= t.top && t.chunks[i].addr % ALIGN == 0
  {
    TiledSplit(t.chunks, ARENA_BASE, t.top, i);
  }

  /** Clearing the in-use bit of chunk i disturbs no link. */
  lemma ClearedChain(t: State, i: nat, m: Mem)
    requires StateOk(t) && t.inited && i < |t.chunks| && t.chunks[i].used
    requires m == t.mem[t.chunks[i].addr := t.chunks[i].size]
    ensures Chain(m, t.head, t.chunks, 0) && Follow(m, t.head, t.chunks[..i]) == Follow(t.mem, t.head, t.chunks[..i])
  {
    hide Chain, Follow;
    HeapTiled(t);
    TiledAligned(t.chunks, ARENA_BASE, t.top);
    ChainFrame(t.mem, m, t.head, t.chunks, 0);
    ChainAt(t.mem, t.head, t.chunks, i);
    ChainFrame(t.mem, m, t.head, t.chunks[..i], Follow(t.mem, t.head, t.chunks[..i]));
  }

  /** Joining with what follows does not touch the header below. */
  lemma PrevHeader(t: State, i: nat, m: Mem, c: nat, cur: nat, join: bool)
    requires StateOk(t) && t.inited && i < |t.chunks| && t.chunks[i].addr == c
    requires m == FreeNext(t.mem[c := t.chunks[i].size], c, cur, join)
    ensures LastFree(t.chunks[..i]) != 0 ==> W(m, LastFree(t.chunks[..i])) == W(t.mem, LastFree(t.chunks[..i]))
  {
    PrevGap(t, i);
  }

  lemma IsMergeRun(s: seq<Chunk>, i: nat, a: int, e: int)
    requires i < |s| && s[i].used && a == (if i > 0 && !s[i - 1].used then i - 1 else i)
    requires e == if i + 1 < |s| && !s[i + 1].used then i + 2 else i + 1
    ensures a >= 0 && e >= 0 && MergeRun(s, i, a, e)
  {
  }

  /** The chunks from a up to e become one free chunk. */
  ghost function Merged(s: seq<Chunk>, a: nat, e: nat): seq<Chunk>
    requires a < e <= |s| && End(s[e - 1]) >= s[a].addr + HDR
  {
    s[..a] + [Chunk(s[a].addr, End(s[e - 1]) - s[a].addr - HDR, false)] + s[e..]
  }

  lemma FreedOk(t: State, i: nat, a: nat, e: nat, u: State)
    requires StateOk(t) && t.inited && MergeRun(t.chunks, i, a, e) && End(t.chunks[e - 1]) >= t.chunks[a].addr + HDR
    requires var c, prev, cur := t.chunks[i], LastFree(t.chunks[..i]), Follow(t.mem, t.head, t.chunks[..i]);
      && u.mem == FreePrev(FreeNext(t.mem[c.addr := c.size], c.addr, cur, e == i + 2), c.addr, prev, a < i)
      && u.head == if a < i || prev != 0 then t.head else c.addr
    requires u == t.(mem := u.mem, head := u.head, chunks := Merged(t.chunks, a, e))
    ensures StateOk(u) && OthersKept(t, u, t.chunks[i].addr) && BlockSize(u, t.chunks[i].addr) == 0
  {
    hide HeapOk, DirectOk, ChangedIn, LastFree, OthersKept, SizeAt, Follow, FreeNext, FreePrev;
    FreeWrites(t, i, a, e, u.mem, u.head);
    FreeRun(t.mem, t.head, t.top, t.chunks, i, a, e, u.mem, u.head);
    Released(t, u, i, a, e, Chunk(t.chunks[a].addr, End(t.chunks[e - 1]) - t.chunks[a].addr - HDR, false));
  }

  lemma Released(t: State, u: State, i: nat, a: nat, e: nat, n: Chunk)
    requires StateOk(t) && t.inited && MergeRun(t.chunks, i, a, e) && !n.used
    requires u == t.(mem := u.mem, head := u.head, chunks := t.chunks[..a] + [n] + t.chunks[e..])
    requires HeapOk(u.mem, u.head, u.top, u.chunks)
    requires ChangedIn(t.mem, u.mem, t.chunks[a].addr, End(t.chunks[e - 1]), LastFree(t.chunks[..a]))
    ensures StateOk(u) && OthersKept(t, u, t.chunks[i].addr) && BlockSize(u, t.chunks[i].addr) == 0
  {
    hide HeapOk, ChangedIn, Tiled, DirectOk, OthersKept;
    var s, x := t.chunks, t.chunks[i].addr;
    HeapTiled(t);
    HeapTiled(u);
    RunTiled(s, t.top, i, a, e);
    TiledSplit(s, ARENA_BASE, t.top, e - 1);
    BelowLo(s[e..], End(s[e - 1]), t.top);
    forall j | e <= j < |s| ensures s[j].addr >= End(s[e - 1]) { assert s[j] == s[e..][j - e]; }
    RunReplaced(t, u, a, e, [n], s[a].addr, End(s[e - 1]), x);
    TiledSplit(s, ARENA_BASE, t.top, i);
    NotDirect(t, x);
    NoneThere(s, t.top, i, a, e, n, u.chunks);
  }

  /** Chunk i was the only one at its address. */
  lemma NoneThere(s: seq<Chunk>, top: nat, i: nat, a: nat, e: nat, n: Chunk, v: seq<Chunk>)
    requires Tiled(s, ARENA_BASE, top) && a <= i < e <= |s| && !n.used && v == s[..a] + [n] + s[e..]
    ensures SizeAt(v, s[i].addr) == 0
  {
    hide Tiled, SizeAt;
    forall j | 0 <= j < |v| ensures !(v[j].used && v[j].addr == s[i].addr) {
      if j < a {
        TiledApart(s, ARENA_BASE, top, j, i);
      } else if j > a {
        assert v[j] == s[j - a - 1 + e];
        TiledApart(s, ARENA_BASE, top, i, j - a - 1 + e);
      }
    }
    SizeNone(v, s[i].addr);
  }

  lemma Mapped(t: State, u: State, p: nat, size: nat)
    requires StateOk(t) && size > 0 && size % ALIGN == 0 && Mappable(t.direct, p, HDR + size)
    requires u == t.(mem := t.mem[p := size + 3][p + 8 := 0], direct := t.direct[p := size])
    ensures StateOk(u) && OthersKept(t, u, p) && BlockSize(t, p) == 0 && BlockSize(u, p) == size
  {
    hide HeapOk, SizeAt;
    MappedDirect(t.mem, t.direct, p, size, u.mem, u.direct);
    hide DirectOk, Mappable;
    if t.inited { HeapAbove(t, u, p); }
    NoArenaBlock(t, p);
    forall q: nat | q != p && BlockSize(t, q) != 0 ensures SameWords(t.mem, u.mem, q + HDR, BlockSize(t, q)) {
      if q !in t.direct { ArenaBlockBelow(t, q); }
    }
  }

  lemma MappedDirect(m: Mem, direct: map<nat, nat>, p: nat, size: nat, m': Mem, direct': map<nat, nat>)
    requires DirectOk(m, direct) && size > 0 && size % ALIGN == 0 && Mappable(direct, p, HDR + size)
    requires m' == m[p := size + 3][p + 8 := 0] && direct' == direct[p := size]
    ensures DirectOk(m', direct') && p >= ARENA_END && p !in direct
    ensures forall q :: q in direct ==> q + HDR + direct[q] <= p || p + HDR + size <= q
  {
    assert p % ALIGN == 0;
  }

  /** A write above the arena leaves the heap alone. */
  lemma HeapAbove(t: State, u: State, p: nat)
    requires HeapOk(t.mem, t.head, t.top, t.chunks) && p >= ARENA_END && u == t.(mem := u.mem, direct := u.direct)
    requires forall a: nat :: W(u.mem, a) != W(t.mem, a) ==> a >= ARENA_END
    ensures HeapOk(u.mem, u.head, u.top, u.chunks)
  {
    hide Chain, Tiled, Coalesced;
    BelowLo(t.chunks, ARENA_BASE, t.top);
    ChainFrame(t.mem, u.mem, t.head, t.chunks, 0);
  }

  lemma NoArenaBlock(t: State, p: nat)
    requires StateOk(t) && p >= ARENA_END
    ensures SizeAt(t.chunks, p) == 0
  {
    if SizeAt(t.chunks, p) != 0 { ArenaBlockBelow(t, p); }
  }

  lemma ArenaBlockBelow(t: State, q: nat)
    requires StateOk(t) && SizeAt(t.chunks, q) != 0
    ensures t.inited && ARENA_BASE <= q && q + HDR + SizeAt(t.chunks, q) <= ARENA_END && q % ALIGN == 0
    ensures W(t.mem, q) == SizeAt(t.chunks, q) + 1 && SizeAt(t.chunks, q) % ALIGN == 0
  {
    var i := SizeIndex(t.chunks, q);
    TiledSplit(t.chunks, ARENA_BASE, t.top, i);
  }

  lemma BlockAligned(t: State, q: nat)
    requires StateOk(t) && BlockSize(t, q) != 0
    ensures q % ALIGN == 0
  {
    if q !in t.direct { ArenaBlockBelow(t, q); }
  }

  /** The two flag bits below an aligned size. */
  lemma Flags(k: nat, f: nat)
    requires f == 1 || f == 3
    ensures (16 * k + f) / 2 % 2 == (if f == 3 then 1 else 0) && (16 * k + f) % 4 == f
  {
    Halves(16 * k + f, 8 * k + f / 2, 1);
    Halves(8 * k + f / 2, 4 * k, f / 2);
    Quarters(16 * k + f, 4 * k, f);
  }

  lemma Halves(x: nat, q: nat, r: nat)
    requires x == 2 * q + r && r < 2
    ensures x / 2 == q && x % 2 == r
  {
  }

  lemma Quarters(x: nat, q: nat, r: nat)
    requires x == 4 * q + r && r < 4
    ensures x % 4 == r
  {
  }

  /** A block's header says how big it is and whether it has a mapping of its own. */
  lemma BlockHeader(t: State, q: nat)
    requires StateOk(t) && BlockSize(t, q) != 0
    ensures W(t.mem, q) / 2 % 2 == 1 <==> q in t.direct
    ensures W(t.mem, q) - W(t.mem, q) % 4 == BlockSize(t, q) && BlockSize(t, q) % ALIGN == 0
    ensures q !in t.direct ==> t.inited && SizeAt(t.chunks, q) != 0 && W(t.mem, q) == BlockSize(t, q) + 1
  {
    hide HeapOk, SizeAt;
    if q !in t.direct { ArenaBlockBelow(t, q); }
    var n := BlockSize(t, q);
    assert n == 16 * (n / 16);
    Flags(n / 16, if q in t.direct then 3 else 1);
  }

  lemma Unmapped(t: State, u: State, p: nat)
    requires StateOk(t) && p in t.direct && u == t.(direct := t.direct - {p})
    ensures StateOk(u) && OthersKept(t, u, p) && BlockSize(u, p) == 0
  {
    hide HeapOk;
    NoArenaBlock(t, p);
  }

  lemma EmptyArena(t: State, u: State)
    requires StateOk(t) && !t.inited && u == t.(inited := true, top := ARENA_BASE)
    ensures StateOk(u)
  {
  }

  lemma AfterInit(t: State, t1: State, u: State, x: nat)
    requires t1 == t || t1 == t.(inited := true, top := ARENA_BASE)
    requires OthersKept(t1, u, x) && BlockSize(t1, x) == 0
    ensures OthersKept(t, u, x) && BlockSize(t, x) == 0
  {
    assert forall q: nat :: BlockSize(t1, q) == BlockSize(t, q);
  }

  lemma LastIffTop(t: State, i: nat)
    requires StateOk(t) && t.inited && i < |t.chunks|
    ensures End(t.chunks[i]) == (if i + 1 < |t.chunks| then t.chunks[i + 1].addr else t.top)
    ensures End(t.chunks[i]) == t.top <==> i + 1 == |t.chunks|
  {
    hide Chain, Coalesced, Headers;
    if i + 1 < |t.chunks| {
      TiledNext(t.chunks, ARENA_BASE, t.top, i);
      TiledSplit(t.chunks, ARENA_BASE, t.top, i + 1);
    } else {
      TiledSplit(t.chunks, ARENA_BASE, t.top, i);
      assert t.chunks[i + 1..] == [];
    }
  }

  lemma HeaderOnly(m: Mem, m': Mem, c: nat, want: nat, n: nat, prev: nat)
    requires m' == m[c := want + 1]
    ensures ChangedIn(m, m', c, c + HDR + want, prev) && SameWords(m, m', c + HDR, n)
  {
  }

  lemma AbsorbEnd(t: State, i: nat)
    requires StateOk(t) && t.inited && i + 1 < |t.chunks|
    ensures End(t.chunks[i]) == t.chunks[i + 1].addr && End(t.chunks[i + 1]) <= ARENA_END
  {
    TiledNext(t.chunks, ARENA_BASE, t.top, i);
    TiledSplit(t.chunks, ARENA_BASE, t.top, i + 1);
  }

  /** Block i grew over the run of chunks up to e. */
  lemma Grown(t: State, u: State, i: nat, e: nat, neu: seq<Chunk>, hi: nat)
    requires StateOk(t) && t.inited && i < e <= |t.chunks| && t.chunks[i].used && neu != [] && neu[0].used
    requires neu[0].addr == t.chunks[i].addr
    requires (forall j :: 1 <= j < |neu| ==> !neu[j].used) && (forall j :: i < j < e ==> !t.chunks[j].used)
    requires u == t.(mem := u.mem, head := u.head, top := u.top, chunks := t.chunks[..i] + neu + t.chunks[e..])
    requires HeapOk(u.mem, u.head, u.top, u.chunks)
    requires ChangedIn(t.mem, u.mem, t.chunks[i].addr, hi, LastFree(t.chunks[..i])) && hi <= ARENA_END
    requires (e < |t.chunks| ==> hi == End(t.chunks[e - 1]))
    ensures StateOk(u) && OthersKept(t, u, t.chunks[i].addr) && BlockSize(u, t.chunks[i].addr) == neu[0].size
  {
    hide HeapOk, ChangedIn, Tiled, DirectOk, OthersKept;
    var s, x := t.chunks, t.chunks[i].addr;
    HeapTiled(t);
    HeapTiled(u);
    TiledSplit(s, ARENA_BASE, t.top, i);
    forall j | e <= j < |s| ensures s[j].addr >= hi { TiledApart(s, ARENA_BASE, t.top, e - 1, j); }
    RunReplaced(t, u, i, e, neu, x, hi, x);
    NotDirect(t, x);
    assert u.chunks[i] == neu[0];
    SizeHere(u.chunks, ARENA_BASE, u.top, i);
  }

  lemma OthersSelf(t: State, x: nat)
    ensures OthersKept(t, t, x)
  {
  }

  lemma SelfWords(m: Mem, p: nat, n: nat)
    ensures SameWords(m, m, p, n)
  {
  }

  /** The source block's words are untouched while another block is written. */
  lemma SourceKept(t: State, u: State, src: nat, dst: nat, a: nat)
    requires OthersKept(t, u, dst) && src != dst && BlockSize(t, src) != 0
    requires src + HDR <= a < src + HDR + BlockSize(t, src)
    ensures W(u.mem, a) == W(t.mem, a)
  {
    assert SameWords(t.mem, u.mem, src + HDR, BlockSize(t, src));
  }

  /** Writing inside block q disturbs nothing else. */
  lemma PayloadWrite(t: State, u: State, v: State, q: nat, a: nat, x: nat)
    requires StateOk(u) && OthersKept(t, u, q) && BlockSize(u, q) != 0 && q + HDR <= a < q + HDR + BlockSize(u, q)
    requires v == u.(mem := u.mem[a := x])
    ensures StateOk(v) && OthersKept(t, v, q) && BlockSize(v, q) == BlockSize(u, q)
  {
    hide HeapOk, SizeAt;
    WriteState(u, v, q, a);
    forall p: nat | p != q && BlockSize(t, p) != 0 ensures SameWords(t.mem, v.mem, p + HDR, BlockSize(t, p)) {
      assert SameWords(t.mem, u.mem, p + HDR, BlockSize(t, p)) && BlockSize(u, p) == BlockSize(t, p);
      BlocksDisjoint(u, p, q);
    }
  }

  lemma WriteState(u: State, v: State, q: nat, a: nat)
    requires StateOk(u) && BlockSize(u, q) != 0 && q + HDR <= a < q + HDR + BlockSize(u, q) && v == u.(mem := v.mem)
    requires forall b: nat :: b != a ==> W(v.mem, b) == W(u.mem, b)
    ensures StateOk(v)
  {
    hide HeapOk, SizeAt;
    forall p | p in u.direct ensures W(v.mem, p) == W(u.mem, p) {
      if p != q { BlocksDisjoint(u, p, q); }
    }
    if u.inited {
      if q in u.direct { HeapAbove(u, v, ARENA_END); } else { WriteHeap(u, v, q, a); }
    }
  }

  lemma WriteHeap(u: State, v: State, q: nat, a: nat)
    requires HeapOk(u.mem, u.head, u.top, u.chunks) && SizeAt(u.chunks, q) != 0
    requires q + HDR <= a < q + HDR + SizeAt(u.chunks, q) && v == u.(mem := v.mem)
    requires forall b: nat :: b != a ==> W(v.mem, b) == W(u.mem, b)
    ensures HeapOk(v.mem, v.head, v.top, v.chunks)
  {
    hide Chain, Tiled, Coalesced;
    var s := u.chunks;
    var i := SizeIndex(s, q);
    forall j | 0 <= j < |s| ensures s[j].addr != a && (!s[j].used ==> s[j].addr + 8 != a) {
      TiledSplit(s, ARENA_BASE, u.top, j);
      if j < i { TiledApart(s, ARENA_BASE, u.top, j, i); } else if i < j { TiledApart(s, ARENA_BASE, u.top, i, j); }
    }
    ChainFrame(u.mem, v.mem, u.head, s, 0);
  }

  /** Every block but those at x and y is as it was. */
  ghost predicate OthersKept2(t: State, u: State, x: nat, y: nat) {
    && (forall q: nat :: q != x && q != y ==> BlockSize(u, q) == BlockSize(t, q))
    && (forall q: nat :: q != x && q != y && BlockSize(t, q) != 0 ==> SameWords(t.mem, u.mem, q + HDR, BlockSize(t, q)))
  }

  lemma MovedApart(t: State, u: State, c: nat, x: nat)
    requires OthersKept(t, u, x) && BlockSize(t, x) == 0 && BlockSize(t, c) != 0
    ensures c != x && BlockSize(u, c) == BlockSize(t, c)
  {
  }

  lemma MovedStill(t: State, u: State, c: nat, x: nat)
    requires OthersKept(t, u, x) && c != x
    ensures BlockSize(u, c) == BlockSize(t, c)
  {
  }

  /** malloc, copy, free: the block's words are at its new place. */
  lemma Moved(t: State, t1: State, t2: State, t3: State, c: nat, x: nat, n: nat)
    requires c != x && OthersKept(t, t1, x) && OthersKept(t1, t2, x) && OthersKept(t2, t3, c) && BlockSize(t, x) == 0
    requires BlockSize(t, c) == n && BlockSize(t2, x) == BlockSize(t1, x) >= n
    requires forall k :: 0 <= k < n / 8 ==> W(t2.mem, x + HDR + 8 * k) == W(t1.mem, c + HDR + 8 * k)
    ensures OthersKept2(t, t3, c, x) && BlockSize(t3, x) == BlockSize(t1, x)
    ensures forall k :: 0 <= k < n / 8 ==> W(t3.mem, x + HDR + 8 * k) == W(t.mem, c + HDR + 8 * k)
  {
    hide SizeAt;
    forall q: nat | q != c && q != x && BlockSize(t, q) != 0
      ensures SameWords(t.mem, t3.mem, q + HDR, BlockSize(t, q))
    {
      assert SameWords(t.mem, t1.mem, q + HDR, BlockSize(t, q)) && BlockSize(t1, q) == BlockSize(t, q);
      assert SameWords(t1.mem, t2.mem, q + HDR, BlockSize(t1, q)) && BlockSize(t2, q) == BlockSize(t1, q);
      assert SameWords(t2.mem, t3.mem, q + HDR, BlockSize(t2, q));
    }
    forall k | 0 <= k < n / 8 ensures W(t3.mem, x + HDR + 8 * k) == W(t.mem, c + HDR + 8 * k) {
      assert SameWords(t.mem, t1.mem, c + HDR, n);
      assert SameWords(t2.mem, t3.mem, x + HDR, BlockSize(t2, x));
    }
  }
}
