/**
 The user heap's layout: chunks that tile the arena, their headers in memory, and the free list threaded through them.
 */
module HeapSpec {
  const ALIGN := 16
  const HDR := 16
  const ARENA_BASE := 0x1_0000_0000
  const ARENA_END := 0x10_0000_0000

  /** Memory by 8-byte words; an absent word is zero. */
  type Mem = map<nat, nat>

  function W(m: Mem, a: nat): nat { if a in m then m[a] else 0 }

  /** One chunk: a 16-byte header at addr and size bytes of payload. */
  datatype Chunk = Chunk(addr: nat, size: nat, used: bool)

  function End(c: Chunk): nat { c.addr + HDR + c.size }

  /** The chunks lie end to end from lo to hi. */
  ghost predicate Tiled(s: seq<Chunk>, lo: nat, hi: nat) {
    if s == [] then lo == hi
    else s[0].addr == lo && s[0].size > 0 && s[0].size % ALIGN == 0 && Tiled(s[1..], End(s[0]), hi)
  }

  lemma {:induction false} TiledConcat(s: seq<Chunk>, t: seq<Chunk>, lo: nat, mid: nat, hi: nat)
    requires Tiled(s, lo, mid) && Tiled(t, mid, hi)
    ensures Tiled(s + t, lo, hi)
  {
    if s == [] {
      assert s + t == t;
    } else {
      assert (s + t)[0] == s[0] && (s + t)[1..] == s[1..] + t;
      TiledConcat(s[1..], t, End(s[0]), mid, hi);
    }
  }

  lemma NextAligned(c: Chunk)
    ensures c.addr % ALIGN == 0 && c.size % ALIGN == 0 ==> End(c) % ALIGN == 0
  {
  }

  /** Where chunk i starts, and the tilings on either side of it. */
  lemma {:induction false} TiledSplit(s: seq<Chunk>, lo: nat, hi: nat, i: nat)
    requires Tiled(s, lo, hi) && i < |s|
    ensures Tiled(s[..i], lo, s[i].addr) && Tiled(s[i + 1..], End(s[i]), hi)
    ensures s[i].size > 0 && s[i].size % ALIGN == 0 && lo <= s[i].addr && End(s[i]) <= hi
    ensures lo % ALIGN == 0 ==> s[i].addr % ALIGN == 0
  {
    NextAligned(s[0]);
    if i > 0 {
      TiledSplit(s[1..], End(s[0]), hi, i - 1);
      assert s[..i] == [s[0]] + s[1..][..i - 1] && s[i + 1..] == s[1..][i..];
    } else {
      assert s[..0] == [];
      TiledOrder(s[1..], End(s[0]), hi);
    }
  }

  lemma {:induction false} TiledOrder(s: seq<Chunk>, lo: nat, hi: nat)
    requires Tiled(s, lo, hi)
    ensures lo <= hi
  {
    if s != [] { TiledOrder(s[1..], End(s[0]), hi); }
  }

  /** Chunks further up start after chunks further down end. */
  lemma TiledApart(s: seq<Chunk>, lo: nat, hi: nat, i: nat, j: nat)
    requires Tiled(s, lo, hi) && i < j < |s|
    ensures End(s[i]) <= s[j].addr
  {
    TiledSplit(s, lo, hi, i);
    assert s[i + 1..][j - i - 1] == s[j];
    TiledSplit(s[i + 1..], End(s[i]), hi, j - i - 1);
  }

  /** Every header records its chunk's size and whether it is in use. */
  ghost predicate Headers(m: Mem, s: seq<Chunk>) {
    forall i :: 0 <= i < |s| ==> W(m, s[i].addr) == s[i].size + if s[i].used then 1 else 0
  }

  /** Two neighbours are never both free. */
  ghost predicate Coalesced(s: seq<Chunk>) { forall i :: 0 < i < |s| ==> s[i - 1].used || s[i].used }

  /** Following next pointers from h visits exactly the free chunks of s, in order, and arrives at z. */
  ghost predicate Chain(m: Mem, h: nat, s: seq<Chunk>, z: nat)
    decreases |s|
  {
    if s == [] then h == z
    else if s[0].used then Chain(m, h, s[1..], z)
    else h == s[0].addr && Chain(m, W(m, s[0].addr + 8), s[1..], z)
  }

  /** The pointer value after the free chunks of s. */
  ghost function Follow(m: Mem, h: nat, s: seq<Chunk>): nat
    decreases |s|
  {
    if s == [] then h else if s[0].used then Follow(m, h, s[1..]) else Follow(m, W(m, s[0].addr + 8), s[1..])
  }

  /** The address of the last free chunk of s, 0 if there is none. */
  function LastFree(s: seq<Chunk>): nat {
    if s == [] then 0 else if !s[|s| - 1].used then s[|s| - 1].addr else LastFree(s[..|s| - 1])
  }

  lemma {:induction false} ChainSplit(m: Mem, h: nat, s: seq<Chunk>, t: seq<Chunk>, z: nat)
    requires Chain(m, h, s + t, z)
    ensures Chain(m, h, s, Follow(m, h, s)) && Chain(m, Follow(m, h, s), t, z)
    decreases |s|
  {
    if s == [] {
      assert s + t == t;
    } else {
      assert (s + t)[0] == s[0] && (s + t)[1..] == s[1..] + t;
      ChainSplit(m, if s[0].used then h else W(m, s[0].addr + 8), s[1..], t, z);
    }
  }

  lemma {:induction false} ChainConcat(m: Mem, h: nat, s: seq<Chunk>, t: seq<Chunk>, mid: nat, z: nat)
    requires Chain(m, h, s, mid) && Chain(m, mid, t, z)
    ensures Chain(m, h, s + t, z)
    decreases |s|
  {
    if s == [] {
      assert s + t == t;
    } else {
      assert (s + t)[0] == s[0] && (s + t)[1..] == s[1..] + t;
      ChainConcat(m, if s[0].used then h else W(m, s[0].addr + 8), s[1..], t, mid, z);
    }
  }

  /** The chain through s reads only the next words of s's free chunks. */
  lemma {:induction false} ChainFrame(m: Mem, m': Mem, h: nat, s: seq<Chunk>, z: nat)
    requires Chain(m, h, s, z) && forall i :: 0 <= i < |s| && !s[i].used ==> W(m', s[i].addr + 8) == W(m, s[i].addr + 8)
    ensures Chain(m', h, s, z) && Follow(m', h, s) == Follow(m, h, s)
    decreases |s|
  {
    if s != [] {
      ChainFrame(m, m', if s[0].used then h else W(m, s[0].addr + 8), s[1..], z);
    }
  }

  /** What "prev->next = x, or the list head if there is no prev" leaves. */
  function Redirected(m: Mem, h: nat, prev: nat, x: nat): (Mem, nat) {
    if prev == 0 then (m, x) else (m[prev + 8 := x], h)
  }

  /** Redirecting the last link before a point redirects the whole chain up to it. */
  lemma {:induction false} ChainRedirect(m: Mem, h: nat, s: seq<Chunk>, z: nat, x: nat, lo: nat, hi: nat)
    requires Chain(m, h, s, z) && Tiled(s, lo, hi) && lo > 0
    ensures var r := Redirected(m, h, LastFree(s), x); Chain(r.0, r.1, s, x)
    decreases |s|
  {
    if s != [] {
      var n := |s| - 1;
      var front, last := s[..n], s[n];
      assert s == front + [last];
      TiledSplit(s, lo, hi, n);
      ChainSplit(m, h, front, [last], z);
      if last.used {
        assert Chain(m, z, [last], z);
        assert Follow(m, h, front) == z by {
          assert Chain(m, Follow(m, h, front), [last], z);
          assert [last][1..] == [];
        }
        ChainRedirect(m, h, front, z, x, lo, last.addr);
        var r := Redirected(m, h, LastFree(s), x);
        assert Chain(r.0, x, [last], x) by { assert [last][1..] == []; }
        ChainConcat(r.0, r.1, front, [last], x, x);
      } else {
        var m' := m[last.addr + 8 := x];
        assert [last][1..] == [];
        forall i | 0 <= i < |front| && !front[i].used ensures W(m', front[i].addr + 8) == W(m, front[i].addr + 8) {
          TiledApart(s, lo, hi, i, n);
        }
        ChainFrame(m, m', h, front, last.addr);
        ChainConcat(m', h, front, [last], last.addr, x);
      }
    }
  }

  /** A nonzero pointer into the chain is the next free chunk. */
  lemma {:induction false} ChainHead(m: Mem, h: nat, s: seq<Chunk>) returns (k: nat)
    requires Chain(m, h, s, 0)
    ensures k <= |s| && (forall i :: 0 <= i < k ==> s[i].used)
    ensures if k < |s| then !s[k].used && s[k].addr == h else h == 0
  {
    if s == [] {
      k := 0;
    } else if s[0].used {
      k := ChainHead(m, h, s[1..]);
      k := k + 1;
    } else {
      k := 0;
    }
  }

  lemma {:induction false} AllUsedPass(m: Mem, h: nat, s: seq<Chunk>)
    requires forall i :: 0 <= i < |s| ==> s[i].used
    ensures Follow(m, h, s) == h && Chain(m, h, s, h) && LastFree(s) == 0
  {
    if s != [] {
      AllUsedPass(m, h, s[1..]);
      AllUsedLast(s);
    }
  }

  lemma {:induction false} AllUsedLast(s: seq<Chunk>)
    requires forall i :: 0 <= i < |s| ==> s[i].used
    ensures LastFree(s) == 0
  {
    if s != [] { AllUsedLast(s[..|s| - 1]); }
  }

  lemma {:induction false} LastFreeConcat(s: seq<Chunk>, t: seq<Chunk>)
    requires forall i :: 0 <= i < |t| ==> t[i].used
    ensures LastFree(s + t) == LastFree(s)
  {
    if t == [] {
      assert s + t == s;
    } else {
      assert (s + t)[..|s + t| - 1] == s + t[..|t| - 1];
      LastFreeConcat(s, t[..|t| - 1]);
    }
  }

  lemma {:induction false} FollowConcat(m: Mem, h: nat, s: seq<Chunk>, t: seq<Chunk>)
    ensures Follow(m, h, s + t) == Follow(m, Follow(m, h, s), t)
    decreases |s|
  {
    if s == [] {
      assert s + t == t;
    } else {
      assert (s + t)[0] == s[0] && (s + t)[1..] == s[1..] + t;
      FollowConcat(m, if s[0].used then h else W(m, s[0].addr + 8), s[1..], t);
    }
  }

  // ----- replacing a run of chunks -------------------------------------------------------

  ghost predicate HeapOk(m: Mem, h: nat, top: nat, s: seq<Chunk>) {
    Tiled(s, ARENA_BASE, top) && top <= ARENA_END && Headers(m, s) && Coalesced(s) && Chain(m, h, s, 0)
  }

  /** Memory changes only in [lo, hi) and in the next word of the chunk at prev. */
  ghost predicate ChangedIn(m: Mem, m': Mem, lo: nat, hi: nat, prev: nat) {
    forall a: nat :: W(m', a) != W(m, a) ==> lo <= a < hi || (prev != 0 && a == prev + 8)
  }

  ghost predicate AllAligned(s: seq<Chunk>) { forall i :: 0 <= i < |s| ==> s[i].addr % ALIGN == 0 }

  lemma TiledAligned(s: seq<Chunk>, lo: nat, hi: nat)
    requires Tiled(s, lo, hi) && lo % ALIGN == 0
    ensures AllAligned(s)
  {
    forall i | 0 <= i < |s| ensures s[i].addr % ALIGN == 0 { TiledSplit(s, lo, hi, i); }
  }

  /** Where LastFree is. */
  lemma {:induction false} LastFreeAt(s: seq<Chunk>) returns (i: nat)
    requires LastFree(s) != 0
    ensures i < |s| && s[i].addr == LastFree(s) && !s[i].used
  {
    if s[|s| - 1].used { i := LastFreeAt(s[..|s| - 1]); } else { i := |s| - 1; }
  }

  /** Headers outside the changed run are as they were. */
  lemma HeadersKept(m: Mem, m': Mem, s: seq<Chunk>, lo: nat, hi: nat, prev: nat)
    requires Headers(m, s) && ChangedIn(m, m', lo, hi, prev) && AllAligned(s) && prev % ALIGN == 0
    requires forall i :: 0 <= i < |s| ==> s[i].addr < lo || s[i].addr >= hi
    ensures Headers(m', s)
  {
    forall i | 0 <= i < |s| ensures W(m', s[i].addr) == W(m, s[i].addr) { }
  }

  lemma {:induction false} BelowLo(s: seq<Chunk>, lo: nat, hi: nat)
    requires Tiled(s, lo, hi)
    ensures forall i :: 0 <= i < |s| ==> lo <= s[i].addr && End(s[i]) <= hi
  {
    forall i | 0 <= i < |s| ensures lo <= s[i].addr && End(s[i]) <= hi { TiledSplit(s, lo, hi, i); }
  }

  /** The chain before the changed run now leads to x. */
  lemma ChainBefore(m: Mem, m': Mem, h: nat, h': nat, pre: seq<Chunk>, z: nat, x: nat, base: nat, lo: nat, hi: nat)
    requires Chain(m, h, pre, z) && Tiled(pre, base, lo) && base > 0 && base % ALIGN == 0
    requires ChangedIn(m, m', lo, hi, LastFree(pre))
    requires if LastFree(pre) == 0 then h' == x else h' == h && W(m', LastFree(pre) + 8) == x
    ensures Chain(m', h', pre, x)
  {
    ChainRedirect(m, h, pre, z, x, base, lo);
    var r := Redirected(m, h, LastFree(pre), x);
    BelowLo(pre, base, lo);
    forall i | 0 <= i < |pre| && !pre[i].used ensures W(m', pre[i].addr + 8) == W(r.0, pre[i].addr + 8) {
      assert pre[i].addr + 8 < lo;
    }
    ChainFrame(r.0, m', h', pre, x);
  }

  lemma ChainAfter(m: Mem, m': Mem, y: nat, post: seq<Chunk>, lo: nat, hi: nat, prev: nat, top: nat)
    requires Chain(m, y, post, 0) && Tiled(post, hi, top) && ChangedIn(m, m', lo, hi, prev) && prev < lo <= hi
    ensures Chain(m', y, post, 0)
  {
    BelowLo(post, hi, top);
    forall i | 0 <= i < |post| && !post[i].used ensures W(m', post[i].addr + 8) == W(m, post[i].addr + 8) { }
    ChainFrame(m, m', y, post, 0);
  }

  lemma CoalescedJoin(pre: seq<Chunk>, neu: seq<Chunk>, post: seq<Chunk>)
    requires Coalesced(pre) && Coalesced(neu) && Coalesced(post) && neu != []
    requires pre != [] ==> pre[|pre| - 1].used || neu[0].used
    requires post != [] ==> post[0].used || neu[|neu| - 1].used
    ensures Coalesced(pre + neu + post)
  {
    var s := pre + neu + post;
    forall i | 0 < i < |s| ensures s[i - 1].used || s[i].used {
      if i < |pre| {
        assert s[i - 1] == pre[i - 1] && s[i] == pre[i];
      } else if i < |pre| + |neu| {
        if i > |pre| { assert s[i - 1] == neu[i - 1 - |pre|] && s[i] == neu[i - |pre|]; }
      } else {
        if i > |pre| + |neu| { assert s[i - 1] == post[i - 1 - |pre| - |neu|] && s[i] == post[i - |pre| - |neu|]; }
      }
    }
  }

  /** A run of chunks of the heap is replaced by another that covers the same addresses. */
  lemma Rebuild(m: Mem, h: nat, top: nat, pre: seq<Chunk>, mid: seq<Chunk>, post: seq<Chunk>,
                m': Mem, h': nat, top': nat, neu: seq<Chunk>, lo: nat, hi: nat, x: nat, y: nat)
    requires HeapOk(m, h, top, pre + mid + post) && mid != [] && neu != []
    requires Tiled(pre, ARENA_BASE, lo) && Tiled(neu, lo, hi) && Tiled(post, hi, top') && top' <= ARENA_END
    requires ChangedIn(m, m', lo, hi, LastFree(pre)) && Headers(m', neu) && Coalesced(neu)
    requires pre != [] ==> pre[|pre| - 1].used || neu[0].used
    requires post != [] ==> post[0].used || neu[|neu| - 1].used
    requires if LastFree(pre) == 0 then h' == x else h' == h && W(m', LastFree(pre) + 8) == x
    requires Chain(m', x, neu, y) && Chain(m, y, post, 0)
    ensures HeapOk(m', h', top', pre + neu + post)
  {
    hide Chain, Tiled, Headers, Coalesced, ChangedIn;
    var s := pre + mid + post;
    assert s == pre + (mid + post);
    ChainSplit(m, h, pre, mid + post, 0);
    ChainBefore(m, m', h, h', pre, Follow(m, h, pre), x, ARENA_BASE, lo, hi);
    LastBelow(pre, ARENA_BASE, lo);
    TiledOrder(neu, lo, hi);
    ChainAfter(m, m', y, post, lo, hi, LastFree(pre), top');
    ChainConcat(m', h', pre, neu, x, y);
    ChainConcat(m', h', pre + neu, post, y, 0);
    TiledConcat(pre, neu, ARENA_BASE, lo, hi);
    TiledConcat(pre + neu, post, ARENA_BASE, hi, top');
    Parts(m, pre, mid, post);
    RebuildHeaders(m, m', pre, neu, post, lo, hi, top');
    CoalescedJoin(pre, neu, post);
  }

  lemma LastBelow(pre: seq<Chunk>, base: nat, lo: nat)
    requires Tiled(pre, base, lo) && 0 < base && base % ALIGN == 0
    ensures LastFree(pre) < lo && LastFree(pre) % ALIGN == 0
  {
    TiledOrder(pre, base, lo);
    if LastFree(pre) != 0 {
      var i := LastFreeAt(pre);
      TiledSplit(pre, base, lo, i);
    }
  }

  lemma Parts(m: Mem, pre: seq<Chunk>, mid: seq<Chunk>, post: seq<Chunk>)
    requires Headers(m, pre + mid + post) && Coalesced(pre + mid + post)
    ensures Headers(m, pre) && Headers(m, mid) && Headers(m, post) && Coalesced(pre) && Coalesced(mid)
    ensures Coalesced(post)
  {
    var s := pre + mid + post;
    forall i | 0 <= i < |pre| ensures pre[i] == s[i] { }
    forall i | 0 <= i < |mid| ensures mid[i] == s[|pre| + i] { }
    forall i | 0 <= i < |post| ensures post[i] == s[|pre| + |mid| + i] { }
  }

  lemma RebuildHeaders(m: Mem, m': Mem, pre: seq<Chunk>, neu: seq<Chunk>, post: seq<Chunk>, lo: nat, hi: nat, top: nat)
    requires Headers(m, pre) && Headers(m, post) && Headers(m', neu) && ChangedIn(m, m', lo, hi, LastFree(pre))
    requires Tiled(pre, ARENA_BASE, lo) && Tiled(post, hi, top) && Tiled(neu, lo, hi)
    ensures Headers(m', pre + neu + post)
  {
    LastBelow(pre, ARENA_BASE, lo);
    TiledAligned(pre, ARENA_BASE, lo);
    EndAligned(pre, ARENA_BASE, lo);
    EndAligned(neu, lo, hi);
    TiledAligned(post, hi, top);
    BelowLo(pre, ARENA_BASE, lo);
    BelowLo(post, hi, top);
    TiledOrder(neu, lo, hi);
    HeadersKept(m, m', pre, lo, hi, LastFree(pre));
    HeadersKept(m, m', post, lo, hi, LastFree(pre));
  }

  lemma {:induction false} EndAligned(s: seq<Chunk>, lo: nat, hi: nat)
    requires Tiled(s, lo, hi) && lo % ALIGN == 0
    ensures hi % ALIGN == 0
  {
    if s != [] { EndAligned(s[1..], End(s[0]), hi); }
  }

  // ----- the steps of malloc, free and realloc ---------------------------------------------

  /** The last link before a point holds the pointer that follows. */
  lemma {:induction false} LinkValue(m: Mem, h: nat, pre: seq<Chunk>, z: nat, base: nat, lo: nat)
    requires Chain(m, h, pre, z) && Tiled(pre, base, lo) && base > 0
    ensures if LastFree(pre) == 0 then h == z else W(m, LastFree(pre) + 8) == z
    decreases |pre|
  {
    if pre != [] {
      var n := |pre| - 1;
      var front, last := pre[..n], pre[n];
      assert pre == front + [last] && [last][1..] == [];
      TiledSplit(pre, base, lo, n);
      ChainSplit(m, h, front, [last], z);
      if last.used { LinkValue(m, h, front, z, base, last.addr); }
    }
  }

  /** The chain on either side of chunk i. */
  lemma ChainAt(m: Mem, h: nat, s: seq<Chunk>, i: nat)
    requires Chain(m, h, s, 0) && i < |s|
    ensures var f := Follow(m, h, s[..i]);
            && Chain(m, h, s[..i], f)
            && if s[i].used then Chain(m, f, s[i + 1..], 0)
                 else f == s[i].addr && Chain(m, W(m, s[i].addr + 8), s[i + 1..], 0)
  {
    assert s == s[..i] + s[i..] && s[i..][0] == s[i] && s[i..][1..] == s[i + 1..];
    ChainSplit(m, h, s[..i], s[i..], 0);
  }

  lemma CoalescedAt(s: seq<Chunk>, i: nat)
    requires Coalesced(s) && i < |s| && !s[i].used
    ensures (i > 0 ==> s[i - 1].used) && (i + 1 < |s| ==> s[i + 1].used)
  {
    if i + 1 < |s| { assert s[i + 1 - 1].used || s[i + 1].used; }
  }

  /** arena_alloc takes a whole free chunk. */
  lemma TakeWhole(m: Mem, h: nat, top: nat, s: seq<Chunk>, b: nat, m': Mem, h': nat)
    requires HeapOk(m, h, top, s) && b < |s| && !s[b].used
    requires var r := Redirected(m, h, LastFree(s[..b]), W(m, s[b].addr + 8));
             h' == r.1 && m' == r.0[s[b].addr := s[b].size + 1][s[b].addr + 8 := 0]
    ensures HeapOk(m', h', top, s[..b] + [s[b].(used := true)] + s[b + 1..])
    ensures ChangedIn(m, m', s[b].addr, End(s[b]), LastFree(s[..b]))
  {
    hide Chain, Tiled, Headers, Coalesced;
    var pre, c, post := s[..b], s[b], s[b + 1..];
    assert s == pre + [c] + post;
    TiledSplit(s, ARENA_BASE, top, b);
    ChainAt(m, h, s, b);
    CoalescedAt(s, b);
    LastBelow(pre, ARENA_BASE, c.addr);
    var u := c.(used := true);
    OneChunk(u, c.addr, m', W(m, c.addr + 8));
    Rebuild(m, h, top, pre, [c], post, m', h', top, [u], c.addr, End(c), W(m, c.addr + 8), W(m, c.addr + 8));
  }

  lemma OneChunk(u: Chunk, lo: nat, m: Mem, x: nat)
    requires u.addr == lo && u.size > 0 && u.size % ALIGN == 0 && W(m, lo) == u.size + if u.used then 1 else 0
    requires u.used || x == lo
    ensures Tiled([u], lo, End(u)) && Headers(m, [u]) && Coalesced([u])
    ensures Chain(m, x, [u], if u.used then x else W(m, lo + 8))
  {
    assert [u][1..] == [];
  }

  /** arena_alloc takes the front of a free chunk; the rest takes its place on the list. */
  lemma TakeSplit(m: Mem, h: nat, top: nat, s: seq<Chunk>, b: nat, size: nat, m': Mem, h': nat)
    requires HeapOk(m, h, top, s) && b < |s| && !s[b].used && size > 0 && size % ALIGN == 0
    requires s[b].size >= size + HDR + ALIGN
    requires var c, ra := s[b], s[b].addr + HDR + size;
             var r := Redirected(m[ra := c.size - size - HDR][ra + 8 := W(m, c.addr + 8)][c.addr := size], h,
               LastFree(s[..b]), ra);
             h' == r.1 && m' == r.0[c.addr := size + 1][c.addr + 8 := 0]
    ensures var c, ra := s[b], s[b].addr + HDR + size;
            HeapOk(m', h', top,
                   s[..b] + [Chunk(c.addr, size, true), Chunk(ra, c.size - size - HDR, false)] + s[b + 1..])
    ensures ChangedIn(m, m', s[b].addr, End(s[b]), LastFree(s[..b]))
  {
    hide Chain, Tiled, Headers, Coalesced;
    var pre, c, post := s[..b], s[b], s[b + 1..];
    assert s == pre + [c] + post;
    TiledSplit(s, ARENA_BASE, top, b);
    ChainAt(m, h, s, b);
    CoalescedAt(s, b);
    LastBelow(pre, ARENA_BASE, c.addr);
    var ra, y := c.addr + HDR + size, W(m, c.addr + 8);
    var u, v := Chunk(c.addr, size, true), Chunk(ra, c.size - size - HDR, false);
    TwoChunks(u, v, c.addr, m', ra);
    Rebuild(m, h, top, pre, [c], post, m', h', top, [u, v], c.addr, End(c), ra, y);
  }

  lemma TwoChunks(u: Chunk, v: Chunk, lo: nat, m: Mem, x: nat)
    requires u.addr == lo && u.size > 0 && u.size % ALIGN == 0 && W(m, lo) == u.size + 1 && u.used
    requires v.addr == End(u) == x && v.size > 0 && v.size % ALIGN == 0 && W(m, v.addr) == v.size && !v.used
    ensures Tiled([u, v], lo, End(v)) && Headers(m, [u, v]) && Coalesced([u, v])
    ensures Chain(m, x, [u, v], W(m, v.addr + 8))
  {
    assert [u, v][1..] == [v] && [v][1..] == [];
  }

  /** arena_alloc bumps arena_top. */
  lemma Bump(m: Mem, h: nat, top: nat, s: seq<Chunk>, size: nat, m': Mem)
    requires HeapOk(m, h, top, s) && size > 0 && size % ALIGN == 0 && top + HDR + size <= ARENA_END
    requires m' == m[top := size + 1][top + 8 := 0]
    ensures HeapOk(m', h, top + HDR + size, s + [Chunk(top, size, true)])
    ensures ChangedIn(m, m', top, top + HDR + size, 0)
  {
    hide Tiled, Coalesced;
    var c := Chunk(top, size, true);
    BelowLo(s, ARENA_BASE, top);
    ChainFrame(m, m', h, s, 0);
    OneChunk(c, top, m', 0);
    ChainConcat(m', h, s, [c], 0, 0);
    TiledConcat(s, [c], ARENA_BASE, top, End(c));
    BumpCoalesced(s, c);
  }

  lemma BumpCoalesced(s: seq<Chunk>, c: Chunk)
    requires Coalesced(s) && c.used
    ensures Coalesced(s + [c])
  {
  }

  /** The run s[a..e] that chunk i becomes part of when it is freed. */
  ghost predicate MergeRun(s: seq<Chunk>, i: nat, a: nat, e: nat) {
    && i < |s| && s[i].used && a <= i < e <= |s|
    && (a == i || (a + 1 == i && !s[a].used)) && (e == i + 1 || (e == i + 2 && !s[i + 1].used))
    && (a == i && i > 0 ==> s[i - 1].used) && (e == i + 1 && e < |s| ==> s[e].used)
  }

  lemma RunTiled(s: seq<Chunk>, top: nat, i: nat, a: nat, e: nat)
    requires Tiled(s, ARENA_BASE, top) && MergeRun(s, i, a, e)
    ensures var lo, hi := s[a].addr, End(s[e - 1]);
            && Tiled(s[..a], ARENA_BASE, lo) && Tiled(s[e..], hi, top) && lo % ALIGN == 0
            && hi - lo > HDR && (hi - lo) % ALIGN == 0
            && (a < i ==> End(s[a]) == s[i].addr) && (e > i + 1 ==> End(s[i]) == s[i + 1].addr)
  {
    hide Tiled;
    TiledSplit(s, ARENA_BASE, top, a);
    TiledSplit(s, ARENA_BASE, top, e - 1);
    if a < i { TiledNext(s, ARENA_BASE, top, a); }
    if e > i + 1 { TiledNext(s, ARENA_BASE, top, i); }
    TiledSplit(s, ARENA_BASE, top, i);
  }

  lemma TiledNext(s: seq<Chunk>, lo: nat, hi: nat, i: nat)
    requires Tiled(s, lo, hi) && i + 1 < |s|
    ensures End(s[i]) == s[i + 1].addr
  {
    TiledSplit(s, lo, hi, i);
    assert s[i + 1..][0] == s[i + 1];
  }

  /** The pointer to the free chunk after the run. */
  ghost function AfterRun(m: Mem, h: nat, s: seq<Chunk>, i: nat, e: nat): nat
    requires i < |s| && e <= |s|
  {
    if e == i + 2 then W(m, s[i + 1].addr + 8) else Follow(m, h, s[..i])
  }

  lemma ChainAfterRun(m: Mem, h: nat, s: seq<Chunk>, i: nat, a: nat, e: nat)
    requires Chain(m, h, s, 0) && MergeRun(s, i, a, e)
    ensures Chain(m, AfterRun(m, h, s, i, e), s[e..], 0)
    ensures e == i + 2 ==> Follow(m, h, s[..i]) == s[i + 1].addr
    ensures a < i ==> Follow(m, h, s[..a]) == s[a].addr && W(m, s[a].addr + 8) == Follow(m, h, s[..i])
  {
    hide Chain;
    ChainAt(m, h, s, i);
    if e == i + 2 {
      ChainAt(m, h, s, i + 1);
      FollowStep(m, h, s, i);
    }
    if a < i {
      ChainAt(m, h, s, a);
      FollowStep(m, h, s, a);
    }
  }

  lemma FollowStep(m: Mem, h: nat, s: seq<Chunk>, i: nat)
    requires i < |s|
    ensures Follow(m, h, s[..i + 1]) == if s[i].used then Follow(m, h, s[..i]) else W(m, s[i].addr + 8)
  {
    assert s[..i + 1] == s[..i] + [s[i]] && [s[i]][1..] == [];
    FollowConcat(m, h, s[..i], [s[i]]);
  }

  /** free: chunk i joins its free neighbours, if any, in one free chunk. */
  lemma FreeRun(m: Mem, h: nat, top: nat, s: seq<Chunk>, i: nat, a: nat, e: nat, m': Mem, h': nat)
    requires HeapOk(m, h, top, s) && MergeRun(s, i, a, e)
    requires var lo, hi := s[a].addr, End(s[e - 1]);
      && hi >= lo + HDR && ChangedIn(m, m', lo, hi, LastFree(s[..a])) && W(m', lo) == hi - lo - HDR
      && W(m', lo + 8) == AfterRun(m, h, s, i, e)
      && if LastFree(s[..a]) == 0 then h' == lo else h' == h && W(m', LastFree(s[..a]) + 8) == lo
    ensures s[a].addr + HDR <= End(s[e - 1])
    ensures HeapOk(m', h', top, s[..a] + [Chunk(s[a].addr, End(s[e - 1]) - s[a].addr - HDR, false)] + s[e..])
  {
    hide Chain, Tiled, Headers, Coalesced, ChangedIn;
    RunTiled(s, top, i, a, e);
    ChainAfterRun(m, h, s, i, a, e);
    var pre, mid, post, lo, hi := s[..a], s[a..e], s[e..], s[a].addr, End(s[e - 1]);
    assert s == pre + mid + post;
    var u := Chunk(lo, hi - lo - HDR, false);
    OneChunk(u, lo, m', lo);
    assert (pre != [] ==> pre[|pre| - 1].used) && (post != [] ==> post[0].used) by { RunEnds(s, i, a, e); }
    Rebuild(m, h, top, pre, mid, post, m', h', top, [u], lo, hi, lo, AfterRun(m, h, s, i, e));
  }

  lemma RunEnds(s: seq<Chunk>, i: nat, a: nat, e: nat)
    requires Coalesced(s) && MergeRun(s, i, a, e)
    ensures (a > 0 ==> s[a - 1].used) && (e < |s| ==> s[e].used)
  {
    if a < i { CoalescedAt(s, a); }
    if e == i + 2 { CoalescedAt(s, i + 1); }
  }

  /** realloc of the topmost chunk: arena_top moves. */
  lemma GrowTop(m: Mem, h: nat, top: nat, s: seq<Chunk>, want: nat, m': Mem)
    requires HeapOk(m, h, top, s) && s != [] && s[|s| - 1].used && want % ALIGN == 0 && want >= s[|s| - 1].size
    requires s[|s| - 1].addr + HDR + want <= ARENA_END && m' == m[s[|s| - 1].addr := want + 1]
    ensures var n := |s| - 1; HeapOk(m', h, s[n].addr + HDR + want, s[..n] + [s[n].(size := want)])
    ensures End(s[|s| - 1]) == top
  {
    hide Chain, Tiled, Headers, Coalesced;
    var n := |s| - 1;
    var pre, c := s[..n], s[n];
    assert s == pre + [c] + [] && s[n + 1..] == [];
    TiledSplit(s, ARENA_BASE, top, n);
    TiledEmpty(End(c), top);
    ChainAt(m, h, s, n);
    var f, u := Follow(m, h, pre), c.(size := want);
    LinkValue(m, h, pre, f, ARENA_BASE, c.addr);
    LastBelow(pre, ARENA_BASE, c.addr);
    OneChunk(u, c.addr, m', f);
    TiledNone(End(u));
    Rebuild(m, h, top, pre, [c], [], m', h, End(u), [u], c.addr, End(u), f, f);
    assert pre + [u] + [] == pre + [u];
  }

  lemma TiledEmpty(lo: nat, hi: nat)
    requires Tiled([], lo, hi)
    ensures lo == hi
  {
  }

  lemma TiledNone(lo: nat)
    ensures Tiled([], lo, lo)
  {
  }

  /** What the writes of a split leave in memory. */
  lemma AbsorbMem(m: Mem, h: nat, c: nat, n: nat, want: nat, ta: nat, left: nat, next: nat, prev: nat, m': Mem, h': nat)
    requires prev % ALIGN == 0 && c % ALIGN == 0 && prev < c && n < want && ta == c + HDR + want
    requires var r := Redirected(m[ta := left][ta + 8 := next], h, prev, ta); h' == r.1 && m' == r.0[c := want + 1]
    ensures ChangedIn(m, m', c, ta + HDR + left, prev) && W(m', c) == want + 1 && W(m', ta) == left
    ensures W(m', ta + 8) == next
    ensures (if prev == 0 then h' == ta else h' == h && W(m', prev + 8) == ta)
    ensures forall a :: c + HDR <= a < c + HDR + n ==> W(m', a) == W(m, a)
  {
  }

  /** What surrounds a used chunk and the free chunk after it. */
  lemma Around(m: Mem, h: nat, top: nat, s: seq<Chunk>, i: nat)
    requires HeapOk(m, h, top, s) && i + 1 < |s| && s[i].used && !s[i + 1].used
    ensures var c, d := s[i], s[i + 1];
      && Tiled(s[..i], ARENA_BASE, c.addr) && Tiled(s[i + 2..], End(d), top) && End(c) == d.addr && c.addr % ALIGN == 0
      && c.size > 0 && c.size % ALIGN == 0 && d.size > 0 && d.size % ALIGN == 0 && top <= ARENA_END
      && LastFree(s[..i]) < c.addr && LastFree(s[..i]) % ALIGN == 0
      && Chain(m, W(m, d.addr + 8), s[i + 2..], 0) && (i + 2 < |s| ==> s[i + 2].used)
  {
    hide Chain, Tiled, Headers, Coalesced;
    TiledSplit(s, ARENA_BASE, top, i);
    TiledSplit(s, ARENA_BASE, top, i + 1);
    TiledNext(s, ARENA_BASE, top, i);
    ChainAt(m, h, s, i + 1);
    CoalescedAt(s, i + 1);
    LastBelow(s[..i], ARENA_BASE, s[i].addr);
  }

  /** realloc absorbs the free chunk after chunk i and gives the tail back. */
  lemma AbsorbSplit(m: Mem, h: nat, top: nat, s: seq<Chunk>, i: nat, want: nat, m': Mem, h': nat)
    requires HeapOk(m, h, top, s) && i + 1 < |s| && s[i].used && !s[i + 1].used && want % ALIGN == 0 && s[i].size < want
    requires s[i].size + HDR + s[i + 1].size >= want + HDR + ALIGN
    requires var c, d := s[i], s[i + 1];
      var ta := c.addr + HDR + want;
      var r := Redirected(m[ta := c.size + d.size - want][ta + 8 := W(m, d.addr + 8)], h, LastFree(s[..i]), ta);
      h' == r.1 && m' == r.0[c.addr := want + 1]
    ensures var c, d := s[i], s[i + 1];
      && HeapOk(m', h', top,
                s[..i] + [c.(size := want), Chunk(c.addr + HDR + want, c.size + d.size - want, false)] + s[i + 2..])
      && ChangedIn(m, m', c.addr, End(d), LastFree(s[..i]))
      && forall a :: c.addr + HDR <= a < End(c) ==> W(m', a) == W(m, a)
  {
    hide HeapOk, Chain, Tiled, Headers, Coalesced;
    var pre, c, d, post := s[..i], s[i], s[i + 1], s[i + 2..];
    assert s == pre + [c, d] + post;
    Around(m, h, top, s, i);
    var ta := c.addr + HDR + want;
    var u, v := c.(size := want), Chunk(ta, c.size + d.size - want, false);
    AbsorbMem(m, h, c.addr, c.size, want, ta, c.size + d.size - want, W(m, d.addr + 8), LastFree(pre), m', h');
    hide ChangedIn, Redirected;
    TwoChunks(u, v, c.addr, m', ta);
    Rebuild(m, h, top, pre, [c, d], post, m', h', top, [u, v], c.addr, End(d), ta, W(m, d.addr + 8));
  }

  /** realloc absorbs all of the free chunk after chunk i. */
  lemma AbsorbWhole(m: Mem, h: nat, top: nat, s: seq<Chunk>, i: nat, m': Mem, h': nat)
    requires HeapOk(m, h, top, s) && i + 1 < |s| && s[i].used && !s[i + 1].used
    requires var c, d := s[i], s[i + 1];
      var r := Redirected(m, h, LastFree(s[..i]), W(m, d.addr + 8));
      h' == r.1 && m' == r.0[c.addr := c.size + HDR + d.size + 1]
    ensures var c, d := s[i], s[i + 1];
      && HeapOk(m', h', top, s[..i] + [c.(size := c.size + HDR + d.size)] + s[i + 2..])
      && ChangedIn(m, m', c.addr, End(d), LastFree(s[..i]))
      && forall a :: c.addr + HDR <= a < End(c) ==> W(m', a) == W(m, a)
  {
    hide Chain, Tiled, Headers, Coalesced;
    var pre, c, d, post := s[..i], s[i], s[i + 1], s[i + 2..];
    assert s == pre + [c, d] + post;
    Around(m, h, top, s, i);
    var u, y := c.(size := c.size + HDR + d.size), W(m, d.addr + 8);
    OneChunk(u, c.addr, m', y);
    Rebuild(m, h, top, pre, [c, d], post, m', h', top, [u], c.addr, End(d), y, y);
  }

  // ----- blocks ----------------------------------------------------------------------------

  ghost predicate SamePayload(m: Mem, m': Mem, c: Chunk) {
    forall a: nat :: c.addr + HDR <= a < End(c) ==> W(m', a) == W(m, a)
  }

  /** Chunks outside the changed run keep their payload, except the free chunk whose link moved. */
  lemma PayloadOutside(m: Mem, m': Mem, s: seq<Chunk>, top: nat, lo: nat, hi: nat, prev: nat, j: nat)
    requires Tiled(s, ARENA_BASE, top) && ChangedIn(m, m', lo, hi, prev) && j < |s|
    requires (End(s[j]) <= lo || hi <= s[j].addr)
    requires prev != 0 ==> exists i :: 0 <= i < |s| && s[i].addr == prev
    ensures SamePayload(m, m', s[j])
  {
    if prev != 0 {
      var i :| 0 <= i < |s| && s[i].addr == prev;
      TiledSplit(s, ARENA_BASE, top, i);
      if i < j { TiledApart(s, ARENA_BASE, top, i, j); } else if j < i { TiledApart(s, ARENA_BASE, top, j, i); }
    }
  }
}
