/**
 The 32-slot LRU buffer cache over a disk of atomically written blocks. `view` is the
 flat block array its clients see; `trace` is every block write issued, in order.
 */
module BufferCache {
  import opened Bytes
  import opened LogSpec
  import opened Lru

  const NBUF := 32

  datatype Buf = Buf(valid: bool, dirty: bool, refcnt: nat, blockno: nat, data: Block)

  // ----- counting pinned and dirty buffers -----------------------------------

  ghost function PinSet(bufs: seq<Buf>): set<nat> { set i | 0 <= i < |bufs| && bufs[i].refcnt > 0 }

  /** All pins together. */
  ghost function Held(bufs: seq<Buf>): nat {
    if bufs == [] then 0 else Held(bufs[..|bufs| - 1]) + bufs[|bufs| - 1].refcnt
  }

  lemma {:induction false} HeldUpdate(bufs: seq<Buf>, i: nat, buf: Buf)
    requires i < |bufs|
    ensures Held(bufs[i := buf]) == Held(bufs) - bufs[i].refcnt + buf.refcnt
  {
    var n := |bufs| - 1;
    if i == n {
      assert bufs[i := buf][..n] == bufs[..n];
    } else {
      HeldUpdate(bufs[..n], i, buf);
      assert bufs[i := buf][..n] == bufs[..n][i := buf];
    }
  }

  lemma {:induction false} NoneHeld(bufs: seq<Buf>)
    requires forall i :: 0 <= i < |bufs| ==> bufs[i].refcnt == 0
    ensures Held(bufs) == 0
  {
    if bufs != [] { NoneHeld(bufs[..|bufs| - 1]); }
  }

  lemma {:induction false} PinBound(bufs: seq<Buf>)
    ensures |PinSet(bufs)| <= Held(bufs)
  {
    if bufs != [] {
      var n := |bufs| - 1;
      PinBound(bufs[..n]);
      assert PinSet(bufs) == PinSet(bufs[..n]) + if bufs[n].refcnt > 0 then {n} else {};
    }
  }

  ghost function Upto(n: nat): (r: set<nat>)
    ensures |r| == n && forall i :: i in r <==> 0 <= i < n
  {
    if n == 0 then {} else Upto(n - 1) + {n - 1}
  }

  lemma {:induction false} CardSubset(a: set<nat>, b: set<nat>)
    requires a <= b
    ensures |a| <= |b|
  {
    if a != {} {
      var x :| x in a;
      CardSubset(a - {x}, b - {x});
    }
  }

  /** Fewer than NBUF of the buffers are in either set, so some buffer is in neither. */
  lemma SomeOutside(a: set<nat>, b: set<nat>) returns (i: nat)
    requires |a| + |b| < NBUF
    ensures i < NBUF && i !in a && i !in b
  {
    var all := Upto(NBUF);
    if all <= a + b { CardSubset(all, a + b); }
    i :| i in all && i !in a + b;
  }

  // ----- cache, log and disk agree -------------------------------------------

  /** `at` is the inverse of blockno on the valid buffers; they hold what clients see. */
  ghost predicate CacheOk(bufs: seq<Buf>, view: Disk, at: map<nat, nat>) {
    && |bufs| == NBUF
    && (forall i :: 0 <= i < |bufs| && bufs[i].valid ==>
          && bufs[i].blockno < |view| && bufs[i].data == view[bufs[i].blockno]
          && bufs[i].blockno in at && at[bufs[i].blockno] == i)
    && (forall b :: b in at ==> at[b] < |bufs| && bufs[at[b]].valid && bufs[at[b]].blockno == b)
  }

  /** Dirty buffers are exactly those of the pending blocks. */
  ghost predicate PendOk(bufs: seq<Buf>, at: map<nat, nat>, pend: set<nat>) {
    && (forall b :: b in pend ==> b in at)
    && (forall i :: 0 <= i < |bufs| ==> (bufs[i].dirty <==> bufs[i].valid && bufs[i].blockno in pend))
  }

  /** Blocks changed in a held buffer and not yet logged or written. */
  ghost predicate RawOk(bufs: seq<Buf>, at: map<nat, nat>, raw: set<nat>) {
    forall b :: b in raw ==> b in at && at[b] < |bufs| && bufs[at[b]].refcnt > 0
  }

  ghost predicate BufsOk(bufs: seq<Buf>, view: Disk, at: map<nat, nat>, pend: set<nat>, raw: set<nat>) {
    CacheOk(bufs, view, at) && PendOk(bufs, at, pend) && RawOk(bufs, at, raw)
  }

  /** Only those blocks may differ from the disk. */
  ghost predicate ViewOk(disk: Disk, view: Disk, pend: set<nat>, raw: set<nat>) {
    |view| == |disk| && forall b :: 0 <= b < |disk| && b !in pend && b !in raw ==> view[b] == disk[b]
  }

  ghost predicate Cached(bufs: seq<Buf>, b: nat) {
    exists i :: 0 <= i < |bufs| && bufs[i].valid && bufs[i].blockno == b
  }

  /** `at` after buffer i is given to block b. */
  ghost function Refill(bufs: seq<Buf>, at: map<nat, nat>, i: nat, b: nat): map<nat, nat>
    requires i < |bufs|
  {
    (if bufs[i].valid then at - {bufs[i].blockno} else at)[b := i]
  }

  /** Buffers held or logged stay what they are; only pin counts may grow. */
  ghost predicate Keeps(was: seq<Buf>, bufs: seq<Buf>) {
    |was| == |bufs| && forall j :: 0 <= j < |bufs| && (was[j].refcnt > 0 || was[j].dirty) ==>
      bufs[j] == was[j].(refcnt := bufs[j].refcnt) && was[j].refcnt <= bufs[j].refcnt
  }

  ghost predicate SameOn(keys: set<nat>, m: map<nat, nat>, n: map<nat, nat>) {
    forall k :: k in keys ==> k in m && k in n && m[k] == n[k]
  }

  /** A buffer nobody holds or has logged may be given to an uncached block. */
  lemma RefillOk(bufs: seq<Buf>, view: Disk, at: map<nat, nat>, pend: set<nat>, raw: set<nat>, i: nat, b: nat)
    requires BufsOk(bufs, view, at, pend, raw) && i < |bufs| && bufs[i].refcnt == 0 && !bufs[i].dirty
    requires b < |view| && !Cached(bufs, b)
    ensures b !in at && b !in pend && b !in raw
    ensures SameOn(pend, at, Refill(bufs, at, i, b))
    ensures BufsOk(bufs[i := Buf(true, false, 1, b, view[b])], view, Refill(bufs, at, i, b), pend, raw)
  {
  }

  lemma RepinOk(bufs: seq<Buf>, view: Disk, at: map<nat, nat>, pend: set<nat>, raw: set<nat>, i: nat, n: nat)
    requires BufsOk(bufs, view, at, pend, raw) && i < |bufs|
    requires n == 0 && bufs[i].valid ==> bufs[i].blockno !in raw
    ensures BufsOk(bufs[i := bufs[i].(refcnt := n)], view, at, pend, raw)
  {
  }

  lemma ChangedOk(bufs: seq<Buf>, view: Disk, at: map<nat, nat>, pend: set<nat>, raw: set<nat>, i: nat, data: Block)
    requires BufsOk(bufs, view, at, pend, raw) && i < |bufs| && bufs[i].valid && bufs[i].refcnt > 0
    ensures var b := bufs[i].blockno;
            BufsOk(bufs[i := bufs[i].(data := data)], view[b := data], at, pend, raw + {b})
  {
  }

  lemma LoggedOk(bufs: seq<Buf>, view: Disk, at: map<nat, nat>, pend: set<nat>, raw: set<nat>, i: nat)
    requires BufsOk(bufs, view, at, pend, raw) && i < |bufs| && bufs[i].valid
    ensures var b := bufs[i].blockno;
            BufsOk(bufs[i := bufs[i].(dirty := true)], view, at, pend + {b}, raw - {b})
  {
  }

  lemma CleanedOk(bufs: seq<Buf>, view: Disk, at: map<nat, nat>, pend: set<nat>, raw: set<nat>, i: nat)
    requires BufsOk(bufs, view, at, pend, raw) && i < |bufs| && bufs[i].valid
    ensures var b := bufs[i].blockno;
            && BufsOk(bufs[i := bufs[i].(dirty := false)], view, at, pend - {b}, raw - {b})
            && (bufs[i].dirty <==> b in pend)
  {
  }

  /** bget's victim: nothing colder than it on the LRU list could have been evicted. */
  ghost predicate Coldest(bufs: seq<Buf>, lru: seq<nat>, i: nat, lru': seq<nat>) {
    exists k :: 0 <= k < |lru| && lru[k] == i && lru' == MoveToFront(lru, k)
      && forall m :: k < m < |lru| && lru[m] < |bufs| ==> bufs[lru[m]].refcnt > 0 || bufs[lru[m]].dirty
  }

  ghost function DirtySet(bufs: seq<Buf>): set<nat> { set i | 0 <= i < |bufs| && bufs[i].dirty }

  ghost function ImageOf(at: map<nat, nat>, pend: set<nat>): set<nat>
    requires pend <= at.Keys
  {
    set b | b in pend :: at[b]
  }

  lemma {:induction false} ImageCard(at: map<nat, nat>, pend: set<nat>)
    requires pend <= at.Keys
    ensures |ImageOf(at, pend)| <= |pend|
  {
    if pend != {} {
      var x :| x in pend;
      ImageCard(at, pend - {x});
      assert ImageOf(at, pend) == ImageOf(at, pend - {x}) + {at[x]};
    } else {
      assert ImageOf(at, pend) == {};
    }
  }

  lemma DirtyBound(bufs: seq<Buf>, view: Disk, at: map<nat, nat>, pend: set<nat>)
    requires CacheOk(bufs, view, at) && PendOk(bufs, at, pend)
    ensures |DirtySet(bufs)| <= |pend|
  {
    ImageCard(at, pend);
    CardSubset(DirtySet(bufs), ImageOf(at, pend));
  }

  /** Proof state beside the cache. */
  datatype Shadow = Shadow(
    view: Disk,             // the flat array clients see
    trace: seq<Write>,      // every block write issued, in order
    at: map<nat, nat>,      // cached block -> its buffer
    pend: set<nat>,         // blocks marked dirty: logged, not yet written home
    raw: set<nat>,          // blocks changed in a held buffer, not yet logged
    held: int)              // pins on all buffers

  class Bio {
    var disk: Disk
    var bufs: seq<Buf>
    var lru: seq<nat>         // most recently used first
    ghost var g: Shadow

    ghost predicate Valid()
      reads this
    {
      var coherent :=
        && IsOrder(lru, NBUF) && BufsOk(bufs, g.view, g.at, g.pend, g.raw) && g.held == Held(bufs)
        && ViewOk(disk, g.view, g.pend, g.raw);
      coherent
    }

    /** bget panics in every other state. */
    ghost predicate CanBread(b: nat)
      reads this
    {
      || Cached(bufs, b)
      || (exists i :: 0 <= i < |bufs| && bufs[i].refcnt == 0 && !bufs[i].dirty)
    }

    /** With dirty and pinned buffers fewer than the cache has, a clean buffer is free. */
    lemma NoFreeBufferPanic(b: nat)
      requires Valid() && |g.pend| + g.held < NBUF
      ensures CanBread(b)
    {
      DirtyBound(bufs, g.view, g.at, g.pend);
      PinBound(bufs);
      var i := SomeOutside(DirtySet(bufs), PinSet(bufs));
      assert bufs[i].refcnt == 0 && !bufs[i].dirty;
    }

    /** binit: nothing cached. */
    constructor (d: Disk)
      ensures Valid() && disk == d && g == Shadow(d, [], map[], {}, {}, 0)
    {
      disk := d;
      bufs := seq(NBUF, i => Buf(false, false, 0, 0, ZeroBlock()));
      lru := seq(NBUF, i => i);
      g := Shadow(d, [], map[], {}, {}, 0);
      new;
      forall i | 0 <= i < NBUF ensures i in lru { assert lru[i] == i; }
      NoneHeld(bufs);
    }

    /** bget: hit, else the least recently used clean unpinned buffer; -1 stands for the panic. */
    method Bget(b: nat) returns (i: int)
      requires Valid() && b < |disk|
      modifies this`bufs, this`lru
      ensures i == -1 <==> !old(CanBread(b))
      ensures i == -1 ==> bufs == old(bufs) && lru == old(lru)
      ensures i != -1 ==> 0 <= i < NBUF && IsOrder(lru, NBUF)
      ensures i != -1 && old(bufs[i].valid && bufs[i].blockno == b) ==>
                lru == old(lru) && bufs == old(bufs)[i := old(bufs[i]).(refcnt := old(bufs[i].refcnt) + 1)]
      ensures i != -1 && !old(bufs[i].valid && bufs[i].blockno == b) ==>
                && !Cached(old(bufs), b) && old(bufs[i].refcnt == 0 && !bufs[i].dirty)
                && bufs == old(bufs)[i := old(bufs[i]).(blockno := b, valid := false, refcnt := 1)]
                && Coldest(old(bufs), old(lru), i, lru)
    {
      var k := 0;
      while k < |lru|
        invariant 0 <= k <= |lru|
        invariant forall m :: 0 <= m < k ==> !(bufs[lru[m]].valid && bufs[lru[m]].blockno == b)
        invariant bufs == old(bufs) && lru == old(lru)
      {
        i := lru[k];
        if bufs[i].blockno == b && bufs[i].valid {
          bufs := bufs[i := bufs[i].(refcnt := bufs[i].refcnt + 1)];
          return;
        }
        k := k + 1;
      }
      forall j | 0 <= j < NBUF ensures !(bufs[j].valid && bufs[j].blockno == b) { assert j in lru; }
      k := |lru|;
      while k > 0
        invariant 0 <= k <= |lru|
        invariant forall m :: k <= m < |lru| ==> bufs[lru[m]].refcnt > 0 || bufs[lru[m]].dirty
        invariant bufs == old(bufs) && lru == old(lru)
      {
        k := k - 1;
        i := lru[k];
        if bufs[i].refcnt == 0 && !bufs[i].dirty {
          bufs := bufs[i := bufs[i].(blockno := b, valid := false, refcnt := 1)];
          MoveToFrontOk(lru, NBUF, k);
          lru := MoveToFront(lru, k);
          return;
        }
      }
      forall j | 0 <= j < NBUF ensures bufs[j].refcnt > 0 || bufs[j].dirty { assert j in lru; }
      i := -1;
    }

    /** bread: a pinned buffer holding the current contents of block b. */
    method Bread(b: nat) returns (i: nat)
      requires Valid() && b < |disk| && CanBread(b)
      modifies this`bufs, this`lru, this`g
      ensures Valid() && g == old(g).(at := g.at, held := old(g.held) + 1)
      ensures i < NBUF && bufs[i].valid && bufs[i].blockno == b && bufs[i].data == g.view[b]
      ensures bufs == old(bufs)[i := bufs[i]] && bufs[i].refcnt == old(bufs[i].refcnt) + 1
      ensures Keeps(old(bufs), bufs)
      ensures SameOn(g.pend, old(g.at), g.at)
      ensures bufs[i].dirty <==> b in g.pend
    {
      i := Bget(b);
      if bufs[i].valid {
        RepinOk(old(bufs), g.view, g.at, g.pend, g.raw, i, bufs[i].refcnt);
        g := g.(held := g.held + 1);
      } else {
        RefillOk(old(bufs), g.view, g.at, g.pend, g.raw, i, b);
        g := g.(at := Refill(old(bufs), g.at, i, b), held := g.held + 1);
        bufs := bufs[i := bufs[i].(data := disk[b], valid := true)];
        assert bufs == old(bufs)[i := Buf(true, false, 1, b, g.view[b])];
      }
      HeldUpdate(old(bufs), i, bufs[i]);
    }

    /** A client assigns to b->data of a buffer it holds. */
    method SetData(i: nat, data: Block)
      requires Valid() && i < NBUF && bufs[i].valid && bufs[i].refcnt > 0
      modifies this`bufs, this`g
      ensures Valid()
      ensures bufs == old(bufs)[i := old(bufs[i]).(data := data)]
      ensures var b := old(bufs[i].blockno); g == old(g).(view := old(g.view)[b := data], raw := old(g.raw) + {b})
    {
      ChangedOk(bufs, g.view, g.at, g.pend, g.raw, i, data);
      HeldUpdate(bufs, i, bufs[i].(data := data));
      var b := bufs[i].blockno;
      g := g.(view := g.view[b := data], raw := g.raw + {b});
      bufs := bufs[i := bufs[i].(data := data)];
    }

    /** log_write's b->dirty = 1: from here on the buffer is not evicted. */
    method MarkDirty(i: nat)
      requires Valid() && i < NBUF && bufs[i].valid
      modifies this`bufs, this`g
      ensures Valid()
      ensures bufs == old(bufs)[i := old(bufs[i]).(dirty := true)]
      ensures var b := old(bufs[i].blockno); g == old(g).(pend := old(g.pend) + {b}, raw := old(g.raw) - {b})
    {
      LoggedOk(bufs, g.view, g.at, g.pend, g.raw, i);
      HeldUpdate(bufs, i, bufs[i].(dirty := true));
      var b := bufs[i].blockno;
      g := g.(pend := g.pend + {b}, raw := g.raw - {b});
      bufs := bufs[i := bufs[i].(dirty := true)];
    }

    /** brelse: unpin; the last unpin moves the buffer to the front of the LRU list. */
    method Brelse(i: nat)
      requires Valid() && i < NBUF && bufs[i].refcnt > 0
      requires bufs[i].refcnt == 1 && bufs[i].valid ==> bufs[i].blockno !in g.raw
      modifies this`bufs, this`lru, this`g
      ensures Valid() && g == old(g).(held := old(g.held) - 1)
      ensures bufs == old(bufs)[i := old(bufs[i]).(refcnt := old(bufs[i].refcnt) - 1)]
      ensures old(bufs[i].refcnt) > 1 ==> lru == old(lru)
      ensures old(bufs[i].refcnt) == 1 ==>
        exists k :: 0 <= k < |old(lru)| && old(lru)[k] == i && lru == MoveToFront(old(lru), k)
    {
      RepinOk(bufs, g.view, g.at, g.pend, g.raw, i, bufs[i].refcnt - 1);
      HeldUpdate(bufs, i, bufs[i].(refcnt := bufs[i].refcnt - 1));
      g := g.(held := g.held - 1);
      bufs := bufs[i := bufs[i].(refcnt := bufs[i].refcnt - 1)];
      if bufs[i].refcnt == 0 {
        var k := IndexOf(lru, i);
        MoveToFrontOk(lru, NBUF, k);
        lru := MoveToFront(lru, k);
      }
    }

    /** bwrite: the buffer goes to the disk now. */
    method Bwrite(i: nat)
      requires Valid() && i < NBUF && bufs[i].valid && bufs[i].refcnt > 0
      modifies this`disk, this`bufs, this`g
      ensures Valid()
      ensures disk == old(disk)[old(bufs[i].blockno) := old(bufs[i].data)]
      ensures bufs == old(bufs)[i := old(bufs[i]).(dirty := false)]
      ensures var b := old(bufs[i].blockno);
              g == old(g).(trace := old(g.trace) + [Write(b, old(bufs[i].data))],
                           raw := old(g.raw) - {b}, pend := old(g.pend) - {b})
    {
      var b := bufs[i].blockno;
      CleanedOk(bufs, g.view, g.at, g.pend, g.raw, i);
      HeldUpdate(bufs, i, bufs[i].(dirty := false));
      g := g.(trace := g.trace + [Write(b, bufs[i].data)], raw := g.raw - {b}, pend := g.pend - {b});
      disk := disk[b := bufs[i].data];
      bufs := bufs[i := bufs[i].(dirty := false)];
    }

    /** memcpy into a held buffer, then bwrite. */
    method WriteThrough(i: nat, data: Block)
      requires Valid() && i < NBUF && bufs[i].valid && bufs[i].refcnt > 0
      modifies this`disk, this`bufs, this`g
      ensures Valid()
      ensures bufs == old(bufs)[i := old(bufs[i]).(data := data, dirty := false)]
      ensures var b := old(bufs[i].blockno);
              && disk == old(disk)[b := data]
              && g == old(g).(view := old(g.view)[b := data], trace := old(g.trace) + [Write(b, data)],
                              raw := old(g.raw) - {b}, pend := old(g.pend) - {b})
    {
      SetData(i, data);
      Bwrite(i);
    }

    /** WriteThrough, then brelse. */
    method WriteAndRelease(i: nat, data: Block)
      requires Valid() && i < NBUF && bufs[i].valid && bufs[i].refcnt > 0
      modifies this
      ensures Valid()
      ensures var b := old(bufs[i].blockno);
              && disk == old(disk)[b := data]
              && g == old(g).(view := old(g.view)[b := data], trace := old(g.trace) + [Write(b, data)],
                              raw := old(g.raw) - {b}, pend := old(g.pend) - {b}, held := old(g.held) - 1)
      ensures bufs == old(bufs)[i := old(bufs[i]).(data := data, dirty := false, refcnt := old(bufs[i].refcnt) - 1)]
    {
      WriteThrough(i, data);
      Brelse(i);
    }
  }
}
