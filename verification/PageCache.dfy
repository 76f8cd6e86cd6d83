/** The page cache and the reads that go through it: whatever is cached or evicted, readers see the file. */
module PageCache {
  import opened Bytes
  import opened Lru

  const NSLOTS := 64
  const PGSZ := 4096
  const ENOMEM := 12
  const EIO := 5
  const U64 := 0x1_0000_0000_0000_0000

  /** ip 0 is the null pointer: the slot caches nothing. */
  datatype Slot = Slot(ip: nat, pgidx: nat, refcnt: nat, dirty: bool, page: seq<byte>)

  type Files = map<nat, seq<byte>>

  /** Page pgidx of a file, zero-filled past its end: what readpage delivers. */
  function PageOf(f: seq<byte>, pgidx: nat): (p: seq<byte>)
    ensures |p| == PGSZ
    ensures forall k :: 0 <= k < PGSZ ==> p[k] == if PGSZ * pgidx + k < |f| then f[PGSZ * pgidx + k] else 0
  {
    seq(PGSZ, k requires 0 <= k < PGSZ => if PGSZ * pgidx + k < |f| then f[PGSZ * pgidx + k] else 0)
  }

  /** The part of the page below the file's size goes back into the file: what a successful writeback does. */
  function WriteBack(f: seq<byte>, pgidx: nat, page: seq<byte>): (g: seq<byte>)
    requires |page| == PGSZ
    ensures |g| == |f| && forall o :: 0 <= o < |f| ==> g[o] == if o / PGSZ == pgidx then page[o % PGSZ] else f[o]
  {
    seq(|f|, o requires 0 <= o < |f| => if o / PGSZ == pgidx then page[o % PGSZ] else f[o])
  }

  ghost predicate KeysUnique(s: seq<Slot>) {
    forall i, j :: 0 <= i < |s| && 0 <= j < |s| && s[i].ip != 0 && s[i].ip == s[j].ip && s[i].pgidx == s[j].pgidx ==>
      i == j
  }

  /** A slot's page is a page; a clean slot holds what the file holds. */
  ghost predicate SlotOk(x: Slot, files: Files) {
    |x.page| == PGSZ && (x.ip != 0 ==> x.ip in files && (!x.dirty ==> x.page == PageOf(files[x.ip], x.pgidx)))
  }

  ghost predicate SlotsOk(s: seq<Slot>, files: Files) {
    |s| == NSLOTS && KeysUnique(s) && forall i :: 0 <= i < |s| ==> SlotOk(s[i], files)
  }

  predicate IsKey(x: Slot, ip: nat, pgidx: nat) { x.ip == ip && x.pgidx == pgidx }

  /** The first slot from i on that caches page pgidx of ip; |s| if there is none. */
  ghost function SlotOf(s: seq<Slot>, ip: nat, pgidx: nat, i: nat): (r: nat)
    requires i <= |s|
    ensures i <= r <= |s| && (forall j :: i <= j < r ==> !IsKey(s[j], ip, pgidx))
    ensures (r < |s| ==> IsKey(s[r], ip, pgidx))
    decreases |s| - i
  {
    if i == |s| || IsKey(s[i], ip, pgidx) then i else SlotOf(s, ip, pgidx, i + 1)
  }

  ghost predicate PagesSized(s: seq<Slot>) { forall i :: 0 <= i < |s| ==> |s[i].page| == PGSZ }

  /** Byte o of file ip as a reader sees it: the cached page's, or else the file's. */
  ghost function Logical(s: seq<Slot>, files: Files, ip: nat, o: nat): byte
    requires ip in files && o < |files[ip]| && PagesSized(s)
  {
    var i := SlotOf(s, ip, o / PGSZ, 0);
    if i < |s| then s[i].page[o % PGSZ] else files[ip][o]
  }

  /** No reader can tell the difference. */
  ghost predicate SameBytes(s: seq<Slot>, files: Files, s': seq<Slot>, files': Files)
    requires PagesSized(s) && PagesSized(s')
  {
    && files'.Keys == files.Keys
    && (forall ip :: ip in files ==> |files'[ip]| == |files[ip]|)
    && (forall ip, o: nat :: ip in files && o < |files[ip]| ==> Logical(s', files', ip, o) == Logical(s, files, ip, o))
  }

  lemma SameThen(s: seq<Slot>, f: Files, t: seq<Slot>, g: Files, u: seq<Slot>, h: Files)
    requires PagesSized(s) && PagesSized(t) && PagesSized(u) && SameBytes(s, f, t, g) && SameBytes(t, g, u, h)
    ensures SameBytes(s, f, u, h)
  {
    hide Logical;
  }

  lemma SameSelf(s: seq<Slot>, f: Files)
    requires PagesSized(s)
    ensures SameBytes(s, f, s, f)
  {
  }

  /** A clean slot and the file agree, so the cache does not matter. */
  lemma CleanByte(s: seq<Slot>, files: Files, ip: nat, o: nat)
    requires SlotsOk(s, files) && ip in files && o < |files[ip]| && ip != 0 && PagesSized(s)
    requires forall i :: 0 <= i < |s| && IsKey(s[i], ip, o / PGSZ) ==> !s[i].dirty
    ensures Logical(s, files, ip, o) == files[ip][o]
  {
    assert PGSZ * (o / PGSZ) + o % PGSZ == o;
  }

  // ----- steps ---------------------------------------------------------------------------

  /** One slot changed from x to y; whoever is not looking at either page sees no change. */
  lemma OtherBytes(s: seq<Slot>, i: nat, t: seq<Slot>, ip: nat, g: nat)
    requires KeysUnique(s) && KeysUnique(t) && i < |s| == |t| && ip != 0
    requires (forall j :: 0 <= j < |s| && j != i ==> t[j] == s[j])
    requires !IsKey(s[i], ip, g) && !IsKey(t[i], ip, g)
    ensures SlotOf(t, ip, g, 0) == SlotOf(s, ip, g, 0) != i
  {
    var a, b := SlotOf(s, ip, g, 0), SlotOf(t, ip, g, 0);
    if a < |s| { assert IsKey(t[a], ip, g); }
    if b < |t| { assert IsKey(s[b], ip, g); }
  }

  /** Counting references changes nothing a reader can see. */
  lemma PinBytes(s: seq<Slot>, files: Files, i: nat, x: Slot)
    requires SlotsOk(s, files) && 0 !in files && i < |s| && x == s[i].(refcnt := x.refcnt)
    ensures SlotsOk(s[i := x], files) && PagesSized(s) && PagesSized(s[i := x]) && SameBytes(s, files, s[i := x], files)
  {
    var t := s[i := x];
    forall ip, o: nat | ip in files && o < |files[ip]| ensures Logical(t, files, ip, o) == Logical(s, files, ip, o) {
      var a, b := SlotOf(s, ip, o / PGSZ, 0), SlotOf(t, ip, o / PGSZ, 0);
      if a < |s| { assert IsKey(t[a], ip, o / PGSZ); }
      if b < |t| { assert IsKey(s[b], ip, o / PGSZ); }
    }
  }

  /** Forgetting a clean slot changes nothing a reader can see. */
  lemma DropBytes(s: seq<Slot>, files: Files, i: nat, x: Slot)
    requires SlotsOk(s, files) && 0 !in files && i < |s| && (s[i].ip == 0 || !s[i].dirty) && x.ip == 0
    requires |x.page| == PGSZ
    ensures SlotsOk(s[i := x], files) && PagesSized(s) && PagesSized(s[i := x]) && SameBytes(s, files, s[i := x], files)
  {
    var t := s[i := x];
    forall ip, o: nat | ip in files && o < |files[ip]| ensures Logical(t, files, ip, o) == Logical(s, files, ip, o) {
      var g := o / PGSZ;
      if IsKey(s[i], ip, g) {
        CleanByte(s, files, ip, o);
        var b := SlotOf(t, ip, g, 0);
        if b < |t| { assert false; }
      } else {
        OtherBytes(s, i, t, ip, g);
      }
    }
  }

  /** Filling an empty slot with the file's own page changes nothing a reader can see. */
  lemma FillBytes(s: seq<Slot>, files: Files, i: nat, x: Slot)
    requires SlotsOk(s, files) && 0 !in files && i < |s| && s[i].ip == 0 && x.ip in files
    requires SlotOf(s, x.ip, x.pgidx, 0) == |s|
    requires !x.dirty && x.page == PageOf(files[x.ip], x.pgidx)
    ensures SlotsOk(s[i := x], files) && PagesSized(s) && PagesSized(s[i := x]) && SameBytes(s, files, s[i := x], files)
  {
    var t := s[i := x];
    forall ip, o: nat | ip in files && o < |files[ip]| ensures Logical(t, files, ip, o) == Logical(s, files, ip, o) {
      var g := o / PGSZ;
      if IsKey(x, ip, g) {
        CleanByte(t, files, ip, o);
      } else {
        OtherBytes(s, i, t, ip, g);
      }
    }
  }

  /** Writing a dirty page back and then forgetting it changes nothing a reader can see. */
  lemma FlushBytes(s: seq<Slot>, files: Files, i: nat, x: Slot, files': Files)
    requires SlotsOk(s, files) && 0 !in files && i < |s| && s[i].ip != 0 && x.ip == 0 && |x.page| == PGSZ
    requires files' == files[s[i].ip := WriteBack(files[s[i].ip], s[i].pgidx, s[i].page)]
    ensures SlotsOk(s[i := x], files') && PagesSized(s) && PagesSized(s[i := x])
    ensures SameBytes(s, files, s[i := x], files')
  {
    var t := s[i := x];
    forall j | 0 <= j < |t| ensures SlotOk(t[j], files') {
      if j != i && s[j].ip == s[i].ip { OtherPage(files[s[i].ip], s[i].pgidx, s[i].page, s[j].pgidx); }
    }
    forall ip, o: nat | ip in files && o < |files[ip]| ensures Logical(t, files', ip, o) == Logical(s, files, ip, o) {
      var g := o / PGSZ;
      if IsKey(s[i], ip, g) {
        var a, b := SlotOf(s, ip, g, 0), SlotOf(t, ip, g, 0);
        if b < |t| { assert false; }
      } else {
        OtherBytes(s, i, t, ip, g);
      }
    }
  }

  /** A writeback of one page leaves the others. */
  lemma OtherPage(f: seq<byte>, g: nat, page: seq<byte>, h: nat)
    requires |page| == PGSZ && g != h
    ensures PageOf(WriteBack(f, g, page), h) == PageOf(f, h)
  {
    forall k | 0 <= k < PGSZ ensures PageOf(WriteBack(f, g, page), h)[k] == PageOf(f, h)[k] {
      assert (PGSZ * h + k) / PGSZ == h;
    }
  }

  /** Dirty pages belong to files that can be written back. */
  ghost predicate DirtyFlushable(s: seq<Slot>, flushable: set<nat>) {
    forall i :: 0 <= i < |s| && s[i].dirty ==> s[i].ip in flushable && s[i].ip != 0
  }

  predicate Idle(x: Slot) { x.refcnt == 0 && !x.dirty }

  predicate Victim(x: Slot) { x.refcnt == 0 && x.dirty }

  /** The slot is empty but for its page buffer. */
  function Emptied(x: Slot): Slot { x.(ip := 0, pgidx := 0, dirty := false) }

  class Cache {
    var slots: seq<Slot>
    var lru: seq<nat>          // most recently used first
    var files: Files           // the backing store
    const flushable: set<nat>  // inodes whose file system has a writeback operation

    ghost predicate Valid()
      reads this
    {
      var ok := SlotsOk(slots, files) && 0 !in files && 0 !in flushable && IsOrder(lru, NSLOTS);
      ok
    }

    /** pcache_init, over the files of a mounted file system. */
    constructor (fs: Files, ops: set<nat>)
      requires 0 !in fs && 0 !in ops
      ensures Valid() && files == fs && flushable == ops
      ensures forall i :: 0 <= i < |slots| ==> slots[i].ip == 0 && !slots[i].dirty
    {
      slots := seq(NSLOTS, i => Slot(0, 0, 0, false, seq(PGSZ, k => 0)));
      lru := seq(NSLOTS, i requires 0 <= i < NSLOTS => i);
      files, flushable := fs, ops;
      new;
      forall i: nat | i < NSLOTS ensures i in lru { assert lru[i] == i; }
    }

    /** pcache_lookup, in LRU order: the slot for a page, or -1. */
    method Lookup(ip: nat, pgidx: nat) returns (r: int)
      requires Valid() && ip != 0
      ensures -1 <= r < |slots|
      ensures r >= 0 ==> IsKey(slots[r], ip, pgidx) && SlotOf(slots, ip, pgidx, 0) == r
      ensures r < 0 ==> SlotOf(slots, ip, pgidx, 0) == |slots|
    {
      hide SlotOf;
      var k := 0;
      while k < |lru|
        invariant 0 <= k <= |lru| && forall j :: 0 <= j < k ==> !IsKey(slots[lru[j]], ip, pgidx)
      {
        if IsKey(slots[lru[k]], ip, pgidx) {
          OnlySlot(slots, ip, pgidx, lru[k]);
          return lru[k];
        }
        k := k + 1;
      }
      forall i: nat | i < |slots| ensures !IsKey(slots[i], ip, pgidx) { assert i in lru; }
      NoSlot(slots, ip, pgidx);
      r := -1;
    }

    /** The first pass of pcache_evict: the least recently used slot that is clean and unpinned, or -1. */
    method CleanVictim() returns (r: int)
      requires Valid()
      ensures -1 <= r < |slots| && (r >= 0 ==> Idle(slots[r]))
      ensures r < 0 ==> forall i :: 0 <= i < |slots| ==> !Idle(slots[i])
      ensures r >= 0 ==> exists k :: 0 <= k < |lru| && lru[k] == r && forall j :: k < j < |lru| ==> !Idle(slots[lru[j]])
    {
      var k := |lru|;
      while k > 0
        invariant 0 <= k <= |lru| && forall j :: k <= j < |lru| ==> !Idle(slots[lru[j]])
      {
        k := k - 1;
        if Idle(slots[lru[k]]) { return lru[k]; }
      }
      forall i: nat | i < |slots| ensures !Idle(slots[i]) { assert i in lru; }
      r := -1;
    }

    /**
     pcache_evict: a slot to reuse, emptied; -1 when every slot is pinned or cannot be written back now. A dirty
     slot whose file can be written back is given up only after a successful writeback; `failing` names the slots
     whose writeback would fail.
     */
    method Evict(failing: set<nat>) returns (r: int)
      requires Valid()
      modifies this`slots, this`files
      ensures Valid() && PagesSized(old(slots)) && PagesSized(slots) && -1 <= r < |slots| && |slots| == |old(slots)|
      ensures r < 0 ==> slots == old(slots) && files == old(files)
      ensures r < 0 <==> forall i :: 0 <= i < |old(slots)| ==>
        old(slots)[i].refcnt > 0 || (old(slots)[i].dirty && old(slots)[i].ip in flushable && i in failing)
      ensures r >= 0 ==> old(slots)[r].refcnt == 0 && slots == old(slots)[r := Emptied(old(slots)[r])]
      ensures r >= 0 && old(slots)[r].dirty && old(slots)[r].ip in flushable ==>
        r !in failing && old(slots)[r].ip in old(files) && files == old(files)[old(slots)[r].ip :=
          WriteBack(old(files)[old(slots)[r].ip], old(slots)[r].pgidx, old(slots)[r].page)]
      ensures r >= 0 && !(old(slots)[r].dirty && old(slots)[r].ip in flushable) ==> files == old(files)
      ensures DirtyFlushable(old(slots), flushable) ==> SameBytes(old(slots), old(files), slots, files)
    {
      hide KeysUnique, SameBytes, PageOf, WriteBack;
      AllSized(slots, files);
      SameSelf(slots, files);
      r := CleanVictim();
      if r >= 0 {
        DropBytes(slots, files, r, Emptied(slots[r]));
        slots := slots[r := Emptied(slots[r])];
        return;
      }
      var k := |lru|;
      while k > 0
        invariant 0 <= k <= |lru| && slots == old(slots) && files == old(files)
        invariant forall j :: k <= j < |lru| ==>
          slots[lru[j]].refcnt > 0 || (slots[lru[j]].dirty && slots[lru[j]].ip in flushable && lru[j] in failing)
      {
        k := k - 1;
        r := lru[k];
        if Victim(slots[r]) {
          if slots[r].ip !in flushable {
            slots := slots[r := Emptied(slots[r])];
            Discarded(old(slots), files, r);
            return;
          }
          if r !in failing {
            FlushVictim(r);
            return;
          }
        }
      }
      forall i: nat | i < |slots|
        ensures slots[i].refcnt > 0 || (slots[i].dirty && slots[i].ip in flushable && i in failing)
      {
        assert i in lru;
      }
      r := -1;
    }

    /** Write slot r's page back and let the slot go. */
    method FlushVictim(r: nat)
      requires Valid() && r < |slots| && slots[r].ip in flushable && slots[r].dirty && slots[r].ip != 0
      modifies this`slots, this`files
      ensures Valid() && PagesSized(old(slots)) && PagesSized(slots) && SameBytes(old(slots), old(files), slots, files)
      ensures slots == old(slots)[r := Emptied(old(slots)[r])] && old(slots)[r].ip in old(files)
      ensures files == old(files)[old(slots)[r].ip :=
        WriteBack(old(files)[old(slots)[r].ip], old(slots)[r].pgidx, old(slots)[r].page)]
    {
      hide SameBytes, KeysUnique, WriteBack;
      var x := slots[r];
      ghost var f := files;
      files := files[x.ip := WriteBack(files[x.ip], x.pgidx, x.page)];
      FlushBytes(slots, f, r, Emptied(x), files);
      slots := slots[r := Emptied(x)];
    }

    /** lru_to_head */
    method Promote(r: nat)
      requires IsOrder(lru, NSLOTS) && r < NSLOTS
      modifies this`lru
      ensures IsOrder(lru, NSLOTS) && r in old(lru) && lru == MoveToFront(old(lru), IndexOf(old(lru), r))
    {
      var k := IndexOf(lru, r);
      MoveToFrontOk(lru, NSLOTS, k);
      lru := MoveToFront(lru, k);
    }

    method Demote(r: nat)
      requires IsOrder(lru, NSLOTS) && r < NSLOTS
      modifies this`lru
      ensures IsOrder(lru, NSLOTS) && r in old(lru) && lru == MoveToBack(old(lru), IndexOf(old(lru), r))
    {
      var k := IndexOf(lru, r);
      MoveToBackOk(lru, NSLOTS, k);
      lru := MoveToBack(lru, k);
    }

    /** pcache_get's miss: the page is read into a reused slot, pinned once. */
    method Miss(ip: nat, pgidx: nat, failing: set<nat>, readOk: bool) returns (rc: int, r: int)
      requires Valid() && ip in files && SlotOf(slots, ip, pgidx, 0) == |slots|
      modifies this`slots, this`files, this`lru
      ensures Valid() && PagesSized(old(slots)) && PagesSized(slots) && ip in files && -1 <= r < |slots|
      ensures (rc == 0 <==> r >= 0)
      ensures rc == -ENOMEM <==> forall i :: 0 <= i < |old(slots)| ==>
        old(slots)[i].refcnt > 0 || (old(slots)[i].dirty && old(slots)[i].ip in flushable && i in failing)
      ensures rc == 0 || rc == -ENOMEM || (rc == -EIO && !readOk)
      ensures r >= 0 ==>
        && old(slots)[r].refcnt == 0 && slots[r] == Slot(ip, pgidx, 1, false, PageOf(files[ip], pgidx))
        && PinsKept(old(slots), slots, r)
      ensures r < 0 ==> PinsKept(old(slots), slots, -1)
      ensures DirtyFlushable(old(slots), flushable) ==>
        SameBytes(old(slots), old(files), slots, files) && DirtyFlushable(slots, flushable)
    {
      hide KeysUnique, SameBytes, PageOf, WriteBack, SlotOf, IsOrder;
      AllSized(slots, files);
      ghost var s0, f0 := slots, files;
      r := Evict(failing);
      if r < 0 { return -ENOMEM, -1; }
      ghost var s1, f1 := slots, files;
      if !readOk {
        slots := slots[r := slots[r].(refcnt := 0)];
        Demote(r);
        assert slots == s1;
        return -EIO, -1;
      }
      StillAbsent(s0, s1, r, ip, pgidx);
      var x := Slot(ip, pgidx, 1, false, PageOf(files[ip], pgidx));
      FillBytes(slots, files, r, x);
      slots := slots[r := x];
      Promote(r);
      if DirtyFlushable(s0, flushable) { SameThen(s0, f0, s1, f1, slots, files); }
      rc := 0;
    }

    /** pcache_get: the page is cached and pinned, or an error; readers see no change. */
    method Get(ip: nat, pgidx: nat, failing: set<nat>, readOk: bool) returns (rc: int, r: int)
      requires Valid() && ip in files
      modifies this`slots, this`files, this`lru
      ensures Valid() && PagesSized(old(slots)) && PagesSized(slots) && -1 <= r < |slots| && (rc == 0 <==> r >= 0)
      ensures r >= 0 ==>
        IsKey(slots[r], ip, pgidx) && slots[r].refcnt == old(slots)[r].refcnt + 1 && PinsKept(old(slots), slots, r)
      ensures r < 0 ==> rc < 0 && PinsKept(old(slots), slots, -1) && (!readOk || failing != {} || !Unpinned(old(slots)))
      ensures DirtyFlushable(old(slots), flushable) ==>
        SameBytes(old(slots), old(files), slots, files) && DirtyFlushable(slots, flushable)
    {
      hide KeysUnique, SameBytes, PageOf, SlotOf, IsOrder;
      r := Lookup(ip, pgidx);
      if r >= 0 {
        var x := slots[r].(refcnt := slots[r].refcnt + 1);
        PinBytes(slots, files, r, x);
        slots := slots[r := x];
        Promote(r);
        return 0, r;
      }
      rc, r := Miss(ip, pgidx, failing, readOk);
    }

    /** pcache_put */
    method Put(r: nat)
      requires Valid() && r < |slots|
      modifies this`slots, this`lru
      ensures Valid() && PagesSized(old(slots)) && PagesSized(slots) && SameBytes(old(slots), files, slots, files)
      ensures var p := old(slots)[r]; slots == old(slots)[r := p.(refcnt := if p.refcnt > 0 then p.refcnt - 1 else 0)]
    {
      hide KeysUnique, SameBytes, PageOf, IsOrder;
      var x := if slots[r].refcnt > 0 then slots[r].(refcnt := slots[r].refcnt - 1) else slots[r];
      PinBytes(slots, files, r, x);
      slots := slots[r := x];
      if x.refcnt == 0 {
        Promote(r);
      }
    }

    /** pcache_invalidate_range: unpinned pages of ip in the range are forgotten, written back or not. */
    method InvalidateRange(ip: nat, off: nat, len: nat)
      requires |slots| == NSLOTS && off < U64 && len < U64
      modifies this`slots
      ensures |slots| == |old(slots)|
      ensures ip == 0 || len == 0 ==> slots == old(slots)
      ensures ip != 0 && len != 0 ==> forall i :: 0 <= i < |slots| ==>
        slots[i] == Invalidated(old(slots)[i], ip, off, len)
    {
      if ip == 0 || len == 0 { return; }
      var i := 0;
      while i < NSLOTS
        invariant 0 <= i <= NSLOTS == |slots|
        invariant forall j :: 0 <= j < NSLOTS ==>
          slots[j] == if j < i then Invalidated(old(slots)[j], ip, off, len) else old(slots)[j]
      {
        if slots[i].ip == ip && InRange(slots[i].pgidx, off, len) && slots[i].refcnt == 0 {
          slots := slots[i := Emptied(slots[i])];
        }
        i := i + 1;
      }
    }

    /** One page's worth of generic_file_read: pin, copy, unpin. */
    method ReadPart(ip: nat, pos: nat, rest: nat, failing: set<nat>, readOk: bool) returns (rc: int, more: seq<byte>)
      requires Valid() && ip in files && DirtyFlushable(slots, flushable) && rest > 0 && pos + rest <= |files[ip]|
      modifies this`slots, this`files, this`lru
      ensures Valid() && DirtyFlushable(slots, flushable) && PagesSized(old(slots)) && PagesSized(slots)
      ensures SameBytes(old(slots), old(files), slots, files)
      ensures SamePins(old(slots), slots)
      ensures rc < 0 ==> more == [] && (!readOk || failing != {} || !Unpinned(old(slots)))
      ensures rc >= 0 ==> 0 < |more| <= rest && forall k :: 0 <= k < |more| ==>
        more[k] == Logical(old(slots), old(files), ip, pos + k)
    {
      hide KeysUnique, SameBytes, PageOf, SlotOf, IsOrder, Logical, DirtyFlushable;
      ghost var s0, f0 := slots, files;
      var pgidx, pgoff := pos / PGSZ, pos % PGSZ;
      var chunk := if PGSZ - pgoff > rest then rest else PGSZ - pgoff;
      var r;
      rc, r := Get(ip, pgidx, failing, readOk);
      if rc < 0 { return rc, []; }
      ghost var s1, f1 := slots, files;
      more := slots[r].page[pgoff..pgoff + chunk];
      PartBytes(s0, f0, s1, f1, ip, pos, r, chunk, more);
      SameFileSize(s0, f0, s1, f1, ip);
      Put(r);
      SameThen(s0, f0, s1, f1, slots, files);
      DirtySame(s1, slots, r, flushable);
    }

    /** generic_file_read: what a reader of ip sees from off on, cut short only by an error. */
    method Read(ip: nat, off: nat, n: nat, failing: set<nat>, readOk: bool) returns (rc: int, out: seq<byte>)
      requires Valid() && ip in files && DirtyFlushable(slots, flushable)
      modifies this`slots, this`files, this`lru
      ensures Valid() && DirtyFlushable(slots, flushable) && PagesSized(old(slots)) && PagesSized(slots)
      ensures SameBytes(old(slots), old(files), slots, files)
      ensures |out| <= Want(|old(files)[ip]|, off, n) && (rc >= 0 ==> rc == |out|) && (rc < 0 ==> out == [])
      ensures forall k :: 0 <= k < |out| ==>
        off + k < |old(files)[ip]| && out[k] == Logical(old(slots), old(files), ip, off + k)
      ensures readOk && failing == {} && Unpinned(old(slots)) ==> rc == Want(|old(files)[ip]|, off, n)
    {
      hide KeysUnique, SameBytes, PageOf, SlotOf, IsOrder, Logical, DirtyFlushable, Unpinned, SamePins;
      AllSized(slots, files);
      SameSelf(slots, files);
      PinsSelf(slots);
      out := [];
      var want := Want(|files[ip]|, off, n);
      ghost var s0, f0 := slots, files;
      while |out| < want
        invariant Valid() && DirtyFlushable(slots, flushable) && PagesSized(s0) && PagesSized(slots)
        invariant SameBytes(s0, f0, slots, files)
        invariant |out| <= want
        invariant forall k :: 0 <= k < |out| ==> off + k < |f0[ip]| && out[k] == Logical(s0, f0, ip, off + k)
        invariant SamePins(s0, slots)
        decreases want - |out|
      {
        ghost var s1, f1 := slots, files;
        SameFileSize(s0, f0, s1, f1, ip);
        var more;
        rc, more := ReadPart(ip, off + |out|, want - |out|, failing, readOk);
        PinsUnpinned(s0, s1);
        if rc < 0 {
          SameThen(s0, f0, s1, f1, slots, files);
          if out == [] { return rc, []; }
          return |out|, out;
        }
        MoreBytes(s0, f0, s1, f1, ip, off, out, more);
        SameThen(s0, f0, s1, f1, slots, files);
        PinsThen(s0, s1, slots);
        out := out + more;
      }
      rc := |out|;
    }

    /**
     sbfs_op_write as readers of the page cache see it: data goes into file ip at or before its end, then the
     pages it touched are forgotten, changes that were only in the cache with them. Afterwards a reader sees the data
     where it went, the file's own bytes in the rest of the pages it touched, and everything else as before.
     */
    method Write(ip: nat, off: nat, data: seq<byte>)
      requires Valid() && ip in files && off <= |files[ip]| && off + |data| < U64 && RangeFree(slots, ip, off, |data|)
      modifies this`slots, this`files
      ensures Valid() && PagesSized(old(slots)) && PagesSized(slots)
      ensures files == old(files)[ip := Splice(old(files)[ip], off, data)]
      ensures SamePins(old(slots), slots)
      ensures DirtyFlushable(old(slots), flushable) ==> DirtyFlushable(slots, flushable)
      ensures forall o: nat :: o < |files[ip]| ==>
        Logical(slots, files, ip, o) == SeenAfter(old(slots), old(files), ip, off, data, o)
      ensures FileClean(old(slots), ip) ==> forall o: nat :: o < |files[ip]| ==>
        Logical(slots, files, ip, o) == files[ip][o]
      ensures forall q, o: nat :: q in files && q != ip && o < |files[q]| ==>
        Logical(slots, files, q, o) == Logical(old(slots), old(files), q, o)
    {
      hide SlotOf, PageOf, Logical, Invalidated, Splice;
      ghost var s0, f0 := slots, files;
      AllSized(slots, files);
      files := files[ip := Splice(files[ip], off, data)];
      InvalidateRange(ip, off, |data|);
      if data == [] { NoWrite(f0[ip], off); }
      Forgotten(s0, slots, ip, off, |data|, flushable);
      Coherent(s0, f0, ip, off, data, slots, files);
    }
  }

  lemma Forgotten(s: seq<Slot>, t: seq<Slot>, ip: nat, off: nat, len: nat, ops: set<nat>)
    requires |s| == |t|
    requires t == s || forall i :: 0 <= i < |s| ==> t[i] == Invalidated(s[i], ip, off, len)
    ensures SamePins(s, t) && (DirtyFlushable(s, ops) ==> DirtyFlushable(t, ops))
  {
    hide InRange;
  }

  /** The bytes a read of n at off is for. */
  function Want(size: nat, off: nat, n: nat): nat {
    if off >= size then 0 else if off + n > size then size - off else n
  }

  /** Is page pgidx among those pcache_invalidate_range covers? A range that would wrap runs to the end of the file. */
  predicate InRange(pgidx: nat, off: nat, len: nat) {
    pgidx >= off / PGSZ && (len == U64 - 1 || off + len >= U64 || off + len + PGSZ - 1 >= U64
      || pgidx < (off + len + PGSZ - 1) / PGSZ)
  }

  function Invalidated(x: Slot, ip: nat, off: nat, len: nat): Slot {
    if x.ip == ip && InRange(x.pgidx, off, len) && x.refcnt == 0 then Emptied(x) else x
  }

  ghost predicate Unpinned(s: seq<Slot>) { exists i :: 0 <= i < |s| && s[i].refcnt == 0 }

  /** No page of file ip that a write of len bytes at off touches is pinned. */
  ghost predicate RangeFree(s: seq<Slot>, ip: nat, off: nat, len: nat) {
    forall i :: 0 <= i < |s| && s[i].ip == ip && len != 0 && InRange(s[i].pgidx, off, len) ==> s[i].refcnt == 0
  }

  ghost predicate FileClean(s: seq<Slot>, ip: nat) { forall i :: 0 <= i < |s| && s[i].ip == ip ==> !s[i].dirty }

  /** Byte o of file ip as a reader sees it after data has been written at off. */
  ghost function SeenAfter(s: seq<Slot>, f: Files, ip: nat, off: nat, data: seq<byte>, o: nat): byte
    requires ip in f && PagesSized(s) && off <= |f[ip]| && o < |Splice(f[ip], off, data)|
  {
    if off <= o < off + |data| then data[o - off]
    else if data != [] && InRange(o / PGSZ, off, |data|) then f[ip][o]
    else Logical(s, f, ip, o)
  }

  /** f with data written at off, growing if needed. */
  function Splice(f: seq<byte>, off: nat, data: seq<byte>): (g: seq<byte>)
    requires off <= |f|
    ensures |g| == if off + |data| > |f| then off + |data| else |f|
    ensures forall o :: 0 <= o < |g| ==> g[o] == if off <= o < off + |data| then data[o - off] else f[o]
  {
    f[..off] + data + if off + |data| < |f| then f[off + |data|..] else []
  }

  lemma NoWrite(f: seq<byte>, off: nat)
    requires off <= |f|
    ensures Splice(f, off, []) == f
  {
  }

  /** Pages a write does not touch read as before, zero fill included. */
  lemma UntouchedPage(f: seq<byte>, off: nat, data: seq<byte>, g: nat)
    requires off <= |f| && off + |data| < U64 && data != [] && !InRange(g, off, |data|)
    ensures PageOf(Splice(f, off, data), g) == PageOf(f, g)
  {
    var h := Splice(f, off, data);
    forall k | 0 <= k < PGSZ ensures PageOf(h, g)[k] == PageOf(f, g)[k] {
      var o := PGSZ * g + k;
      if g < off / PGSZ {
        assert o < off;
      } else {
        assert o >= off + |data|;
      }
    }
  }

  lemma TouchedByte(s: seq<Slot>, f: Files, ip: nat, off: nat, data: seq<byte>, t: seq<Slot>, f': Files, o: nat)
    requires SlotsOk(s, f) && 0 !in f && ip in f && off <= |f[ip]| && off + |data| < U64
    requires RangeFree(s, ip, off, |data|)
    requires f' == f[ip := Splice(f[ip], off, data)] && |t| == |s| && PagesSized(s) && PagesSized(t) && o < |f'[ip]|
    requires if data == [] then t == s && f' == f else forall i :: 0 <= i < |s| ==>
      t[i] == Invalidated(s[i], ip, off, |data|)
    ensures Logical(t, f', ip, o) == SeenAfter(s, f, ip, off, data, o)
  {
    hide PageOf;
    var g := o / PGSZ;
    var a, b := SlotOf(s, ip, g, 0), SlotOf(t, ip, g, 0);
    if data != [] {
      if off <= o < off + |data| { WrittenPage(o, off, |data|); }
      if InRange(g, off, |data|) {
        assert b == |t|;
      } else {
        if a < |s| { assert IsKey(t[a], ip, g); }
        if b < |t| { assert IsKey(s[b], ip, g); }
      }
    }
  }

  lemma WrittenPage(o: nat, off: nat, len: nat)
    requires off <= o < off + len < U64
    ensures InRange(o / PGSZ, off, len)
  {
  }

  /** After the write and the invalidation, clean slots hold what the files hold. */
  lemma Coherent(s: seq<Slot>, f: Files, ip: nat, off: nat, data: seq<byte>, t: seq<Slot>, f': Files)
    requires SlotsOk(s, f) && 0 !in f && ip in f && off <= |f[ip]| && off + |data| < U64
    requires RangeFree(s, ip, off, |data|)
    requires f' == f[ip := Splice(f[ip], off, data)] && |t| == |s|
    requires if data == [] then t == s && f' == f else forall i :: 0 <= i < |s| ==>
      t[i] == Invalidated(s[i], ip, off, |data|)
    ensures SlotsOk(t, f') && PagesSized(s) && PagesSized(t)
    ensures forall o: nat :: o < |f'[ip]| ==> Logical(t, f', ip, o) == SeenAfter(s, f, ip, off, data, o)
    ensures FileClean(s, ip) ==> forall o: nat :: o < |f'[ip]| ==> Logical(t, f', ip, o) == f'[ip][o]
    ensures forall q, o: nat :: q in f' && q != ip && o < |f'[q]| ==> Logical(t, f', q, o) == Logical(s, f, q, o)
  {
    hide Splice, PageOf;
    forall i | 0 <= i < |t| ensures SlotOk(t[i], f') {
      if data != [] && s[i].ip == ip && !InRange(s[i].pgidx, off, |data|) {
        UntouchedPage(f[ip], off, data, s[i].pgidx);
      }
    }
    assert forall i :: 0 <= i < |t| ==> t[i].ip == s[i].ip || t[i].ip == 0;
    forall o: nat | o < |f'[ip]| ensures Logical(t, f', ip, o) == SeenAfter(s, f, ip, off, data, o) {
      TouchedByte(s, f, ip, off, data, t, f', o);
    }
    if FileClean(s, ip) {
      forall o: nat | o < |f'[ip]| ensures Logical(t, f', ip, o) == f'[ip][o] { CleanByte(t, f', ip, o); }
    }
    forall q, o: nat | q in f' && q != ip && o < |f'[q]| ensures Logical(t, f', q, o) == Logical(s, f, q, o) {
      var a, b := SlotOf(s, q, o / PGSZ, 0), SlotOf(t, q, o / PGSZ, 0);
      if a < |s| { assert IsKey(t[a], q, o / PGSZ); }
      if b < |t| { assert IsKey(s[b], q, o / PGSZ); }
    }
  }

  ghost predicate SamePins(s: seq<Slot>, t: seq<Slot>) {
    |s| == |t| && forall i :: 0 <= i < |s| ==> t[i].refcnt == s[i].refcnt
  }

  lemma PinsSelf(s: seq<Slot>)
    ensures SamePins(s, s)
  {
  }

  lemma PinsThen(s: seq<Slot>, t: seq<Slot>, u: seq<Slot>)
    requires SamePins(s, t) && SamePins(t, u)
    ensures SamePins(s, u)
  {
  }

  lemma PinsUnpinned(s: seq<Slot>, t: seq<Slot>)
    requires SamePins(s, t)
    ensures Unpinned(s) ==> Unpinned(t)
  {
    if Unpinned(s) {
      var i :| 0 <= i < |s| && s[i].refcnt == 0;
      assert t[i].refcnt == 0;
    }
  }

  lemma DirtySame(s: seq<Slot>, t: seq<Slot>, r: nat, flushable: set<nat>)
    requires DirtyFlushable(s, flushable) && r < |s| == |t| && t == s[r := t[r]] && t[r] == s[r].(refcnt := t[r].refcnt)
    ensures DirtyFlushable(t, flushable)
  {
  }

  lemma SameFileSize(s: seq<Slot>, f: Files, t: seq<Slot>, g: Files, ip: nat)
    requires PagesSized(s) && PagesSized(t) && SameBytes(s, f, t, g) && ip in f
    ensures ip in g && |g[ip]| == |f[ip]|
  {
  }

  /** The bytes copied out of the pinned page are the file's. */
  lemma PartBytes(s0: seq<Slot>, f0: Files, s1: seq<Slot>, f1: Files, ip: nat, pos: nat, r: nat, chunk: nat,
                  more: seq<byte>)
    requires PagesSized(s0) && PagesSized(s1) && SameBytes(s0, f0, s1, f1) && KeysUnique(s1) && ip in f0 && ip != 0
    requires r < |s1| && IsKey(s1[r], ip, pos / PGSZ) && pos % PGSZ + chunk <= PGSZ && pos + chunk <= |f0[ip]|
    requires more == s1[r].page[pos % PGSZ..pos % PGSZ + chunk]
    ensures forall k :: 0 <= k < |more| ==> more[k] == Logical(s0, f0, ip, pos + k)
  {
    hide KeysUnique;
    forall k | 0 <= k < |more| ensures more[k] == Logical(s0, f0, ip, pos + k) {
      assert (pos + k) / PGSZ == pos / PGSZ && (pos + k) % PGSZ == pos % PGSZ + k;
      OnlySlot(s1, ip, pos / PGSZ, r);
      assert Logical(s1, f1, ip, pos + k) == Logical(s0, f0, ip, pos + k);
    }
  }

  lemma MoreBytes(s0: seq<Slot>, f0: Files, s1: seq<Slot>, f1: Files, ip: nat, off: nat, out: seq<byte>,
                  more: seq<byte>)
    requires PagesSized(s0) && PagesSized(s1) && SameBytes(s0, f0, s1, f1) && ip in f0
    requires off + |out| + |more| <= |f0[ip]|
    requires forall k :: 0 <= k < |out| ==> out[k] == Logical(s0, f0, ip, off + k)
    requires ip in f1 && |f1[ip]| == |f0[ip]|
    requires forall k :: 0 <= k < |more| ==> more[k] == Logical(s1, f1, ip, off + |out| + k)
    ensures forall k :: 0 <= k < |out + more| ==> (out + more)[k] == Logical(s0, f0, ip, off + k)
  {
    hide Logical;
    forall k | |out| <= k < |out + more| ensures (out + more)[k] == Logical(s0, f0, ip, off + k) {
      assert more[k - |out|] == Logical(s1, f1, ip, off + |out| + (k - |out|));
      assert off + |out| + (k - |out|) == off + k;
    }
  }

  /** Slots other than r keep their pins, and pinned ones their pages. */
  ghost predicate PinsKept(s: seq<Slot>, t: seq<Slot>, r: int) {
    |s| == |t| && forall i :: 0 <= i < |s| && i != r ==>
      t[i].refcnt == s[i].refcnt && (s[i].refcnt > 0 ==> t[i] == s[i])
  }

  lemma StillAbsent(s: seq<Slot>, t: seq<Slot>, r: nat, ip: nat, pgidx: nat)
    requires r < |s| && t == s[r := Emptied(s[r])] && ip != 0 && SlotOf(s, ip, pgidx, 0) == |s|
    ensures SlotOf(t, ip, pgidx, 0) == |t|
  {
    var b := SlotOf(t, ip, pgidx, 0);
    if b < |t| { assert false; }
  }

  lemma AllSized(s: seq<Slot>, files: Files)
    requires SlotsOk(s, files)
    ensures PagesSized(s)
  {
  }

  lemma OnlySlot(s: seq<Slot>, ip: nat, pgidx: nat, i: nat)
    requires KeysUnique(s) && ip != 0 && i < |s| && IsKey(s[i], ip, pgidx)
    ensures SlotOf(s, ip, pgidx, 0) == i
  {
  }

  lemma NoSlot(s: seq<Slot>, ip: nat, pgidx: nat)
    requires forall i :: 0 <= i < |s| ==> !IsKey(s[i], ip, pgidx)
    ensures SlotOf(s, ip, pgidx, 0) == |s|
  {
  }

  /** Emptying any slot leaves the others as they were. */
  lemma Discarded(s: seq<Slot>, files: Files, r: nat)
    requires SlotsOk(s, files) && r < |s|
    ensures SlotsOk(s[r := Emptied(s[r])], files)
  {
  }
}
