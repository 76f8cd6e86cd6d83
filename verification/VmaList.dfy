/** The list of virtual memory areas of a process: lookup, insertion, cutting, and mmap's search for a gap. */
module VmaList {
  const PAGE_SIZE := 4096
  const MMAP_START := 0x10_0000_0000  // 64 GB
  const MMAP_END := 0x20_0000_0000    // 128 GB
  const USER_TEXT_BASE := 0x1000
  const USER_STACK_TOP := 0x40_0000_0000  // 256 GB

  datatype VmaType = Anon | File | Stack | Heap

  /** file 0 is the null pointer. */
  datatype Vma = Vma(start: nat, end: nat, r: bool, w: bool, x: bool, typ: VmaType, cow: bool, shared: bool, file: nat,
    fileOff: nat)

  predicate Covers(v: Vma, a: nat) { v.start <= a < v.end }

  ghost predicate Disjoint(s: seq<Vma>) { forall i, j :: 0 <= i < j < |s| ==> s[i].end <= s[j].start }

  ghost predicate NonEmpty(s: seq<Vma>) { forall i :: 0 <= i < |s| ==> s[i].start < s[i].end }

  /** Sorted by address, without overlap. */
  ghost predicate ListOk(s: seq<Vma>) { NonEmpty(s) && Disjoint(s) }

  /** What the area says about address a: its protection, kind, and position in its file. */
  datatype Mapping = Unmapped | Mapped(r: bool, w: bool, x: bool, typ: VmaType, cow: bool, shared: bool, file: nat,
    filePos: nat)

  function MappingIn(v: Vma, a: nat): Mapping
    requires Covers(v, a)
  {
    var backed := v.typ.File? && v.file != 0;
    Mapped(v.r, v.w, v.x, v.typ, v.cow, v.shared, if backed then v.file else 0, if backed then v.fileOff + (a - v.start)
      else 0)
  }

  /** The address space as a function: the mapping of the area that covers a, if any. */
  function MappingAt(s: seq<Vma>, a: nat): Mapping {
    if s == [] then Unmapped else if Covers(s[0], a) then MappingIn(s[0], a) else MappingAt(s[1..], a)
  }

  lemma {:induction false} MappingOf(s: seq<Vma>, a: nat, i: nat)
    requires Disjoint(s) && i < |s| && Covers(s[i], a)
    ensures MappingAt(s, a) == MappingIn(s[i], a)
  {
    if i > 0 { MappingOf(s[1..], a, i - 1); }
  }

  lemma {:induction false} MappingNone(s: seq<Vma>, a: nat)
    requires forall i :: 0 <= i < |s| ==> !Covers(s[i], a)
    ensures MappingAt(s, a) == Unmapped
  {
    if s != [] { MappingNone(s[1..], a); }
  }

  lemma {:induction false} MappingConcat(s: seq<Vma>, t: seq<Vma>, a: nat)
    ensures MappingAt(s + t, a) == if MappingAt(s, a) != Unmapped then MappingAt(s, a) else MappingAt(t, a)
  {
    if s == [] {
      assert s + t == t;
    } else {
      assert (s + t)[0] == s[0] && (s + t)[1..] == s[1..] + t;
      MappingConcat(s[1..], t, a);
    }
  }

  /** vma_find: the area that covers va, or -1. */
  method Find(list: seq<Vma>, va: nat) returns (k: int)
    ensures -1 <= k < |list|
    ensures k >= 0 ==> Covers(list[k], va) && forall i :: 0 <= i < k ==> !Covers(list[i], va)
    ensures k < 0 <==> MappingAt(list, va) == Unmapped
    ensures k >= 0 ==> MappingAt(list, va) == MappingIn(list[k], va)
  {
    k := 0;
    while k < |list| && !Covers(list[k], va)
      invariant 0 <= k <= |list| && forall i :: 0 <= i < k ==> !Covers(list[i], va)
    {
      k := k + 1;
    }
    MappingNone(list[..k], va);
    assert list[..k] + list[k..] == list;
    MappingConcat(list[..k], list[k..], va);
    if k == |list| { k := -1; }
  }

  // ----- stack growth -------------------------------------------------------------------------

  /** The lowest address the stack may grow to under the limit RLIMIT_STACK; no limit is the largest number. */
  function StackFloor(limit: nat): nat {
    var cap := USER_STACK_TOP - USER_TEXT_BASE;
    USER_STACK_TOP - if limit > cap then cap else limit
  }

  function PageBase(va: nat): nat { va - va % PAGE_SIZE }

  /** The first stack area, or |s|. */
  function StackIndex(s: seq<Vma>): (k: nat)
    ensures k <= |s| && (k < |s| ==> s[k].typ.Stack?) && forall i :: 0 <= i < k ==> !s[i].typ.Stack?
  {
    if s == [] then 0 else if s[0].typ.Stack? then 0 else 1 + StackIndex(s[1..])
  }

  /** A fault at va, which no area covers, makes the stack grow down to it. */
  predicate Grows(s: seq<Vma>, va: nat, limit: nat) {
    var k := StackIndex(s);
    MappingAt(s, va) == Unmapped && k < |s| && va < s[k].start && PageBase(va) >= StackFloor(limit)
  }

  /** The area list the fault handler works with. */
  function Grown(s: seq<Vma>, va: nat, limit: nat): seq<Vma> {
    if Grows(s, va, limit) then var k := StackIndex(s); s[k := s[k].(start := PageBase(va))] else s
  }

  /** What the fault handler takes va to be mapped as. */
  function Facing(s: seq<Vma>, va: nat, limit: nat): Mapping {
    if Grows(s, va, limit) then
      var v := s[StackIndex(s)];
      Mapped(v.r, v.w, v.x, v.typ, v.cow, v.shared, 0, 0)
    else MappingAt(s, va)
  }

  /** user_page_fault's search: the area covering va, or else the stack grown to it, or -1. */
  method FindOrGrow(list: seq<Vma>, va: nat, limit: nat) returns (k: int, out: seq<Vma>)
    ensures -1 <= k < |out| && out == Grown(list, va, limit)
    ensures k < 0 <==> Facing(list, va, limit) == Unmapped
    ensures k >= 0 ==> var m := Facing(list, va, limit);
      m.Mapped? && m.r == out[k].r && m.w == out[k].w && m.x == out[k].x && m.typ == out[k].typ && m.cow == out[k].cow
  {
    k := Find(list, va);
    out := list;
    if k >= 0 { return; }
    k := 0;
    while k < |list| && !list[k].typ.Stack?
      invariant 0 <= k <= |list| && forall i :: 0 <= i < k ==> !list[i].typ.Stack?
    {
      k := k + 1;
    }
    if k < |list| && va < list[k].start && PageBase(va) >= StackFloor(limit) {
      out := list[k := list[k].(start := PageBase(va))];
    } else {
      k := -1;
    }
  }

  /** No other area lies in the addresses [base, start of area k). */
  ghost predicate Clear(s: seq<Vma>, k: nat, base: nat)
    requires k < |s|
  {
    forall i :: 0 <= i < |s| && i != k ==> !Overlaps(s[i], base, s[k].start)
  }

  lemma LoweredOk(s: seq<Vma>, k: nat, base: nat)
    requires ListOk(s) && k < |s| && base < s[k].start
    ensures ListOk(s[k := s[k].(start := base)]) <==> Clear(s, k, base)
  {
    var t := s[k := s[k].(start := base)];
    if Clear(s, k, base) {
      forall i, j | 0 <= i < j < |t| ensures t[i].end <= t[j].start {
        if j == k { assert !Overlaps(s[i], base, s[k].start); }
      }
    }
    if ListOk(t) {
      forall i | 0 <= i < |s| && i != k ensures !Overlaps(s[i], base, s[k].start) {
        if i < k { assert t[i].end <= t[k].start; } else { assert s[k].end <= s[i].start; }
      }
    }
  }

  /** Growth keeps the list sorted and free of overlap exactly when nothing else lies where the stack grows. */
  lemma GrownOk(s: seq<Vma>, va: nat, limit: nat)
    requires ListOk(s) && Grows(s, va, limit)
    ensures ListOk(Grown(s, va, limit)) <==> Clear(s, StackIndex(s), PageBase(va))
  {
    hide MappingAt, StackFloor, ListOk, Clear;
    LoweredOk(s, StackIndex(s), PageBase(va));
  }

  /** Growth over free addresses maps exactly those, as the fault handler takes va to be mapped. */
  lemma GrownMapping(s: seq<Vma>, va: nat, limit: nat, a: nat)
    requires ListOk(s) && Grows(s, va, limit) && Clear(s, StackIndex(s), PageBase(va))
    ensures MappingAt(Grown(s, va, limit), a)
            == if PageBase(va) <= a < s[StackIndex(s)].start then Facing(s, va, limit) else MappingAt(s, a)
  {
    hide MappingAt, StackFloor;
    var k, t := StackIndex(s), Grown(s, va, limit);
    GrownOk(s, va, limit);
    if i :| 0 <= i < |t| && Covers(t[i], a) {
      MappingOf(t, a, i);
      if a >= s[i].start { MappingOf(s, a, i); }
    } else {
      MappingNone(t, a);
      assert !Covers(t[k], a);
      forall i | 0 <= i < |s| ensures !Covers(s[i], a) { assert !Covers(t[i], a); }
      MappingNone(s, a);
    }
  }

  /** What MAP_FIXED reserves suffices: if every other area ends at or below the floor, the stack grows freely. */
  lemma ReserveSuffices(s: seq<Vma>, va: nat, limit: nat)
    requires ListOk(s) && Grows(s, va, limit)
    requires forall i :: 0 <= i < |s| && i != StackIndex(s) && s[i].start < s[StackIndex(s)].start ==>
      s[i].end <= StackFloor(limit)
    ensures ListOk(Grown(s, va, limit))
  {
    hide MappingAt, StackFloor;
    GrownOk(s, va, limit);
  }

  /** A mapping made under a lower limit: with the limit raised, a fault below it grows the stack over it. */
  lemma GrowsOver()
    ensures
      var stack := Vma(USER_STACK_TOP - PAGE_SIZE, USER_STACK_TOP, true, true, false, Stack, false, false, 0, 0);
      var area := Vma(MMAP_START, MMAP_START + PAGE_SIZE, true, true, false, Anon, false, false, 0, 0);
      var va, s := MMAP_START - 1, [area, stack];
      && ListOk(s) && StackFloor(0x80_0000) >= area.end
      && Grows(s, va, 0xFFFF_FFFF_FFFF_FFFF) && !ListOk(Grown(s, va, 0xFFFF_FFFF_FFFF_FFFF))
  {
    var stack := Vma(USER_STACK_TOP - PAGE_SIZE, USER_STACK_TOP, true, true, false, Stack, false, false, 0, 0);
    var area := Vma(MMAP_START, MMAP_START + PAGE_SIZE, true, true, false, Anon, false, false, 0, 0);
    var s := [area, stack];
    assert s[1..] == [stack] && StackIndex(s[1..]) == 0;
    MappingNone(s, MMAP_START - 1);
    assert Overlaps(s[0], PageBase(MMAP_START - 1), s[1].start);
    GrownOk(s, MMAP_START - 1, 0xFFFF_FFFF_FFFF_FFFF);
  }

  // ----- insertion ----------------------------------------------------------------------------

  predicate Overlaps(v: Vma, s: nat, e: nat) { s < v.end && e > v.start }

  /** vma_insert's place for an area that starts at `start`. */
  method Place(list: seq<Vma>, start: nat) returns (k: nat)
    ensures k <= |list| && (forall i :: 0 <= i < k ==> list[i].start < start) && (k < |list| ==> list[k].start >= start)
  {
    k := 0;
    while k < |list| && list[k].start < start
      invariant k <= |list| && forall i :: 0 <= i < k ==> list[i].start < start
    {
      k := k + 1;
    }
  }

  /** In a sorted list, the two neighbours of the place decide. */
  lemma NeighboursDecide(list: seq<Vma>, v: Vma, k: nat)
    requires ListOk(list) && v.start < v.end && k <= |list|
    requires (forall i :: 0 <= i < k ==> list[i].start < v.start) && (k < |list| ==> list[k].start >= v.start)
    ensures (k < |list| && list[k].start < v.end) || (k > 0 && list[k - 1].end > v.start)
            <==> exists i :: 0 <= i < |list| && Overlaps(list[i], v.start, v.end)
  {
    if k < |list| && list[k].start < v.end { assert Overlaps(list[k], v.start, v.end); }
    if k > 0 && list[k - 1].end > v.start { assert Overlaps(list[k - 1], v.start, v.end); }
  }

  lemma InsertedOk(list: seq<Vma>, v: Vma, k: nat)
    requires ListOk(list) && v.start < v.end && k <= |list|
    requires (k < |list| ==> list[k].start >= v.end) && (k > 0 ==> list[k - 1].end <= v.start)
    ensures ListOk(list[..k] + [v] + list[k..])
  {
    var t := list[..k] + [v] + list[k..];
    forall i, j | 0 <= i < j < |t| ensures t[i].end <= t[j].start {
      if i < k && j >= k { assert list[i].end <= list[k - 1].end || i == k - 1; }
      if i <= k && j > k { assert list[k].start <= list[j - 1].start || j - 1 == k; }
    }
  }

  /** Adding an area where nothing was mapped changes nothing else. */
  lemma InsertedMapping(list: seq<Vma>, v: Vma, k: nat, a: nat)
    requires ListOk(list) && v.start < v.end && k <= |list|
    requires forall i :: 0 <= i < |list| ==> !Overlaps(list[i], v.start, v.end)
    ensures MappingAt(list[..k] + [v] + list[k..], a) == if Covers(v, a) then MappingIn(v, a) else MappingAt(list, a)
  {
    var l, r := list[..k], list[k..];
    assert list == l + r;
    MappingConcat(l, r, a);
    MappingConcat(l + [v], r, a);
    MappingConcat(l, [v], a);
    assert MappingAt([v], a) == if Covers(v, a) then MappingIn(v, a) else Unmapped;
    if Covers(v, a) {
      MappingNone(l, a);
    }
  }

  /** Replacing area k by pieces of it that leave exactly [s, e) out. */
  lemma CutMapping(list: seq<Vma>, k: nat, pieces: seq<Vma>, s: nat, e: nat, a: nat)
    requires ListOk(list) && k < |list|
    requires MappingAt(pieces, a) == if Covers(list[k], a) && !(s <= a < e) then MappingIn(list[k], a) else Unmapped
    ensures MappingAt(list[..k] + pieces + list[k + 1..], a)
            == if Covers(list[k], a) && s <= a < e then Unmapped else MappingAt(list, a)
  {
    var l, r := list[..k], list[k + 1..];
    assert list == l + [list[k]] + r;
    MappingConcat(l + [list[k]], r, a);
    MappingConcat(l, [list[k]], a);
    MappingConcat(l + pieces, r, a);
    MappingConcat(l, pieces, a);
    assert MappingAt([list[k]], a) == if Covers(list[k], a) then MappingIn(list[k], a) else Unmapped;
    if Covers(list[k], a) {
      MappingNone(l, a);
      MappingNone(r, a);
    }
  }

  lemma Removed(list: seq<Vma>, k: nat, s: nat, e: nat)
    requires ListOk(list) && k < |list| && s <= list[k].start && e >= list[k].end
    ensures ListOk(list[..k] + list[k + 1..])
    ensures forall a: nat :: MappingAt(list[..k] + list[k + 1..], a) == if Covers(list[k], a) && s <= a < e
      then Unmapped else MappingAt(list, a)
  {
    hide MappingAt;
    forall a: nat
      ensures MappingAt(list[..k] + list[k + 1..], a) == if Covers(list[k], a) && s <= a < e then Unmapped
        else MappingAt(list, a)
    {
      MappingNone([], a);
      CutMapping(list, k, [], s, e, a);
      assert list[..k] + [] + list[k + 1..] == list[..k] + list[k + 1..];
    }
  }

  lemma One(v: Vma, a: nat)
    ensures MappingAt([v], a) == if Covers(v, a) then MappingIn(v, a) else Unmapped
  {
  }

  /** One end of area k is cut off, leaving w. */
  lemma Trimmed(list: seq<Vma>, k: nat, w: Vma, s: nat, e: nat)
    requires ListOk(list) && k < |list| && list[k].start <= w.start < w.end <= list[k].end
    requires forall a: nat :: Covers(w, a) <==> Covers(list[k], a) && !(s <= a < e)
    requires forall a: nat :: Covers(w, a) ==> MappingIn(w, a) == MappingIn(list[k], a)
    ensures ListOk(list[k := w])
    ensures forall a: nat :: MappingAt(list[k := w], a) == if Covers(list[k], a) && s <= a < e then Unmapped
      else MappingAt(list, a)
  {
    hide MappingAt;
    forall a: nat
      ensures MappingAt(list[k := w], a) == if Covers(list[k], a) && s <= a < e then Unmapped else MappingAt(list, a)
    {
      One(w, a);
      CutMapping(list, k, [w], s, e, a);
      assert list[..k] + [w] + list[k + 1..] == list[k := w];
    }
  }

  /** The right half of a middle cut overlaps nothing that is left. */
  lemma RightFits(list: seq<Vma>, k: nat, s: nat, e: nat, rest: seq<Vma>)
    requires ListOk(list) && k < |list| && list[k].start < s < e < list[k].end && rest == list[k := list[k].(end := s)]
    ensures forall i :: 0 <= i < |rest| ==> !Overlaps(rest[i], e, list[k].end)
  {
  }

  /** The right half maps its addresses as the whole area did. */
  lemma RightSame(list: seq<Vma>, k: nat, right: Vma)
    requires ListOk(list) && k < |list| && list[k].start < right.start < right.end == list[k].end
    requires var v := list[k];
             var backed := v.typ.File? && v.file != 0;
             right == v.(start := right.start, file := if backed then v.file
               else 0, fileOff := if backed then v.fileOff + (right.start - v.start) else 0)
    ensures forall a: nat :: Covers(right, a) ==> MappingIn(right, a) == MappingAt(list, a)
  {
    hide MappingAt;
    forall a: nat | Covers(right, a) ensures MappingIn(right, a) == MappingAt(list, a) {
      MappingOf(list, a, k);
    }
  }

  /**
   sys_mmap's search without MAP_FIXED: the highest page-aligned place for len bytes between MMAP_START and
   MMAP_END that overlaps no area; None (ENOMEM) only when there is none.
   */
  datatype Gap = None | At(addr: nat)

  predicate Free(list: seq<Vma>, s: nat, len: nat) {
    forall i :: 0 <= i < |list| ==> !Overlaps(list[i], s, s + len)
  }

  predicate Candidate(s: nat, len: nat) { MMAP_START <= s && s + len <= MMAP_END && s % PAGE_SIZE == 0 }

  function RoundDown(a: nat): (r: nat)
    ensures r <= a < r + PAGE_SIZE && r % PAGE_SIZE == 0
  {
    a - a % PAGE_SIZE
  }

  /** The inner loop: the first area in the way, or -1. */
  method FirstOverlap(list: seq<Vma>, s: nat, len: nat) returns (k: int)
    ensures -1 <= k < |list|
    ensures k >= 0 ==> Overlaps(list[k], s, s + len)
    ensures k < 0 <==> Free(list, s, len)
  {
    k := 0;
    while k < |list|
      invariant 0 <= k <= |list| && forall i :: 0 <= i < k ==> !Overlaps(list[i], s, s + len)
    {
      if Overlaps(list[k], s, s + len) { return; }
      k := k + 1;
    }
    k := -1;
  }

  /** Page-aligned numbers are at least a page apart. */
  lemma Aligned(s: nat, bound: nat)
    requires s % PAGE_SIZE == 0 && s > RoundDown(bound)
    ensures s > bound
  {
  }

  lemma AtMost(s: nat, bound: nat)
    requires s % PAGE_SIZE == 0 && s <= bound
    ensures s <= RoundDown(bound)
  {
  }

  method FindGap(list: seq<Vma>, len: nat) returns (g: Gap)
    ensures g.At? ==> Candidate(g.addr, len) && Free(list, g.addr, len)
    ensures g.At? ==> forall s: nat :: Candidate(s, len) && s > g.addr ==> !Free(list, s, len)
    ensures g.None? ==> forall s: nat :: Candidate(s, len) ==> !Free(list, s, len)
  {
    if len > MMAP_END - MMAP_START { return None; }
    var search := RoundDown(MMAP_END - len);
    forall s: nat | Candidate(s, len) ensures s <= search { AtMost(s, MMAP_END - len); }
    while search >= MMAP_START
      invariant search % PAGE_SIZE == 0 && search + len <= MMAP_END
      invariant forall s: nat :: Candidate(s, len) && s > search ==> !Free(list, s, len)
      decreases search
    {
      var k := FirstOverlap(list, search, len);
      if k < 0 { return At(search); }
      var v := list[k];
      forall s: nat | Candidate(s, len) && v.start < s + len && s <= search ensures !Free(list, s, len) {
        assert Overlaps(list[k], s, s + len);
      }
      if v.start < MMAP_START + len { return None; }
      forall s: nat | Candidate(s, len) && s > RoundDown(v.start - len) ensures !Free(list, s, len) {
        Aligned(s, v.start - len);
      }
      search := RoundDown(v.start - len);
    }
    return None;
  }

  class AddressSpace {
    var list: seq<Vma>

    constructor ()
      ensures list == []
    {
      list := [];
    }

    /** vma_insert: refused exactly when it overlaps an area already there. */
    method Insert(v: Vma) returns (ok: bool)
      requires ListOk(list) && v.start < v.end
      modifies this
      ensures ListOk(list)
      ensures ok <==> forall i :: 0 <= i < |old(list)| ==> !Overlaps(old(list)[i], v.start, v.end)
      ensures !ok ==> list == old(list)
      ensures ok ==> multiset(list) == multiset(old(list)) + multiset{v}
      ensures ok ==> forall a: nat :: MappingAt(list, a) == if Covers(v, a) then MappingIn(v, a)
        else MappingAt(old(list), a)
    {
      hide MappingAt, MappingIn, Disjoint, NonEmpty;
      var k := Place(list, v.start);
      NeighboursDecide(list, v, k);
      if k < |list| && list[k].start < v.end { return false; }
      if k > 0 && list[k - 1].end > v.start { return false; }
      forall a: nat
        ensures MappingAt(list[..k] + [v] + list[k..], a) == if Covers(v, a) then MappingIn(v, a)
          else MappingAt(list, a)
      {
        InsertedMapping(list, v, k, a);
      }
      assert list == list[..k] + list[k..];
      InsertedOk(list, v, k);
      list := list[..k] + [v] + list[k..];
      ok := true;
    }

    /**
     vma_split: cut [s, e) out of area k. Every surviving address keeps its protection and file position;
     only the allocation of a second half can fail, and then nothing changes.
     */
    method Split(k: nat, s: nat, e: nat, canAlloc: bool) returns (rc: int)
      requires ListOk(list) && k < |list| && s < e && Overlaps(list[k], s, e)
      modifies this
      ensures ListOk(list)
      ensures rc == if old(list)[k].start < s && e < old(list)[k].end && !canAlloc then -1 else 0
      ensures rc == -1 ==> list == old(list)
      ensures rc == 0 ==> forall a: nat ::
        MappingAt(list, a) == if Covers(old(list)[k], a) && s <= a < e then Unmapped else MappingAt(old(list), a)
    {
      hide MappingAt, ListOk;
      var v := list[k];
      if s <= v.start && e >= v.end {
        Removed(list, k, s, e);
        list := list[..k] + list[k + 1..];
      } else if s > v.start && e < v.end {
        if !canAlloc { return -1; }
        CutMiddle(k, s, e);
      } else if s <= v.start {
        var w := v.(start := e, fileOff := if v.typ.File? then v.fileOff + (e - v.start) else v.fileOff);
        Trimmed(list, k, w, s, e);
        list := list[k := w];
      } else {
        Trimmed(list, k, v.(end := s), s, e);
        list := list[k := v.(end := s)];
      }
      rc := 0;
    }

    /** A cut inside area k: it keeps the part below, and a second area takes the part above. */
    method CutMiddle(k: nat, s: nat, e: nat)
      requires ListOk(list) && k < |list| && list[k].start < s < e < list[k].end
      modifies this
      ensures ListOk(list)
      ensures forall a: nat :: MappingAt(list, a) == if Covers(old(list)[k], a) && s <= a < e then Unmapped
        else MappingAt(old(list), a)
    {
      hide MappingAt, ListOk;
      var v := list[k];
      var backed := v.typ.File? && v.file != 0;
      var right := v.(start := e, file := if backed then v.file
        else 0, fileOff := if backed then v.fileOff + (e - v.start) else 0);
      Trimmed(list, k, v.(end := s), s, v.end);
      RightFits(list, k, s, e, list[k := v.(end := s)]);
      RightSame(list, k, right);
      list := list[k := v.(end := s)];
      // vma_insert cannot refuse the second half, so its error path is dead.
      var ok := Insert(right);
      assert ok;
    }

    /**
     sys_mmap of `area` (its addresses aside) without MAP_FIXED: the bytes go to the highest free gap and
     nothing else in the address space changes; it fails only for want of a gap or of memory.
     */
    method Mmap(area: Vma, len: nat, canAlloc: bool) returns (g: Gap)
      requires ListOk(list) && len > 0
      modifies this
      ensures ListOk(list)
      ensures g.None? ==> list == old(list)
      ensures g.None? <==> !canAlloc || forall s: nat :: Candidate(s, len) ==> !Free(old(list), s, len)
      ensures g.At? ==> Candidate(g.addr, len) && forall s: nat :: Candidate(s, len) && s > g.addr ==>
        !Free(old(list), s, len)
      ensures g.At? ==> forall a: nat ::
        && (g.addr <= a < g.addr + len ==> MappingAt(old(list), a) == Unmapped)
        && MappingAt(list, a) == if g.addr <= a < g.addr + len
             then MappingIn(area.(start := g.addr, end := g.addr + len), a)
                                 else MappingAt(old(list), a)
    {
      hide MappingAt, ListOk, MappingIn;
      g := FindGap(list, len);
      if g.None? || !canAlloc { return None; }
      var v := area.(start := g.addr, end := g.addr + len);
      forall a: nat | g.addr <= a < g.addr + len ensures MappingAt(list, a) == Unmapped {
        forall i | 0 <= i < |list| ensures !Covers(list[i], a) {
          assert !Overlaps(list[i], g.addr, g.addr + len);
        }
        MappingNone(list, a);
      }
      // vma_insert cannot refuse an area in a free gap, so the EINVAL path is dead.
      var ok := Insert(v);
      assert ok;
    }
  }
}
