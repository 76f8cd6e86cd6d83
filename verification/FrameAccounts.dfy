/**
 Who holds which physical frame: reference counts, the free list, leaf page-table entries and page-table
 pages, and the steps that keep them in agreement.
 */
module FrameAccounts {
  const REF_MAX := 65535
  const L2_USER := 256   // user half of the root table
  const ENTRIES := 512   // entries of the lower tables
  const KERNEL := 0      // owner of the kernel's own tables; processes are numbered from 1

  /** A user page: owner of the tables, and the indices of its address in the three table levels. */
  datatype Key = Key(pid: nat, i2: nat, i1: nat, i0: nat)

  /** A leaf entry. */
  datatype Pte = Pte(frame: nat, r: bool, w: bool, x: bool)

  /** Without permissions an entry looks like a pointer to a table, and is passed over by fork, unmapping and exit. */
  predicate Blank(p: Pte) { !p.r && !p.w && !p.x }

  /** No load or fetch goes through such an entry, and no store either: writable alone is a reserved encoding. */
  predicate Dark(p: Pte) { !p.r && !p.x }

  /** A page-table page. */
  datatype Node = Root(pid: nat) | Mid(pid: nat, i2: nat) | Low(pid: nat, i2: nat, i1: nat)

  /** One reference to a frame: a leaf entry, a page table's place in its tree, or kernel code. */
  datatype Holder = Leaf(k: Key) | Table(n: Node) | Kernel(id: nat)

  type Refs = seq<nat>
  type Holders = seq<set<Holder>>

  ghost predicate RefsOk(refs: Refs, holders: Holders) {
    |refs| == |holders| && forall f :: 0 <= f < |refs| ==> refs[f] == |holders[f]| && refs[f] <= REF_MAX
  }

  /** The free list holds exactly the frames nobody holds, each once. */
  ghost predicate FreeOk(free: seq<nat>, holders: Holders) {
    && (forall f: nat :: f < |holders| && holders[f] == {} ==> f in free)
    && (forall i :: 0 <= i < |free| ==> free[i] < |holders| && holders[free[i]] == {})
    && (forall i, j :: 0 <= i < j < |free| ==> free[i] != free[j])
  }

  ghost predicate LeafOk(leaf: map<Key, Pte>, holders: Holders) {
    && (forall k :: k in leaf ==> leaf[k].frame < |holders| && Leaf(k) in holders[leaf[k].frame])
    && (forall f, k :: 0 <= f < |holders| && Leaf(k) in holders[f] ==> k in leaf && leaf[k].frame == f)
  }

  /** A page table has a frame of its own. */
  ghost predicate TablesOk(nodes: map<Node, nat>, holders: Holders) {
    && (forall f, n :: 0 <= f < |holders| && Table(n) in holders[f] ==> holders[f] == {Table(n)})
    && (forall n :: n in nodes ==> nodes[n] < |holders| && Table(n) in holders[nodes[n]])
    && (forall f, n :: 0 <= f < |holders| && Table(n) in holders[f] ==> n in nodes && nodes[n] == f)
  }

  ghost predicate TokensOk(holders: Holders, stamp: nat) {
    forall f, id: nat :: 0 <= f < |holders| && Kernel(id) in holders[f] ==> id < stamp
  }

  /** Copy-on-write: a frame that can be written through an entry has no other reference at all. */
  ghost predicate CowOk(leaf: map<Key, Pte>, holders: Holders) {
    forall k :: k in leaf && leaf[k].w ==> leaf[k].frame < |holders| && holders[leaf[k].frame] == {Leaf(k)}
  }

  /** The whole state of the accounts. */
  datatype Books = Books(refs: Refs, free: seq<nat>, leaf: map<Key, Pte>, nodes: map<Node, nat>, holders: Holders,
    stamp: nat)

  ghost predicate Balanced(b: Books) {
    && RefsOk(b.refs, b.holders) && FreeOk(b.free, b.holders) && LeafOk(b.leaf, b.holders)
    && TablesOk(b.nodes, b.holders) && TokensOk(b.holders, b.stamp) && CowOk(b.leaf, b.holders)
  }

  /** No frame mapped twice is writable through either entry. */
  lemma SharedIsReadOnly(b: Books, j: Key, k: Key)
    requires Balanced(b) && j in b.leaf && k in b.leaf && j != k && b.leaf[j].frame == b.leaf[k].frame
    ensures !b.leaf[j].w && !b.leaf[k].w && b.refs[b.leaf[j].frame] >= 2
  {
    var f := b.leaf[j].frame;
    assert {Leaf(j), Leaf(k)} <= b.holders[f];
    var rest := b.holders[f] - {Leaf(j), Leaf(k)};
    assert b.holders[f] == rest + {Leaf(j), Leaf(k)};
  }

  /** The entries that map frame f. */
  ghost function Mappers(leaf: map<Key, Pte>, f: nat): set<Key> { set k | k in leaf && leaf[k].frame == f }

  /** The references to f that kernel code holds or has lost. */
  ghost function KernelHeld(holders: Holders, f: nat): set<Holder>
    requires f < |holders|
  {
    set h | h in holders[f] && !h.Leaf?
  }

  lemma {:induction false} LeafImage(s: set<Key>, t: set<Holder>)
    requires forall h :: h in t <==> h.Leaf? && h.k in s
    ensures |t| == |s|
  {
    if s == {} {
      assert t == {};
    } else {
      var k :| k in s;
      LeafImage(s - {k}, t - {Leaf(k)});
    }
  }

  /** Frame accounting: a count is the number of leaf entries that map the frame plus its other references. */
  lemma CountsMappers(b: Books, f: nat)
    requires Balanced(b) && f < |b.refs|
    ensures b.refs[f] == |Mappers(b.leaf, f)| + |KernelHeld(b.holders, f)|
  {
    hide FreeOk, TablesOk, TokensOk, CowOk;
    var rest := KernelHeld(b.holders, f);
    var leaves := b.holders[f] - rest;
    LeafImage(Mappers(b.leaf, f), leaves);
    assert b.holders[f] == leaves + rest;
  }

  /** No reference has been lost: every holder is an entry or a table. */
  ghost predicate NothingLost(holders: Holders) {
    forall f, id: nat :: 0 <= f < |holders| ==> Kernel(id) !in holders[f]
  }

  /** Exact accounting: while nothing is lost, a mapped frame's count is the number of entries that map it. */
  lemma ExactCounts(b: Books, f: nat)
    requires Balanced(b) && NothingLost(b.holders) && f < |b.refs| && Mappers(b.leaf, f) != {}
    ensures b.refs[f] == |Mappers(b.leaf, f)|
  {
    CountsMappers(b, f);
    var k :| k in Mappers(b.leaf, f);
    assert Leaf(k) in b.holders[f];
    forall h | h in b.holders[f] ensures h.Leaf? {
      match h {
        case Leaf(_) =>
        case Table(n) => assert false;
        case Kernel(id) => assert false;
      }
    }
    assert KernelHeld(b.holders, f) == {};
  }

  /** And every frame is mapped, is one page table, or is free. */
  lemma EveryFrame(b: Books, f: nat)
    requires Balanced(b) && NothingLost(b.holders) && f < |b.refs|
    ensures (f in b.free <==> b.refs[f] == 0)
    ensures f in b.free || Mappers(b.leaf, f) != {} || exists n :: n in b.nodes && b.nodes[n] == f && b.refs[f] == 1
  {
    if b.holders[f] != {} {
      var h :| h in b.holders[f];
      HolderCounts(b, f, h);
      match h {
        case Leaf(k) => assert k in Mappers(b.leaf, f);
        case Table(n) => assert b.holders[f] == {Table(n)};
        case Kernel(id) =>
      }
    }
  }

  /** The tables that are frame f. */
  ghost function TablesAt(nodes: map<Node, nat>, f: nat): set<Node> { set n | n in nodes && nodes[n] == f }

  /** While nothing is lost, entries and tables determine every count. */
  lemma CountsUses(b: Books, f: nat)
    requires Balanced(b) && NothingLost(b.holders) && f < |b.refs|
    ensures b.refs[f] == |Mappers(b.leaf, f)| + |TablesAt(b.nodes, f)|
  {
    CountsMappers(b, f);
    if n :| n in TablesAt(b.nodes, f) {
      assert Table(n) in b.holders[f];
      assert TablesAt(b.nodes, f) == {n} && KernelHeld(b.holders, f) == {Table(n)};
    } else {
      forall h | h in KernelHeld(b.holders, f) ensures h.Table? && h.n in TablesAt(b.nodes, f) {
        match h { case Leaf(_) => case Table(_) => case Kernel(_) => }
      }
      assert KernelHeld(b.holders, f) == {};
    }
  }

  /**
   Giving back one reference that no entry and no table holds, which is what clearing an entry of the kernel's own map
   of memory does, unbalances the accounts, whatever frame it is.
   */
  lemma PutUnheld(b: Books, f: nat, c: Books)
    requires Balanced(b) && NothingLost(b.holders) && f < |b.refs| && b.refs[f] > 0
    requires c.leaf == b.leaf && c.nodes == b.nodes && c.refs == b.refs[f := b.refs[f] - 1] && NothingLost(c.holders)
    ensures !Balanced(c)
  {
    hide Balanced;
    CountsUses(b, f);
    if Balanced(c) { CountsUses(c, f); }
  }

  ghost function Elems(s: seq<nat>): set<nat> { set x | x in s }

  lemma {:induction false} DistinctCard(s: seq<nat>)
    requires forall i, j :: 0 <= i < j < |s| ==> s[i] != s[j]
    ensures |Elems(s)| == |s|
  {
    if s != [] {
      var rest := s[1..];
      DistinctCard(rest);
      assert s[0] !in rest;
      assert Elems(s) == Elems(rest) + {s[0]} by { assert s == [s[0]] + rest; }
    } else {
      assert Elems(s) == {};
    }
  }

  /** The same frames are held. */
  ghost predicate HeldSame(h: Holders, h': Holders) {
    |h'| == |h| && forall f :: 0 <= f < |h| ==> (h'[f] == {} <==> h[f] == {})
  }

  /** So the number of free frames depends on which frames are held, and on nothing else. */
  lemma FreeCount(b: Books, c: Books)
    requires Balanced(b) && Balanced(c) && HeldSame(b.holders, c.holders)
    ensures |c.free| == |b.free|
  {
    assert Elems(b.free) == Elems(c.free);
    DistinctCard(b.free);
    DistinctCard(c.free);
  }

  /** A frame on the free list has count zero and nothing maps it. */
  lemma FreeIsUnmapped(b: Books, i: nat)
    requires Balanced(b) && i < |b.free|
    ensures b.free[i] < |b.refs| && b.refs[b.free[i]] == 0 && Mappers(b.leaf, b.free[i]) == {}
  {
    CountsMappers(b, b.free[i]);
  }

  // ----- steps ------------------------------------------------------------------------

  /** page_alloc hands out the head of the free list with one reference. */
  lemma AllocStep(b: Books, c: Books)
    requires Balanced(b) && b.free != []
    requires c == b.(refs := b.refs[b.free[0] := 1], free := b.free[1..],
                     holders := b.holders[b.free[0] := {Kernel(b.stamp)}], stamp := b.stamp + 1)
    ensures Balanced(c)
  {
    var f := b.free[0];
    assert b.holders[f] == {};
  }

  /** A leaf entry takes over kernel code's only reference to f. */
  lemma InstallLeaf(b: Books, f: nat, id: nat, k: Key, p: Pte, c: Books)
    requires Balanced(b) && f < |b.holders| && Kernel(id) in b.holders[f] && k !in b.leaf && p.frame == f
    requires p.w ==> b.holders[f] == {Kernel(id)}
    requires (forall j :: j in b.leaf && b.leaf[j].frame == f ==> !b.leaf[j].w)
    requires c == b.(leaf := b.leaf[k := p], holders := b.holders[f := b.holders[f] - {Kernel(id)} + {Leaf(k)}])
    ensures Balanced(c)
  {
    InstallLeafEntries(b, f, id, k, p, c);
    InstallLeafCounts(b, f, id, k, p, c);
  }

  lemma InstallLeafEntries(b: Books, f: nat, id: nat, k: Key, p: Pte, c: Books)
    requires Balanced(b) && f < |b.holders| && Kernel(id) in b.holders[f] && k !in b.leaf && p.frame == f
    requires p.w ==> b.holders[f] == {Kernel(id)}
    requires (forall j :: j in b.leaf && b.leaf[j].frame == f ==> !b.leaf[j].w)
    requires c == b.(leaf := b.leaf[k := p], holders := b.holders[f := b.holders[f] - {Kernel(id)} + {Leaf(k)}])
    ensures LeafOk(c.leaf, c.holders) && CowOk(c.leaf, c.holders)
  {
    hide RefsOk, FreeOk, TablesOk, TokensOk;
    assert Leaf(k) !in b.holders[f];
  }

  lemma InstallLeafCounts(b: Books, f: nat, id: nat, k: Key, p: Pte, c: Books)
    requires Balanced(b) && f < |b.holders| && Kernel(id) in b.holders[f] && k !in b.leaf && p.frame == f
    requires p.w ==> b.holders[f] == {Kernel(id)}
    requires (forall j :: j in b.leaf && b.leaf[j].frame == f ==> !b.leaf[j].w)
    requires c == b.(leaf := b.leaf[k := p], holders := b.holders[f := b.holders[f] - {Kernel(id)} + {Leaf(k)}])
    ensures RefsOk(c.refs, c.holders) && FreeOk(c.free, c.holders) && TablesOk(c.nodes, c.holders)
    ensures TokensOk(c.holders, c.stamp)
  {
    hide CowOk;
    assert Leaf(k) !in b.holders[f];
  }

  lemma InstallNode(b: Books, f: nat, id: nat, n: Node, c: Books)
    requires Balanced(b) && f < |b.holders| && b.holders[f] == {Kernel(id)} && n !in b.nodes
    requires c == b.(nodes := b.nodes[n := f], holders := b.holders[f := {Table(n)}])
    ensures Balanced(c)
  {
    assert RefsOk(c.refs, c.holders) && FreeOk(c.free, c.holders) by { hide LeafOk, TablesOk, TokensOk, CowOk; }
    assert LeafOk(c.leaf, c.holders) && CowOk(c.leaf, c.holders) by { hide RefsOk, FreeOk, TablesOk, TokensOk; }
    assert TablesOk(c.nodes, c.holders) && TokensOk(c.holders, c.stamp) by { hide RefsOk, FreeOk, LeafOk, CowOk; }
    hide RefsOk, FreeOk, LeafOk, CowOk, TablesOk, TokensOk;
  }

  /** page_get on the frame of entry k, which loses its write permission in the same breath. */
  lemma ShareStep(b: Books, k: Key, c: Books)
    requires Balanced(b) && k in b.leaf && b.leaf[k].frame < |b.refs| && b.refs[b.leaf[k].frame] < REF_MAX
    requires var f := b.leaf[k].frame;
             c == b.(refs := b.refs[f := b.refs[f] + 1], leaf := b.leaf[k := b.leaf[k].(w := false)],
                     holders := b.holders[f := b.holders[f] + {Kernel(b.stamp)}], stamp := b.stamp + 1)
    ensures Balanced(c)
  {
    ShareStepEntries(b, k, c);
    ShareStepCounts(b, k, c);
  }

  lemma ShareStepEntries(b: Books, k: Key, c: Books)
    requires Balanced(b) && k in b.leaf && b.leaf[k].frame < |b.refs| && b.refs[b.leaf[k].frame] < REF_MAX
    requires var f := b.leaf[k].frame;
             c == b.(refs := b.refs[f := b.refs[f] + 1], leaf := b.leaf[k := b.leaf[k].(w := false)],
                     holders := b.holders[f := b.holders[f] + {Kernel(b.stamp)}], stamp := b.stamp + 1)
    ensures LeafOk(c.leaf, c.holders) && CowOk(c.leaf, c.holders)
  {
    hide RefsOk, FreeOk, TablesOk, TokensOk;
    var f := b.leaf[k].frame;
    assert Leaf(k) in b.holders[f];
  }

  lemma ShareStepCounts(b: Books, k: Key, c: Books)
    requires Balanced(b) && k in b.leaf && b.leaf[k].frame < |b.refs| && b.refs[b.leaf[k].frame] < REF_MAX
    requires var f := b.leaf[k].frame;
             c == b.(refs := b.refs[f := b.refs[f] + 1], leaf := b.leaf[k := b.leaf[k].(w := false)],
                     holders := b.holders[f := b.holders[f] + {Kernel(b.stamp)}], stamp := b.stamp + 1)
    ensures RefsOk(c.refs, c.holders) && FreeOk(c.free, c.holders) && TablesOk(c.nodes, c.holders)
    ensures TokensOk(c.holders, c.stamp)
  {
    hide CowOk;
    var f := b.leaf[k].frame;
    assert Kernel(b.stamp) !in b.holders[f];
    assert Leaf(k) in b.holders[f];
  }

  /** What page_put leaves: one reference fewer, and a frame without references goes to the free list. */
  function Put(b: Books, f: nat, h: Holder): Books
    requires f < |b.refs| == |b.holders| && b.refs[f] > 0
  {
    b.(refs := b.refs[f := b.refs[f] - 1], free := if b.refs[f] == 1 then [f] + b.free else b.free,
       holders := b.holders[f := b.holders[f] - {h}])
  }

  lemma HolderCounts(b: Books, f: nat, h: Holder)
    requires Balanced(b) && f < |b.holders| && h in b.holders[f]
    ensures f < |b.refs| && b.refs[f] > 0 && (b.refs[f] == 1 <==> b.holders[f] == {h}) && f !in b.free
  {
    var rest := b.holders[f] - {h};
    assert b.holders[f] == rest + {h};
  }

  /** A leaf entry is cleared and its reference given back. */
  lemma DropLeaf(b: Books, k: Key, c: Books)
    requires Balanced(b) && k in b.leaf && b.leaf[k].frame < |b.refs| && b.refs[b.leaf[k].frame] > 0
    requires c == Put(b, b.leaf[k].frame, Leaf(k)).(leaf := b.leaf - {k})
    ensures Balanced(c)
  {
    DropLeafEntries(b, k, c);
    DropLeafCounts(b, k, c);
  }

  lemma DropLeafEntries(b: Books, k: Key, c: Books)
    requires Balanced(b) && k in b.leaf && b.leaf[k].frame < |b.refs| && b.refs[b.leaf[k].frame] > 0
    requires c == Put(b, b.leaf[k].frame, Leaf(k)).(leaf := b.leaf - {k})
    ensures LeafOk(c.leaf, c.holders) && CowOk(c.leaf, c.holders)
  {
    hide RefsOk, FreeOk, TablesOk, TokensOk;
    var f := b.leaf[k].frame;
    HolderCounts(b, f, Leaf(k));
  }

  lemma DropLeafCounts(b: Books, k: Key, c: Books)
    requires Balanced(b) && k in b.leaf && b.leaf[k].frame < |b.refs| && b.refs[b.leaf[k].frame] > 0
    requires c == Put(b, b.leaf[k].frame, Leaf(k)).(leaf := b.leaf - {k})
    ensures RefsOk(c.refs, c.holders) && FreeOk(c.free, c.holders) && TablesOk(c.nodes, c.holders)
    ensures TokensOk(c.holders, c.stamp)
  {
    hide CowOk;
    var f := b.leaf[k].frame;
    HolderCounts(b, f, Leaf(k));
    assert TablesOk(c.nodes, c.holders) && TokensOk(c.holders, c.stamp) by { hide RefsOk, FreeOk; }
    hide TablesOk, TokensOk;
    PutFree(b, f, Leaf(k), c.free, c.holders);
  }

  lemma PutFree(b: Books, f: nat, h: Holder, free: seq<nat>, holders: Holders)
    requires Balanced(b) && f < |b.refs| == |b.holders| && h in b.holders[f] && b.refs[f] > 0
    requires (b.refs[f] == 1 <==> b.holders[f] == {h}) && f !in b.free
    requires free == (if b.refs[f] == 1 then [f] + b.free else b.free) && holders == b.holders[f := b.holders[f] - {h}]
    ensures FreeOk(free, holders)
  {
    hide LeafOk, TablesOk, TokensOk, CowOk, RefsOk;
    assert FreeOk(b.free, b.holders);
  }

  /** An entry goes with its table, and its reference stays. */
  ghost function Lose(b: Books, k: Key): Books
    requires k in b.leaf && b.leaf[k].frame < |b.holders|
  {
    var f := b.leaf[k].frame;
    b.(leaf := b.leaf - {k}, holders := b.holders[f := b.holders[f] - {Leaf(k)} + {Kernel(b.stamp)}],
       stamp := b.stamp + 1)
  }

  /** The accounts stay balanced, with the reference held by nobody that could give it back. */
  lemma LoseLeaf(b: Books, k: Key, c: Books)
    requires Balanced(b) && k in b.leaf && !b.leaf[k].w && b.leaf[k].frame < |b.holders| && c == Lose(b, k)
    ensures Balanced(c)
  {
    LoseLeafEntries(b, k, c);
    LoseLeafCounts(b, k, c);
  }

  lemma LoseLeafEntries(b: Books, k: Key, c: Books)
    requires Balanced(b) && k in b.leaf && !b.leaf[k].w && b.leaf[k].frame < |b.holders| && c == Lose(b, k)
    ensures LeafOk(c.leaf, c.holders) && CowOk(c.leaf, c.holders)
  {
    hide RefsOk, FreeOk, TablesOk, TokensOk;
    var f := b.leaf[k].frame;
    assert Leaf(k) in b.holders[f];
  }

  lemma LoseLeafCounts(b: Books, k: Key, c: Books)
    requires Balanced(b) && k in b.leaf && !b.leaf[k].w && b.leaf[k].frame < |b.holders| && c == Lose(b, k)
    ensures RefsOk(c.refs, c.holders) && FreeOk(c.free, c.holders) && TablesOk(c.nodes, c.holders)
    ensures TokensOk(c.holders, c.stamp)
  {
    hide CowOk;
    var f := b.leaf[k].frame;
    assert Leaf(k) in b.holders[f] && Kernel(b.stamp) !in b.holders[f];
  }

  lemma DropNode(b: Books, n: Node, c: Books)
    requires Balanced(b) && n in b.nodes && b.nodes[n] < |b.refs| && b.refs[b.nodes[n]] > 0
    requires c == Put(b, b.nodes[n], Table(n)).(nodes := b.nodes - {n})
    ensures Balanced(c)
  {
    DropNodeEntries(b, n, c);
    DropNodeCounts(b, n, c);
  }

  lemma DropNodeEntries(b: Books, n: Node, c: Books)
    requires Balanced(b) && n in b.nodes && b.nodes[n] < |b.refs| && b.refs[b.nodes[n]] > 0
    requires c == Put(b, b.nodes[n], Table(n)).(nodes := b.nodes - {n})
    ensures LeafOk(c.leaf, c.holders) && CowOk(c.leaf, c.holders)
  {
    hide RefsOk, FreeOk, TokensOk;
    HolderCounts(b, b.nodes[n], Table(n));
  }

  lemma DropNodeCounts(b: Books, n: Node, c: Books)
    requires Balanced(b) && n in b.nodes && b.nodes[n] < |b.refs| && b.refs[b.nodes[n]] > 0
    requires c == Put(b, b.nodes[n], Table(n)).(nodes := b.nodes - {n})
    ensures RefsOk(c.refs, c.holders) && FreeOk(c.free, c.holders) && TablesOk(c.nodes, c.holders)
    ensures TokensOk(c.holders, c.stamp)
  {
    hide CowOk;
    HolderCounts(b, b.nodes[n], Table(n));
  }

  /** The copy half of a copy-on-write fault: entry k moves from a shared frame to its own new frame. */
  lemma RemapStep(b: Books, k: Key, f: nat, id: nat, p: Pte, c: Books)
    requires Balanced(b) && k in b.leaf && f < |b.holders| && b.holders[f] == {Kernel(id)} && p.frame == f
    requires b.leaf[k].frame < |b.refs| && b.refs[b.leaf[k].frame] > 1
    requires var g := b.leaf[k].frame;
             c == b.(refs := b.refs[g := b.refs[g] - 1], leaf := b.leaf[k := p],
                     holders := b.holders[f := {Leaf(k)}][g := b.holders[g] - {Leaf(k)}])
    ensures Balanced(c)
  {
    RemapStepEntries(b, k, f, id, p, c);
    RemapStepCounts(b, k, f, id, p, c);
  }

  lemma RemapStepEntries(b: Books, k: Key, f: nat, id: nat, p: Pte, c: Books)
    requires Balanced(b) && k in b.leaf && f < |b.holders| && b.holders[f] == {Kernel(id)} && p.frame == f
    requires b.leaf[k].frame < |b.refs| && b.refs[b.leaf[k].frame] > 1
    requires var g := b.leaf[k].frame;
             c == b.(refs := b.refs[g := b.refs[g] - 1], leaf := b.leaf[k := p],
                     holders := b.holders[f := {Leaf(k)}][g := b.holders[g] - {Leaf(k)}])
    ensures LeafOk(c.leaf, c.holders) && CowOk(c.leaf, c.holders)
  {
    hide RefsOk, FreeOk, TablesOk, TokensOk;
    var g := b.leaf[k].frame;
    assert Leaf(k) in b.holders[g] && g != f;
    HolderCounts(b, g, Leaf(k));
  }

  lemma RemapStepCounts(b: Books, k: Key, f: nat, id: nat, p: Pte, c: Books)
    requires Balanced(b) && k in b.leaf && f < |b.holders| && b.holders[f] == {Kernel(id)} && p.frame == f
    requires b.leaf[k].frame < |b.refs| && b.refs[b.leaf[k].frame] > 1
    requires var g := b.leaf[k].frame;
             c == b.(refs := b.refs[g := b.refs[g] - 1], leaf := b.leaf[k := p],
                     holders := b.holders[f := {Leaf(k)}][g := b.holders[g] - {Leaf(k)}])
    ensures RefsOk(c.refs, c.holders) && FreeOk(c.free, c.holders) && TablesOk(c.nodes, c.holders)
    ensures TokensOk(c.holders, c.stamp)
  {
    hide CowOk;
    var g := b.leaf[k].frame;
    assert Leaf(k) in b.holders[g] && g != f;
    HolderCounts(b, g, Leaf(k));
  }

  /** The no-copy half: the only reference to the frame becomes writable. */
  lemma UpgradeStep(b: Books, k: Key, c: Books)
    requires Balanced(b) && k in b.leaf && b.leaf[k].frame < |b.refs| && b.refs[b.leaf[k].frame] == 1
    requires c == b.(leaf := b.leaf[k := b.leaf[k].(w := true)])
    ensures Balanced(c)
  {
    HolderCounts(b, b.leaf[k].frame, Leaf(k));
  }
}
