/** Copy-on-write virtual memory: allocation, mapping, fork, faults, unmapping and teardown. */
module CowVm {
  import opened Bytes
  import opened VmaList
  import opened FrameAccounts

  const PAGES := L2_USER * ENTRIES * ENTRIES  // user pages of an address space

  /** The root slot, 0x8000_0000 to 0xC000_0000, that points every process at the same table of the kernel. */
  const SHARED := 2

  /** So many of that table's entries lead to the kernel's own map of physical memory, up to 0x8800_0000. */
  const IDENTITY := 64

  type Page = seq<byte>

  ghost predicate PagesOk(mem: seq<Page>) { forall f :: 0 <= f < |mem| ==> |mem[f]| == PAGE_SIZE }

  function ZeroPage(): (p: Page)
    ensures |p| == PAGE_SIZE && forall i :: 0 <= i < |p| ==> p[i] == 0
  {
    seq(PAGE_SIZE, i => 0)
  }

  ghost predicate KeyOk(k: Key) {
    k.i2 < L2_USER && k.i1 < ENTRIES && k.i0 < ENTRIES && (k.i2 == SHARED <==> k.pid == KERNEL)
  }

  /** A page of the kernel's map of physical memory: present for everybody, but not for user code. */
  predicate OwnPage(k: Key) { k.i2 == SHARED && k.i1 < IDENTITY }

  /** The order in which tables are walked. */
  function Order(k: Key): nat { (k.i2 * ENTRIES + k.i1) * ENTRIES + k.i0 }

  /** The kernel's table is there for the shared slot, and for no other. */
  ghost predicate SlotOk(p: nat, i: nat) { i < L2_USER && (i == SHARED <==> p == KERNEL) }

  /**
   Leaf entries hang off tables that hang off tables that hang off a root. Those of the shared slot belong to the
   kernel, whichever process they were made for.
   */
  ghost predicate TreeOk(leaf: map<Key, Pte>, nodes: map<Node, nat>) {
    && Root(KERNEL) in nodes && Mid(KERNEL, SHARED) in nodes
    && (forall k :: k in leaf ==> KeyOk(k) && !OwnPage(k) && Low(k.pid, k.i2, k.i1) in nodes)
    && (forall p: nat, i: nat, j: nat :: Low(p, i, j) in nodes ==> Mid(p, i) in nodes && SlotOk(p, i) && j < ENTRIES)
    && (forall p: nat, i: nat :: Mid(p, i) in nodes ==> Root(p) in nodes && SlotOk(p, i))
  }

  /** What a process sees at a page: the mapped frame's bytes, or zeros not yet allocated. */
  ghost function Look(leaf: map<Key, Pte>, mem: seq<Page>, k: Key): Page {
    if k in leaf && leaf[k].frame < |mem| then mem[leaf[k].frame] else ZeroPage()
  }

  /** What lies behind an entry that nothing goes through is a page of zeros. */
  ghost predicate DarkZero(leaf: map<Key, Pte>, mem: seq<Page>) {
    forall k :: k in leaf && Dark(leaf[k]) && leaf[k].frame < |mem| ==> mem[leaf[k].frame] == ZeroPage()
  }

  /** Every process sees what it saw. */
  ghost predicate SameViews(leaf: map<Key, Pte>, mem: seq<Page>, leaf': map<Key, Pte>, mem': seq<Page>) {
    forall k: Key :: Look(leaf', mem', k) == Look(leaf, mem, k)
  }

  /** Frames in use keep their contents. */
  ghost predicate UsedKept(holders: Holders, mem: seq<Page>, mem': seq<Page>) {
    |mem'| == |mem| && forall f :: 0 <= f < |mem| && f < |holders| && holders[f] != {} ==> mem'[f] == mem[f]
  }

  /** Frames in use stay in use. */
  ghost predicate StillHeld(h: Holders, h': Holders) {
    |h'| == |h| && forall f :: 0 <= f < |h| && h[f] != {} ==> h'[f] != {}
  }

  /** No reference is gained or lost by kernel code. */
  ghost predicate SameTokens(h: Holders, h': Holders) {
    |h'| == |h| && forall f, id: nat :: 0 <= f < |h| ==> (Kernel(id) in h'[f] <==> Kernel(id) in h[f])
  }

  /** Kernel code may have gained references to frame g. */
  ghost predicate TokensMore(h: Holders, h': Holders, g: nat) {
    && |h'| == |h| && (forall f, id: nat :: 0 <= f < |h| && Kernel(id) in h'[f] ==> Kernel(id) in h[f] || f == g)
    && (forall f, id: nat :: 0 <= f < |h| && Kernel(id) in h[f] ==> Kernel(id) in h'[f])
  }

  lemma MoreOnUsed(h: Holders, h1: Holders, h2: Holders, g: nat)
    requires SameTokens(h, h1) && TokensMore(h1, h2, g) && g < |h| && h[g] != {}
    ensures TokensOnUsed(h, h2)
  {
  }

  /** Kernel code, or nobody any more, has a reference. */
  ghost predicate HasToken(h: set<Holder>) { exists id :: Kernel(id) in h }

  /** A blank entry of address space pid below n mapped frame f. */
  ghost predicate LostAt(was: map<Key, Pte>, pid: nat, n: nat, f: nat) {
    exists k :: k in was && k.pid == pid && Blank(was[k]) && Order(k) < n && was[k].frame == f
  }

  /** With address space pid's entries below n gone, exactly the references of the blank ones are lost. */
  ghost predicate Lost(was: map<Key, Pte>, h: Holders, h': Holders, pid: nat, n: nat) {
    && |h'| == |h|
    && (forall f, id: nat :: 0 <= f < |h| && Kernel(id) in h[f] ==> Kernel(id) in h'[f])
    && (forall f, id: nat :: 0 <= f < |h| && Kernel(id) in h'[f] ==> Kernel(id) in h[f] || LostAt(was, pid, n, f))
    && (forall k :: k in was && k.pid == pid && Blank(was[k]) && Order(k) < n && was[k].frame < |h'| ==>
          HasToken(h'[was[k].frame]))
  }

  lemma LostThen(was: map<Key, Pte>, h: Holders, h1: Holders, h2: Holders, pid: nat, n: nat)
    requires Lost(was, h, h1, pid, n) && SameTokens(h1, h2)
    ensures Lost(was, h, h2, pid, n)
  {
    hide Order;
    forall f | 0 <= f < |h1| && HasToken(h1[f]) ensures HasToken(h2[f]) {
      var id :| Kernel(id) in h1[f];
      assert Kernel(id) in h2[f];
    }
  }

  lemma LostSkip(was: map<Key, Pte>, h: Holders, h1: Holders, pid: nat, n: nat, m: nat)
    requires Lost(was, h, h1, pid, n) && n <= m
    requires forall k :: k in was && k.pid == pid && Blank(was[k]) ==> !(n <= Order(k) < m)
    ensures Lost(was, h, h1, pid, m)
  {
    hide Order;
    forall f | LostAt(was, pid, n, f) ensures LostAt(was, pid, m, f) { }
  }

  lemma LostStep(was: map<Key, Pte>, h: Holders, h1: Holders, h2: Holders, k: Key, id: nat)
    requires Lost(was, h, h1, k.pid, Order(k)) && k in was && KeyOk(k) && Blank(was[k]) && was[k].frame < |h1|
    requires h2 == h1[was[k].frame := h1[was[k].frame] - {Leaf(k)} + {Kernel(id)}]
    requires forall j :: j in was ==> KeyOk(j)
    ensures Lost(was, h, h2, k.pid, Order(k) + 1)
  {
    hide Order, KeyOk;
    forall j | j in was && j.pid == k.pid && Order(j) == Order(k) ensures j == k { OrderInjective(j, k); }
    forall f | 0 <= f < |h1| && HasToken(h1[f]) ensures HasToken(h2[f]) {
      var i :| Kernel(i) in h1[f];
      assert Kernel(i) in h2[f];
    }
    assert Kernel(id) in h2[was[k].frame] && LostAt(was, k.pid, Order(k) + 1, was[k].frame);
    forall f | LostAt(was, k.pid, Order(k), f) ensures LostAt(was, k.pid, Order(k) + 1, f) { }
  }

  /** No entry of address space pid is blank. */
  ghost predicate NoBlanks(leaf: map<Key, Pte>, pid: nat) {
    forall k :: k in leaf && k.pid == pid ==> !Blank(leaf[k])
  }

  lemma NoneLost(was: map<Key, Pte>, h: Holders, h': Holders, pid: nat)
    requires Lost(was, h, h', pid, PAGES) && NoBlanks(was, pid)
    ensures SameTokens(h, h')
  {
    hide Order;
  }

  lemma SomeLost(was: map<Key, Pte>, h: Holders, h': Holders, pid: nat, k: Key)
    requires Lost(was, h, h', pid, PAGES) && k in was && k.pid == pid && Blank(was[k]) && KeyOk(k)
    requires was[k].frame < |h'|
    ensures !NothingLost(h')
  {
    OrderBound(k);
    hide Order;
    assert HasToken(h'[was[k].frame]);
    var id :| Kernel(id) in h'[was[k].frame];
  }

  lemma LostSize(was: map<Key, Pte>, h: Holders, h': Holders, pid: nat)
    requires Lost(was, h, h', pid, PAGES)
    ensures |h'| == |h|
  {
  }

  lemma OrderBound(k: Key)
    requires KeyOk(k)
    ensures Order(k) < PAGES
  {
  }

  /** Every table page that was there is, and the new ones belong to address space c. */
  ghost predicate NodesGrown(nodes: map<Node, nat>, nodes': map<Node, nat>, c: nat) {
    && (forall n :: n in nodes ==> n in nodes' && nodes'[n] == nodes[n])
    && (forall n :: n in nodes' && n !in nodes ==> n.pid == c)
  }

  /** Frames in use, apart from g, keep all their references. */
  ghost predicate HoldersKept(h: Holders, h': Holders) {
    |h'| == |h| && forall f :: 0 <= f < |h| && h[f] != {} ==> h'[f] == h[f]
  }

  lemma UsedThen(h: Holders, m: seq<Page>, h1: Holders, m1: seq<Page>, m2: seq<Page>)
    requires UsedKept(h, m, m1) && UsedKept(h1, m1, m2) && StillHeld(h, h1) && |h| == |m|
    ensures UsedKept(h, m, m2)
  {
  }

  lemma HeldThen(h: Holders, h1: Holders, h2: Holders)
    requires StillHeld(h, h1) && StillHeld(h1, h2)
    ensures StillHeld(h, h2)
  {
  }

  lemma TokensThen(h: Holders, h1: Holders, h2: Holders)
    requires SameTokens(h, h1) && SameTokens(h1, h2)
    ensures SameTokens(h, h2)
  {
  }

  /** What the entries map is in use, so the views do not change. */
  lemma ViewsKept(b: Books, m: seq<Page>, m': seq<Page>)
    requires Balanced(b) && |m| == |b.refs| && UsedKept(b.holders, m, m')
    ensures SameViews(b.leaf, m, b.leaf, m')
  {
    forall k: Key ensures Look(b.leaf, m', k) == Look(b.leaf, m, k) {
      if k in b.leaf { assert Leaf(k) in b.holders[b.leaf[k].frame]; }
    }
  }

  lemma NodeTree(leaf: map<Key, Pte>, nodes: map<Node, nat>, n: Node, f: nat)
    requires TreeOk(leaf, nodes) && n !in nodes
    requires match n
      case Root(_) => true
      case Mid(p, i) => Root(p) in nodes && SlotOk(p, i)
      case Low(p, i, j) => Mid(p, i) in nodes && j < ENTRIES
    ensures TreeOk(leaf, nodes[n := f])
  {
  }

  /** Part of the state when an operation began. */
  datatype Vm0 = Vm0(leaf: map<Key, Pte>, nodes: map<Node, nat>, holders: Holders, mem: seq<Page>, free: nat)

  /** The holders were those the entries and tables say. */
  ghost predicate WasHeld(was: Vm0) { LeafOk(was.leaf, was.holders) && TablesOk(was.nodes, was.holders) }

  /** What c maps was in use. */
  ghost predicate ChildFrames(was: Vm0, leaf: map<Key, Pte>, c: nat) {
    forall k :: k in leaf && k.pid == c ==> leaf[k].frame < |was.holders| && was.holders[leaf[k].frame] != {}
  }

  lemma WasFrame(was: Vm0, k: Key)
    requires WasHeld(was) && k in was.leaf
    ensures was.leaf[k].frame < |was.holders| && was.holders[was.leaf[k].frame] != {}
  {
  }

  lemma SharedFrames(was: Vm0, now: map<Key, Pte>, k: Key, c: nat, n: nat, next: map<Key, Pte>)
    requires WasHeld(was) && Shared(was.leaf, now, k.pid, c, n) && k.pid != c
    requires next == now || (k in next && next == now[k := next[k]])
    ensures ChildFrames(was, next, c)
  {
    hide Order;
    forall j | j in next && j.pid == c ensures next[j].frame < |was.holders| && was.holders[next[j].frame] != {} {
      var i := j.(pid := k.pid);
      assert j in now && i in was.leaf && Leaf(i) in was.holders[was.leaf[i].frame];
    }
  }

  /** The child's lost references are to frames that were in use. */
  lemma LostOnUsed(was: Vm0, leaf: map<Key, Pte>, h1: Holders, h2: Holders, c: nat)
    requires TokensOnUsed(was.holders, h1) && Lost(leaf, h1, h2, c, PAGES) && ChildFrames(was, leaf, c)
    ensures TokensOnUsed(was.holders, h2)
  {
    hide Order;
  }

  /** The entries that the pages of c below n, and those of p below n, should have: shared and read-only. */
  ghost predicate Shared(was: map<Key, Pte>, now: map<Key, Pte>, p: nat, c: nat, n: nat) {
    && (forall k :: k in now <==> SharedHas(was, p, c, n, k))
    && (forall k :: k in now ==> now[k] == SharedEntry(was, p, c, n, k))
  }

  ghost predicate SharedHas(was: map<Key, Pte>, p: nat, c: nat, n: nat, k: Key) {
    if k.pid == c then k.(pid := p) in was && !Blank(was[k.(pid := p)]) && Order(k) < n else k in was
  }

  ghost function SharedEntry(was: map<Key, Pte>, p: nat, c: nat, n: nat, k: Key): Pte
    requires SharedHas(was, p, c, n, k)
  {
    if k.pid == c then was[k.(pid := p)].(w := false)
    else if k.pid == p && Order(k) < n then was[k].(w := false) else was[k]
  }

  /** Entry k of p is one that sharing takes over before page n. */
  ghost predicate Passed(was: map<Key, Pte>, p: nat, n: nat, k: Key) {
    k in was && k.pid == p && !Blank(was[k]) && Order(k) < n
  }

  /** The tables that c needs for p's pages below n. */
  ghost function Need(was: map<Key, Pte>, p: nat, c: nat, n: nat): set<Node> {
    {Root(c)} + (set k | k in was && Passed(was, p, n, k) :: Mid(c, k.i2))
    + (set k | k in was && Passed(was, p, n, k) :: Low(c, k.i2, k.i1))
  }

  /** Address space c has exactly those tables, and the free memory has paid for them. */
  ghost predicate Built(was: Vm0, nodes: map<Node, nat>, free: nat, p: nat, c: nat, n: nat) {
    && (forall m: Node :: m in nodes && m.pid == c <==> m in Need(was.leaf, p, c, n))
    && free + |Need(was.leaf, p, c, n)| == was.free
  }

  lemma BuiltStart(was: Vm0, nodes: map<Node, nat>, free: nat, p: nat, c: nat)
    requires Root(c) in nodes && nodes == was.nodes[Root(c) := nodes[Root(c)]] && free + 1 == was.free
    requires forall m :: m in was.nodes ==> m.pid != c
    ensures Built(was, nodes, free, p, c, 0)
  {
    assert Need(was.leaf, p, c, 0) == {Root(c)};
  }

  lemma NeedSame(was: map<Key, Pte>, now: map<Key, Pte>, p: nat, c: nat, n: nat, m: nat)
    requires p != c && Shared(was, now, p, c, n) && Shared(was, now, p, c, m)
    ensures Need(was, p, c, n) == Need(was, p, c, m)
  {
    hide Order;
    forall k | k in was ensures Passed(was, p, n, k) <==> Passed(was, p, m, k) {
      if k.pid == p && !Blank(was[k]) {
        SamePlace(k, c);
        assert k.(pid := c).(pid := p) == k;
        assert k.(pid := c) in now <==> Order(k) < n;
        assert k.(pid := c) in now <==> Order(k) < m;
      }
    }
  }

  lemma NeedStep(was: map<Key, Pte>, k: Key, c: nat)
    requires k in was && !Blank(was[k]) && (forall j :: j in was ==> KeyOk(j))
    ensures Need(was, k.pid, c, Order(k) + 1) == Need(was, k.pid, c, Order(k)) + {Mid(c, k.i2), Low(c, k.i2, k.i1)}
  {
    hide Order;
    var p, n := k.pid, Order(k);
    assert Passed(was, p, n + 1, k);
    forall j | j in was ensures Passed(was, p, n + 1, j) <==> Passed(was, p, n, j) || j == k {
      if j.pid == p && Order(j) == n { OrderInjective(j, k); }
    }
  }

  lemma NeedsRoot(was: map<Key, Pte>, p: nat, c: nat)
    ensures |Need(was, p, c, PAGES)| > 0
  {
    assert Root(c) in Need(was, p, c, PAGES);
  }

  lemma NeedGrows(was: map<Key, Pte>, p: nat, c: nat, n: nat, m: nat)
    requires n <= m
    ensures Need(was, p, c, n) <= Need(was, p, c, m)
  {
    hide Order;
    forall k | k in was && Passed(was, p, n, k) ensures Passed(was, p, m, k) { }
  }

  lemma TwoMore(s: set<Node>, a: Node, b: Node)
    requires a != b && (b in s ==> a in s)
    ensures |s + {a, b}| == |s| + if a !in s then 2 else if b !in s then 1 else 0
  {
    if a !in s {
      assert s + {a, b} == s + {a} + {b};
    } else if b !in s {
      assert s + {a, b} == s + {b};
    } else {
      assert s + {a, b} == s;
    }
  }

  lemma {:induction false} SubsetCard(s: set<Node>, t: set<Node>)
    requires s <= t
    ensures |s| <= |t|
  {
    assert t == s + (t - s);
  }

  /** What sharing entry k costs, and what it means that there is not enough. */
  lemma NeedCost(was: Vm0, nodes: map<Node, nat>, free: nat, k: Key, c: nat)
    requires Built(was, nodes, free, k.pid, c, Order(k)) && k in was.leaf && !Blank(was.leaf[k]) && KeyOk(k)
    requires (forall j :: j in was.leaf ==> KeyOk(j)) && (Low(c, k.i2, k.i1) in nodes ==> Mid(c, k.i2) in nodes)
    ensures |Need(was.leaf, k.pid, c, Order(k) + 1)|
            == |Need(was.leaf, k.pid, c, Order(k))| + Missing(nodes, c, k.i2, k.i1)
    ensures free < Missing(nodes, c, k.i2, k.i1) ==> |Need(was.leaf, k.pid, c, PAGES)| > was.free
  {
    OrderBound(k);
    hide Order, KeyOk;
    var s := Need(was.leaf, k.pid, c, Order(k));
    NeedStep(was.leaf, k, c);
    assert (Mid(c, k.i2) in nodes <==> Mid(c, k.i2) in s) && (Low(c, k.i2, k.i1) in nodes <==> Low(c, k.i2, k.i1) in s);
    hide Need;
    TwoMore(s, Mid(c, k.i2), Low(c, k.i2, k.i1));
    NeedGrows(was.leaf, k.pid, c, Order(k) + 1, PAGES);
    SubsetCard(Need(was.leaf, k.pid, c, Order(k) + 1), Need(was.leaf, k.pid, c, PAGES));
  }

  lemma BuiltStep(was: Vm0, nodes: map<Node, nat>, free: nat, k: Key, c: nat, nodes': map<Node, nat>, free': nat)
    requires Built(was, nodes, free, k.pid, c, Order(k)) && k in was.leaf && !Blank(was.leaf[k]) && KeyOk(k)
    requires (forall j :: j in was.leaf ==> KeyOk(j)) && (Low(c, k.i2, k.i1) in nodes ==> Mid(c, k.i2) in nodes)
    requires nodes'.Keys == nodes.Keys + {Mid(c, k.i2), Low(c, k.i2, k.i1)}
    requires free' == free - Missing(nodes, c, k.i2, k.i1)
    ensures Built(was, nodes', free', k.pid, c, Order(k) + 1)
  {
    hide Order, KeyOk, Need, Missing;
    NeedCost(was, nodes, free, k, c);
    NeedStep(was.leaf, k, c);
    BuiltNodes(Need(was.leaf, k.pid, c, Order(k)), nodes, nodes', Mid(c, k.i2), Low(c, k.i2, k.i1), c);
  }

  lemma BuiltNodes(s: set<Node>, nodes: map<Node, nat>, nodes': map<Node, nat>, a: Node, b: Node, c: nat)
    requires (forall m: Node :: m in nodes && m.pid == c <==> m in s) && a.pid == b.pid == c
    requires nodes'.Keys == nodes.Keys + {a, b}
    ensures forall m: Node :: m in nodes' && m.pid == c <==> m in s + {a, b}
  {
    forall m: Node ensures m in nodes' <==> m in nodes || m in {a, b} { assert m in nodes' <==> m in nodes'.Keys; }
  }

  lemma SameBuilt(was: Vm0, nodes: map<Node, nat>, free: nat, p: nat, c: nat, n: nat, m: nat)
    requires Built(was, nodes, free, p, c, n) && Need(was.leaf, p, c, n) == Need(was.leaf, p, c, m)
    ensures Built(was, nodes, free, p, c, m)
  {
    hide Need;
  }

  /** Entries outside c are as they were, except that p's below n have lost write permission. */
  ghost predicate Protected(was: map<Key, Pte>, now: map<Key, Pte>, p: nat, c: nat, n: nat) {
    && (forall k: Key :: k.pid != c ==> (k in now <==> k in was))
    && (forall k: Key :: k.pid != c && k in now && k in was ==>
          now[k] == if k.pid == p && Order(k) < n then was[k].(w := false) else was[k])
  }

  /** Sharing stopped just after one of p's entries. */
  ghost predicate StopsAfter(was: map<Key, Pte>, p: nat, n: nat) {
    exists k :: k in was && k.pid == p && !Blank(was[k]) && n == Order(k) + 1
  }

  /** Kernel code holds references only to frames that were in use. */
  ghost predicate TokensOnUsed(h: Holders, h': Holders) {
    && |h'| == |h| && (forall f, id: nat :: 0 <= f < |h| && Kernel(id) in h'[f] ==> h[f] != {})
    && (forall f, id: nat :: 0 <= f < |h| && Kernel(id) in h[f] ==> Kernel(id) in h'[f])
  }

  lemma SameOnUsed(h: Holders, h1: Holders)
    requires SameTokens(h, h1)
    ensures TokensOnUsed(h, h1)
  {
  }

  lemma NodesBack(n0: map<Node, nat>, n1: map<Node, nat>, n2: map<Node, nat>, c: nat)
    requires NodesGrown(n0, n1, c) && (forall n :: n in n0 ==> n.pid != c)
    requires forall n: Node :: n in n2 <==> n in n1 && n.pid != c
    requires forall n: Node :: n in n2 ==> n2[n] == n1[n]
    ensures n2 == n0
  {
    assert n2.Keys == n0.Keys;
  }

  /** A fresh address space c, and entries that are user pages. */
  ghost predicate WasOk(was: map<Key, Pte>, c: nat) { forall k :: k in was ==> KeyOk(k) && k.pid != c }

  lemma OrderInjective(j: Key, k: Key)
    requires KeyOk(j) && KeyOk(k) && Order(j) == Order(k) && j.pid == k.pid
    ensures j == k
  {
    Digits(j.i2 * ENTRIES + j.i1, j.i0, k.i2 * ENTRIES + k.i1, k.i0);
    Digits(j.i2, j.i1, k.i2, k.i1);
  }

  lemma Digits(a: nat, x: nat, b: nat, y: nat)
    requires a * ENTRIES + x == b * ENTRIES + y && x < ENTRIES && y < ENTRIES
    ensures a == b && x == y
  {
  }

  lemma SharedStart(was: map<Key, Pte>, p: nat, c: nat)
    requires WasOk(was, c)
    ensures Shared(was, was, p, c, 0)
  {
  }

  lemma SharedAt(was: map<Key, Pte>, now: map<Key, Pte>, k: Key, c: nat)
    requires Shared(was, now, k.pid, c, Order(k)) && k.pid != c
    ensures (k in now <==> k in was) && k.(pid := c) !in now && (k in was ==> now[k] == was[k])
  {
    assert Order(k.(pid := c)) == Order(k);
  }

  lemma SharedSkip(was: map<Key, Pte>, now: map<Key, Pte>, p: nat, c: nat, n: nat, m: nat)
    requires Shared(was, now, p, c, n) && n <= m && p != c
    requires forall k :: k in was && k.pid == p && !Blank(was[k]) ==> !(n <= Order(k) < m)
    ensures Shared(was, now, p, c, m)
  {
  }

  lemma SharedAbsent(was: map<Key, Pte>, now: map<Key, Pte>, k: Key, c: nat)
    requires Shared(was, now, k.pid, c, Order(k)) && KeyOk(k) && k.pid != c && WasOk(was, c)
    requires k !in was || Blank(was[k])
    ensures Shared(was, now, k.pid, c, Order(k) + 1)
  {
    hide Shared, Order;
    forall j | j in was && j.pid == k.pid && !Blank(was[j]) ensures !(Order(k) <= Order(j) < Order(k) + 1) {
      if Order(j) == Order(k) { OrderInjective(j, k); }
    }
    SharedSkip(was, now, k.pid, c, Order(k), Order(k) + 1);
  }

  /** The pages of one last-level table are consecutive. */
  lemma OrderLow(k: Key, i2: nat, i1: nat)
    requires KeyOk(k) && i1 < ENTRIES && (i2 * ENTRIES + i1) * ENTRIES <= Order(k) < (i2 * ENTRIES + i1 + 1) * ENTRIES
    ensures k.i2 == i2 && k.i1 == i1
  {
  }

  lemma OrderMid(k: Key, i2: nat)
    requires KeyOk(k) && i2 * ENTRIES * ENTRIES <= Order(k) < (i2 + 1) * ENTRIES * ENTRIES
    ensures k.i2 == i2
  {
  }

  lemma OutsideLow(k: Key, i2: nat, i1: nat)
    requires KeyOk(k) && i1 < ENTRIES && !(k.i2 == i2 && k.i1 == i1)
    ensures !((i2 * ENTRIES + i1) * ENTRIES <= Order(k) < (i2 * ENTRIES + i1 + 1) * ENTRIES)
  {
  }

  lemma OutsideMid(k: Key, i2: nat)
    requires KeyOk(k) && k.i2 != i2
    ensures !(i2 * ENTRIES * ENTRIES <= Order(k) < (i2 + 1) * ENTRIES * ENTRIES)
  {
  }

  lemma SkippedLow(was: map<Key, Pte>, now: map<Key, Pte>, nodes: map<Node, nat>, p: nat, c: nat, i2: nat, i1: nat)
    requires p != c && Shared(was, now, p, c, (i2 * ENTRIES + i1) * ENTRIES) && WasOk(was, c) && i1 < ENTRIES
    requires TreeOk(now, nodes) && Low(p, i2, i1) !in nodes
    ensures Shared(was, now, p, c, (i2 * ENTRIES + i1 + 1) * ENTRIES)
  {
    hide Order, SharedEntry, KeyOk;
    var n, m := (i2 * ENTRIES + i1) * ENTRIES, (i2 * ENTRIES + i1 + 1) * ENTRIES;
    forall k | k in was && k.pid == p ensures !(n <= Order(k) < m) {
      assert k in now;
      assert Low(p, k.i2, k.i1) in nodes;
      OutsideLow(k, i2, i1);
    }
    SharedSkip(was, now, p, c, n, m);
  }

  lemma SkippedMid(was: map<Key, Pte>, now: map<Key, Pte>, nodes: map<Node, nat>, p: nat, c: nat, i2: nat)
    requires p != c && Shared(was, now, p, c, i2 * ENTRIES * ENTRIES) && WasOk(was, c)
    requires TreeOk(now, nodes) && Mid(p, i2) !in nodes
    ensures Shared(was, now, p, c, (i2 + 1) * ENTRIES * ENTRIES)
  {
    hide Order, SharedEntry, KeyOk;
    var n, m := i2 * ENTRIES * ENTRIES, (i2 + 1) * ENTRIES * ENTRIES;
    forall k | k in was && k.pid == p ensures !(n <= Order(k) < m) {
      assert k in now;
      assert Low(p, k.i2, k.i1) in nodes;
      OutsideMid(k, i2);
    }
    SharedSkip(was, now, p, c, n, m);
  }

  lemma SharedStep(was: map<Key, Pte>, now: map<Key, Pte>, k: Key, c: nat, next: map<Key, Pte>)
    requires Shared(was, now, k.pid, c, Order(k)) && k in was && !Blank(was[k]) && KeyOk(k) && k.pid != c
    requires WasOk(was, c)
    requires next == now[k := was[k].(w := false)][k.(pid := c) := was[k].(w := false)]
    ensures Shared(was, next, k.pid, c, Order(k) + 1)
  {
    hide Order;
    var p, n := k.pid, Order(k);
    forall j: Key
      ensures j in next <==> SharedHas(was, p, c, n + 1, j)
      ensures j in next ==> next[j] == SharedEntry(was, p, c, n + 1, j)
    {
      SamePlace(j, p);
      SamePlace(k, c);
      if Order(j) == n && j.(pid := p) in was { OrderInjective(j.(pid := p), k); }
    }
  }

  lemma SamePlace(k: Key, p: nat)
    ensures Order(k.(pid := p)) == Order(k)
  {
  }

  lemma SharedStop(was: map<Key, Pte>, now: map<Key, Pte>, k: Key, c: nat, next: map<Key, Pte>)
    requires Shared(was, now, k.pid, c, Order(k)) && k in was && k.pid != c && WasOk(was, c) && KeyOk(k)
    ensures next == now ==> Protected(was, next, k.pid, c, Order(k))
    ensures next == now[k := was[k].(w := false)] ==> Protected(was, next, k.pid, c, Order(k) + 1)
  {
    hide Order;
    forall j: Key | j in was && j.pid == k.pid && Order(j) == Order(k) ensures j == k { OrderInjective(j, k); }
  }

  /** Some frame already has half as many references as it can have. */
  ghost predicate Crowded(h: Holders) { exists f :: 0 <= f < |h| && 2 * |h[f]| >= REF_MAX }

  lemma CrowdedCounts(b: Books)
    requires Balanced(b) && Crowded(b.holders)
    ensures exists f :: 0 <= f < |b.refs| && 2 * b.refs[f] >= REF_MAX
  {
    var f :| 0 <= f < |b.holders| && 2 * |b.holders[f]| >= REF_MAX;
    assert b.refs[f] == |b.holders[f]|;
  }

  /** The same pages of c. */
  ghost function Copies(h: set<Holder>, c: nat): set<Holder> { set x | x in h && x.Leaf? :: Leaf(x.k.(pid := c)) }

  lemma {:induction false} CopiesCard(h: set<Holder>, c: nat)
    ensures |Copies(h, c)| <= |h|
  {
    if h == {} {
      assert Copies(h, c) == {};
    } else {
      var x :| x in h;
      CopiesCard(h - {x}, c);
      var one := if x.Leaf? then {Leaf(x.k.(pid := c))} else {};
      assert Copies(h, c) == Copies(h - {x}, c) + one;
    }
  }

  lemma UnionCard(h: set<Holder>, a: set<Holder>, b: set<Holder>)
    requires h <= a + b
    ensures |h| <= |a| + |b|
  {
    var more := a + b - h;
    assert a + b == h + more;
    assert |a + b| == |h| + |more|;
    assert |a + b| <= |a| + |b| by { assert a + b == a + (b - a); assert b == (b - a) + (b * a); }
  }

  /** Sharing at most doubles a frame's references. */
  lemma CrowdedThen(b: Books, was: Vm0, p: nat, c: nat, n: nat, k: Key)
    requires Balanced(b) && WasHeld(was) && Shared(was.leaf, b.leaf, p, c, n) && SameTokens(was.holders, b.holders)
    requires k in b.leaf && b.leaf[k].frame < |b.refs| && b.refs[b.leaf[k].frame] == REF_MAX
    ensures Crowded(was.holders)
  {
    hide Order, CowOk, FreeOk, TokensOk;
    var f := b.leaf[k].frame;
    var now, before := b.holders[f], was.holders[f];
    assert Leaf(k) in now;
    forall h | h in now ensures h in before + Copies(before, c) { CameFrom(b, was, p, c, n, f, h, k); }
    CopiesCard(before, c);
    UnionCard(now, before, Copies(before, c));
  }

  lemma CameFrom(b: Books, was: Vm0, p: nat, c: nat, n: nat, f: nat, h: Holder, k: Key)
    requires Balanced(b) && WasHeld(was) && Shared(was.leaf, b.leaf, p, c, n) && SameTokens(was.holders, b.holders)
    requires f < |b.holders| && h in b.holders[f] && Leaf(k) in b.holders[f]
    ensures h in was.holders[f] + Copies(was.holders[f], c)
  {
    hide Order, CowOk, FreeOk, TokensOk, RefsOk;
    match h {
      case Leaf(j) =>
        assert j in b.leaf && b.leaf[j].frame == f;
        if j.pid == c {
          var i := j.(pid := p);
          assert i in was.leaf && Leaf(i) in was.holders[f] && j == i.(pid := c);
        } else {
          assert j in was.leaf && Leaf(j) in was.holders[f];
        }
      case Table(m) => assert false;
      case Kernel(id) =>
    }
  }

  lemma SameFrames(was: map<Key, Pte>, now: map<Key, Pte>, p: nat, c: nat, n: nat)
    requires Protected(was, now, p, c, n) && (forall k: Key :: k in was ==> k.pid != c)
    requires (forall k: Key :: k in now ==> k.pid != c)
    ensures now.Keys == was.Keys && forall k :: k in was ==> now[k].frame == was[k].frame
  {
    hide Order;
  }

  /** What entries and tables hold in the one state they hold in the other, if both have the same of them. */
  lemma HeldIn(l: map<Key, Pte>, h: Holders, l': map<Key, Pte>, h': Holders, nodes: map<Node, nat>)
    requires LeafOk(l, h) && TablesOk(nodes, h) && LeafOk(l', h') && TablesOk(nodes, h') && |h| == |h'|
    requires l.Keys == l'.Keys && forall k :: k in l ==> l'[k].frame == l[k].frame
    ensures forall f, k :: 0 <= f < |h| && Leaf(k) in h[f] ==> Leaf(k) in h'[f]
    ensures forall f, n :: 0 <= f < |h| && Table(n) in h[f] ==> Table(n) in h'[f]
  {
    forall f, k | 0 <= f < |h| && Leaf(k) in h[f]
      ensures Leaf(k) in h'[f]
    {
      assert k in l && l[k].frame == f && k in l';
    }
    forall f, n | 0 <= f < |h| && Table(n) in h[f] ensures Table(n) in h'[f] { assert n in nodes && nodes[n] == f; }
  }

  lemma AllHeld(h: Holders, h': Holders)
    requires TokensOnUsed(h, h')
    requires forall f, k :: 0 <= f < |h| ==> (Leaf(k) in h[f] <==> Leaf(k) in h'[f])
    requires forall f, n :: 0 <= f < |h| ==> (Table(n) in h[f] <==> Table(n) in h'[f])
    ensures HeldSame(h, h') && HeldMore(h, h')
  {
    forall f | 0 <= f < |h| ensures h[f] <= h'[f] {
      forall x | x in h[f] ensures x in h'[f] { match x { case Leaf(_) => case Table(_) => case Kernel(_) => } }
    }
    forall f | 0 <= f < |h| ensures h'[f] == {} <==> h[f] == {} {
      if h[f] != {} {
        var x :| x in h[f];
        match x { case Leaf(_) => case Table(_) => case Kernel(_) => }
        assert x in h'[f];
      }
      if h'[f] != {} {
        var x :| x in h'[f];
        match x { case Leaf(_) => assert x in h[f]; case Table(_) => assert x in h[f]; case Kernel(_) => }
      }
    }
  }

  lemma SharedProtects(was: map<Key, Pte>, now: map<Key, Pte>, next: map<Key, Pte>, p: nat, c: nat)
    requires Shared(was, now, p, c, PAGES) && p != c
    requires (forall k: Key :: k in next <==> k in now && k.pid != c)
    requires (forall k: Key :: k in next ==> next[k] == now[k])
    ensures Protected(was, next, p, c, PAGES)
  {
    hide Order;
  }

  lemma NodesThen(n0: map<Node, nat>, n1: map<Node, nat>, n2: map<Node, nat>, c: nat)
    requires NodesGrown(n0, n1, c) && NodesGrown(n1, n2, c)
    ensures NodesGrown(n0, n2, c)
  {
  }

  /** Address space pid's entries below n are gone, all others untouched. */
  ghost predicate Freed(was: map<Key, Pte>, now: map<Key, Pte>, pid: nat, n: nat) {
    && (forall k :: k in now <==> k in was && !(k.pid == pid && Order(k) < n))
    && (forall k :: k in now ==> k in was && now[k] == was[k])
  }

  /** Address space pid's tables before (i2, i1) are gone, all others untouched. */
  ghost predicate NodesFreed(was: map<Node, nat>, now: map<Node, nat>, pid: nat, i2: nat, i1: nat) {
    && (forall n :: n in now <==> n in was && !PassedNode(n, pid, i2, i1))
    && (forall n :: n in now ==> n in was && now[n] == was[n])
  }

  predicate PassedNode(n: Node, pid: nat, i2: nat, i1: nat) {
    n.pid == pid && match n
      case Root(_) => false
      case Mid(_, a) => a < i2
      case Low(_, a, b) => a < i2 || (a == i2 && b < i1)
  }

  lemma FreedStep(was: map<Key, Pte>, now: map<Key, Pte>, k: Key, next: map<Key, Pte>, nodes: map<Node, nat>)
    requires Freed(was, now, k.pid, Order(k)) && KeyOk(k) && next == now - {k} && TreeOk(next, nodes)
    ensures Freed(was, next, k.pid, Order(k) + 1)
  {
    hide Order;
    forall j ensures j in next <==> j in was && !(j.pid == k.pid && Order(j) < Order(k) + 1) {
      if j in now && j.pid == k.pid && Order(j) == Order(k) && j != k {
        assert j in next && KeyOk(j);
        OrderInjective(j, k);
      }
    }
  }

  lemma FreedAt(was: map<Key, Pte>, now: map<Key, Pte>, k: Key)
    requires Freed(was, now, k.pid, Order(k))
    ensures (k in now <==> k in was) && (k in now ==> now[k] == was[k])
  {
  }

  lemma LostPass(was: map<Key, Pte>, h: Holders, h': Holders, k: Key)
    requires Lost(was, h, h', k.pid, Order(k)) && KeyOk(k) && (k in was ==> !Blank(was[k]))
    requires forall j :: j in was ==> KeyOk(j)
    ensures Lost(was, h, h', k.pid, Order(k) + 1)
  {
    hide Order, Lost, KeyOk;
    forall j | j in was && j.pid == k.pid && Blank(was[j]) ensures !(Order(k) <= Order(j) < Order(k) + 1) {
      if Order(j) == Order(k) { OrderInjective(j, k); }
    }
    LostSkip(was, h, h', k.pid, Order(k), Order(k) + 1);
  }

  /** What Freed passes over without finding an entry loses nothing. */
  lemma LostGap(was: map<Key, Pte>, now: map<Key, Pte>, h: Holders, h': Holders, pid: nat, n: nat, m: nat)
    requires Lost(was, h, h', pid, n) && Freed(was, now, pid, n) && Freed(was, now, pid, m) && n <= m
    ensures Lost(was, h, h', pid, m)
  {
    hide Order, Lost;
    LostSkip(was, h, h', pid, n, m);
  }

  /** When the pages of a last-level table have been passed, nothing hangs off it. */
  lemma LowEmpty(was: map<Key, Pte>, now: map<Key, Pte>, nodes: map<Node, nat>, pid: nat, i2: nat, i1: nat)
    requires Freed(was, now, pid, (i2 * ENTRIES + i1) * ENTRIES + ENTRIES) && TreeOk(now, nodes)
    ensures TreeOk(now, nodes - {Low(pid, i2, i1)})
  {
  }

  lemma NodesFreedLow(was: map<Node, nat>, now: map<Node, nat>, pid: nat, i2: nat, i1: nat)
    requires NodesFreed(was, now, pid, i2, i1)
    ensures NodesFreed(was, now - {Low(pid, i2, i1)}, pid, i2, i1 + 1)
  {
  }

  lemma FreedSkipLow(was: map<Key, Pte>, now: map<Key, Pte>, nodes: map<Node, nat>, pid: nat, i2: nat, i1: nat)
    requires Freed(was, now, pid, (i2 * ENTRIES + i1) * ENTRIES) && TreeOk(now, nodes) && Low(pid, i2, i1) !in nodes
    requires i1 < ENTRIES
    ensures Freed(was, now, pid, (i2 * ENTRIES + i1 + 1) * ENTRIES)
  {
    hide Order, KeyOk;
    var n, m := (i2 * ENTRIES + i1) * ENTRIES, (i2 * ENTRIES + i1 + 1) * ENTRIES;
    forall k | k in now && k.pid == pid ensures !(n <= Order(k) < m) {
      if n <= Order(k) < m { OrderLow(k, i2, i1); }
    }
  }

  lemma FreedSkipMid(was: map<Key, Pte>, now: map<Key, Pte>, nodes: map<Node, nat>, pid: nat, i2: nat)
    requires Freed(was, now, pid, i2 * ENTRIES * ENTRIES) && TreeOk(now, nodes) && Mid(pid, i2) !in nodes
    ensures Freed(was, now, pid, (i2 + 1) * ENTRIES * ENTRIES)
  {
    hide Order, KeyOk;
    var n, m := i2 * ENTRIES * ENTRIES, (i2 + 1) * ENTRIES * ENTRIES;
    forall k | k in now && k.pid == pid ensures !(n <= Order(k) < m) {
      if n <= Order(k) < m {
        OrderMid(k, i2);
        assert Low(pid, i2, k.i1) in nodes;
      }
    }
  }

  /** When its last-level tables are gone, a middle table has nothing below it. */
  lemma MidEmpty(was: map<Node, nat>, leaf: map<Key, Pte>, now: map<Node, nat>, pid: nat, i2: nat)
    requires NodesFreed(was, now, pid, i2, ENTRIES) && TreeOk(leaf, now) && pid != KERNEL
    ensures TreeOk(leaf, now - {Mid(pid, i2)}) && NodesFreed(was, now - {Mid(pid, i2)}, pid, i2 + 1, 0)
  {
    forall i: nat, j: nat | Low(pid, i, j) in now ensures i != i2 {
      assert j < ENTRIES;
    }
    var rest := now - {Mid(pid, i2)};
    forall n: Node ensures n in rest <==> n in was && !PassedNode(n, pid, i2 + 1, 0) {
    }
  }

  lemma RootEmpty(was: map<Key, Pte>, wasNodes: map<Node, nat>, now: map<Key, Pte>, nodes: map<Node, nat>, pid: nat)
    requires Freed(was, now, pid, L2_USER * ENTRIES * ENTRIES) && NodesFreed(wasNodes, nodes, pid, L2_USER, 0)
    requires TreeOk(was, wasNodes) && TreeOk(now, nodes) && Root(pid) in wasNodes && pid != KERNEL
    ensures TreeOk(now, nodes - {Root(pid)}) && Root(pid) in nodes
    ensures forall k: Key :: k in now <==> k in was && k.pid != pid
    ensures forall n: Node :: n in nodes - {Root(pid)} <==> n in wasNodes && n.pid != pid
  {
    forall k: Key | k in was && k.pid == pid ensures Order(k) < L2_USER * ENTRIES * ENTRIES { assert KeyOk(k); }
  }

  lemma HolderIn(b: Books, k: Key)
    requires Balanced(b) && k in b.leaf
    ensures b.leaf[k].frame < |b.holders| && Leaf(k) in b.holders[b.leaf[k].frame]
  {
  }

  lemma TableHolder(b: Books, n: Node)
    requires Balanced(b) && n in b.nodes
    ensures b.nodes[n] < |b.holders| == |b.refs| && Table(n) in b.holders[b.nodes[n]]
  {
  }

  /** There is no address space c. */
  ghost predicate NoSpace(leaf: map<Key, Pte>, nodes: map<Node, nat>, c: nat) {
    (forall k: Key :: k in leaf ==> k.pid != c) && (forall n: Node :: n in nodes ==> n.pid != c)
  }

  lemma UpgradedViews(leaf: map<Key, Pte>, leaf': map<Key, Pte>, mem: seq<Page>, k: Key)
    requires k in leaf && leaf' == leaf[k := leaf[k].(w := true)]
    ensures SameViews(leaf, mem, leaf', mem)
  {
  }

  /** The copied page's source is not the new frame. */
  lemma Copied(b: Books, k: Key, g: nat)
    requires Balanced(b) && k in b.leaf && g < |b.holders| && b.holders[g] == {}
    ensures b.leaf[k].frame != g
  {
    assert Leaf(k) in b.holders[b.leaf[k].frame];
  }

  /** Entry k moves to a copy of its page; nobody else maps the copy. */
  lemma RemappedViews(b: Books, m: seq<Page>, k: Key, p: Pte, leaf': map<Key, Pte>, m': seq<Page>)
    requires Balanced(b) && k in b.leaf && |m| == |b.refs| && p.frame < |m| && b.holders[p.frame] == {}
    requires b.leaf[k].frame < |m| && leaf' == b.leaf[k := p] && m' == m[p.frame := m[b.leaf[k].frame]]
    ensures SameViews(b.leaf, m, leaf', m')
  {
    forall j: Key ensures Look(leaf', m', j) == Look(b.leaf, m, j) {
      if j in b.leaf { assert Leaf(j) in b.holders[b.leaf[j].frame]; }
    }
  }

  lemma DarkRemapped(b: Books, m: seq<Page>, k: Key, p: Pte, leaf': map<Key, Pte>, m': seq<Page>)
    requires Balanced(b) && k in b.leaf && |m| == |b.refs| && p.frame < |m| && b.holders[p.frame] == {} && p.r
    requires b.leaf[k].frame < |m| && leaf' == b.leaf[k := p] && m' == m[p.frame := m[b.leaf[k].frame]]
    requires DarkZero(b.leaf, m)
    ensures DarkZero(leaf', m')
  {
    forall j | j in b.leaf ensures b.leaf[j].frame != p.frame { HolderIn(b, j); }
  }

  lemma PagesCopied(m: seq<Page>, m': seq<Page>, f: nat, g: nat)
    requires PagesOk(m) && f < |m| && g < |m| && m' == m[g := m[f]]
    ensures PagesOk(m')
  {
  }

  /** Nothing maps a frame that was free. */
  lemma NewUnmapped(b: Books, leaf: map<Key, Pte>, g: nat)
    requires Balanced(b) && g < |b.holders| && b.holders[g] == {} && leaf == b.leaf
    ensures forall j :: j in leaf ==> leaf[j].frame != g
  {
    forall j | j in leaf ensures leaf[j].frame != g { HolderIn(b, j); }
  }

  lemma ZeroedViews(b: Books, m0: seq<Page>, h1: Holders, m1: seq<Page>, g: nat, m2: seq<Page>)
    requires Balanced(b) && |m0| == |b.refs| == |h1| && g < |h1| && b.holders[g] == {} && m1 == m0[g := ZeroPage()]
    requires h1[g] != {} && (forall f :: 0 <= f < |h1| && f != g ==> h1[f] == b.holders[f]) && UsedKept(h1, m1, m2)
    ensures SameViews(b.leaf, m0, b.leaf, m2) && g < |m2| && m2[g] == ZeroPage()
  {
    hide ZeroPage;
    forall k: Key ensures Look(b.leaf, m2, k) == Look(b.leaf, m0, k) {
      if k in b.leaf { HolderIn(b, k); }
    }
  }

  /** A page of zeros where none was mapped looks the same. */
  lemma MappedZero(b: Books, m0: seq<Page>, g: nat, m2: seq<Page>, k: Key, p: Pte)
    requires SameViews(b.leaf, m0, b.leaf, m2) && g < |m2| && m2[g] == ZeroPage() && k !in b.leaf && p.frame == g
    ensures SameViews(b.leaf, m0, b.leaf[k := p], m2)
  {
    hide ZeroPage;
    forall j: Key ensures Look(b.leaf[k := p], m2, j) == Look(b.leaf, m0, j) {
      assert Look(b.leaf, m2, j) == Look(b.leaf, m0, j);
    }
  }

  lemma DarkMapped(leaf: map<Key, Pte>, mem: seq<Page>, k: Key, p: Pte)
    requires DarkZero(leaf, mem) && p.frame < |mem| && mem[p.frame] == ZeroPage()
    ensures DarkZero(leaf[k := p], mem)
  {
  }

  lemma TokenGone(h0: Holders, h1: Holders, h2: Holders, h3: Holders, g: nat, id: nat, k: Key)
    requires g < |h0| && h0[g] == {} && h1 == h0[g := {Kernel(id)}] && HoldersKept(h1, h2) && SameTokens(h1, h2)
    requires h3 == h2[g := h2[g] - {Kernel(id)} + {Leaf(k)}]
    ensures SameTokens(h0, h3)
  {
  }

  /** How many page tables are missing on the way to a page. */
  function Missing(nodes: map<Node, nat>, pid: nat, i2: nat, i1: nat): nat {
    if Mid(pid, i2) !in nodes then 2 else if Low(pid, i2, i1) !in nodes then 1 else 0
  }

  /** The user page that address va of process pid lies in. */
  function KeyAt(pid: nat, va: nat): (k: Key)
    requires va < PAGES * PAGE_SIZE && pid != KERNEL
    ensures KeyOk(k)
  {
    PageKey(pid, va / PAGE_SIZE)
  }

  /** When the fault handler gives up: no area, no permission, a present page it cannot upgrade, or no memory. */
  ghost predicate Refused(m: Mapping, scause: nat, k: Key, leaf: map<Key, Pte>, refs: seq<nat>, free: seq<nat>) {
    || m.Unmapped?
    || (scause == 15 && !m.w)
    || (scause == 12 && !m.x)
    || OwnPage(k)
    || (k in leaf && !(scause == 15 && !leaf[k].w && m.cow))
    || (free == [] && (k in leaf ==> leaf[k].frame < |refs| && refs[leaf[k].frame] != 1))
  }

  /** A store goes through the entry. */
  predicate Writable(p: Pte) { p.w && p.r }

  predicate Alone(p: Pte, refs: seq<nat>) { p.frame < |refs| && refs[p.frame] == 1 }

  /** A store to page k in an area m succeeds. */
  ghost predicate StoreOk(m: Mapping, k: Key, leaf: map<Key, Pte>, nodes: map<Node, nat>, refs: seq<nat>,
                          free: seq<nat>) {
    || (k in leaf && Writable(leaf[k]))
    || (m.Mapped? && m.w && !OwnPage(k) &&
        if k in leaf then
          !leaf[k].w && m.cow && if Alone(leaf[k], refs) then leaf[k].r else free != []
        else m.r && |free| > Missing(nodes, k.pid, k.i2, k.i1))
  }

  function Poke(p: Page, off: nat, x: byte): (r: Page)
    requires off < |p|
    ensures |r| == |p|
  {
    p[off := x]
  }

  /** Byte off of page k reads x; every other byte of every page of every process is what it was. */
  ghost predicate OnlyByte(leaf: map<Key, Pte>, mem: seq<Page>, leaf': map<Key, Pte>, mem': seq<Page>, k: Key, off: nat,
                           x: byte) {
    && off < |Look(leaf, mem, k)|
    && Look(leaf', mem', k) == Poke(Look(leaf, mem, k), off, x)
    && forall j: Key :: j != k ==> Look(leaf', mem', j) == Look(leaf, mem, j)
  }

  /**
   What every process sees of a store by process pid to byte off of its page n: nothing, unless it is that process or
   the page is in the shared slot.
   */
  ghost predicate StoreSeen(leaf: map<Key, Pte>, mem: seq<Page>, leaf': map<Key, Pte>, mem': seq<Page>, pid: nat,
                            n: nat, off: nat, x: byte) {
    forall q: nat, m: nat :: q != KERNEL && m < PAGES ==>
      var before, after := Look(leaf, mem, PageKey(q, m)), Look(leaf', mem', PageKey(q, m));
      if m == n && (q == pid || InShared(n)) then off < |before| && after == Poke(before, off, x) else after == before
  }

  lemma Isolation(leaf: map<Key, Pte>, mem: seq<Page>, leaf': map<Key, Pte>, mem': seq<Page>, pid: nat, n: nat,
                  off: nat, x: byte)
    requires pid != KERNEL && n < PAGES && OnlyByte(leaf, mem, leaf', mem', PageKey(pid, n), off, x)
    ensures StoreSeen(leaf, mem, leaf', mem', pid, n, off, x)
  {
    hide Look, PageKey;
    forall q: nat, m: nat | q != KERNEL && m < PAGES
      ensures var before, after := Look(leaf, mem, PageKey(q, m)), Look(leaf', mem', PageKey(q, m));
        if m == n && (q == pid || InShared(n)) then off < |before| && after == Poke(before, off, x) else after == before
    {
      SameKey(pid, q, n, m);
    }
  }

  lemma OnlyThen(leaf: map<Key, Pte>, mem: seq<Page>, leaf1: map<Key, Pte>, mem1: seq<Page>, mem2: seq<Page>, k: Key,
                 off: nat, x: byte)
    requires SameViews(leaf, mem, leaf1, mem1) && OnlyByte(leaf1, mem1, leaf1, mem2, k, off, x)
    ensures OnlyByte(leaf, mem, leaf1, mem2, k, off, x)
  {
    hide Look;
  }

  lemma StoredDark(b: Books, m: seq<Page>, k: Key, m': seq<Page>)
    requires Balanced(b) && DarkZero(b.leaf, m) && |m| == |b.refs| && k in b.leaf && Writable(b.leaf[k])
    requires b.leaf[k].frame < |m| == |m'| && m' == m[b.leaf[k].frame := m'[b.leaf[k].frame]]
    ensures DarkZero(b.leaf, m')
  {
    hide ZeroPage;
    forall j | j in b.leaf && j != k ensures b.leaf[j].frame != b.leaf[k].frame {
      if b.leaf[j].frame == b.leaf[k].frame { SharedIsReadOnly(b, j, k); }
    }
  }

  /** The fault maps nothing for want of a table, and loses the page it took. */
  ghost predicate LosesPage(m: Mapping, scause: nat, k: Key, b: Books) {
    !Refused(m, scause, k, b.leaf, b.refs, b.free) && k !in b.leaf && |b.free| <= Missing(b.nodes, k.pid, k.i2, k.i1)
  }

  /** Entry k lost its write permission, and no copy-on-write fault will give it back. */
  ghost predicate LostStore(m: Mapping, k: Key, leaf: map<Key, Pte>, leaf': map<Key, Pte>) {
    k in leaf && Writable(leaf[k]) && k in leaf' && !leaf'[k].w && !(m.Mapped? && m.w && m.cow)
  }

  /** Entry k cannot be read, and the reference that fork lost on its frame makes the next fault copy the page. */
  ghost predicate Revived(m: Mapping, k: Key, b: Books, c: Books) {
    && m.Mapped? && m.w && m.cow && c.free != []
    && k in b.leaf && !b.leaf[k].r && Alone(b.leaf[k], b.refs)
    && k in c.leaf && !c.leaf[k].w && !Alone(c.leaf[k], c.refs)
  }

  /** Every reference that was held is. */
  ghost predicate HeldMore(h: Holders, h': Holders) { |h'| == |h| && forall f :: 0 <= f < |h| ==> h[f] <= h'[f] }

  lemma StillShared(b: Books, c: Books, k: Key)
    requires Balanced(b) && Balanced(c) && HeldMore(b.holders, c.holders) && k in b.leaf && k in c.leaf
    requires c.leaf[k].frame == b.leaf[k].frame
    ensures b.leaf[k].w ==> Alone(b.leaf[k], b.refs)
    ensures !Alone(b.leaf[k], b.refs) ==> !Alone(c.leaf[k], c.refs)
  {
    var f := b.leaf[k].frame;
    HolderCounts(b, f, Leaf(k));
    HolderCounts(c, f, Leaf(k));
  }

  /**
   What a failed fork of p does to a store: with write permission gone from p's entries below n, and the free memory
   what it was, exactly those stores fail that would have gone through an entry that lost it, in an area that is not
   marked copy-on-write; and those to unreadable entries succeed whose page is now copied.
   */
  lemma StoresAfterFailure(b: Books, c: Books, m: Mapping, k: Key, p: nat, ch: nat, n: nat)
    requires Balanced(b) && Balanced(c) && Protected(b.leaf, c.leaf, p, ch, n) && k.pid != ch
    requires HeldMore(b.holders, c.holders) && (k in b.leaf ==> !OwnPage(k))
    requires c.nodes == b.nodes && |c.free| == |b.free| && (b.free == [] ==> c == b)
    ensures StoreOk(m, k, c.leaf, c.nodes, c.refs, c.free) <==>
            || (StoreOk(m, k, b.leaf, b.nodes, b.refs, b.free) && !LostStore(m, k, b.leaf, c.leaf))
            || Revived(m, k, b, c)
  {
    hide Balanced, Order;
    if k in b.leaf { StillShared(b, c, k); }
  }

  /** A store through a writable entry shows only there. */
  lemma StoredViews(b: Books, m: seq<Page>, m': seq<Page>, k: Key, off: nat, x: byte)
    requires Balanced(b) && |m| == |b.refs| && k in b.leaf && b.leaf[k].w && b.leaf[k].frame < |m|
    requires off < |m[b.leaf[k].frame]|
    requires m' == m[b.leaf[k].frame := Poke(m[b.leaf[k].frame], off, x)]
    ensures OnlyByte(b.leaf, m, b.leaf, m', k, off, x)
  {
    forall j: Key | j != k ensures Look(b.leaf, m', j) == Look(b.leaf, m, j) {
      if j in b.leaf && b.leaf[j].frame == b.leaf[k].frame { SharedIsReadOnly(b, j, k); }
    }
  }

  /** Page n lies in the slot that all processes share. */
  predicate InShared(n: nat) { n / (ENTRIES * ENTRIES) == SHARED }

  /** Where process pid's tables lead for page n: in the shared slot, to the kernel's entries. */
  function PageKey(pid: nat, n: nat): (k: Key)
    requires n < PAGES && pid != KERNEL
    ensures KeyOk(k)
  {
    Key(if InShared(n) then KERNEL else pid, n / (ENTRIES * ENTRIES), n / ENTRIES % ENTRIES, n % ENTRIES)
  }

  lemma OrderOfPage(pid: nat, n: nat)
    requires n < PAGES && pid != KERNEL
    ensures Order(PageKey(pid, n)) == n
  {
  }

  /** Two processes reach the same entry exactly for the same page of the shared slot. */
  lemma SameKey(p: nat, q: nat, n: nat, m: nat)
    requires n < PAGES && m < PAGES && p != KERNEL && q != KERNEL
    ensures PageKey(p, n) == PageKey(q, m) <==> n == m && (p == q || InShared(n))
  {
    OrderOfPage(p, n);
    OrderOfPage(q, m);
  }

  /** The entries that process pid's tables lead to. */
  ghost predicate Reaches(pid: nat, k: Key) { k.pid == pid || k.pid == KERNEL }

  /** Process pid's pages [from, to) lead to entry k. */
  ghost predicate Within(pid: nat, from: nat, to: nat, k: Key) { Reaches(pid, k) && from <= Order(k) < to }

  lemma PageOfKey(pid: nat, k: Key)
    requires KeyOk(k) && Reaches(pid, k) && pid != KERNEL
    ensures Order(k) < PAGES && PageKey(pid, Order(k)) == k
  {
    var n := Order(k);
    assert n == k.i2 * (ENTRIES * ENTRIES) + k.i1 * ENTRIES + k.i0;
    assert n / (ENTRIES * ENTRIES) == k.i2;
    assert n / ENTRIES == k.i2 * ENTRIES + k.i1;
  }

  /** The areas after fork: every writable one is copy-on-write. */
  function CowMarked(list: seq<Vma>): seq<Vma> {
    seq(|list|, i requires 0 <= i < |list| => if list[i].w then list[i].(cow := true) else list[i])
  }

  method MarkCow(list: seq<Vma>) returns (out: seq<Vma>)
    ensures out == CowMarked(list)
  {
    out := list;
    var i := 0;
    while i < |list|
      invariant i <= |list| == |out|
      invariant forall j :: 0 <= j < |list| ==> out[j] == if j < i && list[j].w then list[j].(cow := true) else list[j]
    {
      if out[i].w { out := out[i := out[i].(cow := true)]; }
      i := i + 1;
    }
  }

  lemma ProtectedViews(b: Books, m: seq<Page>, leaf': map<Key, Pte>, m': seq<Page>, p: nat, c: nat, n: nat)
    requires Balanced(b) && |m| == |b.refs| && Protected(b.leaf, leaf', p, c, n) && UsedKept(b.holders, m, m')
    ensures forall k: Key :: k.pid != c ==> (k in leaf' <==> k in b.leaf) && Look(leaf', m', k) == Look(b.leaf, m, k)
  {
    ViewsKept(b, m, m');
    forall k: Key | k.pid != c ensures Look(leaf', m', k) == Look(b.leaf, m, k) {
      assert Look(b.leaf, m', k) == Look(b.leaf, m, k);
    }
  }

  lemma SharedViews(b: Books, m: seq<Page>, leaf': map<Key, Pte>, m': seq<Page>, p: nat, c: nat)
    requires Balanced(b) && |m| == |b.refs| && Shared(b.leaf, leaf', p, c, PAGES) && UsedKept(b.holders, m, m')
    requires p != c && TreeOk(b.leaf, b.nodes) && DarkZero(b.leaf, m)
    requires WasOk(b.leaf, c)
    ensures forall k: Key :: k.pid != c ==> (k in leaf' <==> k in b.leaf) && Look(leaf', m', k) == Look(b.leaf, m, k)
    ensures forall k: Key :: k.pid == p ==> Look(leaf', m', k.(pid := c)) == Look(b.leaf, m, k)
    ensures forall k: Key :: k in leaf' && (k.pid == p || k.pid == c) ==> !leaf'[k].w
  {
    hide ZeroPage, Balanced, UsedKept;
    ViewsKept(b, m, m');
    forall k: Key | KeyOk(k) ensures Order(k) < PAGES { }
    forall k: Key | k.pid != c ensures Look(leaf', m', k) == Look(b.leaf, m, k) {
      assert Look(b.leaf, m', k) == Look(b.leaf, m, k);
    }
    forall k: Key | k.pid == p ensures Look(leaf', m', k.(pid := c)) == Look(b.leaf, m, k) {
      assert Look(b.leaf, m', k) == Look(b.leaf, m, k);
      SamePlace(k, c);
      assert k.(pid := c).(pid := p) == k;
    }
  }

  /** Page by page, the child sees what the parent saw; in the shared slot both see what they saw. */
  lemma SamePages(leaf: map<Key, Pte>, m: seq<Page>, leaf': map<Key, Pte>, m': seq<Page>, p: nat, c: nat)
    requires p != KERNEL && c != KERNEL
    requires forall k: Key :: k.pid != c ==> Look(leaf', m', k) == Look(leaf, m, k)
    requires forall k: Key :: k.pid == p ==> Look(leaf', m', k.(pid := c)) == Look(leaf, m, k)
    ensures forall i: nat :: i < PAGES ==> Look(leaf', m', PageKey(c, i)) == Look(leaf, m, PageKey(p, i))
  {
    hide Look;
    forall i: nat | i < PAGES ensures Look(leaf', m', PageKey(c, i)) == Look(leaf, m, PageKey(p, i)) {
      if InShared(i) {
        assert PageKey(c, i) == PageKey(p, i);
      } else {
        assert PageKey(c, i) == PageKey(p, i).(pid := c);
      }
    }
  }

  lemma SpaceGone(leaf: map<Key, Pte>, leaf': map<Key, Pte>, nodes: map<Node, nat>, m: seq<Page>, c: nat)
    requires (forall k: Key :: k in leaf' <==> k in leaf && k.pid != c)
    requires (forall k: Key :: k in leaf' ==> leaf'[k] == leaf[k])
    requires forall n: Node :: n in nodes ==> n.pid != c
    ensures NoSpace(leaf', nodes, c)
    ensures forall k: Key :: k.pid != c ==> (k in leaf' <==> k in leaf) && Look(leaf', m, k) == Look(leaf, m, k)
  {
  }

  datatype Status = Done | NoMem | Halt

  /** Once entry k is read-only, so is every entry of its frame. */
  lemma ReadOnlyAfter(b: Books, k: Key)
    requires Balanced(b) && k in b.leaf
    ensures forall j :: j in b.leaf && j != k && b.leaf[j].frame == b.leaf[k].frame ==> !b.leaf[j].w
  {
    forall j | j in b.leaf && j != k && b.leaf[j].frame == b.leaf[k].frame ensures !b.leaf[j].w {
      SharedIsReadOnly(b, j, k);
    }
  }

  lemma SameDark(leaf: map<Key, Pte>, leaf': map<Key, Pte>, mem: seq<Page>)
    requires DarkZero(leaf, mem)
    requires forall k :: k in leaf' && Dark(leaf'[k]) ==> k in leaf && Dark(leaf[k]) && leaf'[k].frame == leaf[k].frame
    ensures DarkZero(leaf', mem)
  {
  }

  lemma DarkCopy(leaf: map<Key, Pte>, mem: seq<Page>, k: Key, j: Key, p: Pte)
    requires DarkZero(leaf, mem) && k in leaf && p.frame == leaf[k].frame && (Dark(p) ==> Dark(leaf[k]))
    ensures DarkZero(leaf[j := p], mem)
  {
  }

  lemma SameShape(leaf: map<Key, Pte>, leaf': map<Key, Pte>, nodes: map<Node, nat>)
    requires TreeOk(leaf, nodes) && leaf'.Keys <= leaf.Keys
    ensures TreeOk(leaf', nodes)
  {
    forall k | k in leaf' ensures KeyOk(k) && !OwnPage(k) && Low(k.pid, k.i2, k.i1) in nodes { assert k in leaf; }
  }

  lemma FrameOk(b: Books, k: Key)
    requires Balanced(b) && k in b.leaf
    ensures b.leaf[k].frame < |b.refs| == |b.holders| && b.holders[b.leaf[k].frame] != {}
    ensures 0 < b.refs[b.leaf[k].frame] <= REF_MAX
    ensures Kernel(b.stamp) !in b.holders[b.leaf[k].frame]
  {
    HolderCounts(b, b.leaf[k].frame, Leaf(k));
  }

  lemma KeyInTree(leaf: map<Key, Pte>, nodes: map<Node, nat>, k: Key)
    requires TreeOk(leaf, nodes) && k in leaf
    ensures KeyOk(k) && !OwnPage(k) && Low(k.pid, k.i2, k.i1) in nodes && (k.pid != KERNEL ==> k.i2 != SHARED)
  {
  }

  lemma LeafTree(leaf: map<Key, Pte>, nodes: map<Node, nat>, k: Key, p: Pte)
    requires TreeOk(leaf, nodes) && KeyOk(k) && !OwnPage(k) && Low(k.pid, k.i2, k.i1) in nodes
    ensures TreeOk(leaf[k := p], nodes)
  {
  }

  /** h0: before; h1: kernel code took a reference on f; h2: other frames were allocated; h3: a leaf has it. */
  lemma TokenReturned(h0: Holders, h1: Holders, h2: Holders, h3: Holders, f: nat, id: nat, k: Key)
    requires f < |h0| && h0[f] != {} && h1 == h0[f := h0[f] + {Kernel(id)}] && HoldersKept(h1, h2) && SameTokens(h1, h2)
    requires Kernel(id) !in h0[f] && |h1| == |h2| && h3 == h2[f := h2[f] - {Kernel(id)} + {Leaf(k)}]
    ensures SameTokens(h0, h3) && StillHeld(h0, h3)
  {
  }

  class Vm {
    var refs: seq<nat>              // page_refs
    var free: seq<nat>              // the free list, head first
    var mem: seq<Page>
    var leaf: map<Key, Pte>
    var nodes: map<Node, nat>
    var vmas: map<nat, seq<Vma>>
    ghost var holders: Holders
    ghost var stamp: nat

    ghost function Ledger(): Books
      reads this`refs, this`free, this`leaf, this`nodes, this`holders, this`stamp
    {
      Books(refs, free, leaf, nodes, holders, stamp)
    }

    ghost predicate Valid()
      reads this`refs, this`free, this`mem, this`leaf, this`nodes, this`holders, this`stamp
    {
      var ok :=
        && Balanced(Ledger()) && |mem| == |refs| && PagesOk(mem) && TreeOk(leaf, nodes) && DarkZero(leaf, mem);
      ok
    }

    /** Boot: n free frames, the kernel's root and its table for the shared slot, and no process. */
    constructor (n: nat)
      ensures Valid() && Exact() && |refs| == n + 2 && |free| == n && leaf == map[] && vmas == map[]
      ensures nodes.Keys == {Root(KERNEL), Mid(KERNEL, SHARED)}
    {
      refs := seq(n, f => 0) + [1, 1];
      free := seq(n, f requires 0 <= f < n => f);
      mem := seq(n + 2, f => ZeroPage());
      leaf, nodes, vmas, stamp := map[], map[Root(KERNEL) := n, Mid(KERNEL, SHARED) := n + 1], map[], 0;
      holders := seq(n, f => {}) + [{Table(Root(KERNEL))}, {Table(Mid(KERNEL, SHARED))}];
      new;
      forall f: nat | f < n ensures f in free { assert free[f] == f; }
    }

    /**
     create_user_pgtable, for a process with the given areas and no pages yet. Its root is a copy of the kernel's, so
     it reaches the kernel's entries of the shared slot from the start.
     */
    method NewSpace(pid: nat, areas: seq<Vma>) returns (ok: bool)
      requires Valid() && pid !in vmas && NoSpace(leaf, nodes, pid)
      modifies this`refs, this`free, this`mem, this`nodes, this`vmas, this`holders, this`stamp
      ensures Valid() && ok == (old(free) != []) && leaf == old(leaf) && (old(Exact()) ==> Exact())
      ensures ok ==>
        && Root(pid) in nodes && nodes == old(nodes)[Root(pid) := nodes[Root(pid)]] && vmas == old(vmas)[pid := areas]
        && |free| == |old(free)| - 1
      ensures !ok ==> nodes == old(nodes) && vmas == old(vmas)
      ensures UsedKept(old(holders), old(mem), mem)
    {
      hide Valid;
      ok := NewTable(Root(pid));
      if ok { vmas := vmas[pid := areas]; }
      if old(Exact()) { StaysExact(old(holders)); }
    }

    /** page_alloc: a zeroed frame with one reference, held by kernel code; not ok when there is none. */
    method PageAlloc() returns (ok: bool, f: nat, ghost id: nat)
      requires Valid()
      modifies this`refs, this`free, this`mem, this`holders, this`stamp
      ensures Valid() && ok == (old(free) != [])
      ensures !ok ==> Ledger() == old(Ledger()) && mem == old(mem)
      ensures ok ==>
        && id == old(stamp) && stamp == id + 1 && f < |old(holders)| && old(holders)[f] == {} && f == old(free)[0]
        && holders == old(holders)[f := {Kernel(id)}] && refs == old(refs)[f := 1] && free == old(free)[1..]
        && mem == old(mem)[f := ZeroPage()]
    {
      hide Balanced, TreeOk, ZeroPage, Dark;
      if free == [] { return false, 0, 0; }
      f, id := free[0], stamp;
      ghost var b := Ledger();
      HeadIsFree(b);
      mem := mem[f := ZeroPage()];
      free := free[1..];
      refs := refs[f := 1];
      holders := holders[f := {Kernel(id)}];
      stamp := stamp + 1;
      AllocStep(b, Ledger());
      ok := true;
    }

    /** A new, empty page-table page n, linked into its tree. */
    method NewTable(n: Node) returns (ok: bool)
      requires Valid() && n !in nodes
      requires match n
        case Root(_) => true
        case Mid(p, i) => Root(p) in nodes && SlotOk(p, i)
        case Low(p, i, j) => Mid(p, i) in nodes && j < ENTRIES
      modifies this`refs, this`free, this`mem, this`nodes, this`holders, this`stamp
      ensures Valid() && ok == (old(free) != []) && (!ok ==> free == [])
      ensures HoldersKept(old(holders), holders) && UsedKept(old(holders), old(mem), mem)
      ensures SameTokens(old(holders), holders)
      ensures ok ==> n in nodes && nodes == old(nodes)[n := nodes[n]] && |free| == |old(free)| - 1
      ensures !ok ==> nodes == old(nodes) && Ledger() == old(Ledger())
    {
      hide Balanced, TreeOk, PagesOk, DarkZero;
      Sizes();
      ghost var h0 := holders;
      var got, f, id := PageAlloc();
      ok := got;
      if ok {
        ghost var b := Ledger();
        NodeTree(leaf, nodes, n, f);
        nodes := nodes[n := f];
        holders := holders[f := {Table(n)}];
        InstallNode(b, f, id, n, Ledger());
        assert holders == h0[f := {Table(n)}];
      }
    }

    /** get_pte with allocation: the tables down to the last level exist. */
    method Walk(pid: nat, i2: nat, i1: nat) returns (ok: bool)
      requires Valid() && Root(pid) in nodes && SlotOk(pid, i2) && i1 < ENTRIES
      modifies this`refs, this`free, this`mem, this`nodes, this`holders, this`stamp
      ensures Valid() && HoldersKept(old(holders), holders) && UsedKept(old(holders), old(mem), mem)
      ensures SameTokens(old(holders), holders)
      ensures NodesGrown(old(nodes), nodes, pid)
      ensures ok <==> |old(free)| >= Missing(old(nodes), pid, i2, i1)
      ensures ok ==> Low(pid, i2, i1) in nodes && |free| == |old(free)| - Missing(old(nodes), pid, i2, i1)
      ensures ok ==> nodes.Keys == old(nodes).Keys + {Mid(pid, i2), Low(pid, i2, i1)}
      ensures !ok ==> free == []
    {
      hide Valid;
      ValidTree();
      ghost var h0, m0 := holders, mem;
      Sizes();
      ok := true;
      if Mid(pid, i2) !in nodes {
        ok := NewTable(Mid(pid, i2));
        if !ok { return; }
      }
      ghost var h1, m1 := holders, mem;
      Sizes();
      if Low(pid, i2, i1) !in nodes {
        ok := NewTable(Low(pid, i2, i1));
      }
      UsedThen(h0, m0, h1, m1, mem);
      TokensThen(h0, h1, holders);
    }

    lemma Sizes()
      requires Valid()
      ensures |holders| == |mem| == |refs|
    {
    }

    // ----- fork -------------------------------------------------------------------------

    /** page_get on entry k's frame, and the entry loses its write permission. */
    method GetShared(k: Key) returns (ghost id: nat)
      requires Valid() && k in leaf && leaf[k].frame < |refs| && refs[leaf[k].frame] < REF_MAX
      modifies this`refs, this`leaf, this`holders, this`stamp
      ensures Valid() && id == old(stamp) && leaf == old(leaf)[k := old(leaf)[k].(w := false)]
      ensures var f := old(leaf)[k].frame;
        && f < |old(holders)|
        && holders == old(holders)[f := old(holders)[f] + {Kernel(id)}]
      ensures forall j :: j in leaf && leaf[j].frame == leaf[k].frame ==> !leaf[j].w
    {
      hide Balanced, TreeOk, PagesOk, DarkZero;
      Sizes();
      ghost var b := Ledger();
      id := stamp;
      ReadOnlyAfter(b, k);
      var f := leaf[k].frame;
      refs := refs[f := refs[f] + 1];
      if leaf[k].w {
        leaf := leaf[k := leaf[k].(w := false)];
      }
      assert leaf == b.leaf[k := b.leaf[k].(w := false)];
      SameShape(b.leaf, leaf, nodes);
      SameDark(b.leaf, leaf, mem);
      holders := holders[f := holders[f] + {Kernel(id)}];
      stamp := stamp + 1;
      ShareStep(b, k, Ledger());
    }

    /** The body of uvmcow_share's innermost loop, for an entry that is there. */
    method ShareOne(k: Key, c: nat) returns (st: Status)
      requires Valid() && k in leaf && k.pid != KERNEL && k.pid != c && k.(pid := c) !in leaf && Root(c) in nodes
      requires c != KERNEL
      modifies this`refs, this`free, this`mem, this`leaf, this`nodes, this`holders, this`stamp
      ensures Valid() && UsedKept(old(holders), old(mem), mem) && StillHeld(old(holders), holders)
      ensures NodesGrown(old(nodes), nodes, c)
      ensures var ro := old(leaf)[k].(w := false);
        match st
        case Done =>
          && leaf == old(leaf)[k := ro][k.(pid := c) := ro] && SameTokens(old(holders), holders)
          && nodes.Keys == old(nodes).Keys + {Mid(c, k.i2), Low(c, k.i2, k.i1)}
          && |free| == |old(free)| - Missing(old(nodes), c, k.i2, k.i1)
        case NoMem =>
          && leaf == old(leaf)[k := ro] && free == [] && TokensMore(old(holders), holders, ro.frame)
          && |old(free)| < Missing(old(nodes), c, k.i2, k.i1)
        case Halt => Ledger() == old(Ledger()) && ro.frame < |refs| && refs[ro.frame] == REF_MAX
    {
      hide Balanced, TreeOk, PagesOk, DarkZero;
      Sizes();
      FrameOk(Ledger(), k);
      if refs[leaf[k].frame] == REF_MAX { return Halt; }
      ghost var h0 := holders;
      var ro := leaf[k].(w := false);
      var id := GetShared(k);
      Sizes();
      ghost var h1, m1 := holders, mem;
      KeyInTree(leaf, nodes, k);
      var ok := Walk(c, k.i2, k.i1);
      if !ok { return NoMem; }
      Sizes();
      ghost var b := Ledger();
      leaf := leaf[k.(pid := c) := ro];
      holders := holders[ro.frame := holders[ro.frame] - {Kernel(id)} + {Leaf(k.(pid := c))}];
      LeafTree(b.leaf, nodes, k.(pid := c), ro);
      DarkCopy(b.leaf, mem, k, k.(pid := c), ro);
      InstallLeaf(b, ro.frame, id, k.(pid := c), ro, Ledger());
      TokenReturned(h0, h1, b.holders, holders, ro.frame, id, k.(pid := c));
      return Done;
    }

    /** uvmcow_share has passed the user pages below n. */
    ghost predicate Sharing(was: Vm0, p: nat, c: nat, n: nat)
      reads this
    {
      var ok :=
        && Valid() && WasHeld(was) && Shared(was.leaf, leaf, p, c, n) && Root(c) in nodes
        && NodesGrown(was.nodes, nodes, c)
        && |was.holders| == |was.mem| && UsedKept(was.holders, was.mem, mem) && StillHeld(was.holders, holders)
        && SameTokens(was.holders, holders) && Built(was, nodes, |free|, p, c, n);
      ok
    }

    /** uvmcow_share stopped part way: entries outside c have at most lost write permission. */
    ghost predicate Stopped(was: Vm0, p: nat, c: nat, st: Status, n: nat)
      reads this
    {
      var ok :=
        && Valid() && Protected(was.leaf, leaf, p, c, n) && TokensOnUsed(was.holders, holders) && Root(c) in nodes
        && NodesGrown(was.nodes, nodes, c)
        && UsedKept(was.holders, was.mem, mem) && StillHeld(was.holders, holders) && ChildFrames(was, leaf, c)
        && (st.NoMem? ==> free == [] && StopsAfter(was.leaf, p, n) && |Need(was.leaf, p, c, PAGES)| > was.free)
        && (st.Halt? ==> Crowded(was.holders));
      ok
    }

    method ShareStepAt(k: Key, c: nat, ghost was: Vm0) returns (st: Status, ghost n: nat)
      requires KeyOk(k) && k.pid != c && Sharing(was, k.pid, c, Order(k)) && WasOk(was.leaf, c)
      requires k.pid != KERNEL && c != KERNEL
      modifies this`refs, this`free, this`mem, this`leaf, this`nodes, this`holders, this`stamp
      ensures if st.Done? then Sharing(was, k.pid, c, Order(k) + 1) else Stopped(was, k.pid, c, st, n)
    {
      hide Valid, Shared, Protected, Order, Built, Need, Missing, KeyOk, ChildFrames, WasHeld;
      SharedAt(was.leaf, leaf, k, c);
      if k in leaf && !Blank(leaf[k]) {
        ghost var l1, n1, h1, m1, f1 := leaf, nodes, holders, mem, |free|;
        Sizes();
        CostOf(k, c, was);
        st := ShareOne(k, c);
        Sizes();
        UsedThen(was.holders, was.mem, h1, m1, mem);
        HeldThen(was.holders, h1, holders);
        NodesThen(was.nodes, n1, nodes, c);
        n := if st.NoMem? then Order(k) + 1 else Order(k);
        if st.Done? {
          TokensThen(was.holders, h1, holders);
          SharedStep(was.leaf, l1, k, c, leaf);
          assert WasOk(was.leaf, c);
          BuiltStep(was, n1, f1, k, c, nodes, |free|);
        } else {
          SharedStop(was.leaf, l1, k, c, leaf);
          SharedFrames(was, l1, k, c, Order(k), leaf);
          if st.Halt? {
            ValidHere();
            LedgerBalanced();
            CrowdedThen(Ledger(), was, k.pid, c, Order(k), k);
          }
          WasFrame(was, k);
          MoreOnUsed(was.holders, h1, holders, was.leaf[k].frame);
        }
      } else {
        PassOver(k, c, was);
        st, n := Done, 0;
      }
    }

    lemma CostOf(k: Key, c: nat, was: Vm0)
      requires Sharing(was, k.pid, c, Order(k)) && k in was.leaf && !Blank(was.leaf[k]) && WasOk(was.leaf, c)
      ensures |free| < Missing(nodes, c, k.i2, k.i1) ==> |Need(was.leaf, k.pid, c, PAGES)| > was.free
      ensures Low(c, k.i2, k.i1) in nodes ==> Mid(c, k.i2) in nodes
    {
      hide Balanced, DarkZero, PagesOk, Shared, Order, Need, Built, UsedKept, StillHeld;
      NeedCost(was, nodes, |free|, k, c);
    }

    /** An entry that is not there, or is blank. */
    lemma PassOver(k: Key, c: nat, was: Vm0)
      requires KeyOk(k) && k.pid != c && Sharing(was, k.pid, c, Order(k)) && WasOk(was.leaf, c)
      requires k !in was.leaf || Blank(was.leaf[k])
      ensures Sharing(was, k.pid, c, Order(k) + 1)
    {
      hide Valid, Shared, Order, Need, KeyOk, UsedKept, StillHeld, Built;
      SharedAbsent(was.leaf, leaf, k, c);
      NeedSame(was.leaf, leaf, k.pid, c, Order(k), Order(k) + 1);
      SameBuilt(was, nodes, |free|, k.pid, c, Order(k), Order(k) + 1);
    }

    /** The entries of one last-level table. */
    method ShareLow(p: nat, c: nat, i2: nat, i1: nat, ghost was: Vm0) returns (st: Status, ghost n: nat)
      requires p != c && SlotOk(p, i2) && i1 < ENTRIES && Sharing(was, p, c, (i2 * ENTRIES + i1) * ENTRIES)
      requires WasOk(was.leaf, c) && p != KERNEL && c != KERNEL
      modifies this`refs, this`free, this`mem, this`leaf, this`nodes, this`holders, this`stamp
      ensures if st.Done? then Sharing(was, p, c, (i2 * ENTRIES + i1 + 1) * ENTRIES) else Stopped(was, p, c, st, n)
    {
      hide Sharing, Stopped, WasOk;
      var i0 := 0;
      st, n := Done, 0;
      while i0 < ENTRIES && st.Done?
        invariant i0 <= ENTRIES
        invariant if st.Done? then Sharing(was, p, c, (i2 * ENTRIES + i1) * ENTRIES + i0) else Stopped(was, p, c, st, n)
        decreases ENTRIES - i0
      {
        st, n := ShareStepAt(Key(p, i2, i1, i0), c, was);
        i0 := i0 + 1;
      }
    }

    lemma SkipLow(p: nat, c: nat, i2: nat, i1: nat, was: Vm0)
      requires p != c && i1 < ENTRIES && Sharing(was, p, c, (i2 * ENTRIES + i1) * ENTRIES) && WasOk(was.leaf, c)
      requires Low(p, i2, i1) !in nodes
      ensures Sharing(was, p, c, (i2 * ENTRIES + i1 + 1) * ENTRIES)
    {
      hide Shared, Balanced, TreeOk, WasOk, Need;
      SkippedLow(was.leaf, leaf, nodes, p, c, i2, i1);
      NeedSame(was.leaf, leaf, p, c, (i2 * ENTRIES + i1) * ENTRIES, (i2 * ENTRIES + i1 + 1) * ENTRIES);
    }

    /** The tables below one entry of the root. */
    method ShareMid(p: nat, c: nat, i2: nat, ghost was: Vm0) returns (st: Status, ghost n: nat)
      requires p != c && SlotOk(p, i2) && Sharing(was, p, c, i2 * ENTRIES * ENTRIES) && WasOk(was.leaf, c)
      requires p != KERNEL && c != KERNEL
      modifies this`refs, this`free, this`mem, this`leaf, this`nodes, this`holders, this`stamp
      ensures if st.Done? then Sharing(was, p, c, (i2 + 1) * ENTRIES * ENTRIES) else Stopped(was, p, c, st, n)
    {
      hide Sharing, Stopped, WasOk;
      var i1 := 0;
      st, n := Done, 0;
      while i1 < ENTRIES && st.Done?
        invariant i1 <= ENTRIES
        invariant if st.Done? then Sharing(was, p, c, (i2 * ENTRIES + i1) * ENTRIES) else Stopped(was, p, c, st, n)
        decreases ENTRIES - i1
      {
        if Low(p, i2, i1) in nodes {
          st, n := ShareLow(p, c, i2, i1, was);
        } else {
          SkipLow(p, c, i2, i1, was);
        }
        i1 := i1 + 1;
      }
    }

    lemma SkipMid(p: nat, c: nat, i2: nat, was: Vm0)
      requires p != c && Sharing(was, p, c, i2 * ENTRIES * ENTRIES) && WasOk(was.leaf, c) && p != KERNEL
      requires i2 == SHARED || Mid(p, i2) !in nodes
      ensures Sharing(was, p, c, (i2 + 1) * ENTRIES * ENTRIES)
    {
      hide Shared, Balanced, WasOk, Need;
      SkippedMid(was.leaf, leaf, nodes, p, c, i2);
      NeedSame(was.leaf, leaf, p, c, i2 * ENTRIES * ENTRIES, (i2 + 1) * ENTRIES * ENTRIES);
    }

    // ----- unmapping and teardown ---------------------------------------------------------

    /** page_put on entry k's frame, and the entry is gone. */
    method DropKey(k: Key)
      requires Valid() && k in leaf
      modifies this`refs, this`free, this`leaf, this`holders
      ensures Valid() && leaf == old(leaf) - {k} && SameTokens(old(holders), holders)
      ensures old(leaf)[k].frame < |old(refs)| && old(refs)[old(leaf)[k].frame] > 0
      ensures var f := old(leaf)[k].frame; refs == old(refs)[f := old(refs)[f] - 1] && (f in free <==> refs[f] == 0)
    {
      hide Balanced, TreeOk, PagesOk, DarkZero;
      ghost var b := Ledger();
      FrameOk(b, k);
      HolderIn(b, k);
      HolderCounts(b, leaf[k].frame, Leaf(k));
      SameShape(leaf, leaf - {k}, nodes);
      SameDark(leaf, leaf - {k}, mem);
      var f := leaf[k].frame;
      refs := refs[f := refs[f] - 1];
      if refs[f] == 0 { free := [f] + free; }
      leaf := leaf - {k};
      holders := holders[f := holders[f] - {Leaf(k)}];
      DropLeaf(b, k, Ledger());
    }

    /** A blank entry goes with its table: the frame keeps the reference. */
    method LoseKey(k: Key) returns (ghost id: nat)
      requires Valid() && k in leaf && Blank(leaf[k])
      modifies this`leaf, this`holders, this`stamp
      ensures Valid() && leaf == old(leaf) - {k} && id == old(stamp) && old(leaf)[k].frame < |old(holders)|
      ensures var f := old(leaf)[k].frame; holders == old(holders)[f := old(holders)[f] - {Leaf(k)} + {Kernel(id)}]
    {
      hide Balanced, TreeOk, PagesOk, DarkZero;
      ghost var b := Ledger();
      FrameOk(b, k);
      SameShape(leaf, leaf - {k}, nodes);
      SameDark(leaf, leaf - {k}, mem);
      ghost var f := leaf[k].frame;
      id := stamp;
      leaf := leaf - {k};
      holders := holders[f := holders[f] - {Leaf(k)} + {Kernel(id)}];
      stamp := stamp + 1;
      LoseLeaf(b, k, Ledger());
    }

    /** page_put on a page table that has nothing left below it. */
    method DropTable(n: Node)
      requires Valid() && n in nodes && TreeOk(leaf, nodes - {n})
      modifies this`refs, this`free, this`nodes, this`holders
      ensures Valid() && nodes == old(nodes) - {n} && SameTokens(old(holders), holders)
    {
      hide Balanced, TreeOk, PagesOk, DarkZero;
      ghost var b := Ledger();
      TableHolder(b, n);
      HolderCounts(b, nodes[n], Table(n));
      var f := nodes[n];
      refs := refs[f := refs[f] - 1];
      if refs[f] == 0 { free := [f] + free; }
      nodes := nodes - {n};
      holders := holders[f := holders[f] - {Table(n)}];
      DropNode(b, n, Ledger());
    }

    /** free_user_pages_level has passed the pages below (i2, i1, i0), and the tables before them. */
    ghost predicate Freeing(was: Vm0, pid: nat, i2: nat, i1: nat, i0: nat)
      reads this
    {
      var ok :=
        && Valid() && mem == was.mem && (forall k :: k in was.leaf ==> KeyOk(k))
        && Lost(was.leaf, was.holders, holders, pid, (i2 * ENTRIES + i1) * ENTRIES + i0)
        && Freed(was.leaf, leaf, pid, (i2 * ENTRIES + i1) * ENTRIES + i0)
        && NodesFreed(was.nodes, nodes, pid, i2, i1);
      ok
    }

    /** One turn of the loop over a last-level table. */
    method FreeEntry(k: Key, ghost was: Vm0)
      requires KeyOk(k) && Freeing(was, k.pid, k.i2, k.i1, k.i0)
      modifies this`refs, this`free, this`leaf, this`holders, this`stamp
      ensures Freeing(was, k.pid, k.i2, k.i1, k.i0 + 1)
    {
      hide Valid, Freed, NodesFreed, Lost;
      ghost var l, h := leaf, holders;
      FreedAt(was.leaf, leaf, k);
      ValidTree();
      if k in leaf && !Blank(leaf[k]) {
        DropKey(k);
        LostThen(was.leaf, was.holders, h, holders, k.pid, Order(k));
        LostPass(was.leaf, was.holders, holders, k);
      } else if k in leaf {
        var id := LoseKey(k);
        LostStep(was.leaf, was.holders, h, holders, k, id);
      } else {
        LostPass(was.leaf, was.holders, holders, k);
      }
      ValidTree();
      assert leaf == l - {k};
      FreedStep(was.leaf, l, k, leaf, nodes);
    }

    method FreeLow(pid: nat, i2: nat, i1: nat, ghost was: Vm0)
      requires SlotOk(pid, i2) && i1 < ENTRIES && Freeing(was, pid, i2, i1, 0) && Low(pid, i2, i1) in nodes
      requires pid != KERNEL
      modifies this`refs, this`free, this`leaf, this`nodes, this`holders, this`stamp
      ensures Freeing(was, pid, i2, i1 + 1, 0)
    {
      hide Valid, Freed, NodesFreed, Lost;
      var i0 := 0;
      while i0 < ENTRIES
        invariant i0 <= ENTRIES && Freeing(was, pid, i2, i1, i0) && nodes == old(nodes)
      {
        FreeEntry(Key(pid, i2, i1, i0), was);
        i0 := i0 + 1;
      }
      ghost var h := holders;
      ValidTree();
      LowEmpty(was.leaf, leaf, nodes, pid, i2, i1);
      DropTable(Low(pid, i2, i1));
      LostThen(was.leaf, was.holders, h, holders, pid, (i2 * ENTRIES + i1) * ENTRIES + ENTRIES);
      NodesFreedLow(was.nodes, old(nodes), pid, i2, i1);
    }

    lemma ValidTree()
      requires Valid()
      ensures TreeOk(leaf, nodes)
    {
    }

    lemma FreeSkipLow(pid: nat, i2: nat, i1: nat, was: Vm0)
      requires i1 < ENTRIES && Freeing(was, pid, i2, i1, 0) && Low(pid, i2, i1) !in nodes
      ensures Freeing(was, pid, i2, i1 + 1, 0)
    {
      hide Freed, NodesFreed, Balanced, TreeOk, Lost;
      FreedSkipLow(was.leaf, leaf, nodes, pid, i2, i1);
      var n := (i2 * ENTRIES + i1) * ENTRIES;
      LostGap(was.leaf, leaf, was.holders, holders, pid, n, n + ENTRIES);
      NodesFreedLow(was.nodes, nodes, pid, i2, i1);
      assert nodes - {Low(pid, i2, i1)} == nodes;
    }

    method FreeMid(pid: nat, i2: nat, ghost was: Vm0)
      requires SlotOk(pid, i2) && Freeing(was, pid, i2, 0, 0) && Mid(pid, i2) in nodes && pid != KERNEL
      modifies this`refs, this`free, this`leaf, this`nodes, this`holders, this`stamp
      ensures Freeing(was, pid, i2 + 1, 0, 0)
    {
      hide Valid, Freed, NodesFreed, Freeing;
      var i1 := 0;
      while i1 < ENTRIES
        invariant i1 <= ENTRIES && Freeing(was, pid, i2, i1, 0)
      {
        if Low(pid, i2, i1) in nodes {
          FreeLow(pid, i2, i1, was);
        } else {
          FreeSkipLow(pid, i2, i1, was);
        }
        i1 := i1 + 1;
      }
      FreeMidNode(pid, i2, was);
    }

    /** The middle table itself, once its last-level tables are gone. */
    method FreeMidNode(pid: nat, i2: nat, ghost was: Vm0)
      requires SlotOk(pid, i2) && Freeing(was, pid, i2, ENTRIES, 0) && pid != KERNEL
      modifies this`refs, this`free, this`nodes, this`holders
      ensures Freeing(was, pid, i2 + 1, 0, 0)
    {
      hide Valid, Freed, Lost;
      ghost var h, nodes0 := holders, nodes;
      ValidTree();
      MidEmpty(was.nodes, leaf, nodes, pid, i2);
      if Mid(pid, i2) in nodes {
        DropTable(Mid(pid, i2));
        LostThen(was.leaf, was.holders, h, holders, pid, (i2 * ENTRIES + ENTRIES) * ENTRIES);
      } else {
        assert nodes - {Mid(pid, i2)} == nodes;
      }
    }

    /**
     free_user_pgtable: address space pid is gone, with every reference it held except those of blank entries, which
     are lost; no other entry changes.
     */
    method FreePgtable(pid: nat)
      requires Valid() && Root(pid) in nodes && pid != KERNEL
      modifies this`refs, this`free, this`leaf, this`nodes, this`holders, this`stamp
      ensures Valid() && mem == old(mem) && Lost(old(leaf), old(holders), holders, pid, PAGES)
      ensures forall k: Key :: k in leaf <==> k in old(leaf) && k.pid != pid
      ensures forall k: Key :: k in leaf ==> leaf[k] == old(leaf)[k]
      ensures forall n: Node :: n in nodes <==> n in old(nodes) && n.pid != pid
      ensures forall n: Node :: n in nodes ==> nodes[n] == old(nodes)[n]
    {
      hide Valid, Freeing;
      ghost var was := Vm0(leaf, nodes, holders, mem, |free|);
      ValidTree();
      FreeBegin(pid, was);
      var i2 := 0;
      while i2 < L2_USER
        invariant i2 <= L2_USER && Freeing(was, pid, i2, 0, 0)
      {
        // The root's own entry in the shared slot is the kernel's, and is left alone.
        if i2 != SHARED && Mid(pid, i2) in nodes {
          FreeMid(pid, i2, was);
        } else {
          FreeSkipMid(pid, i2, was);
        }
        i2 := i2 + 1;
      }
      FreeRoot(pid, was);
    }

    lemma FreeBegin(pid: nat, was: Vm0)
      requires Valid() && was == Vm0(leaf, nodes, holders, mem, |free|)
      ensures Freeing(was, pid, 0, 0, 0)
    {
    }

    lemma FreeSkipMid(pid: nat, i2: nat, was: Vm0)
      requires Freeing(was, pid, i2, 0, 0) && (i2 == SHARED || Mid(pid, i2) !in nodes) && pid != KERNEL
      ensures Freeing(was, pid, i2 + 1, 0, 0)
    {
      hide Balanced, Lost;
      FreedSkipMid(was.leaf, leaf, nodes, pid, i2);
      LostGap(was.leaf, leaf, was.holders, holders, pid, i2 * ENTRIES * ENTRIES, (i2 + 1) * ENTRIES * ENTRIES);
    }

    method FreeRoot(pid: nat, ghost was: Vm0)
      requires Freeing(was, pid, L2_USER, 0, 0) && TreeOk(was.leaf, was.nodes) && Root(pid) in was.nodes
      requires pid != KERNEL
      modifies this`refs, this`free, this`nodes, this`holders
      ensures Valid() && mem == was.mem && Lost(was.leaf, was.holders, holders, pid, PAGES)
      ensures forall k: Key :: k in leaf <==> k in was.leaf && k.pid != pid
      ensures forall k: Key :: k in leaf ==> leaf[k] == was.leaf[k]
      ensures forall n: Node :: n in nodes <==> n in was.nodes && n.pid != pid
      ensures forall n: Node :: n in nodes ==> nodes[n] == was.nodes[n]
    {
      hide Valid, Lost;
      ghost var h := holders;
      ValidTree();
      RootEmpty(was.leaf, was.nodes, leaf, nodes, pid);
      DropTable(Root(pid));
      LostThen(was.leaf, was.holders, h, holders, pid, PAGES);
    }

    /** uvmcow_share: every page of p is shared read-only with the new address space c, or there is no c. */
    method Share(p: nat, c: nat) returns (st: Status, ghost n: nat)
      requires Valid() && p != c && NoSpace(leaf, nodes, c) && p != KERNEL
      modifies this`refs, this`free, this`mem, this`leaf, this`nodes, this`holders, this`stamp
      ensures Valid()
      ensures st.Done? ==> Shared(old(leaf), leaf, p, c, PAGES) && Root(c) in nodes && SameTokens(old(holders), holders)
      ensures st.NoMem? ==> Protected(old(leaf), leaf, p, c, n) && NoSpace(leaf, nodes, c) && nodes == old(nodes)
      ensures st.NoMem? ==> (n == 0 && old(free) == []) || StopsAfter(old(leaf), p, n)
      ensures st.NoMem? ==> HeldSame(old(holders), holders) && (old(free) == [] ==> Ledger() == old(Ledger()))
      ensures st.NoMem? ==> HeldMore(old(holders), holders)
      ensures !st.Halt? ==> (st.Done? <==> |Need(old(leaf), p, c, PAGES)| <= |old(free)|)
      ensures st.Done? ==> |free| == |old(free)| - |Need(old(leaf), p, c, PAGES)|
      ensures st.Done? ==> NodesGrown(old(nodes), nodes, c) && StillHeld(old(holders), holders) && old(free) != []
      ensures !st.Halt? ==> UsedKept(old(holders), old(mem), mem)
      ensures st.Halt? ==> Crowded(old(holders))
    {
      hide Valid, Shared, Protected, NoSpace, Sharing, Stopped, UsedKept, WasHeld, StopsAfter, Need;
      ghost var was := Vm0(leaf, nodes, holders, mem, |free|);
      NowHeld();
      NoSpaceOk(c);
      Sizes();
      var ok := NewTable(Root(c));
      if !ok {
        NothingShared(was, p, c);
        NeedsRoot(leaf, p, c);
        return NoMem, 0;
      }
      ShareBegin(was, p, c);
      var i2 := 0;
      st, n := Done, 0;
      while i2 < L2_USER && st.Done?
        invariant i2 <= L2_USER
        invariant if st.Done? then Sharing(was, p, c, i2 * ENTRIES * ENTRIES) else Stopped(was, p, c, st, n)
        decreases L2_USER - i2
      {
        // The root's entry in the shared slot is the kernel's; the child's root has it already.
        if i2 != SHARED && Mid(p, i2) in nodes {
          st, n := ShareMid(p, c, i2, was);
        } else {
          SkipMid(p, c, i2, was);
        }
        i2 := i2 + 1;
      }
      match st {
        case Done => SharedAll(was, p, c);
        case NoMem => Abandon(was, p, c, n);
        case Halt => StoppedValid(was, p, c, st, n);
      }
    }

    lemma NowHeld()
      requires Valid()
      ensures WasHeld(Vm0(leaf, nodes, holders, mem, |free|))
    {
    }

    lemma NoSpaceOk(c: nat)
      requires Valid() && NoSpace(leaf, nodes, c)
      ensures WasOk(leaf, c) && Root(c) !in nodes && c != KERNEL
    {
    }

    lemma NothingShared(was: Vm0, p: nat, c: nat)
      requires Valid() && NoSpace(was.leaf, was.nodes, c) && leaf == was.leaf && nodes == was.nodes
      ensures Protected(was.leaf, leaf, p, c, 0) && NoSpace(leaf, nodes, c)
    {
    }

    lemma ShareBegin(was: Vm0, p: nat, c: nat)
      requires Valid() && WasHeld(was) && WasOk(was.leaf, c) && leaf == was.leaf && Root(c) in nodes
      requires nodes == was.nodes[Root(c) := nodes[Root(c)]] && Root(c) !in was.nodes
      requires |was.holders| == |was.mem| && UsedKept(was.holders, was.mem, mem) && HoldersKept(was.holders, holders)
      requires SameTokens(was.holders, holders) && |free| + 1 == was.free && NoSpace(was.leaf, was.nodes, c)
      ensures Sharing(was, p, c, 0)
    {
      hide Balanced, TreeOk;
      SharedStart(was.leaf, p, c);
      BuiltStart(was, nodes, |free|, p, c);
    }

    lemma SharedAll(was: Vm0, p: nat, c: nat)
      requires Sharing(was, p, c, PAGES)
      ensures Valid() && Shared(was.leaf, leaf, p, c, PAGES) && Root(c) in nodes && SameTokens(was.holders, holders)
      ensures UsedKept(was.holders, was.mem, mem) && NodesGrown(was.nodes, nodes, c) && StillHeld(was.holders, holders)
      ensures |free| + |Need(was.leaf, p, c, PAGES)| == was.free
    {
    }

    lemma StoppedValid(was: Vm0, p: nat, c: nat, st: Status, n: nat)
      requires Stopped(was, p, c, st, n)
      ensures Valid() && (st.Halt? ==> Crowded(was.holders))
    {
    }

    /** The out-of-memory path: the half-built child is torn down. */
    method Abandon(ghost was: Vm0, p: nat, c: nat, ghost n: nat)
      requires Stopped(was, p, c, NoMem, n) && NoSpace(was.leaf, was.nodes, c) && WasHeld(was)
      requires c != KERNEL
      modifies this`refs, this`free, this`leaf, this`nodes, this`holders, this`stamp
      ensures Valid() && Protected(was.leaf, leaf, p, c, n) && NoSpace(leaf, nodes, c)
      ensures UsedKept(was.holders, was.mem, mem)
      ensures nodes == was.nodes && HeldSame(was.holders, holders) && StopsAfter(was.leaf, p, n)
      ensures HeldMore(was.holders, holders) && |Need(was.leaf, p, c, PAGES)| > was.free
    {
      hide Valid, StopsAfter, Lost, Need;
      ghost var h, l := holders, leaf;
      FreePgtable(c);
      LostOnUsed(was, l, h, holders, c);
      NodesBack(was.nodes, old(nodes), nodes, c);
      Restored(was, p, c, n);
    }

    /** A whole child is torn down again. */
    method Withdraw(ghost was: Vm0, p: nat, c: nat)
      requires Valid() && Root(c) in nodes && p != c && NoSpace(was.leaf, was.nodes, c) && WasHeld(was)
      requires Shared(was.leaf, leaf, p, c, PAGES) && NodesGrown(was.nodes, nodes, c)
      requires SameTokens(was.holders, holders) && c != KERNEL
      modifies this`refs, this`free, this`leaf, this`nodes, this`holders, this`stamp
      ensures Valid() && mem == old(mem) && Protected(was.leaf, leaf, p, c, PAGES) && NoSpace(leaf, nodes, c)
      ensures nodes == was.nodes && HeldSame(was.holders, holders) && HeldMore(was.holders, holders)
      ensures forall k: Key :: k in leaf <==> k in old(leaf) && k.pid != c
      ensures forall k: Key :: k in leaf ==> leaf[k] == old(leaf)[k]
    {
      hide Valid, Shared, Protected, Lost;
      ghost var h := holders;
      SharedFrames(was, leaf, Key(p, 0, 0, 0), c, PAGES, leaf);
      FreePgtable(c);
      SharedProtects(was.leaf, old(leaf), leaf, p, c);
      NodesBack(was.nodes, old(nodes), nodes, c);
      SameOnUsed(was.holders, h);
      LostOnUsed(was, old(leaf), h, holders, c);
      Restored(was, p, c, PAGES);
    }

    /** With the child gone, the frames in use are those that were. */
    lemma Restored(was: Vm0, p: nat, c: nat, n: nat)
      requires Valid() && Protected(was.leaf, leaf, p, c, n) && NoSpace(leaf, nodes, c)
      requires NoSpace(was.leaf, was.nodes, c) && nodes == was.nodes
      requires WasHeld(was) && TokensOnUsed(was.holders, holders)
      ensures HeldSame(was.holders, holders) && HeldMore(was.holders, holders)
    {
      hide RefsOk, FreeOk, TokensOk, CowOk, TreeOk, PagesOk, DarkZero;
      SameFrames(was.leaf, leaf, p, c, n);
      HeldIn(was.leaf, was.holders, leaf, holders, nodes);
      HeldIn(leaf, holders, was.leaf, was.holders, nodes);
      AllHeld(was.holders, holders);
    }

    // ----- faults and stores -----------------------------------------------------------------

    /** The handler's branch for a read-only page of a copy-on-write area: it becomes writable, on a copy if shared. */
    method CowFault(k: Key, x: bool) returns (rc: int)
      requires Valid() && k in leaf && !leaf[k].w
      modifies this`refs, this`free, this`mem, this`leaf, this`holders, this`stamp
      ensures Valid() && SameViews(old(leaf), old(mem), leaf, mem) && SameTokens(old(holders), holders)
      ensures old(leaf)[k].frame < |old(refs)|
      ensures rc == if old(refs)[old(leaf)[k].frame] == 1 || old(free) != [] then 0 else -1
      ensures rc == -1 ==> leaf == old(leaf)
      ensures rc == 0 ==> k in leaf && leaf == old(leaf)[k := leaf[k]] && leaf[k].w
      ensures rc == 0 && Alone(old(leaf)[k], old(refs)) ==> leaf[k] == old(leaf)[k].(w := true)
      ensures rc == 0 && !Alone(old(leaf)[k], old(refs)) ==> leaf[k].r
    {
      hide Balanced, TreeOk, PagesOk, DarkZero, Look;
      Sizes();
      ghost var b0, m0 := Ledger(), mem;
      FrameOk(b0, k);
      var f := leaf[k].frame;
      SameShape(leaf, leaf[k := leaf[k].(w := true)], nodes);
      if refs[f] == 1 {
        UpgradeStep(b0, k, b0.(leaf := leaf[k := leaf[k].(w := true)]));
        leaf := leaf[k := leaf[k].(w := true)];
        UpgradedViews(b0.leaf, leaf, mem, k);
        SameDark(b0.leaf, leaf, mem);
        return 0;
      }
      var ok, g, id := PageAlloc();
      if !ok { return -1; }
      var p := Pte(g, true, true, x);
      ghost var b1 := Ledger();
      Copied(b0, k, g);
      mem := mem[g := mem[f]];
      SameShape(leaf, leaf[k := p], nodes);
      leaf := leaf[k := p];
      refs := refs[f := refs[f] - 1];
      holders := holders[g := {Leaf(k)}][f := holders[f] - {Leaf(k)}];
      RemapStep(b1, k, g, id, p, Ledger());
      RemappedViews(b0, m0, k, p, leaf, mem);
      PagesCopied(m0, mem, f, g);
      DarkRemapped(b0, m0, k, p, leaf, mem);
      rc := 0;
    }

    /** The handler's last branch: a zero page for an address that has none. Without memory for a table it is lost. */
    method DemandZero(k: Key, r: bool, w: bool, x: bool) returns (rc: int)
      requires Valid() && KeyOk(k) && !OwnPage(k) && k !in leaf && Root(k.pid) in nodes
      modifies this`refs, this`free, this`mem, this`leaf, this`nodes, this`holders, this`stamp
      ensures Valid() && SameViews(old(leaf), old(mem), leaf, mem)
      ensures rc == if old(free) != [] then 0 else -1
      ensures rc == -1 ==> leaf == old(leaf) && SameTokens(old(holders), holders)
      ensures NodesGrown(old(nodes), nodes, k.pid)
      ensures k in leaf <==> |old(free)| > Missing(old(nodes), k.pid, k.i2, k.i1)
      ensures rc == 0 && k !in leaf ==> leaf == old(leaf) && free == [] && !NothingLost(holders)
      ensures rc == 0 && k in leaf ==>
        && leaf == old(leaf)[k := leaf[k]] && leaf[k] == Pte(leaf[k].frame, r, w, x)
        && SameTokens(old(holders), holders)
      ensures k in leaf ==> |free| == |old(free)| - 1 - Missing(old(nodes), k.pid, k.i2, k.i1)
    {
      hide Balanced, TreeOk, PagesOk, DarkZero, Look, ZeroPage;
      Sizes();
      ghost var b0, m0, h0 := Ledger(), mem, holders;
      var ok, g, id := PageAlloc();
      if !ok { return -1; }
      Sizes();
      ghost var h1, m1 := holders, mem;
      var walked := Walk(k.pid, k.i2, k.i1);
      Sizes();
      ZeroedViews(b0, m0, h1, m1, g, mem);
      if walked {
        ghost var b := Ledger();
        var p := Pte(g, r, w, x);
        NewUnmapped(b0, b.leaf, g);
        LeafTree(leaf, nodes, k, p);
        leaf := leaf[k := p];
        holders := holders[g := holders[g] - {Kernel(id)} + {Leaf(k)}];
        InstallLeaf(b, g, id, k, p, Ledger());
        MappedZero(b0, m0, g, mem, k, p);
        DarkMapped(b.leaf, mem, k, p);
        TokenGone(h0, h1, b.holders, holders, g, id, k);
      }
      rc := 0;
    }

    /**
     user_page_fault on process pid's address va, for anonymous, heap and stack areas; limit is the process's
     RLIMIT_STACK.
     */
    method Fault(pid: nat, va: nat, scause: nat, limit: nat) returns (rc: int)
      requires Valid() && pid in vmas && pid != KERNEL && Root(pid) in nodes && va < PAGES * PAGE_SIZE
      requires MappingAt(vmas[pid], va).Mapped? ==> !MappingAt(vmas[pid], va).typ.File?
      modifies this`refs, this`free, this`mem, this`leaf, this`nodes, this`vmas, this`holders, this`stamp
      ensures vmas == old(vmas)[pid := Grown(old(vmas)[pid], va, limit)]
      ensures Valid() && SameViews(old(leaf), old(mem), leaf, mem)
      ensures rc == -1 || rc == 0
      ensures rc == -1 <==>
        Refused(Facing(old(vmas)[pid], va, limit), scause, KeyAt(pid, va), old(leaf), old(refs), old(free))
      ensures old(Exact()) ==> (Exact() <==> rc == -1 || KeyAt(pid, va) in leaf)
      ensures NodesGrown(old(nodes), nodes, KeyAt(pid, va).pid)
      ensures var k := KeyAt(pid, va);
        && (rc == -1 ==> leaf == old(leaf) && SameTokens(old(holders), holders))
        && (rc == 0 ==> (k in leaf <==> k in old(leaf) || |old(free)| > Missing(old(nodes), k.pid, k.i2, k.i1)))
        && (rc == 0 && k !in leaf ==> leaf == old(leaf) && free == [])
        && (k in leaf && k !in old(leaf) ==> |free| == |old(free)| - 1 - Missing(old(nodes), k.pid, k.i2, k.i1))
        && (rc == 0 && k in leaf ==>
              leaf == old(leaf)[k := leaf[k]] && (scause == 15 ==> leaf[k].w) && SameTokens(old(holders), holders))
        && (rc == 0 && k in old(leaf) ==>
              if Alone(old(leaf)[k], old(refs)) then leaf[k] == old(leaf)[k].(w := true) else leaf[k].r)
        && (k in leaf && k !in old(leaf) ==>
              var m := Facing(old(vmas)[pid], va, limit);
              m.Mapped? && leaf[k].r == m.r && leaf[k].w == m.w && leaf[k].x == m.x)
    {
      hide Valid, SameViews, Facing, Grown, SameTokens, NothingLost;
      var i, list := FindOrGrow(vmas[pid], va, limit);
      vmas := vmas[pid := list];
      SelfViews();
      ValidHere();
      ValidTree();
      if i < 0 {
        if old(Exact()) { StaysExact(old(holders)); }
        return -1;
      }
      var v := vmas[pid][i];
      var k := KeyAt(pid, va);
      if (scause == 15 && !v.w) || (scause == 12 && !v.x) || OwnPage(k) {
        // The kernel's own entries are present and writable, so they refuse every user access.
        rc := -1;
      } else if k in leaf {
        if scause == 15 && !leaf[k].w && v.cow {
          rc := CowFault(k, v.x);
        } else {
          rc := -1;
        }
      } else {
        // A heap area's end is above every address it covers, so its bound check never fires.
        rc := DemandZero(k, v.r, v.w, v.x);
      }
      if old(Exact()) && (rc == -1 || k in leaf) { StaysExact(old(holders)); }
    }

    /** Every mapped frame's count is the number of its mappings, and no reference is lost. */
    ghost predicate Exact()
      reads this`refs, this`leaf, this`holders
    {
      && NothingLost(holders)
      && forall k :: k in leaf ==> leaf[k].frame < |refs| && refs[leaf[k].frame] == |Mappers(leaf, leaf[k].frame)|
    }

    lemma StaysExact(h: Holders)
      requires Valid() && NothingLost(h) && SameTokens(h, holders)
      ensures Exact()
    {
      forall k | k in leaf ensures leaf[k].frame < |refs| && refs[leaf[k].frame] == |Mappers(leaf, leaf[k].frame)| {
        FrameOk(Ledger(), k);
        assert k in Mappers(leaf, leaf[k].frame);
        ExactCounts(Ledger(), leaf[k].frame);
      }
    }

    /** While counts are exact, a frame has at most as many references as there are entries. */
    lemma FewRefs(f: nat)
      requires Valid() && Exact() && f < |refs|
      ensures refs[f] <= 1 + |leaf|
    {
      EveryFrame(Ledger(), f);
      if Mappers(leaf, f) != {} {
        ExactCounts(Ledger(), f);
        MappersCard(leaf, f);
      }
    }

    lemma ValidHere()
      ensures SameTokens(holders, holders)
    {
    }

    lemma SelfViews()
      ensures SameViews(leaf, mem, leaf, mem)
    {
    }

    /** A store to va goes through: its entry is writable, or the fault can make it so. */
    ghost predicate CanStore(pid: nat, va: nat, limit: nat)
      requires pid in vmas && pid != KERNEL && va < PAGES * PAGE_SIZE
      reads this
    {
      StoreOk(Facing(vmas[pid], va, limit), KeyAt(pid, va), leaf, nodes, refs, free)
    }

    /**
     A store instruction of process pid, with the fault it may take. Only the byte stored to ever looks different:
     to that process, and in the shared slot to every other.
     */
    method StoreByte(pid: nat, va: nat, b: byte, limit: nat) returns (ok: bool)
      requires Valid() && pid in vmas && pid != KERNEL && Root(pid) in nodes && va < PAGES * PAGE_SIZE
      requires MappingAt(vmas[pid], va).Mapped? ==> !MappingAt(vmas[pid], va).typ.File?
      modifies this`refs, this`free, this`mem, this`leaf, this`nodes, this`vmas, this`holders, this`stamp
      ensures Valid()
      ensures var k := KeyAt(pid, va);
        vmas == if k in old(leaf) && Writable(old(leaf)[k]) then old(vmas)
          else old(vmas)[pid := Grown(old(vmas)[pid], va, limit)]
      ensures !ok ==> SameViews(old(leaf), old(mem), leaf, mem)
      ensures ok ==> OnlyByte(old(leaf), old(mem), leaf, mem, KeyAt(pid, va), va % PAGE_SIZE, b)
      ensures ok ==> StoreSeen(old(leaf), old(mem), leaf, mem, pid, va / PAGE_SIZE, va % PAGE_SIZE, b)
      ensures ok <==> old(CanStore(pid, va, limit))
      ensures NodesGrown(old(nodes), nodes, KeyAt(pid, va).pid)
      ensures ok ==> var k := KeyAt(pid, va); k in leaf && Writable(leaf[k]) && leaf == old(leaf)[k := leaf[k]]
      ensures !ok ==> var k, m := KeyAt(pid, va), Facing(old(vmas)[pid], va, limit);
        if Refused(m, 15, k, old(leaf), old(refs), old(free)) then leaf == old(leaf)
        else leaf == old(leaf) || (k in leaf && !leaf[k].r && leaf == old(leaf)[k := leaf[k]])
      ensures var k := KeyAt(pid, va); ok && k !in old(leaf) ==>
        |free| == |old(free)| - 1 - Missing(old(nodes), k.pid, k.i2, k.i1)
      ensures old(Exact()) ==>
        (Exact() <==> !LosesPage(Facing(old(vmas)[pid], va, limit), 15, KeyAt(pid, va), old(Ledger())))
    {
      hide Balanced, TreeOk, Look, Facing, Grown, DarkZero, NothingLost, SameTokens;
      var k := KeyAt(pid, va);
      Sizes();
      SelfViews();
      ghost var l0, m0 := leaf, mem;
      if k in leaf { FrameOk(Ledger(), k); }
      if !(k in leaf && Writable(leaf[k])) {
        var rc := Fault(pid, va, 15, limit);
        if rc < 0 { return false; }
        if !(k in leaf && Writable(leaf[k])) { return false; }
      }
      Sizes();
      ghost var m1 := mem;
      FrameOk(Ledger(), k);
      var f := leaf[k].frame;
      mem := mem[f := Poke(mem[f], va % PAGE_SIZE, b)];
      StoredViews(Ledger(), m1, mem, k, va % PAGE_SIZE, b);
      StoredDark(Ledger(), m1, k, mem);
      OnlyThen(l0, m0, leaf, m1, mem, k, va % PAGE_SIZE, b);
      Isolation(l0, m0, leaf, mem, pid, va / PAGE_SIZE, va % PAGE_SIZE, b);
      ok := true;
    }

    // ----- whole operations ---------------------------------------------------------------------

    /**
     uvmunmap_range over pages [from, to) of process pid. Blank entries are passed over. At an entry of the kernel's
     own map the model ends; up to there the pages [from, at) have been done.
     */
    method UnmapRange(pid: nat, from: nat, to: nat) returns (hit: bool, ghost at: nat)
      requires Valid() && from <= to <= PAGES && pid != KERNEL
      modifies this`refs, this`free, this`leaf, this`holders
      ensures Valid() && SameTokens(old(holders), holders) && (old(Exact()) ==> Exact())
      ensures from <= at <= to && (hit <==> at < to) && (hit ==> OwnPage(PageKey(pid, at)))
      ensures forall n :: from <= n < at ==> !OwnPage(PageKey(pid, n))
      ensures forall k: Key :: k in leaf <==> k in old(leaf) && !(Within(pid, from, at, k) && !Blank(old(leaf)[k]))
      ensures forall k: Key :: k in leaf ==> leaf[k] == old(leaf)[k]
    {
      hide Valid, Order;
      var n := from;
      hit := false;
      ghost var l0, h0 := leaf, holders;
      ValidTree();
      while n < to
        invariant from <= n <= to && Valid() && SameTokens(h0, holders)
        invariant forall m :: from <= m < n ==> !OwnPage(PageKey(pid, m))
        invariant forall k: Key :: k in leaf <==> k in l0 && !(Within(pid, from, n, k) && !Blank(l0[k]))
        invariant forall k: Key :: k in leaf ==> leaf[k] == l0[k]
      {
        var k := PageKey(pid, n);
        if OwnPage(k) {
          hit := true;
          break;
        }
        OrderOfPage(pid, n);
        ghost var h := holders;
        if k in leaf && !Blank(leaf[k]) {
          DropKey(k);
          TokensThen(h0, h, holders);
        }
        forall j: Key | j in l0 && Reaches(pid, j) && Order(j) == n ensures j == k {
          KeyInTree(l0, nodes, j);
          PageOfKey(pid, j);
        }
        n := n + 1;
      }
      at := n;
      if old(Exact()) { StaysExact(h0); }
    }

    /**
     Process exit: its pages and tables go; nobody else notices. Counts stay exact if and only if it had no blank
     entry.
     */
    method Exit(pid: nat)
      requires Valid() && Root(pid) in nodes && pid != KERNEL
      modifies this`refs, this`free, this`leaf, this`nodes, this`vmas, this`holders, this`stamp
      ensures Valid() && NoSpace(leaf, nodes, pid) && pid !in vmas && Lost(old(leaf), old(holders), holders, pid, PAGES)
      ensures old(Exact()) ==> (Exact() <==> NoBlanks(old(leaf), pid))
      ensures forall k: Key :: k.pid != pid ==>
        (k in leaf <==> k in old(leaf)) && Look(leaf, mem, k) == Look(old(leaf), old(mem), k)
    {
      hide Valid, ZeroPage, Lost, NoBlanks, NothingLost;
      ghost var b0 := Ledger();
      ValidTree();
      LedgerBalanced();
      vmas := vmas - {pid};
      FreePgtable(pid);
      GoneExact(b0, pid);
    }

    /** A lost reference is all that can make the counts inexact. */
    lemma GoneExact(b: Books, pid: nat)
      requires Valid() && Balanced(b) && TreeOk(b.leaf, b.nodes) && Lost(b.leaf, b.holders, holders, pid, PAGES)
      ensures NothingLost(b.holders) ==> (Exact() <==> NoBlanks(b.leaf, pid))
    {
      hide Valid, Balanced, Lost, TreeOk;
      LostSize(b.leaf, b.holders, holders, pid);
      if NoBlanks(b.leaf, pid) {
        NoneLost(b.leaf, b.holders, holders, pid);
        if NothingLost(b.holders) { StaysExact(b.holders); }
      } else {
        var k :| k in b.leaf && k.pid == pid && Blank(b.leaf[k]);
        HolderIn(b, k);
        KeyInTree(b.leaf, b.nodes, k);
        SomeLost(b.leaf, b.holders, holders, pid, k);
      }
    }

    /**
     proc_fork_current's memory half. On success the child sees exactly what the parent sees, in frames neither
     can write until a fault gives them their own; whatever happens, nobody else's view changes.
     */
    method Fork(p: nat, c: nat, canDup: bool) returns (st: Status, ghost n: nat)
      requires Valid() && p in vmas && p != c && p != KERNEL && NoSpace(leaf, nodes, c) && c !in vmas
      modifies this
      ensures Valid()
      ensures !st.Halt? ==> forall k: Key :: k.pid != c ==>
        (k in leaf <==> k in old(leaf)) && Look(leaf, mem, k) == Look(old(leaf), old(mem), k)
      ensures st.NoMem? ==> NoSpace(leaf, nodes, c) && vmas == old(vmas) && nodes == old(nodes) && |free| == |old(free)|
      ensures st.NoMem? ==> (n == 0 && old(free) == []) || n == PAGES || StopsAfter(old(leaf), p, n)
      ensures !st.Halt? ==>
        (st.Done? <==> canDup && old(vmas)[p] != [] && |Need(old(leaf), p, c, PAGES)| <= |old(free)|)
      ensures st.NoMem? ==> Protected(old(leaf), leaf, p, c, n) && (old(free) == [] ==> Ledger() == old(Ledger()))
      ensures st.Halt? ==> exists f :: 0 <= f < |old(refs)| && 2 * old(refs)[f] >= REF_MAX
      ensures st.NoMem? ==>
        forall pid: nat, va: nat, limit: nat :: pid in vmas && pid != KERNEL && va < PAGES * PAGE_SIZE ==>
        var m, k := Facing(vmas[pid], va, limit), KeyAt(pid, va);
        (CanStore(pid, va, limit) <==>
          || (old(CanStore(pid, va, limit)) && !LostStore(m, k, old(leaf), leaf))
          || Revived(m, k, old(Ledger()), Ledger()))
      ensures st.Done? ==>
        && c != KERNEL
        && (forall i: nat :: i < PAGES ==>
              Look(leaf, mem, PageKey(c, i)) == Look(old(leaf), old(mem), PageKey(p, i)))
        && (forall k: Key :: k in leaf && (k.pid == p || k.pid == c) ==> !leaf[k].w)
        && vmas == old(vmas)[c := CowMarked(old(vmas)[p])][p := CowMarked(old(vmas)[p])]
        && SameTokens(old(holders), holders) && (old(Exact()) ==> Exact())
    {
      hide Valid, Shared, Protected, NoSpace, Look, UsedKept, CowMarked;
      hide WasOk, WasHeld, HeldSame, HeldMore, StopsAfter, StoreOk, LostStore, Revived, Facing, KeyAt, Balanced;
      hide DarkZero, Need;
      ghost var b0, m0, was := Ledger(), mem, Vm0(leaf, nodes, holders, mem, |free|);
      NowHeld();
      ValidTree();
      LedgerBalanced();
      NoSpaceOk(c);
      Sizes();
      ValidDark();
      ghost var h0 := holders;
      st, n := Share(p, c);
      match st {
        case Halt => CrowdedCounts(b0);
        case NoMem =>
          ProtectedViews(b0, m0, leaf, mem, p, c, n);
          LedgerBalanced();
          FreeCount(b0, Ledger());
          FailedStores(b0, p, c, n);
        case Done =>
          SharedViews(b0, m0, leaf, mem, p, c);
          SamePages(b0.leaf, m0, leaf, mem, p, c);
          if !canDup || vmas[p] == [] {
            ghost var l1, n1 := leaf, nodes;
            Withdraw(was, p, c);
            SpaceGone(l1, leaf, nodes, mem, c);
            LedgerBalanced();
            FreeCount(b0, Ledger());
            st, n := NoMem, PAGES;
            FailedStores(b0, p, c, n);
          } else {
            var list := MarkCow(vmas[p]);
            vmas := vmas[c := list][p := list];
            if NothingLost(h0) { StaysExact(h0); }
          }
      }
    }

    lemma FailedStores(b: Books, p: nat, c: nat, n: nat)
      requires Valid() && Balanced(b) && Protected(b.leaf, leaf, p, c, n) && nodes == b.nodes && |free| == |b.free|
      requires (b.free == [] ==> Ledger() == b) && c !in vmas && c != KERNEL && HeldMore(b.holders, holders)
      requires TreeOk(b.leaf, b.nodes)
      ensures forall pid: nat, va: nat, limit: nat :: pid in vmas && pid != KERNEL && va < PAGES * PAGE_SIZE ==>
        var m, k := Facing(vmas[pid], va, limit), KeyAt(pid, va);
        (CanStore(pid, va, limit) <==>
          || (StoreOk(m, k, b.leaf, b.nodes, b.refs, b.free) && !LostStore(m, k, b.leaf, leaf))
          || Revived(m, k, b, Ledger()))
    {
      hide Balanced, Protected, Facing, StoreOk, LostStore, Revived, HeldMore, TreeOk;
      LedgerBalanced();
      forall pid: nat, va: nat, limit: nat | pid in vmas && pid != KERNEL && va < PAGES * PAGE_SIZE
        ensures var m, k := Facing(vmas[pid], va, limit), KeyAt(pid, va);
          (CanStore(pid, va, limit) <==>
            || (StoreOk(m, k, b.leaf, b.nodes, b.refs, b.free) && !LostStore(m, k, b.leaf, leaf))
            || Revived(m, k, b, Ledger()))
      {
        var k := KeyAt(pid, va);
        if k in b.leaf { KeyInTree(b.leaf, b.nodes, k); }
        StoresAfterFailure(b, Ledger(), Facing(vmas[pid], va, limit), k, p, c, n);
      }
    }

    lemma ValidDark()
      requires Valid()
      ensures DarkZero(leaf, mem)
    {
    }

    lemma LedgerBalanced()
      requires Valid()
      ensures Balanced(Ledger())
    {
    }
  }

  lemma HeadIsFree(b: Books)
    requires Balanced(b) && b.free != []
    ensures b.free[0] < |b.refs| == |b.holders| && b.holders[b.free[0]] == {}
  {
  }

  lemma MappersCard(leaf: map<Key, Pte>, f: nat)
    ensures |Mappers(leaf, f)| <= |leaf|
  {
    var rest := leaf.Keys - Mappers(leaf, f);
    assert leaf.Keys == rest + Mappers(leaf, f);
    assert |leaf.Keys| == |leaf|;
  }

  // ----- runs ---------------------------------------------------------------------------------

  /** One anonymous page at va. */
  function PageArea(va: nat, perm: bool): Vma { Vma(va, va + PAGE_SIZE, perm, perm, false, Anon, false, false, 0, 0) }

  lemma PageAreaFaces(va: nat, perm: bool, limit: nat)
    ensures var s := [PageArea(va, perm)];
      && Facing(s, va, limit) == MappingAt(s, va) == Mapped(perm, perm, false, Anon, false, false, 0, 0)
      && Grown(s, va, limit) == s
  {
  }

  /**
   A run in which a failed fork takes a page away from its process: it could store before, and cannot after. Fork needs
   three tables and finds two frames.
   */
  method FailedForkRun() returns (before: bool, after: bool, ghost st: Status)
    ensures before && !after && st.NoMem?
  {
    hide Vm.Valid, Look, StoreSeen, Need, Facing, MappingAt, Grown, SameViews, OnlyByte, UsedKept;
    PageAreaFaces(PAGE_SIZE, true, 0);
    var vm := new Vm(6);
    var ok := vm.NewSpace(1, [PageArea(PAGE_SIZE, true)]);
    before := vm.StoreByte(1, PAGE_SIZE, 7, 0);
    ghost var n;
    forall f: nat | f < |vm.refs| ensures 2 * vm.refs[f] < REF_MAX { vm.FewRefs(f); }
    NeedsThree(vm.leaf, 1, 2, KeyAt(1, PAGE_SIZE));
    st, n := vm.Fork(1, 2, true);
    after := vm.StoreByte(1, PAGE_SIZE, 8, 0);
  }

  lemma NeedsThree(was: map<Key, Pte>, p: nat, c: nat, k: Key)
    requires k in was && k.pid == p && !Blank(was[k]) && KeyOk(k)
    ensures |Need(was, p, c, PAGES)| >= 3
  {
    OrderBound(k);
    hide Order;
    assert Passed(was, p, PAGES, k);
    assert {Root(c), Mid(c, k.i2), Low(c, k.i2, k.i1)} <= Need(was, p, c, PAGES);
    SubsetCard({Root(c), Mid(c, k.i2), Low(c, k.i2, k.i1)}, Need(was, p, c, PAGES));
  }

  /** Two processes with the given areas and no pages, and six free frames. */
  method TwoProcesses(a: seq<Vma>, b: seq<Vma>) returns (vm: Vm)
    ensures fresh(vm) && vm.Valid() && vm.leaf == map[] && |vm.free| == 6 && vm.vmas == map[1 := a, 2 := b]
    ensures vm.nodes.Keys == {Root(KERNEL), Mid(KERNEL, SHARED), Root(1), Root(2)}
  {
    hide Vm.Valid, Vm.Exact, UsedKept;
    vm := new Vm(8);
    var ok := vm.NewSpace(1, a);
    ok := vm.NewSpace(2, b);
  }

  /**
   A run in which isolation fails: process 1 stores to its own area in the shared slot, process 2, which has no area at
   all, sees the byte and stores another, and the page is still there when process 1 has gone.
   */
  method SharedSlotRun() returns (first: bool, second: bool, vm: Vm, ghost seen: Page)
    ensures first && second && |seen| > 0 && seen[0] == 7
    ensures vm.Valid() && var now := Look(vm.leaf, vm.mem, PageKey(2, 0x9_0000)); |now| > 0 && now[0] == 8
  {
    hide Vm.Valid, Look, OnlyByte, Facing, MappingAt, Grown, Lost, Vm.Exact, SameViews, LosesPage, Refused;
    PageAreaFaces(0x9000_0000, true, 0);
    vm := TwoProcesses([PageArea(0x9000_0000, true)], []);
    first := vm.StoreByte(1, 0x9000_0000, 7, 0);
    seen := Look(vm.leaf, vm.mem, PageKey(2, 0x9_0000));
    assert MappingAt([], 0x9000_0000) == Unmapped by { MappingNone([], 0x9000_0000); }
    second := vm.StoreByte(2, 0x9000_0000, 8, 0);
    vm.Exit(1);
  }

  /**
   A run in which a page without permissions outlives its area: a load fault maps it, unmapping passes over it, a store
   to the writable area that follows is refused, and at exit its frame is lost.
   */
  method BlankRun() returns (rc: int, stored: bool, vm: Vm)
    ensures rc == 0 && !stored && !vm.Exact()
  {
    hide Vm.Valid, Look, StoreSeen, Facing, MappingAt, Grown, Lost, SameViews, SameTokens, OnlyByte, UsedKept;
    hide Vm.Exact, Missing;
    PageAreaFaces(PAGE_SIZE, true, 0);
    rc, vm := BlankPage();
    ghost var k := KeyAt(1, PAGE_SIZE);
    var hit, at := vm.UnmapRange(1, 1, 2);
    vm.vmas := vm.vmas[1 := [PageArea(PAGE_SIZE, true)]];
    stored := vm.StoreByte(1, PAGE_SIZE, 7, 0);
    assert k in vm.leaf && Blank(vm.leaf[k]);
    vm.Exit(1);
  }

  /** A process with one page, mapped by a load fault in an area without permissions. */
  method BlankPage() returns (rc: int, vm: Vm)
    ensures fresh(vm) && rc == 0 && vm.Valid() && vm.Exact() && 1 in vm.vmas && Root(1) in vm.nodes
    ensures KeyAt(1, PAGE_SIZE) in vm.leaf && Blank(vm.leaf[KeyAt(1, PAGE_SIZE)])
  {
    hide Vm.Valid, Look, Facing, MappingAt, Grown, SameViews, SameTokens, UsedKept;
    PageAreaFaces(PAGE_SIZE, false, 0);
    vm := new Vm(6);
    var ok := vm.NewSpace(1, [PageArea(PAGE_SIZE, false)]);
    rc := vm.Fault(1, PAGE_SIZE, 13, 0);
  }
}
