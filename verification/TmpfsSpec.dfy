/** The shape of a tmpfs: a tree of directories, link counts, and the steps that keep them right. */
module TmpfsSpec {
  const NINODES := 64

  datatype Kind = Reg | Dir | Lnk

  /** An inode of the pool; parent is -1 except for directories below the root. */
  datatype Node = Node(used: bool, kind: Kind, nlink: nat, refcnt: nat, parent: int)

  /** A directory entry: the directory it is in and the name it has there. */
  datatype Key = Key(dir: nat, name: string)

  type Entries = map<Key, nat>
  type Nodes = seq<Node>

  predicate LiveDir(nodes: Nodes, i: int) { 0 <= i < |nodes| && nodes[i].used && nodes[i].kind.Dir? }

  predicate LiveFile(nodes: Nodes, i: int) { 0 <= i < |nodes| && nodes[i].used && !nodes[i].kind.Dir? }

  predicate SubDir(nodes: Nodes, i: int, p: int) { LiveDir(nodes, i) && i != 0 && nodes[i].parent == p }

  /** The entries that name inode i. */
  ghost function Names(e: Entries, i: nat): set<Key> { set k | k in e && e[k] == i }

  /** The directories whose parent is i. */
  ghost function Children(nodes: Nodes, i: nat): set<nat> { set x: nat | x < |nodes| && SubDir(nodes, x, i) }

  ghost predicate RootOk(nodes: Nodes) { |nodes| == NINODES && LiveDir(nodes, 0) && nodes[0].parent == -1 }

  /** An entry is in a directory and names an inode in use, never the root; a directory's entry is its home. */
  ghost predicate EntryOk(nodes: Nodes, e: Entries, home: map<nat, Key>, k: Key)
    requires k in e
  {
    && LiveDir(nodes, k.dir) && 0 < e[k] < |nodes| && nodes[e[k]].used
    && (nodes[e[k]].kind.Dir? ==> e[k] in home && home[e[k]] == k)
  }

  ghost predicate EntriesOk(nodes: Nodes, e: Entries, home: map<nat, Key>) {
    |e| <= NINODES && forall k :: k in e ==> EntryOk(nodes, e, home, k)
  }

  /** A directory below the root has its home in its parent, one level up. */
  ghost predicate DirOk(nodes: Nodes, e: Entries, home: map<nat, Key>, depth: seq<nat>, i: nat)
    requires i < |nodes| == |depth|
  {
    LiveDir(nodes, i) && i != 0 ==>
      && LiveDir(nodes, nodes[i].parent) && depth[i] == depth[nodes[i].parent] + 1
      && i in home && home[i] in e && e[home[i]] == i && home[i].dir == nodes[i].parent
  }

  ghost predicate DirsOk(nodes: Nodes, e: Entries, home: map<nat, Key>, depth: seq<nat>) {
    |depth| == |nodes| && forall i: nat :: i < |nodes| ==> DirOk(nodes, e, home, depth, i)
  }

  /** A file's link count is the number of its names; a directory's is 2 and one for each subdirectory. */
  ghost predicate CountOk(nodes: Nodes, e: Entries, i: nat)
    requires i < |nodes|
  {
    nodes[i].used ==>
      if nodes[i].kind.Dir? then nodes[i].nlink == 2 + |Children(nodes, i)|
      else nodes[i].nlink == |Names(e, i)| && (nodes[i].nlink > 0 || nodes[i].refcnt > 0)
  }

  ghost predicate CountsOk(nodes: Nodes, e: Entries) { forall i: nat :: i < |nodes| ==> CountOk(nodes, e, i) }

  datatype Tree = Tree(nodes: Nodes, e: Entries, home: map<nat, Key>, depth: seq<nat>)

  ghost predicate TreeOk(t: Tree) {
    && RootOk(t.nodes) && EntriesOk(t.nodes, t.e, t.home) && DirsOk(t.nodes, t.e, t.home, t.depth)
    && CountsOk(t.nodes, t.e)
  }

  /** Directory x is a or lies below a. */
  ghost predicate Under(t: Tree, x: nat, a: nat)
    requires DirsOk(t.nodes, t.e, t.home, t.depth) && LiveDir(t.nodes, x)
    decreases t.depth[x]
  {
    x == a || (x != 0 && assert DirOk(t.nodes, t.e, t.home, t.depth, x); Under(t, t.nodes[x].parent, a))
  }

  /** Every directory lies below the root, so the walk up from any directory ends there. */
  lemma {:induction false} AllUnderRoot(t: Tree, x: nat)
    requires DirsOk(t.nodes, t.e, t.home, t.depth) && LiveDir(t.nodes, x)
    ensures Under(t, x, 0)
    decreases t.depth[x]
  {
    if x != 0 {
      assert DirOk(t.nodes, t.e, t.home, t.depth, x);
      AllUnderRoot(t, t.nodes[x].parent);
    }
  }

  // ----- small facts ------------------------------------------------------------------------

  lemma ChildrenSame(nodes: Nodes, nodes': Nodes, i: nat)
    requires |nodes| == |nodes'| && forall x: nat :: SubDir(nodes', x, i) <==> SubDir(nodes, x, i)
    ensures Children(nodes', i) == Children(nodes, i)
  {
  }

  lemma NamesAdd(e: Entries, k: Key, i: nat, j: nat)
    requires k !in e
    ensures Names(e[k := i], j) == if j == i then Names(e, j) + {k} else Names(e, j)
    ensures k !in Names(e, j)
  {
  }

  lemma NamesRemove(e: Entries, k: Key, j: nat)
    requires k in e
    ensures Names(e - {k}, j) == if j == e[k] then Names(e, j) - {k} else Names(e, j)
    ensures k in Names(e, j) <==> j == e[k]
  {
  }

  /** Renaming within or across directories keeps the number of names. */
  lemma NamesMove(e: Entries, k: Key, k': Key, j: nat)
    requires k in e && k' !in e
    ensures |Names(e[k' := e[k]] - {k}, j)| == |Names(e, j)|
  {
    NamesAdd(e, k', e[k], j);
    NamesRemove(e[k' := e[k]], k, j);
  }

  /** The directories are the same directories. */
  ghost predicate SameDirs(nodes: Nodes, nodes': Nodes) {
    && |nodes'| == |nodes|
    && forall x: nat :: x < |nodes| ==>
         (LiveDir(nodes', x) <==> LiveDir(nodes, x)) && nodes'[x].parent == nodes[x].parent
  }

  lemma DirsSame(t: Tree, u: Tree)
    requires TreeOk(t) && SameDirs(t.nodes, u.nodes) && u.home == t.home && u.depth == t.depth
    requires forall i: nat ::
      i < |t.nodes| && LiveDir(t.nodes, i) && i in t.home && t.home[i] in t.e && t.e[t.home[i]] == i ==>
      t.home[i] in u.e && u.e[t.home[i]] == i
    ensures RootOk(u.nodes) && DirsOk(u.nodes, u.e, u.home, u.depth)
  {
    forall i: nat | i < |u.nodes|
      ensures DirOk(u.nodes, u.e, u.home, u.depth, i)
    {
      assert DirOk(t.nodes, t.e, t.home, t.depth, i);
    }
  }

  lemma CountsFrom(t: Tree, u: Tree)
    requires SameDirs(t.nodes, u.nodes) && CountsOk(t.nodes, t.e)
    requires forall i: nat :: i < |t.nodes| && LiveDir(t.nodes, i) ==> u.nodes[i].nlink == t.nodes[i].nlink
    ensures forall i: nat :: i < |u.nodes| && LiveDir(u.nodes, i) ==> CountOk(u.nodes, u.e, i)
  {
    forall i: nat | i < |u.nodes| && LiveDir(u.nodes, i) ensures CountOk(u.nodes, u.e, i) {
      assert CountOk(t.nodes, t.e, i);
      ChildrenSame(t.nodes, u.nodes, i);
    }
  }

  // ----- names of files ------------------------------------------------------------------------

  /** A new file or symlink, or another name for an old one. */
  lemma AddName(t: Tree, k: Key, i: nat, n: Node, u: Tree)
    requires TreeOk(t) && k !in t.e && LiveDir(t.nodes, k.dir) && 0 < i < NINODES && |t.e| < NINODES
    requires n.used && !n.kind.Dir? && n.parent == t.nodes[i].parent
    requires if t.nodes[i].used then LiveFile(t.nodes, i) && n == t.nodes[i].(nlink := t.nodes[i].nlink + 1)
      else n.nlink == 1
    requires u == t.(nodes := t.nodes[i := n], e := t.e[k := i])
    ensures TreeOk(u)
  {
    assert RootOk(u.nodes) && DirsOk(u.nodes, u.e, u.home, u.depth) by {
      hide CountsOk, EntriesOk;
      DirsSame(t, u);
    }
    assert EntriesOk(u.nodes, u.e, u.home) by {
      hide DirsOk, CountsOk;
      forall j | j in u.e
        ensures EntryOk(u.nodes, u.e, u.home, j)
      {
        if j != k { assert EntryOk(t.nodes, t.e, t.home, j); }
      }
    }
    hide Names, Children, EntryOk, EntriesOk, DirsOk;
    AddNameCounts(t, k, i, n, u);
  }

  lemma AddNameCounts(t: Tree, k: Key, i: nat, n: Node, u: Tree)
    requires TreeOk(t) && k !in t.e && 0 < i < NINODES && n.used && !n.kind.Dir? && n.parent == t.nodes[i].parent
    requires if t.nodes[i].used then LiveFile(t.nodes, i) && n == t.nodes[i].(nlink := t.nodes[i].nlink + 1)
      else n.nlink == 1
    requires u.nodes == t.nodes[i := n] && u.e == t.e[k := i]
    ensures CountsOk(u.nodes, u.e)
  {
    hide Names, Children, EntriesOk, DirsOk;
    CountsFrom(t, u);
    if !t.nodes[i].used { NoNames(t, i); }
    forall j: nat | j < |u.nodes| ensures CountOk(u.nodes, u.e, j) {
      assert CountOk(t.nodes, t.e, j);
      NamesAdd(t.e, k, i, j);
    }
  }

  /** An inode that is not in use has no names and no subdirectories. */
  lemma NoNames(t: Tree, i: nat)
    requires TreeOk(t) && i < NINODES && !t.nodes[i].used
    ensures Names(t.e, i) == {} && Children(t.nodes, i) == {}
    ensures forall k :: k in t.e ==> t.e[k] != i && k.dir != i
    ensures forall x: nat :: x < |t.nodes| && LiveDir(t.nodes, x) && x != 0 ==> t.nodes[x].parent != i
  {
    forall k | k in t.e ensures t.e[k] != i && k.dir != i { assert EntryOk(t.nodes, t.e, t.home, k); }
    forall x: nat | x < |t.nodes| && LiveDir(t.nodes, x) && x != 0
      ensures t.nodes[x].parent != i
    {
      assert DirOk(t.nodes, t.e, t.home, t.depth, x);
    }
  }

  lemma SmallerMap(e: Entries, k: Key)
    requires k in e
    ensures |e - {k}| == |e| - 1
  {
    assert (e - {k}).Keys == e.Keys - {k};
  }

  /** Removing a name; the file goes when it was the last and nobody has it open. */
  lemma RemoveName(t: Tree, k: Key, n: Node, u: Tree)
    requires TreeOk(t) && k in t.e && LiveFile(t.nodes, t.e[k]) && t.nodes[t.e[k]].nlink > 0
    requires var m := t.nodes[t.e[k]]; n == m.(nlink := m.nlink - 1, used := !(m.nlink == 1 && m.refcnt == 0))
    requires u == t.(nodes := t.nodes[t.e[k] := n], e := t.e - {k})
    ensures TreeOk(u)
  {
    hide Names, Children;
    DirsSame(t, u);
    SmallerMap(t.e, k);
    RemoveNameEntries(t, k, n, u);
    RemoveNameCounts(t, k, n, u);
  }

  lemma RemoveNameEntries(t: Tree, k: Key, n: Node, u: Tree)
    requires TreeOk(t) && k in t.e && LiveFile(t.nodes, t.e[k]) && t.nodes[t.e[k]].nlink > 0
    requires var m := t.nodes[t.e[k]]; n == m.(nlink := m.nlink - 1, used := !(m.nlink == 1 && m.refcnt == 0))
    requires u == t.(nodes := t.nodes[t.e[k] := n], e := t.e - {k})
    ensures forall j :: j in u.e ==> EntryOk(u.nodes, u.e, u.home, j)
  {
    hide Names, Children, DirsOk, CountsOk;
    if !n.used { LastName(t, k); }
    forall j | j in u.e ensures EntryOk(u.nodes, u.e, u.home, j) { assert EntryOk(t.nodes, t.e, t.home, j); }
  }

  lemma RemoveNameCounts(t: Tree, k: Key, n: Node, u: Tree)
    requires TreeOk(t) && k in t.e && LiveFile(t.nodes, t.e[k]) && t.nodes[t.e[k]].nlink > 0
    requires var m := t.nodes[t.e[k]]; n == m.(nlink := m.nlink - 1, used := !(m.nlink == 1 && m.refcnt == 0))
    requires u == t.(nodes := t.nodes[t.e[k] := n], e := t.e - {k})
    ensures CountsOk(u.nodes, u.e)
  {
    hide Names, Children, EntriesOk, DirsOk;
    CountsFrom(t, u);
    forall j: nat | j < |u.nodes| ensures CountOk(u.nodes, u.e, j) {
      assert CountOk(t.nodes, t.e, j);
      NamesRemove(t.e, k, j);
    }
  }

  /** When the count is one, the entry is the only one. */
  lemma LastName(t: Tree, k: Key)
    requires TreeOk(t) && k in t.e && LiveFile(t.nodes, t.e[k]) && t.nodes[t.e[k]].nlink == 1
    ensures forall j :: j in t.e && t.e[j] == t.e[k] ==> j == k
  {
    var i := t.e[k];
    assert CountOk(t.nodes, t.e, i);
    forall j | j in t.e && t.e[j] == i ensures j == k {
      if j != k { Two(Names(t.e, i), j, k); }
    }
  }

  lemma Two(s: set<Key>, j: Key, k: Key)
    requires j in s && k in s && j != k
    ensures |s| >= 2
  {
    assert s == (s - {j, k}) + {j, k};
  }

  /** A named file has a positive count. */
  lemma NamedCount(t: Tree, k: Key)
    requires TreeOk(t) && k in t.e && LiveFile(t.nodes, t.e[k])
    ensures t.nodes[t.e[k]].nlink > 0
  {
    assert CountOk(t.nodes, t.e, t.e[k]) && k in Names(t.e, t.e[k]);
  }

  /** rename of a file. */
  lemma MoveName(t: Tree, k: Key, k': Key, u: Tree)
    requires TreeOk(t) && k in t.e && k' !in t.e && LiveFile(t.nodes, t.e[k]) && LiveDir(t.nodes, k'.dir)
    requires u == t.(e := t.e[k' := t.e[k]] - {k})
    ensures TreeOk(u)
  {
    hide Names, Children;
    DirsSame(t, u);
    SmallerMap(t.e[k' := t.e[k]], k);
    assert EntryOk(t.nodes, t.e, t.home, k);
    forall j | j in u.e
      ensures EntryOk(u.nodes, u.e, u.home, j)
    {
      if j != k' { assert EntryOk(t.nodes, t.e, t.home, j); }
    }
    forall j: nat | j < |u.nodes| ensures CountOk(u.nodes, u.e, j) {
      assert CountOk(t.nodes, t.e, j);
      NamesMove(t.e, k, k', j);
    }
  }

  /** Opening, closing: an unlinked file goes with its last reference. */
  lemma SetRefs(t: Tree, i: nat, n: Node, u: Tree)
    requires TreeOk(t) && i < |t.nodes| && t.nodes[i].used
    requires n == t.nodes[i].(refcnt := n.refcnt, used := t.nodes[i].nlink > 0 || n.refcnt > 0)
    requires u == t.(nodes := t.nodes[i := n])
    ensures TreeOk(u)
  {
    hide Names, Children;
    assert CountOk(t.nodes, t.e, i);
    assert LiveDir(t.nodes, i) ==> n.used;
    DirsSame(t, u);
    CountsFrom(t, u);
    forall k | k in u.e ensures EntryOk(u.nodes, u.e, u.home, k) {
      assert EntryOk(t.nodes, t.e, t.home, k);
      if t.e[k] == i && LiveFile(t.nodes, i) { NamedCount(t, k); }
    }
    forall j: nat | j < |u.nodes| ensures CountOk(u.nodes, u.e, j) { assert CountOk(t.nodes, t.e, j); }
  }

  // ----- directories -----------------------------------------------------------------------------

  lemma ChildrenAdd(nodes: Nodes, nodes': Nodes, i: nat, p: nat, j: nat)
    requires |nodes| == |nodes'| && i < |nodes|
    requires forall x: nat :: x != i ==> (SubDir(nodes', x, j) <==> SubDir(nodes, x, j))
    requires !SubDir(nodes, i, j) && (SubDir(nodes', i, j) <==> j == p)
    ensures Children(nodes', j) == if j == p then Children(nodes, j) + {i} else Children(nodes, j)
    ensures i !in Children(nodes, j)
  {
  }

  /** mkdir. */
  lemma AddDir(t: Tree, k: Key, i: nat, r: nat, u: Tree)
    requires TreeOk(t) && k !in t.e && LiveDir(t.nodes, k.dir) && 0 < i < NINODES && !t.nodes[i].used && |t.e| < NINODES
    requires var p := t.nodes[k.dir];
      u == Tree(t.nodes[i := Node(true, Dir, 2, r, k.dir)][k.dir := p.(nlink := p.nlink + 1)], t.e[k := i],
        t.home[i := k], t.depth[i := t.depth[k.dir] + 1])
    ensures TreeOk(u)
  {
    hide Names, Children, EntriesOk, DirsOk, CountsOk;
    AddDirDirs(t, k, i, r, u);
    AddDirEntries(t, k, i, r, u);
    AddDirCounts(t, k, i, r, u);
  }

  lemma AddDirDirs(t: Tree, k: Key, i: nat, r: nat, u: Tree)
    requires TreeOk(t) && k !in t.e && LiveDir(t.nodes, k.dir) && 0 < i < NINODES && !t.nodes[i].used
    requires var p := t.nodes[k.dir];
      u == Tree(t.nodes[i := Node(true, Dir, 2, r, k.dir)][k.dir := p.(nlink := p.nlink + 1)], t.e[k := i],
        t.home[i := k], t.depth[i := t.depth[k.dir] + 1])
    ensures RootOk(u.nodes) && DirsOk(u.nodes, u.e, u.home, u.depth)
  {
    hide Names, Children, CountsOk, EntriesOk;
    NoNames(t, i);
    forall x: nat | x < |u.nodes|
      ensures DirOk(u.nodes, u.e, u.home, u.depth, x)
    {
      if x != i { assert DirOk(t.nodes, t.e, t.home, t.depth, x); }
    }
  }

  lemma AddDirEntries(t: Tree, k: Key, i: nat, r: nat, u: Tree)
    requires TreeOk(t) && k !in t.e && LiveDir(t.nodes, k.dir) && 0 < i < NINODES && !t.nodes[i].used && |t.e| < NINODES
    requires var p := t.nodes[k.dir];
      u == Tree(t.nodes[i := Node(true, Dir, 2, r, k.dir)][k.dir := p.(nlink := p.nlink + 1)], t.e[k := i],
        t.home[i := k], t.depth[i := t.depth[k.dir] + 1])
    ensures EntriesOk(u.nodes, u.e, u.home)
  {
    hide Names, Children, CountsOk, DirsOk;
    NoNames(t, i);
    forall j | j in u.e
      ensures EntryOk(u.nodes, u.e, u.home, j)
    {
      if j != k { assert EntryOk(t.nodes, t.e, t.home, j); }
    }
  }

  lemma AddDirCounts(t: Tree, k: Key, i: nat, r: nat, u: Tree)
    requires TreeOk(t) && k !in t.e && LiveDir(t.nodes, k.dir) && 0 < i < NINODES && !t.nodes[i].used && |t.e| < NINODES
    requires var p := t.nodes[k.dir];
      u == Tree(t.nodes[i := Node(true, Dir, 2, r, k.dir)][k.dir := p.(nlink := p.nlink + 1)], t.e[k := i],
        t.home[i := k], t.depth[i := t.depth[k.dir] + 1])
    ensures CountsOk(u.nodes, u.e)
  {
    hide Names, Children, EntriesOk, DirsOk;
    NoNames(t, i);
    forall j: nat | j < |u.nodes| ensures CountOk(u.nodes, u.e, j) {
      assert CountOk(t.nodes, t.e, j);
      NamesAdd(t.e, k, i, j);
      ChildrenAdd(t.nodes, u.nodes, i, k.dir, j);
    }
  }

  /** A directory without entries has no subdirectories, so its count is 2. */
  lemma EmptyDir(t: Tree, i: nat)
    requires TreeOk(t) && LiveDir(t.nodes, i) && forall k :: k in t.e ==> k.dir != i
    ensures Children(t.nodes, i) == {} && t.nodes[i].nlink == 2
    ensures forall x: nat :: x < |t.nodes| && LiveDir(t.nodes, x) && x != 0 ==> t.nodes[x].parent != i
  {
    forall x: nat | x < |t.nodes| && LiveDir(t.nodes, x) && x != 0
      ensures t.nodes[x].parent != i
    {
      assert DirOk(t.nodes, t.e, t.home, t.depth, x);
    }
    assert CountOk(t.nodes, t.e, i);
  }

  lemma ChildrenRemove(nodes: Nodes, nodes': Nodes, i: nat, p: nat, j: nat)
    requires |nodes| == |nodes'| && i < |nodes| && !SubDir(nodes', i, j) && (SubDir(nodes, i, j) <==> j == p)
    requires forall x: nat :: x != i ==> (SubDir(nodes', x, j) <==> SubDir(nodes, x, j))
    ensures Children(nodes', j) == if j == p then Children(nodes, j) - {i} else Children(nodes, j)
    ensures i in Children(nodes, j) <==> j == p
  {
  }

  lemma RemovedHome(t: Tree, k: Key)
    requires TreeOk(t) && k in t.e && LiveDir(t.nodes, t.e[k])
    ensures SubDir(t.nodes, t.e[k], k.dir) && k.dir != t.e[k] && k.dir < |t.nodes|
  {
    assert EntryOk(t.nodes, t.e, t.home, k) && DirOk(t.nodes, t.e, t.home, t.depth, t.e[k]);
  }

  /** rmdir of an empty directory nobody refers to. */
  lemma RemoveDir(t: Tree, k: Key, gone: Node, u: Tree)
    requires TreeOk(t) && k in t.e && LiveDir(t.nodes, t.e[k]) && (forall j :: j in t.e ==> j.dir != t.e[k])
    requires LiveDir(t.nodes, k.dir) && t.nodes[k.dir].nlink > 0
    requires var i, p := t.e[k], t.nodes[k.dir];
      !gone.used && u == t.(nodes := t.nodes[k.dir := p.(nlink := p.nlink - 1)][i := gone], e := t.e - {k})
    ensures TreeOk(u)
  {
    hide Names, Children;
    var i := t.e[k];
    assert EntryOk(t.nodes, t.e, t.home, k) && DirOk(t.nodes, t.e, t.home, t.depth, i);
    EmptyDir(t, i);
    SmallerMap(t.e, k);
    forall x: nat | x < |u.nodes|
      ensures DirOk(u.nodes, u.e, u.home, u.depth, x)
    {
      assert DirOk(t.nodes, t.e, t.home, t.depth, x);
    }
    forall j | j in u.e ensures EntryOk(u.nodes, u.e, u.home, j) { assert EntryOk(t.nodes, t.e, t.home, j); }
    RemoveDirCounts(t, k, gone, u);
  }

  lemma RemoveDirCounts(t: Tree, k: Key, gone: Node, u: Tree)
    requires TreeOk(t) && k in t.e && LiveDir(t.nodes, t.e[k]) && (forall j :: j in t.e ==> j.dir != t.e[k])
    requires LiveDir(t.nodes, k.dir) && t.nodes[k.dir].nlink > 0
    requires var i, p := t.e[k], t.nodes[k.dir];
      !gone.used && u == t.(nodes := t.nodes[k.dir := p.(nlink := p.nlink - 1)][i := gone], e := t.e - {k})
    ensures CountsOk(u.nodes, u.e)
  {
    hide Names, Children, EntriesOk, DirsOk;
    var i := t.e[k];
    RemovedHome(t, k);
    forall j: nat | j < |u.nodes| ensures CountOk(u.nodes, u.e, j) {
      assert CountOk(t.nodes, t.e, j);
      NamesRemove(t.e, k, j);
      ChildrenRemove(t.nodes, u.nodes, i, k.dir, j);
    }
  }

  /** Depths after directory i moves below directory p: its whole subtree shifts. */
  ghost function Shifted(t: Tree, i: nat, p: nat): (d: seq<nat>)
    requires DirsOk(t.nodes, t.e, t.home, t.depth) && LiveDir(t.nodes, i) && p < |t.depth|
    ensures |d| == |t.depth|
  {
    seq(|t.depth|, x requires 0 <= x < |t.depth| =>
      if LiveDir(t.nodes, x) && Under(t, x, i) then
        UnderDeeper(t, x, i);
        t.depth[x] - t.depth[i] + t.depth[p] + 1
      else t.depth[x])
  }

  lemma UnderSelf(t: Tree, x: nat)
    requires DirsOk(t.nodes, t.e, t.home, t.depth) && LiveDir(t.nodes, x)
    ensures Under(t, x, x)
  {
  }

  /** Removing an empty directory or a file leaves the other directories where they were. */
  lemma {:induction false} UnderKept(t: Tree, u: Tree, x: nat, a: nat)
    requires TreeOk(t) && TreeOk(u) && LiveDir(t.nodes, x) && LiveDir(u.nodes, x) && u.depth == t.depth
    requires forall y: nat :: y < |u.nodes| && LiveDir(u.nodes, y) ==>
      LiveDir(t.nodes, y) && u.nodes[y].parent == t.nodes[y].parent
    ensures Under(u, x, a) <==> Under(t, x, a)
    decreases t.depth[x]
  {
    if x != a && x != 0 {
      assert DirOk(t.nodes, t.e, t.home, t.depth, x) && DirOk(u.nodes, u.e, u.home, u.depth, x);
      UnderKept(t, u, t.nodes[x].parent, a);
    }
  }

  lemma {:induction false} UnderDeeper(t: Tree, x: nat, a: nat)
    requires DirsOk(t.nodes, t.e, t.home, t.depth) && LiveDir(t.nodes, x) && LiveDir(t.nodes, a) && Under(t, x, a)
    ensures t.depth[x] >= t.depth[a]
    decreases t.depth[x]
  {
    if x != a {
      assert DirOk(t.nodes, t.e, t.home, t.depth, x);
      UnderDeeper(t, t.nodes[x].parent, a);
    }
  }

  /** rename of a directory to a place that is not below it. */
  lemma MoveDir(t: Tree, k: Key, k': Key, u: Tree)
    requires TreeOk(t) && k in t.e && k' !in t.e && LiveDir(t.nodes, t.e[k]) && LiveDir(t.nodes, k'.dir)
    requires !Under(t, k'.dir, t.e[k])
    requires LiveDir(t.nodes, k.dir) && t.nodes[k.dir].nlink > 0
    requires u == Tree(Reparented(t.nodes, t.e[k], k.dir, k'.dir), t.e[k' := t.e[k]] - {k}, t.home[t.e[k] := k'],
      Shifted(t, t.e[k], k'.dir))
    ensures TreeOk(u)
  {
    hide Names, Children, Shifted, Under, CountsOk;
    var i := t.e[k];
    RemovedHome(t, k);
    SmallerMap(t.e[k' := i], k);
    forall x: nat | x < |u.nodes| ensures DirOk(u.nodes, u.e, u.home, u.depth, x) {
      MovedDir(t, k, k', u, x);
    }
    assert EntriesOk(u.nodes, u.e, u.home) by {
      hide DirsOk, DirOk;
      forall j | j in u.e
        ensures EntryOk(u.nodes, u.e, u.home, j)
      {
        if j != k' { assert EntryOk(t.nodes, t.e, t.home, j); }
      }
    }
    assert EntryOk(t.nodes, t.e, t.home, k);
    UnderSelf(t, k'.dir);
    MoveDirCounts(t, k, k', u);
  }

  /** The nodes after directory i moves from p to q: link counts of the two parents, and i's parent pointer. */
  function Reparented(nodes: Nodes, i: nat, p: nat, q: nat): Nodes
    requires i < |nodes| && p < |nodes| && q < |nodes| && nodes[p].nlink > 0
  {
    if p == q then nodes
    else
      var n1 := nodes[p := nodes[p].(nlink := nodes[p].nlink - 1)];
      var n2 := n1[q := n1[q].(nlink := n1[q].nlink + 1)];
      n2[i := n2[i].(parent := q)]
  }

  lemma MovedDir(t: Tree, k: Key, k': Key, u: Tree, x: nat)
    requires TreeOk(t) && k in t.e && k' !in t.e && LiveDir(t.nodes, t.e[k]) && LiveDir(t.nodes, k'.dir)
    requires !Under(t, k'.dir, t.e[k])
    requires LiveDir(t.nodes, k.dir) && t.nodes[k.dir].nlink > 0 && x < |t.nodes|
    requires u == Tree(Reparented(t.nodes, t.e[k], k.dir, k'.dir), t.e[k' := t.e[k]] - {k}, t.home[t.e[k] := k'],
      Shifted(t, t.e[k], k'.dir))
    ensures DirOk(u.nodes, u.e, u.home, u.depth, x)
  {
    var i := t.e[k];
    assert EntryOk(t.nodes, t.e, t.home, k) && DirOk(t.nodes, t.e, t.home, t.depth, x)
      && DirOk(t.nodes, t.e, t.home, t.depth, i);
    if LiveDir(t.nodes, x) && x != 0 && x != i {
      assert Under(t, x, i) <==> Under(t, t.nodes[x].parent, i);
    }
  }

  lemma MoveDirCounts(t: Tree, k: Key, k': Key, u: Tree)
    requires TreeOk(t) && k in t.e && k' !in t.e && SubDir(t.nodes, t.e[k], k.dir) && LiveDir(t.nodes, k'.dir)
    requires k'.dir != t.e[k]
    requires LiveDir(t.nodes, k.dir) && t.nodes[k.dir].nlink > 0 && k.dir != t.e[k]
    requires u.nodes == Reparented(t.nodes, t.e[k], k.dir, k'.dir) && u.e == t.e[k' := t.e[k]] - {k}
    ensures CountsOk(u.nodes, u.e)
  {
    hide Names, Children, EntriesOk, DirsOk;
    var i := t.e[k];
    forall j: nat | j < |u.nodes| ensures CountOk(u.nodes, u.e, j) {
      assert CountOk(t.nodes, t.e, j);
      NamesMove(t.e, k, k', j);
      if k.dir == k'.dir { ChildrenSame(t.nodes, u.nodes, j); }
      else if j == k.dir { ChildrenRemove(t.nodes, u.nodes, i, k.dir, j); }
      else if j == k'.dir { ChildrenAdd(t.nodes, u.nodes, i, k'.dir, j); }
      else { ChildrenSame(t.nodes, u.nodes, j); }
    }
  }

  // ----- what unlink and rename do, whatever is in the way ----------------------------------------

  /** The nodes and entries are those of a tree. */
  ghost predicate Sound(nodes: Nodes, e: Entries) { exists home, depth :: TreeOk(Tree(nodes, e, home, depth)) }

  /** A directory that nothing names is in no tree. */
  lemma Nameless(nodes: Nodes, e: Entries, i: nat)
    requires LiveDir(nodes, i) && i != 0 && forall j :: j in e ==> e[j] != i
    ensures !Sound(nodes, e)
  {
    if Sound(nodes, e) {
      var home, depth :| TreeOk(Tree(nodes, e, home, depth));
      NamedDir(Tree(nodes, e, home, depth), i);
      assert false;
    }
  }

  lemma NamedDir(t: Tree, i: nat)
    requires TreeOk(t) && LiveDir(t.nodes, i) && i != 0
    ensures exists j :: j in t.e && t.e[j] == i
  {
    assert DirOk(t.nodes, t.e, t.home, t.depth, i);
  }

  /** Nor is a file whose count is not the number of its names. */
  lemma Miscounted(nodes: Nodes, e: Entries, x: nat)
    requires LiveFile(nodes, x) && nodes[x].nlink != |Names(e, x)|
    ensures !Sound(nodes, e)
  {
    hide Names;
    if Sound(nodes, e) {
      var home, depth :| TreeOk(Tree(nodes, e, home, depth));
      FileCount(Tree(nodes, e, home, depth), x);
      assert false;
    }
  }

  lemma FileCount(t: Tree, x: nat)
    requires TreeOk(t) && LiveFile(t.nodes, x)
    ensures t.nodes[x].nlink == |Names(t.e, x)|
  {
    hide Names;
    assert CountOk(t.nodes, t.e, x);
  }

  /** The entries of directory i go with it. */
  function Freed(e: Entries, i: nat): Entries { map j | j in e && j.dir != i :: e[j] }

  /** The removal of entry k can be made: its target's counts allow it. */
  predicate Droppable(nodes: Nodes, e: Entries, k: Key) {
    && k in e && k.dir < |nodes| && e[k] < |nodes| && k.dir != e[k] && nodes[e[k]].used
    && if nodes[e[k]].kind.Dir? then nodes[k.dir].nlink > 0 && nodes[e[k]].nlink >= 2 else nodes[e[k]].nlink > 0
  }

  /** The entry k goes, the link counts with it, and the inode if it has neither names nor references left. */
  function Dropped(nodes: Nodes, e: Entries, k: Key): (Nodes, Entries)
    requires Droppable(nodes, e, k)
  {
    var i, dir := e[k], nodes[e[k]].kind.Dir?;
    var n1 := if dir then nodes[k.dir := nodes[k.dir].(nlink := nodes[k.dir].nlink - 1)] else nodes;
    var left := n1[i].nlink - if dir then 2 else 1;
    var gone := left == 0 && n1[i].refcnt == 0;
    (n1[i := n1[i].(nlink := left, used := !gone)], if gone && dir then Freed(e - {k}, i) else e - {k})
  }

  /** What entry k names is a file, or a directory that nobody refers to and that has no entries at all. */
  ghost predicate Clean(nodes: Nodes, e: Entries, k: Key)
    requires k in e
  {
    LiveDir(nodes, e[k]) ==> nodes[e[k]].refcnt == 0 && forall j :: j in e ==> j.dir != e[k]
  }

  lemma CanDrop(t: Tree, k: Key)
    requires TreeOk(t) && k in t.e
    ensures Droppable(t.nodes, t.e, k) && LiveDir(t.nodes, k.dir) && 0 < t.e[k] < |t.nodes| && t.nodes[t.e[k]].used
  {
    hide Names, Children;
    assert EntryOk(t.nodes, t.e, t.home, k);
    if t.nodes[t.e[k]].kind.Dir? {
      RemovedHome(t, k);
      ChildCounts(t, t.e[k]);
    } else {
      NamedCount(t, k);
    }
  }

  /** A directory counts among its parent's links. */
  lemma ChildCounts(t: Tree, i: nat)
    requires TreeOk(t) && LiveDir(t.nodes, i) && i != 0
    ensures var p := t.nodes[i].parent; LiveDir(t.nodes, p) && t.nodes[p].nlink > 2 && t.nodes[i].nlink >= 2
  {
    assert DirOk(t.nodes, t.e, t.home, t.depth, i);
    var p := t.nodes[i].parent;
    assert CountOk(t.nodes, t.e, p) && CountOk(t.nodes, t.e, i);
    assert i in Children(t.nodes, p);
  }

  /** Removing a clean target keeps the tree. */
  lemma DropKeeps(t: Tree, k: Key)
    requires TreeOk(t) && k in t.e && Clean(t.nodes, t.e, k) && Droppable(t.nodes, t.e, k)
    ensures var r := Dropped(t.nodes, t.e, k); TreeOk(t.(nodes := r.0, e := r.1)) && r.1 == t.e - {k}
  {
    hide Names, Children, TreeOk;
    CanDrop(t, k);
    var i := t.e[k];
    var r := Dropped(t.nodes, t.e, k);
    if t.nodes[i].kind.Dir? {
      EmptyDir(t, i);
      assert Freed(t.e - {k}, i) == t.e - {k};
      RemoveDir(t, k, r.0[i], t.(nodes := r.0, e := r.1));
    } else {
      RemoveName(t, k, r.0[i], t.(nodes := r.0, e := r.1));
    }
  }

  /** Only entry k names directory e[k]. */
  lemma OnlyHome(t: Tree, k: Key)
    requires TreeOk(t) && k in t.e && LiveDir(t.nodes, t.e[k])
    ensures forall j :: j in t.e && t.e[j] == t.e[k] ==> j == k
  {
    assert EntryOk(t.nodes, t.e, t.home, k);
    forall j | j in t.e && t.e[j] == t.e[k] ensures j == k { assert EntryOk(t.nodes, t.e, t.home, j); }
  }

  /** Directories without subdirectories hold files only. */
  lemma FilesOnly(t: Tree, i: nat, j: Key)
    requires TreeOk(t) && LiveDir(t.nodes, i) && t.nodes[i].nlink == 2 && j in t.e && j.dir == i
    ensures LiveFile(t.nodes, t.e[j])
  {
    hide Names, Children;
    assert EntryOk(t.nodes, t.e, t.home, j);
    if t.nodes[t.e[j]].kind.Dir? {
      DirHome(t, j);
      ChildCounts(t, t.e[j]);
      assert false;
    }
  }

  /** A file that loses a name without its count. */
  lemma LosesName(t: Tree, e': Entries, j: Key)
    requires TreeOk(t) && j in t.e && LiveFile(t.nodes, t.e[j]) && j !in e'
    requires forall q :: q in e' && e'[q] == t.e[j] ==> q in t.e && t.e[q] == t.e[j]
    ensures t.nodes[t.e[j]].nlink != |Names(e', t.e[j])|
  {
    var x := t.e[j];
    FileCount(t, x);
    var rest := Names(t.e, x) - {j};
    assert Names(e', x) <= rest && Names(t.e, x) == rest + {j};
    Smaller(Names(e', x), rest);
  }

  lemma Smaller(a: set<Key>, b: set<Key>)
    requires a <= b
    ensures |a| <= |b|
  {
    var more := b - a;
    assert b == a + more;
  }

  /** Removing a directory that is in use, or that has entries, does not keep it. */
  lemma DropBreaks(t: Tree, k: Key)
    requires TreeOk(t) && k in t.e && !Clean(t.nodes, t.e, k) && Droppable(t.nodes, t.e, k)
    ensures var r := Dropped(t.nodes, t.e, k); !Sound(r.0, r.1)
  {
    hide Names, Children, TreeOk, Sound;
    CanDrop(t, k);
    var i := t.e[k];
    var r := Dropped(t.nodes, t.e, k);
    OnlyHome(t, k);
    if r.0[i].used {
      Nameless(r.0, r.1, i);
    } else {
      var j :| j in t.e && j.dir == i;
      FilesOnly(t, i, j);
      LosesName(t, r.1, j);
      Miscounted(r.0, r.1, t.e[j]);
    }
  }

  /** Entry k moves to k'; a directory that changes parents takes its count along. */
  function Relinked(nodes: Nodes, e: Entries, k: Key, k': Key): (Nodes, Entries)
    requires k in e && e[k] < |nodes| && k.dir < |nodes| && k'.dir < |nodes| && nodes[k.dir].nlink > 0
  {
    (if nodes[e[k]].kind.Dir? then Reparented(nodes, e[k], k.dir, k'.dir) else nodes, e[k' := e[k]] - {k})
  }

  /** rename over what k' names: the removal, then the move. */
  function Replaced(nodes: Nodes, e: Entries, k: Key, k': Key): (Nodes, Entries)
    requires k in e && k' in e && k != k' && Droppable(nodes, e, k') && Movable(Dropped(nodes, e, k'), k, k')
  {
    var r := Dropped(nodes, e, k');
    Relinked(r.0, r.1, k, k')
  }

  predicate Movable(r: (Nodes, Entries), k: Key, k': Key) {
    k in r.1 && r.1[k] < |r.0| && k.dir < |r.0| && k'.dir < |r.0| && r.0[k.dir].nlink > 0
  }

  lemma CanMove(t: Tree, k: Key)
    requires TreeOk(t) && k in t.e
    ensures k.dir < |t.nodes| && t.nodes[k.dir].nlink > 0 && t.e[k] < |t.nodes|
  {
    hide Names, Children;
    assert EntryOk(t.nodes, t.e, t.home, k) && CountOk(t.nodes, t.e, k.dir);
  }

  /** After the removal of k' the move of k can still be made, if they agree in kind. */
  lemma StillMovable(t: Tree, k: Key, k': Key)
    requires TreeOk(t) && k in t.e && k' in t.e && k != k' && Droppable(t.nodes, t.e, k')
    requires LiveDir(t.nodes, t.e[k]) <==> LiveDir(t.nodes, t.e[k'])
    ensures var r := Dropped(t.nodes, t.e, k'); Movable(r, k, k') && r.1[k] == t.e[k] && |r.0| == |t.nodes|
  {
    hide Names, Children, TreeOk;
    CanDrop(t, k);
    CanDrop(t, k');
    CanMove(t, k);
    if LiveDir(t.nodes, t.e[k]) {
      DirHome(t, k);
      ChildCounts(t, t.e[k]);
      DirHome(t, k');
      ChildCounts(t, t.e[k']);
    }
  }

  lemma DirHome(t: Tree, k: Key)
    requires TreeOk(t) && k in t.e && LiveDir(t.nodes, t.e[k])
    ensures t.nodes[t.e[k]].parent == k.dir && t.e[k] != 0
  {
    hide Names, Children;
    assert EntryOk(t.nodes, t.e, t.home, k);
    RemovedHome(t, k);
  }

  /** And rename over such a directory does not keep the tree either. */
  lemma ReplaceBreaks(t: Tree, k: Key, k': Key)
    requires TreeOk(t) && k in t.e && k' in t.e && k != k' && Droppable(t.nodes, t.e, k') && !Clean(t.nodes, t.e, k')
    requires LiveDir(t.nodes, t.e[k]) && LiveDir(t.nodes, t.e[k']) && Movable(Dropped(t.nodes, t.e, k'), k, k')
    ensures var r := Replaced(t.nodes, t.e, k, k'); !Sound(r.0, r.1)
  {
    hide Names, Children, TreeOk, Sound;
    CanDrop(t, k);
    CanDrop(t, k');
    OnlyHome(t, k);
    OnlyHome(t, k');
    StillMovable(t, k, k');
    var d, r := Dropped(t.nodes, t.e, k'), Replaced(t.nodes, t.e, k, k');
    var i := t.e[k'];
    if d.0[i].used {
      Nameless(r.0, r.1, i);
    } else {
      var j :| j in t.e && j.dir == i;
      FilesOnly(t, i, j);
      LosesName(t, r.1, j);
      Miscounted(r.0, r.1, t.e[j]);
    }
  }
}
