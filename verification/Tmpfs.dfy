/** tmpfs: creating, linking, unlinking and renaming in an in-memory tree. */
module Tmpfs {
  import opened TmpfsSpec

  const DIRSIZ := 28
  const EPERM := 1
  const ENOENT := 2
  const EEXIST := 17
  const ENOTDIR := 20
  const EISDIR := 21
  const EINVAL := 22
  const ENOSPC := 28
  const ENAMETOOLONG := 36
  const ENOTEMPTY := 39

  predicate NameOk(name: string) { |name| < DIRSIZ }

  predicate IsDot(name: string) { name == "." || name == ".." }

  /** Directory dir has an entry other than "." and "..": the source's test for a directory that is not empty. */
  ghost predicate HasNamed(e: Entries, dir: nat) { exists j :: j in e && j.dir == dir && !IsDot(j.name) }

  ghost predicate NoDots(e: Entries) { forall j :: j in e ==> !IsDot(j.name) }

  /** What rename of entry k to k' answers, by the state of the tree. */
  ghost function RenameCode(t: Tree, k: Key, k': Key): int
    requires TreeOk(t) && LiveDir(t.nodes, k'.dir)
  {
    if !NameOk(k.name) || !NameOk(k'.name) then -ENAMETOOLONG
    else if k == k' then 0
    else if k !in t.e then -ENOENT
    else if LiveDir(t.nodes, t.e[k]) && Under(t, k'.dir, t.e[k]) then -EINVAL
    else if k' !in t.e then if |t.e| == NINODES then -ENOSPC else 0
    else if LiveDir(t.nodes, t.e[k]) && !LiveDir(t.nodes, t.e[k']) then -ENOTDIR
    else if !LiveDir(t.nodes, t.e[k]) && LiveDir(t.nodes, t.e[k']) then -EISDIR
    else if LiveDir(t.nodes, t.e[k']) && HasNamed(t.e, t.e[k']) then -ENOTEMPTY
    else 0
  }

  class Volume {
    var nodes: Nodes
    var e: Entries
    ghost var home: map<nat, Key>
    ghost var depth: seq<nat>

    ghost function T(): Tree
      reads this
    {
      Tree(nodes, e, home, depth)
    }

    ghost predicate Valid()
      reads this
    {
      var ok := TreeOk(T());
      ok
    }

    /** tmpfs_init: the root directory alone. */
    constructor ()
      ensures Valid() && e == map[] && |nodes| == NINODES && LiveDir(nodes, 0)
      ensures forall i :: 1 <= i < NINODES ==> !nodes[i].used
    {
      nodes := seq(NINODES, i => Node(i == 0, Dir, 2, 0, -1));
      e, home, depth := map[], map[], seq(NINODES, i => 0);
      new;
      forall i: nat | i < |nodes| ensures CountOk(nodes, e, i) && DirOk(nodes, e, home, depth, i) {
        assert i != 0 ==> !nodes[i].used;
        assert Children(nodes, i) == {};
      }
    }

    /** tmpfs_ialloc's search: the first free inode after the root, or 0. */
    method FindFree() returns (i: nat)
      requires |nodes| == NINODES
      ensures i < NINODES && (i != 0 ==> !nodes[i].used) && (i == 0 ==> forall j :: 1 <= j < NINODES ==> nodes[j].used)
    {
      i := 1;
      while i < NINODES
        invariant 1 <= i <= NINODES && forall j :: 1 <= j < i ==> nodes[j].used
      {
        if !nodes[i].used { return; }
        i := i + 1;
      }
      i := 0;
    }

    /** tmpfs_op_create and tmpfs_op_symlink: a new file with one name, and a reference for the caller if it is open. */
    method Create(dir: nat, name: string, kind: Kind) returns (rc: int, i: nat)
      requires Valid() && dir < |nodes| && nodes[dir].used && !kind.Dir?
      modifies this
      ensures Valid()
      ensures rc != 0 ==> T() == old(T())
      ensures rc == if !old(nodes)[dir].kind.Dir? then -ENOTDIR else if !NameOk(name) then -ENAMETOOLONG
        else if Key(dir, name) in old(e) then -EEXIST
                    else if (forall j :: 1 <= j < NINODES ==> old(nodes)[j].used) || |old(e)| == NINODES then -ENOSPC
                      else 0
      ensures rc == 0 ==>
        && 0 < i < |old(nodes)| && !old(nodes)[i].used && e == old(e)[Key(dir, name) := i]
        && nodes == old(nodes)[i := Node(true, kind, 1, if kind.Reg? then 1 else 0, -1)]
    {
      hide TreeOk;
      i := 0;
      if !nodes[dir].kind.Dir? { return -ENOTDIR, 0; }
      if !NameOk(name) { return -ENAMETOOLONG, 0; }
      if Key(dir, name) in e { return -EEXIST, 0; }
      PoolSize(T());
      i := FindFree();
      if i == 0 { return -ENOSPC, 0; }
      if |e| == NINODES { return -ENOSPC, 0; }
      ghost var t := T();
      var n := Node(true, kind, 1, if kind.Reg? then 1 else 0, -1);
      nodes := nodes[i := n];
      e := e[Key(dir, name) := i];
      NewName(t, Key(dir, name), i, n, T());
      rc := 0;
    }

    /** tmpfs_op_mkdir */
    method Mkdir(dir: nat, name: string) returns (rc: int, i: nat)
      requires Valid() && dir < |nodes| && nodes[dir].used
      modifies this
      ensures Valid()
      ensures rc != 0 ==> T() == old(T())
      ensures rc == if !old(nodes)[dir].kind.Dir? then -ENOTDIR else if !NameOk(name) then -ENAMETOOLONG
        else if Key(dir, name) in old(e) then -EEXIST
                    else if (forall j :: 1 <= j < NINODES ==> old(nodes)[j].used) || |old(e)| == NINODES then -ENOSPC
                      else 0
      ensures rc == 0 ==> 0 < i < |old(nodes)| && !old(nodes)[i].used && dir != i && e == old(e)[Key(dir, name) := i]
      ensures rc == 0 ==>
        nodes == old(nodes)[i := Node(true, Dir, 2, 0, dir)][dir :=
          old(nodes)[dir].(nlink := old(nodes)[dir].nlink + 1)]
    {
      hide TreeOk;
      i := 0;
      if !nodes[dir].kind.Dir? { return -ENOTDIR, 0; }
      if !NameOk(name) { return -ENAMETOOLONG, 0; }
      if Key(dir, name) in e { return -EEXIST, 0; }
      PoolSize(T());
      i := FindFree();
      if i == 0 { return -ENOSPC, 0; }
      if |e| == NINODES { return -ENOSPC, 0; }
      ghost var t := T();
      var k := Key(dir, name);
      nodes := nodes[i := Node(true, Dir, 2, 0, dir)][dir := nodes[dir].(nlink := nodes[dir].nlink + 1)];
      e := e[k := i];
      home, depth := home[i := k], depth[i := depth[dir] + 1];
      AddDir(t, k, i, 0, T());
      rc := 0;
    }

    /** tmpfs_op_link: one more name for a file. */
    method Link(dir: nat, target: nat, name: string) returns (rc: int)
      requires Valid() && LiveDir(nodes, dir) && LiveFile(nodes, target) && (NameOk(name) ==> Key(dir, name) !in e)
      modifies this
      ensures Valid()
      ensures rc != 0 ==> T() == old(T())
      ensures rc == if !NameOk(name) then -ENAMETOOLONG else if |old(e)| == NINODES then -ENOSPC else 0
      ensures rc == 0 ==>
        && e == old(e)[Key(dir, name) := target]
        && nodes == old(nodes)[target := old(nodes)[target].(nlink := old(nodes)[target].nlink + 1)]
    {
      hide TreeOk;
      PoolSize(T());
      NotRoot(T(), target);
      if !NameOk(name) { return -ENAMETOOLONG; }
      if |e| == NINODES { return -ENOSPC; }
      ghost var t := T();
      e := e[Key(dir, name) := target];
      nodes := nodes[target := nodes[target].(nlink := nodes[target].nlink + 1)];
      AddName(t, Key(dir, name), target, nodes[target], T());
      rc := 0;
    }

    /** do_link once its paths are resolved: any target and parent, any name. */
    method LinkCall(dir: nat, target: nat, name: string) returns (rc: int)
      requires Valid() && dir < |nodes| && nodes[dir].used && target < |nodes| && nodes[target].used
      modifies this
      ensures Valid()
      ensures rc != 0 ==> T() == old(T())
      ensures rc == if old(nodes)[target].kind.Dir? then -EPERM else if name == "" then -EINVAL
                    else if !old(nodes)[dir].kind.Dir? then -ENOTDIR
                    else if IsDot(name) || (NameOk(name) && Key(dir, name) in old(e)) then -EEXIST
                    else if !NameOk(name) then -ENAMETOOLONG else if |old(e)| == NINODES then -ENOSPC else 0
      ensures rc == 0 ==>
        && e == old(e)[Key(dir, name) := target]
        && nodes == old(nodes)[target := old(nodes)[target].(nlink := old(nodes)[target].nlink + 1)]
    {
      hide TreeOk;
      if nodes[target].kind.Dir? { return -EPERM; }
      if name == "" { return -EINVAL; }
      if !nodes[dir].kind.Dir? { return -ENOTDIR; }
      if IsDot(name) || (NameOk(name) && Key(dir, name) in e) { return -EEXIST; }
      rc := Link(dir, target, name);
    }

    /** tmpfs_dir_is_empty, the other way round. */
    method HasEntries(dir: nat) returns (b: bool)
      ensures b <==> HasNamed(e, dir)
    {
      var keys := e.Keys;
      b := false;
      while keys != {} && !b
        invariant keys <= e.Keys && (b ==> HasNamed(e, dir))
        invariant !b ==> forall k :: k in e && k !in keys ==> k.dir != dir || IsDot(k.name)
        decreases keys
      {
        var k :| k in keys;
        keys := keys - {k};
        if k.dir == dir && !IsDot(k.name) { b := true; }
      }
    }

    /** The entry k is removed and its target's counts adjusted; a target left without names and references is freed. */
    method Drop(k: Key)
      requires Droppable(nodes, e, k)
      modifies this`nodes, this`e
      ensures (nodes, e) == old(Dropped(nodes, e, k)) && e.Keys <= old(e).Keys
    {
      ghost var r := Dropped(nodes, e, k);
      var i := e[k];
      e := e - {k};
      if nodes[i].kind.Dir? {
        nodes := nodes[k.dir := nodes[k.dir].(nlink := nodes[k.dir].nlink - 1)];
        nodes := nodes[i := nodes[i].(nlink := nodes[i].nlink - 1)];
      }
      nodes := nodes[i := nodes[i].(nlink := nodes[i].nlink - 1)];
      if nodes[i].nlink == 0 && nodes[i].refcnt == 0 {
        if nodes[i].kind.Dir? { e := Freed(e, i); }
        nodes := nodes[i := nodes[i].(used := false)];
      }
      assert nodes == r.0;
      assert e == r.1;
    }

    /**
     tmpfs_op_unlink. Removing a file or an empty directory keeps the tree; removing a directory that somebody refers
     to, or whose only entries are called "." or "..", does not.
     */
    method Unlink(dir: nat, name: string) returns (rc: int)
      requires Valid() && dir < |nodes| && nodes[dir].used
      modifies this`nodes, this`e
      ensures rc != 0 ==> T() == old(T())
      ensures rc == if !old(nodes)[dir].kind.Dir? then -ENOTDIR else if IsDot(name) then -EINVAL
        else if !NameOk(name) then -ENAMETOOLONG
                    else if Key(dir, name) !in old(e) then -ENOENT
                    else if LiveDir(old(nodes), old(e)[Key(dir, name)]) && HasNamed(old(e), old(e)[Key(dir, name)])
                      then -ENOTEMPTY else 0
      ensures rc == 0 ==>
        Droppable(old(nodes), old(e), Key(dir, name)) && (nodes, e) == Dropped(old(nodes), old(e), Key(dir, name))
      ensures rc != 0 || Clean(old(nodes), old(e), Key(dir, name)) ==> Valid()
      ensures rc == 0 && !Clean(old(nodes), old(e), Key(dir, name)) ==> !Sound(nodes, e)
      ensures rc == 0 && NoDots(old(e)) && old(nodes)[old(e)[Key(dir, name)]].refcnt == 0 ==>
        Valid() && NoDots(e) && e == old(e) - {Key(dir, name)}
    {
      hide TreeOk, Sound, Dropped;
      if !nodes[dir].kind.Dir? { return -ENOTDIR; }
      if IsDot(name) { return -EINVAL; }
      if !NameOk(name) { return -ENAMETOOLONG; }
      var k := Key(dir, name);
      if k !in e { return -ENOENT; }
      ghost var t := T();
      CanDrop(t, k);
      if nodes[e[k]].kind.Dir? {
        var busy := HasEntries(e[k]);
        if busy { return -ENOTEMPTY; }
      }
      if Clean(nodes, e, k) { DropKeeps(t, k); } else { DropBreaks(t, k); }
      Drop(k);
      rc := 0;
    }

    /** A reference to an inode is taken or given back; an unlinked file goes with its last. */
    method SetRef(i: nat, r: nat)
      requires Valid() && i < |nodes| && nodes[i].used
      modifies this`nodes
      ensures Valid() && nodes == old(nodes)[i := old(nodes)[i].(refcnt := r, used := old(nodes)[i].nlink > 0 || r > 0)]
    {
      hide TreeOk;
      ghost var t := T();
      nodes := nodes[i := nodes[i].(refcnt := r, used := nodes[i].nlink > 0 || r > 0)];
      SetRefs(t, i, nodes[i], T());
    }

    /** rename's loop check: is src the directory nd or one of its ancestors? The walk up ends at the root. */
    method IsAncestor(src: nat, nd: nat) returns (b: bool)
      requires Valid() && LiveDir(nodes, nd)
      ensures b <==> Under(T(), nd, src)
    {
      hide RootOk, EntriesOk, CountsOk;
      var a := nd;
      while a != src && a != 0
        invariant LiveDir(nodes, a) && (Under(T(), nd, src) <==> Under(T(), a, src))
        decreases depth[a]
      {
        assert DirOk(nodes, e, home, depth, a);
        a := nodes[a].parent;
      }
      b := a == src;
    }

    /** The entry k moves to k'; a directory that changes parents takes its count along. */
    method Relink(k: Key, k': Key)
      requires k in e && e[k] < |nodes| && k.dir < |nodes| && k'.dir < |nodes| && nodes[k.dir].nlink > 0
      modifies this`nodes, this`e
      ensures (nodes, e) == old(Relinked(nodes, e, k, k')) && e == old(e)[k' := old(e)[k]] - {k}
    {
      var i := e[k];
      e := e[k' := i];
      e := e - {k};
      if nodes[i].kind.Dir? && k.dir != k'.dir {
        nodes := nodes[k.dir := nodes[k.dir].(nlink := nodes[k.dir].nlink - 1)];
        nodes := nodes[k'.dir := nodes[k'.dir].(nlink := nodes[k'.dir].nlink + 1)];
        nodes := nodes[i := nodes[i].(parent := k'.dir)];
      }
    }

    /**
     tmpfs_op_rename: full effect or none. A directory cannot move into itself or below itself. What was at the new
     name goes, if its kind agrees and the source takes it for empty; the tree is kept unless that was a directory that
     somebody refers to or that has entries called "." or "..".
     */
    method Rename(od: nat, oldName: string, nd: nat, newName: string) returns (rc: int)
      requires Valid() && LiveDir(nodes, od) && LiveDir(nodes, nd)
      modifies this
      ensures rc == RenameCode(old(T()), Key(od, oldName), Key(nd, newName))
      ensures rc != 0 || Key(od, oldName) == Key(nd, newName) ==> T() == old(T())
      ensures rc == 0 && Key(od, oldName) != Key(nd, newName) ==>
        RenameEffect(old(nodes), old(e), Key(od, oldName), Key(nd, newName), nodes, e)
      ensures !Overwrites(rc, old(nodes), old(e), Key(od, oldName), Key(nd, newName)) ==> Valid()
      ensures Overwrites(rc, old(nodes), old(e), Key(od, oldName), Key(nd, newName)) ==> !Sound(nodes, e)
      ensures Valid() && NoDots(old(e)) && !IsDot(newName) ==> NoDots(e)
    {
      hide TreeOk, Under, Sound, Dropped, Relinked, Droppable;
      if !NameOk(oldName) || !NameOk(newName) { return -ENAMETOOLONG; }
      var k, k' := Key(od, oldName), Key(nd, newName);
      if k == k' { return 0; }
      if k !in e { return -ENOENT; }
      ghost var t := T();
      var src := e[k];
      CanDrop(t, k);
      CanMove(t, k);
      if nodes[src].kind.Dir? {
        var loops := IsAncestor(src, nd);
        if loops { return -EINVAL; }
      }
      PoolSize(t);
      if k' in e {
        CanDrop(t, k');
        var dst := e[k'];
        if nodes[src].kind.Dir? && !nodes[dst].kind.Dir? { return -ENOTDIR; }
        if !nodes[src].kind.Dir? && nodes[dst].kind.Dir? { return -EISDIR; }
        if nodes[dst].kind.Dir? {
          var busy := HasEntries(dst);
          if busy { return -ENOTEMPTY; }
        }
        StillMovable(t, k, k');
        if Clean(nodes, e, k') {
          home, depth := ReplaceKeeps(t, k, k');
        } else {
          ReplaceBreaks(t, k, k');
        }
        Drop(k');
        Relink(k, k');
      } else {
        if |e| == NINODES { return -ENOSPC; }
        home, depth := RelinkKeeps(t, k, k');
        Relink(k, k');
      }
      rc := 0;
    }
  }

  /** What a rename of k to k' that is not refused does. */
  ghost predicate RenameEffect(nodes: Nodes, e: Entries, k: Key, k': Key, nodes': Nodes, e': Entries) {
    && k in e && k != k'
    && if k' in e then
         Droppable(nodes, e, k') && Movable(Dropped(nodes, e, k'), k, k') && (nodes', e') == Replaced(nodes, e, k, k')
       else Movable((nodes, e), k, k') && (nodes', e') == Relinked(nodes, e, k, k')
  }

  /** A rename that goes over a directory somebody refers to or that has entries. */
  ghost predicate Overwrites(rc: int, nodes: Nodes, e: Entries, k: Key, k': Key) {
    rc == 0 && k != k' && k' in e && !Clean(nodes, e, k')
  }

  /** Moving an entry to a new place that is not below it keeps the tree. */
  lemma RelinkKeeps(t: Tree, k: Key, k': Key) returns (home: map<nat, Key>, depth: seq<nat>)
    requires TreeOk(t) && k in t.e && k' !in t.e && LiveDir(t.nodes, k'.dir) && Movable((t.nodes, t.e), k, k')
    requires LiveDir(t.nodes, t.e[k]) ==> !Under(t, k'.dir, t.e[k])
    ensures var r := Relinked(t.nodes, t.e, k, k'); TreeOk(Tree(r.0, r.1, home, depth))
  {
    hide TreeOk, Under;
    var i, r := t.e[k], Relinked(t.nodes, t.e, k, k');
    EntryFacts(t, k);
    if t.nodes[i].kind.Dir? {
      DirFacts(t, k);
      TreeDirs(t);
      home, depth := t.home[i := k'], Shifted(t, i, k'.dir);
      MoveDir(t, k, k', Tree(r.0, r.1, home, depth));
    } else {
      home, depth := t.home, t.depth;
      MoveName(t, k, k', Tree(r.0, r.1, home, depth));
    }
  }

  /** So does moving it over a clean target. */
  lemma ReplaceKeeps(t: Tree, k: Key, k': Key) returns (home: map<nat, Key>, depth: seq<nat>)
    requires TreeOk(t) && k in t.e && k' in t.e && k != k' && Droppable(t.nodes, t.e, k') && Clean(t.nodes, t.e, k')
    requires LiveDir(t.nodes, t.e[k]) <==> LiveDir(t.nodes, t.e[k'])
    requires LiveDir(t.nodes, k'.dir) && (LiveDir(t.nodes, t.e[k]) ==> !Under(t, k'.dir, t.e[k]))
    requires Movable(Dropped(t.nodes, t.e, k'), k, k')
    ensures var r := Replaced(t.nodes, t.e, k, k'); TreeOk(Tree(r.0, r.1, home, depth))
  {
    hide TreeOk, Under, Relinked;
    DropKeeps(t, k');
    CanDrop(t, k');
    var d := Dropped(t.nodes, t.e, k');
    var u := t.(nodes := d.0, e := d.1);
    Removed(t, u, k, k');
    home, depth := RelinkKeeps(u, k, k');
  }

  lemma TreeDirs(t: Tree)
    requires TreeOk(t)
    ensures DirsOk(t.nodes, t.e, t.home, t.depth)
  {
  }

  /** After the old target is gone, the source can still be moved. */
  lemma Removed(t: Tree, u: Tree, k: Key, k': Key)
    requires TreeOk(t) && TreeOk(u) && k in t.e && k' in t.e && k != k' && u == t.(nodes := u.nodes, e := t.e - {k'})
    requires |u.nodes| == |t.nodes|
    requires t.e[k'] < |t.nodes|
    requires forall x: nat :: x < |u.nodes| && x != t.e[k'] ==> u.nodes[x] == t.nodes[x].(nlink := u.nodes[x].nlink)
    requires u.nodes[t.e[k']] == t.nodes[t.e[k']].(used := u.nodes[t.e[k']].used, nlink := u.nodes[t.e[k']].nlink)
    requires u.nodes[t.e[k']].used ==> t.nodes[t.e[k']].used
    requires LiveDir(t.nodes, k'.dir) && k'.dir != t.e[k']
    requires LiveDir(t.nodes, t.e[k]) ==> !Under(t, k'.dir, t.e[k])
    ensures k in u.e && u.e[k] == t.e[k] && LiveDir(u.nodes, k'.dir)
    ensures (LiveDir(u.nodes, u.e[k]) ==> !Under(u, k'.dir, u.e[k]))
  {
    hide Names, Children, CountsOk, EntriesOk;
    if LiveDir(u.nodes, u.e[k]) { UnderKept(t, u, k'.dir, u.e[k]); }
  }

  /**
   A run that breaks the tree: a file is renamed to "." inside a directory, which is then taken for empty and removed
   with it. The file stays in use with a link count of one and no name.
   */
  method DotRun() returns (v: Volume, rc: int)
    ensures rc == 0 && !Sound(v.nodes, v.e)
  {
    hide TreeOk, Sound, Under, RenameEffect, Volume.Valid;
    var d, f;
    v, d, f := DotSetup();
    ghost var n0, e0 := v.nodes, v.e;
    var rn := v.Rename(0, "x", d, ".");
    FileMoved(n0, e0, Key(0, "x"), Key(d, "."), v.nodes, v.e);
    ghost var e1 := v.e;
    assert e1 == map[Key(0, "d") := d, Key(d, ".") := f];
    rc := v.Unlink(0, "d");
    assert Key(d, ".") in e1;
  }

  /** A run that leaves a directory outside the tree: it is removed while somebody refers to it. */
  method HeldRun() returns (v: Volume, rc: int)
    ensures rc == 0 && !Sound(v.nodes, v.e)
  {
    hide TreeOk, Sound, Volume.Valid;
    var d, f;
    v, d, f := DotSetup();
    v.SetRef(d, 1);
    rc := v.Unlink(0, "d");
  }

  lemma FileMoved(nodes: Nodes, e: Entries, k: Key, k': Key, nodes': Nodes, e': Entries)
    requires RenameEffect(nodes, e, k, k', nodes', e') && k' !in e && !nodes[e[k]].kind.Dir?
    ensures nodes' == nodes && e' == e[k' := e[k]] - {k}
  {
  }

  method DotSetup() returns (v: Volume, d: nat, f: nat)
    ensures fresh(v) && v.Valid() && v.e == map[Key(0, "d") := d, Key(0, "x") := f] && d != f && d != 0
    ensures LiveDir(v.nodes, 0) && LiveDir(v.nodes, d) && LiveFile(v.nodes, f)
  {
    hide TreeOk, Volume.Valid;
    v := new Volume();
    var r1;
    assert !v.nodes[1].used;
    r1, d := v.Mkdir(0, "d");
    assert !v.nodes[if d == 1 then 2 else 1].used;
    assert Key(0, "d") != Key(0, "x") by { assert "d"[0] != "x"[0]; }
    var r2;
    r2, f := v.Create(0, "x", Reg);
  }

  lemma EntryFacts(t: Tree, k: Key)
    requires TreeOk(t) && k in t.e
    ensures |t.nodes| == NINODES && LiveDir(t.nodes, k.dir) && 0 < t.e[k] < |t.nodes| && t.nodes[t.e[k]].used
  {
    assert EntryOk(t.nodes, t.e, t.home, k);
  }

  lemma DirFacts(t: Tree, k: Key)
    requires TreeOk(t) && k in t.e && LiveDir(t.nodes, t.e[k])
    ensures t.nodes[t.e[k]].parent == k.dir && k.dir != t.e[k] && t.nodes[k.dir].nlink > 2 && t.nodes[t.e[k]].nlink >= 2
  {
    RemovedHome(t, k);
    assert CountOk(t.nodes, t.e, k.dir) && CountOk(t.nodes, t.e, t.e[k]);
    assert t.e[k] in Children(t.nodes, k.dir);
  }

  lemma NotRoot(t: Tree, i: nat)
    requires TreeOk(t) && LiveFile(t.nodes, i)
    ensures i != 0
  {
  }

  lemma PoolSize(t: Tree)
    requires TreeOk(t)
    ensures |t.nodes| == NINODES == |t.depth| && |t.e| <= NINODES
  {
  }

  /** A slot that is not in use may hold anything: only its use matters. */
  lemma NewName(t: Tree, k: Key, i: nat, n: Node, u: Tree)
    requires TreeOk(t) && k !in t.e && LiveDir(t.nodes, k.dir) && 0 < i < NINODES && |t.e| < NINODES && !t.nodes[i].used
    requires n.used && !n.kind.Dir? && n.nlink == 1 && u == t.(nodes := t.nodes[i := n], e := t.e[k := i])
    ensures TreeOk(u)
  {
    hide Names, Children;
    FreshSlot(t, i, n.parent);
    var t1 := t.(nodes := t.nodes[i := t.nodes[i].(parent := n.parent)]);
    AddName(t1, k, i, n, u);
  }

  lemma FreshSlot(t: Tree, i: nat, p: int)
    requires TreeOk(t) && 0 < i < NINODES && !t.nodes[i].used
    ensures TreeOk(t.(nodes := t.nodes[i := t.nodes[i].(parent := p)]))
  {
    hide Names, Children;
    var u := t.(nodes := t.nodes[i := t.nodes[i].(parent := p)]);
    NoNames(t, i);
    forall x: nat | x < |u.nodes| ensures DirOk(u.nodes, u.e, u.home, u.depth, x) && CountOk(u.nodes, u.e, x) {
      assert DirOk(t.nodes, t.e, t.home, t.depth, x) && CountOk(t.nodes, t.e, x);
      ChildrenSame(t.nodes, u.nodes, x);
    }
    forall k | k in u.e ensures EntryOk(u.nodes, u.e, u.home, k) { assert EntryOk(t.nodes, t.e, t.home, k); }
  }
}
