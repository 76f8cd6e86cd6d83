/** The file system lives outside the log region, so it survives anything done to the log. */
module SbfsHome {
  import opened Bytes
  import opened LogSpec
  import opened SbfsSpec
  import opened SbfsOwn

  /** The inode table holds `table`, which agrees with the inodes except for the one being changed. */
  ghost predicate Synced(view: Disk, sb: Super, table: seq<Dinode>, ino: seq<Dinode>, dirty: int) {
    && sb.inodestart + (sb.ninodes + 7) / 8 <= |view|
    && |ino| == |table| == sb.ninodes
    && (forall i: nat :: i < |table| ==> OnDisk(view, sb, i) == table[i])
    && (forall i: nat :: i < |table| && i != dirty ==> ino[i] == table[i])
  }

  function OnDisk(view: Disk, sb: Super, i: nat): Dinode
    requires sb.inodestart + i / 8 < |view|
  {
    GetDinode(view[sb.inodestart + i / 8], i % 8)
  }

  /** Writing outside the inode table keeps it in agreement. */
  lemma SyncedFrame(view: Disk, view': Disk, sb: Super, table: seq<Dinode>, ino: seq<Dinode>, dirty: int)
    requires Synced(view, sb, table, ino, dirty) && |view'| == |view|
    requires forall b :: sb.inodestart <= b < sb.inodestart + (sb.ninodes + 7) / 8 ==> view'[b] == view[b]
    ensures Synced(view', sb, table, ino, dirty)
  {
  }

  /** Every block a live inode names is outside the log. */
  lemma OwnedHome(l: Layout, v: Disk, v': Disk, fs: Fs, i: nat, p: Path)
    requires SuperOk(l, fs.sb) && Own(v, fs) && HomeEq(l, v', v) && Live(fs.ino, i) && ValidPath(p)
    ensures var b := PtrAt(v, fs.ino[i], p); b != 0 ==> b < |v| && v'[b] == v[b]
  {
    hide PtrAt;
    if PtrAt(v, fs.ino[i], p) != 0 { OwnerOf(v, fs, i, p); }
  }

  lemma {:induction false} HomePtr(l: Layout, v: Disk, v': Disk, fs: Fs, i: nat, p: Path)
    requires SuperOk(l, fs.sb) && Own(v, fs) && HomeEq(l, v', v) && Live(fs.ino, i) && ValidPath(p)
    ensures PtrAt(v', fs.ino[i], p) == PtrAt(v, fs.ino[i], p)
    decreases p.Sub2?
  {
    hide Own, HomeEq;
    OwnBasics(v, fs);
    if !p.Top? {
      OwnedHome(l, v, v', fs, i, Parent(p));
      if p.Sub2? { HomePtr(l, v, v', fs, i, Parent(p)); }
      SameSize(l, v', v);
    }
  }

  lemma SameSize(l: Layout, v': Disk, v: Disk)
    requires HomeEq(l, v', v)
    ensures |v'| == |v|
  {
  }

  lemma HomeOwn(l: Layout, v: Disk, v': Disk, fs: Fs)
    requires SuperOk(l, fs.sb) && Own(v, fs) && HomeEq(l, v', v)
    ensures Own(v', fs) && SamePtrs(v, v', fs.ino) && SameFiles(v, fs.ino, v', fs.ino)
  {
    hide PtrAt;
    forall i: nat, p: Path | Live(fs.ino, i) && ValidPath(p)
      ensures PtrAt(v', fs.ino[i], p) == PtrAt(v, fs.ino[i], p)
    {
      HomePtr(l, v, v', fs, i, p);
    }
    SamePtrsOwn(v, v', fs, fs);
    forall i: nat, o: nat | Live(fs.ino, i) && o < MAX_FILE_SIZE
      ensures FileByte(v', fs.ino[i], o) == FileByte(v, fs.ino[i], o)
    {
      OwnedHome(l, v, v', fs, i, LeafPath(o / BSIZE));
    }
  }
}
