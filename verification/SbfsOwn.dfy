/** Block ownership in sbfs, and the steps that keep it. */
module SbfsOwn {
  import opened Bytes
  import opened LogSpec
  import opened SbfsSpec

  /** A place that can name a block: a path in an inode. */
  datatype Slot = Slot(inum: nat, path: Path)

  /**
   What the file system's metadata says: the inodes, the owner of every block in use, and the blocks
   just allocated that nothing names yet.
   */
  datatype Fs = Fs(sb: Super, ino: seq<Dinode>, owner: map<nat, Slot>, loose: set<nat>)

  ghost predicate Live(ino: seq<Dinode>, i: nat) { i < |ino| && ino[i].typ != 0 }

  ghost predicate InosOk(ino: seq<Dinode>) { forall i :: 0 <= i < |ino| ==> DinodeOk(ino[i]) }

  /** Every block a live inode names belongs to the place that names it. */
  ghost predicate Forward(view: Disk, ino: seq<Dinode>, owner: map<nat, Slot>)
    requires InosOk(ino)
  {
    forall i: nat, p: Path :: Live(ino, i) && ValidPath(p) && PtrAt(view, ino[i], p) != 0 ==>
      PtrAt(view, ino[i], p) in owner && owner[PtrAt(view, ino[i], p)] == Slot(i, p)
  }

  /** Every owned block is a data block, named at its owner's place. */
  ghost predicate Backward(view: Disk, fs: Fs)
    requires InosOk(fs.ino)
  {
    forall b :: b in fs.owner ==>
      && IsData(fs.sb, b) && Live(fs.ino, fs.owner[b].inum) && ValidPath(fs.owner[b].path)
      && PtrAt(view, fs.ino[fs.owner[b].inum], fs.owner[b].path) == b
  }

  /** The bitmap marks exactly these data blocks. */
  ghost predicate Marks(bm: Block, sb: Super, used: set<nat>)
    requires sb.nblocks <= 8 * BSIZE
  {
    forall b :: IsData(sb, b) ==> (Used(bm, sb, b) <==> b in used)
  }

  /** Loose blocks are zeroed and have no owner. */
  ghost predicate LooseOk(view: Disk, fs: Fs) {
    forall b :: b in fs.loose ==> IsData(fs.sb, b) && b < |view| && b !in fs.owner && IsZero(view[b])
  }

  ghost predicate Room(view: Disk, sb: Super) {
    sb.nblocks <= 8 * BSIZE && 0 < sb.bmapstart && sb.bmapstart + 1 + sb.nblocks <= |view|
  }

  ghost predicate Own(view: Disk, fs: Fs) {
    && Room(view, fs.sb)
    && InosOk(fs.ino)
    && Forward(view, fs.ino, fs.owner)
    && Backward(view, fs)
    && Marks(view[fs.sb.bmapstart], fs.sb, fs.owner.Keys + fs.loose)
    && LooseOk(view, fs)
  }

  lemma OwnBasics(view: Disk, fs: Fs)
    requires Own(view, fs)
    ensures InosOk(fs.ino) && Room(view, fs.sb)
  {
  }

  lemma OwnerOf(view: Disk, fs: Fs, i: nat, p: Path)
    requires Own(view, fs) && Live(fs.ino, i) && ValidPath(p) && PtrAt(view, fs.ino[i], p) != 0
    ensures var b := PtrAt(view, fs.ino[i], p); b in fs.owner && fs.owner[b] == Slot(i, p) && IsData(fs.sb, b)
  {
    assert Forward(view, fs.ino, fs.owner);
  }

  /** Some live inode names block b. */
  ghost predicate Named(view: Disk, fs: Fs, b: nat)
    requires InosOk(fs.ino)
  {
    exists s: Slot :: NamedAt(view, fs, b, s)
  }

  ghost predicate NamedAt(view: Disk, fs: Fs, b: nat, s: Slot)
    requires InosOk(fs.ino)
  {
    Live(fs.ino, s.inum) && ValidPath(s.path) && PtrAt(view, fs.ino[s.inum], s.path) == b
  }

  /**
   Block ownership: a data block's bit is set exactly when some live inode names it, and two places
   that name it are the same place of the same inode.
   */
  lemma OwnedExactlyOnce(view: Disk, fs: Fs, b: nat)
    requires Own(view, fs) && fs.loose == {} && IsData(fs.sb, b)
    ensures Used(view[fs.sb.bmapstart], fs.sb, b) <==> Named(view, fs, b)
    ensures forall s, t :: NamedAt(view, fs, b, s) && NamedAt(view, fs, b, t) ==> s == t
  {
    if b in fs.owner { assert NamedAt(view, fs, b, fs.owner[b]); }
    forall s | NamedAt(view, fs, b, s) ensures b in fs.owner && fs.owner[b] == s {
      OwnerOf(view, fs, s.inum, s.path);
    }
  }

  // ----- steps that leave every pointer alone ------------------------------------

  ghost predicate SamePtrs(v: Disk, v': Disk, ino: seq<Dinode>)
    requires InosOk(ino)
  {
    forall i: nat, p: Path :: Live(ino, i) && ValidPath(p) ==> PtrAt(v', ino[i], p) == PtrAt(v, ino[i], p)
  }

  /** A block that is not a block of pointers can be overwritten without changing any pointer. */
  lemma WriteKeepsPtrs(view: Disk, fs: Fs, b: nat, data: Block)
    requires Own(view, fs) && 0 < b < |view|
    requires b in fs.owner ==> IsLeaf(fs.owner[b].path)
    ensures SamePtrs(view, view[b := data], fs.ino)
  {
    forall i: nat, p: Path | Live(fs.ino, i) && ValidPath(p)
      ensures PtrAt(view[b := data], fs.ino[i], p) == PtrAt(view, fs.ino[i], p)
    {
      WriteKeepsPtr(view, fs, b, data, i, p);
    }
  }

  lemma WriteKeepsPtr(view: Disk, fs: Fs, b: nat, data: Block, i: nat, p: Path)
    requires Own(view, fs) && 0 < b < |view|
    requires b in fs.owner ==> IsLeaf(fs.owner[b].path)
    requires Live(fs.ino, i) && ValidPath(p)
    ensures PtrAt(view[b := data], fs.ino[i], p) == PtrAt(view, fs.ino[i], p)
  {
    match p {
      case Top(k) =>
      case Sub(k, io) => NotThere(view, fs, b, i, Top(k));
      case Sub2(oi, io) =>
        NotThere(view, fs, b, i, Top(NADDR - 1));
        NotThere(view, fs, b, i, Sub(NADDR - 1, oi));
    }
  }

  lemma NotThere(view: Disk, fs: Fs, b: nat, i: nat, p: Path)
    requires Own(view, fs) && 0 < b && (b in fs.owner ==> fs.owner[b] != Slot(i, p))
    requires Live(fs.ino, i) && ValidPath(p)
    ensures PtrAt(view, fs.ino[i], p) != b
  {
    if PtrAt(view, fs.ino[i], p) == b { OwnerOf(view, fs, i, p); }
  }

  lemma SamePtrsOwn(v: Disk, v': Disk, fs: Fs, fs': Fs)
    requires Own(v, fs) && |v'| == |v| && SamePtrs(v, v', fs.ino) && fs' == fs.(loose := fs'.loose)
    requires Marks(v'[fs.sb.bmapstart], fs.sb, fs.owner.Keys + fs'.loose) && LooseOk(v', fs')
    ensures Own(v', fs')
  {
    hide PtrAt;
  }

  /** No byte of any file changes. */
  ghost predicate SameFiles(v: Disk, ino: seq<Dinode>, v': Disk, ino': seq<Dinode>)
    requires InosOk(ino) && InosOk(ino')
  {
    |ino'| == |ino| && forall i: nat, o: nat :: Live(ino, i) && o < MAX_FILE_SIZE ==>
      FileByte(v', ino'[i], o) == FileByte(v, ino[i], o)
  }

  /** Overwriting a block that holds no file data and no pointers. */
  lemma OtherWrite(view: Disk, fs: Fs, b: nat, data: Block)
    requires Own(view, fs) && 0 < b < |view| && b !in fs.owner
    ensures SamePtrs(view, view[b := data], fs.ino)
    ensures SameFiles(view, fs.ino, view[b := data], fs.ino)
  {
    var v' := view[b := data];
    WriteKeepsPtrs(view, fs, b, data);
    forall i: nat, o: nat | Live(fs.ino, i) && o < MAX_FILE_SIZE
      ensures FileByte(v', fs.ino[i], o) == FileByte(view, fs.ino[i], o)
    {
      NotThere(view, fs, b, i, LeafPath(o / BSIZE));
    }
  }

  /** No clear bit: every data block has an owner. */
  lemma AllOwned(view: Disk, fs: Fs)
    requires Own(view, fs) && fs.loose == {}
    requires forall j :: 0 <= j < fs.sb.nblocks ==> BitAt(view[fs.sb.bmapstart], j)
    ensures forall b: nat :: IsData(fs.sb, b) ==> b in fs.owner
  {
    forall b: nat | IsData(fs.sb, b) ensures b in fs.owner {
      assert Used(view[fs.sb.bmapstart], fs.sb, b);
    }
  }

  /** balloc: mark a free data block and zero it. */
  lemma AllocOwn(view: Disk, fs: Fs, nb: nat, zero: Block, view': Disk, fs': Fs)
    requires Own(view, fs) && IsData(fs.sb, nb) && !Used(view[fs.sb.bmapstart], fs.sb, nb) && IsZero(zero)
    requires view' == view[fs.sb.bmapstart := MarkBit(view[fs.sb.bmapstart], nb - fs.sb.bmapstart - 1, true)][nb :=
      zero]
    requires fs' == fs.(loose := fs.loose + {nb})
    ensures Own(view', fs') && nb !in fs.owner && nb !in fs.loose
    ensures SameFiles(view, fs.ino, view', fs.ino) && SamePtrs(view, view', fs.ino)
  {
    hide PtrAt;
    var bm, i := fs.sb.bmapstart, nb - fs.sb.bmapstart - 1;
    var v1 := view[nb := zero];
    OtherWrite(view, fs, nb, zero);
    SamePtrsOwn(view, v1, fs, fs);
    var map1 := MarkBit(view[bm], i, true);
    OtherWrite(v1, fs, bm, map1);
    assert v1[bm := map1] == view';
    forall b | IsData(fs.sb, b) ensures Used(map1, fs.sb, b) <==> b in fs'.owner.Keys + fs'.loose {
      MarkBitFacts(view[bm], i, true, b - bm - 1);
      assert Used(view[bm], fs.sb, b) <==> b in fs.owner.Keys + fs.loose;
    }
    SamePtrsOwn(v1, view', fs, fs');
  }

  // ----- growing a file ----------------------------------------------------------------

  /** Blocks already named stay named where they are. */
  ghost predicate PtrsKept(v: Disk, ino: seq<Dinode>, v': Disk, ino': seq<Dinode>)
    requires InosOk(ino) && InosOk(ino')
  {
    |ino'| == |ino| && forall i: nat, p: Path :: Live(ino, i) && ValidPath(p) && PtrAt(v, ino[i], p) != 0 ==>
      PtrAt(v', ino'[i], p) == PtrAt(v, ino[i], p)
  }

  lemma SamePtrsKept(v: Disk, v': Disk, ino: seq<Dinode>)
    requires InosOk(ino) && SamePtrs(v, v', ino)
    ensures PtrsKept(v, ino, v', ino)
  {
  }

  /** Only inode i's block pointers change. */
  ghost predicate OnlyAddrs(ino: seq<Dinode>, ino': seq<Dinode>, i: nat) {
    i < |ino| == |ino'| && ino' == ino[i := ino[i].(addrs := ino'[i].addrs)]
  }

  /** Inode i may have more blocks, which hold zeros. */
  ghost predicate Grown(v: Disk, ino: seq<Dinode>, v': Disk, ino': seq<Dinode>, i: nat) {
    && InosOk(ino) && InosOk(ino')
    && SameFiles(v, ino, v', ino') && PtrsKept(v, ino, v', ino') && OnlyAddrs(ino, ino', i)
  }

  lemma GrownSelf(v: Disk, ino: seq<Dinode>, i: nat)
    requires InosOk(ino) && i < |ino|
    ensures Grown(v, ino, v, ino, i)
  {
  }

  lemma GrownThen(v: Disk, ino: seq<Dinode>, w: Disk, jno: seq<Dinode>, x: Disk, kno: seq<Dinode>, i: nat)
    requires Grown(v, ino, w, jno, i) && Grown(w, jno, x, kno, i)
    ensures Grown(v, ino, x, kno, i)
  {
    hide PtrAt;
    assert forall j: nat :: Live(ino, j) <==> Live(jno, j);
  }

  lemma GrownAlloc(v: Disk, ino: seq<Dinode>, w: Disk, i: nat)
    requires InosOk(ino) && i < |ino| && SameFiles(v, ino, w, ino) && SamePtrs(v, w, ino)
    ensures Grown(v, ino, w, ino, i)
  {
    assert ino == ino[i := ino[i].(addrs := ino[i].addrs)];
  }

  // ----- naming a new block ---------------------------------------------------------

  /** The only pointer that changes is the one at s, which now names nb. */
  ghost predicate PtrSet(v: Disk, ino: seq<Dinode>, v': Disk, ino': seq<Dinode>, s: Slot, nb: nat)
    requires InosOk(ino) && InosOk(ino')
  {
    && |ino'| == |ino|
    && (forall i: nat :: Live(ino', i) <==> Live(ino, i))
    && (forall i: nat, p: Path :: Live(ino, i) && ValidPath(p) ==>
          PtrAt(v', ino'[i], p) == if Slot(i, p) == s then nb else PtrAt(v, ino[i], p))
  }

  /** Blocks of file data and unnamed blocks keep their contents. */
  ghost predicate SameData(v: Disk, v': Disk, fs: Fs) {
    && |v'| == |v|
    && (forall b :: b in fs.owner && b < |v| && IsLeaf(fs.owner[b].path) ==> v'[b] == v[b])
    && (forall b :: b in fs.loose && b < |v| ==> v'[b] == v[b])
  }

  lemma LinkOwn(v: Disk, fs: Fs, v': Disk, fs': Fs, s: Slot, nb: nat)
    requires Own(v, fs) && nb in fs.loose && Live(fs.ino, s.inum) && ValidPath(s.path)
    requires PtrAt(v, fs.ino[s.inum], s.path) == 0
    requires InosOk(fs'.ino) && PtrSet(v, fs.ino, v', fs'.ino, s, nb) && SameData(v, v', fs)
    requires v'[fs.sb.bmapstart] == v[fs.sb.bmapstart]
    requires fs' == Fs(fs.sb, fs'.ino, fs.owner[nb := s], fs.loose - {nb})
    ensures Own(v', fs')
  {
    hide PtrAt;
    assert fs'.owner.Keys + fs'.loose == fs.owner.Keys + fs.loose;
    forall i: nat, p: Path | Live(fs'.ino, i) && ValidPath(p) && PtrAt(v', fs'.ino[i], p) != 0
      ensures PtrAt(v', fs'.ino[i], p) in fs'.owner && fs'.owner[PtrAt(v', fs'.ino[i], p)] == Slot(i, p)
    {
      if Slot(i, p) != s { OwnerOf(v, fs, i, p); }
    }
    forall b | b in fs'.owner
      ensures IsData(fs'.sb, b) && Live(fs'.ino, fs'.owner[b].inum) && ValidPath(fs'.owner[b].path)
      ensures PtrAt(v', fs'.ino[fs'.owner[b].inum], fs'.owner[b].path) == b
    {
      if b != nb { assert b in fs.owner; }
    }
  }

  /** A newly named block is all zeros, so a hole it fills still reads as zeros. */
  lemma LinkGrown(v: Disk, fs: Fs, v': Disk, ino': seq<Dinode>, s: Slot, nb: nat)
    requires Own(v, fs) && nb in fs.loose && Live(fs.ino, s.inum) && ValidPath(s.path)
    requires PtrAt(v, fs.ino[s.inum], s.path) == 0
    requires InosOk(ino') && PtrSet(v, fs.ino, v', ino', s, nb) && SameData(v, v', fs)
    requires OnlyAddrs(fs.ino, ino', s.inum)
    ensures Grown(v, fs.ino, v', ino', s.inum)
  {
    hide PtrAt;
    forall i: nat, o: nat | Live(fs.ino, i) && o < MAX_FILE_SIZE
      ensures FileByte(v', ino'[i], o) == FileByte(v, fs.ino[i], o)
    {
      var p := LeafPath(o / BSIZE);
      if Slot(i, p) != s && PtrAt(v, fs.ino[i], p) != 0 { OwnerOf(v, fs, i, p); }
    }
  }

  /** Assigning addrs[k] of an in-memory inode. */
  lemma LinkTop(v: Disk, fs: Fs, i: nat, k: nat, nb: nat, fs': Fs)
    requires Own(v, fs) && nb in fs.loose && Live(fs.ino, i) && k < NADDR && fs.ino[i].addrs[k] == 0 && nb < U32MAX
    requires var d := fs.ino[i];
             fs' == Fs(fs.sb, fs.ino[i := d.(addrs := d.addrs[k := nb])], fs.owner[nb := Slot(i, Top(k))],
               fs.loose - {nb})
    ensures Own(v, fs') && Grown(v, fs.ino, v, fs'.ino, i)
  {
    var s := Slot(i, Top(k));
    forall j: nat, p: Path | Live(fs.ino, j) && ValidPath(p)
      ensures PtrAt(v, fs'.ino[j], p) == if Slot(j, p) == s then nb else PtrAt(v, fs.ino[j], p)
    {
      if j == i { TopPtr(v, fs, i, k, nb, fs'.ino[i], p); }
    }
    LinkOwn(v, fs, v, fs', s, nb);
    LinkGrown(v, fs, v, fs'.ino, s, nb);
  }

  /** A zeroed block has no entries. */
  lemma ZeroEntry(v: Disk, b: nat, io: nat)
    requires b < |v| && IsZero(v[b]) && io < PER
    ensures Entry(v, b, io) == 0
  {
  }

  lemma TopPtr(v: Disk, fs: Fs, i: nat, k: nat, nb: nat, d: Dinode, p: Path)
    requires Own(v, fs) && nb in fs.loose && Live(fs.ino, i) && k < NADDR && fs.ino[i].addrs[k] == 0
    requires d == fs.ino[i].(addrs := fs.ino[i].addrs[k := nb]) && ValidPath(p)
    ensures PtrAt(v, d, p) == if p == Top(k) then nb else PtrAt(v, fs.ino[i], p)
  {
    match p {
      case Top(_) =>
      case Sub(_, io) => ZeroEntry(v, nb, io);
      case Sub2(oi, io) => ZeroEntry(v, nb, oi);
    }
  }

  /** The place that names the pointer block holding p's entry. */
  function Parent(p: Path): (r: Path)
    requires ValidPath(p) && !p.Top?
    ensures ValidPath(r) && !IsLeaf(r)
  {
    match p
    case Sub(k, io) => Top(k)
    case Sub2(oi, io) => Sub(NADDR - 1, oi)
  }

  /** Assigning entry io of a pointer block. */
  lemma LinkEntry(v: Disk, fs: Fs, s: Slot, nb: nat, pb: nat, v': Disk, fs': Fs)
    requires Own(v, fs) && nb in fs.loose && Live(fs.ino, s.inum) && ValidPath(s.path) && !s.path.Top? && nb < U32MAX
    requires PtrAt(v, fs.ino[s.inum], s.path) == 0
    requires pb == PtrAt(v, fs.ino[s.inum], Parent(s.path)) != 0 && pb < |v|
    requires v' == v[pb := PutU32(v[pb], 4 * s.path.io, nb)]
    requires fs' == Fs(fs.sb, fs.ino, fs.owner[nb := s], fs.loose - {nb})
    ensures Own(v', fs') && Grown(v, fs.ino, v', fs.ino, s.inum)
  {
    hide PtrAt, PutU32;
    OwnerOf(v, fs, s.inum, Parent(s.path));
    assert OnlyAddrs(fs.ino, fs.ino, s.inum);
    forall i: nat, p: Path | Live(fs.ino, i) && ValidPath(p)
      ensures PtrAt(v', fs.ino[i], p) == if Slot(i, p) == s then nb else PtrAt(v, fs.ino[i], p)
    {
      EntryPtr(v, fs, s, nb, pb, v', i, p);
    }
    LinkOwn(v, fs, v', fs', s, nb);
    LinkGrown(v, fs, v', fs.ino, s, nb);
  }

  /** One stored entry. */
  lemma EntryStep(v: Disk, pb: nat, at: nat, nb: nat, v': Disk, b: nat, io: nat)
    requires 0 < pb < |v| && at < PER && nb < U32MAX && v' == v[pb := PutU32(v[pb], 4 * at, nb)] && io < PER
    ensures Entry(v', b, io) == if b == pb && io == at then nb else Entry(v, b, io)
  {
    if b == pb && io != at { U32Frame(v'[pb], v[pb], 4 * io); }
  }

  lemma {:induction false} EntryPtr(v: Disk, fs: Fs, s: Slot, nb: nat, pb: nat, v': Disk, i: nat, p: Path)
    requires Own(v, fs) && nb in fs.loose && Live(fs.ino, s.inum) && ValidPath(s.path) && !s.path.Top? && nb < U32MAX
    requires PtrAt(v, fs.ino[s.inum], s.path) == 0
    requires pb == PtrAt(v, fs.ino[s.inum], Parent(s.path)) != 0 && pb < |v|
    requires v' == v[pb := PutU32(v[pb], 4 * s.path.io, nb)]
    requires Live(fs.ino, i) && ValidPath(p)
    ensures PtrAt(v', fs.ino[i], p) == if Slot(i, p) == s then nb else PtrAt(v, fs.ino[i], p)
    decreases p.Sub2?
  {
    OwnerOf(v, fs, s.inum, Parent(s.path));
    if !p.Top? {
      var q := Parent(p);
      if p.Sub2? { EntryPtr(v, fs, s, nb, pb, v', i, q); }
      var qb := PtrAt(v, fs.ino[i], q);
      EntryStep(v, pb, s.path.io, nb, v', qb, p.io);
      if Slot(i, q) == s {
        ZeroEntry(v', nb, p.io);
      } else if qb == pb {
        OwnerOf(v, fs, i, q);
      }
    }
  }

  // ----- file data and inode metadata ---------------------------------------------------

  ghost predicate ByteSet(v: Disk, v': Disk, d: Dinode, i: nat, o: nat, s: Slot, data: Block)
    requires |d.addrs| == NADDR && o < MAX_FILE_SIZE
  {
    FileByte(v', d, o) == if Slot(i, LeafPath(o / BSIZE)) == s then data[o % BSIZE] else FileByte(v, d, o)
  }

  /** The file bytes stored at s are now those of data; no other byte of any file changes. */
  ghost predicate BytesSet(v: Disk, v': Disk, ino: seq<Dinode>, s: Slot, data: Block)
    requires InosOk(ino)
  {
    forall i: nat, o: nat :: Live(ino, i) && o < MAX_FILE_SIZE ==> ByteSet(v, v', ino[i], i, o, s, data)
  }

  lemma LeafOwn(v: Disk, fs: Fs, b: nat, data: Block, v': Disk)
    requires Own(v, fs) && b in fs.owner && IsLeaf(fs.owner[b].path) && b < |v| && v' == v[b := data]
    ensures Own(v', fs) && SamePtrs(v, v', fs.ino)
  {
    WriteKeepsPtrs(v, fs, b, data);
    SamePtrsOwn(v, v', fs, fs);
  }

  /** Overwriting a block of file data changes that block's bytes of that file and nothing else. */
  lemma LeafWrite(v: Disk, fs: Fs, b: nat, data: Block, v': Disk)
    requires Own(v, fs) && b in fs.owner && IsLeaf(fs.owner[b].path) && b < |v| && v' == v[b := data]
    ensures Own(v', fs) && BytesSet(v, v', fs.ino, fs.owner[b], data) && SamePtrs(v, v', fs.ino)
  {
    LeafOwn(v, fs, b, data, v');
    forall i: nat, o: nat | Live(fs.ino, i) && o < MAX_FILE_SIZE
      ensures ByteSet(v, v', fs.ino[i], i, o, fs.owner[b], data)
    {
      LeafByte(v, fs, b, data, v', i, o);
    }
  }

  lemma LeafByte(v: Disk, fs: Fs, b: nat, data: Block, v': Disk, i: nat, o: nat)
    requires Own(v, fs) && b in fs.owner && b < |v| && v' == v[b := data] && SamePtrs(v, v', fs.ino)
    requires Live(fs.ino, i) && o < MAX_FILE_SIZE
    ensures ByteSet(v, v', fs.ino[i], i, o, fs.owner[b], data)
  {
    var p := LeafPath(o / BSIZE);
    if Slot(i, p) != fs.owner[b] { NotThere(v, fs, b, i, p); }
  }

  lemma SameAddrs(v: Disk, d: Dinode, e: Dinode, p: Path)
    requires |d.addrs| == NADDR && e.addrs == d.addrs && ValidPath(p)
    ensures PtrAt(v, e, p) == PtrAt(v, d, p)
  {
  }

  /** Size, times and the like do not matter to ownership. */
  lemma MetaOwn(v: Disk, fs: Fs, i: nat, d: Dinode, fs': Fs)
    requires Own(v, fs) && i < |fs.ino| && DinodeOk(d) && d.addrs == fs.ino[i].addrs && d.typ == fs.ino[i].typ
    requires fs' == fs.(ino := fs.ino[i := d])
    ensures Own(v, fs') && SameFiles(v, fs.ino, v, fs'.ino) && PtrsKept(v, fs.ino, v, fs'.ino)
  {
    hide PtrAt;
    forall j: nat, p: Path | j < |fs.ino| && ValidPath(p) ensures PtrAt(v, fs'.ino[j], p) == PtrAt(v, fs.ino[j], p) {
      SameAddrs(v, fs.ino[j], fs'.ino[j], p);
    }
    assert forall j: nat :: Live(fs'.ino, j) <==> Live(fs.ino, j);
  }
}
