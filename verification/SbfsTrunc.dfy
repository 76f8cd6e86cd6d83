/** Freeing a whole inode, creating one, and what a crash leaves: pure facts about ownership. */
module SbfsTrunc {
  import opened Bytes
  import opened LogSpec
  import opened SbfsSpec
  import opened SbfsOwn

  /** The position of a path in the order sbfs_itrunc frees blocks. */
  function Rank(p: Path): (r: nat)
    requires ValidPath(p)
    ensures r < 16778
  {
    match p
    case Top(k) => if k < NDIR then k else if k == 7 then 135 else if k == 8 then 264 else 16777
    case Sub(k, io) => if k == 7 then 7 + io else if k == 8 then 136 + io else 265 + 129 * io + 128
    case Sub2(oi, io) => 265 + 129 * oi + io
  }

  lemma RankInjective(p: Path, q: Path)
    requires ValidPath(p) && ValidPath(q) && Rank(p) == Rank(q)
    ensures p == q
  {
  }

  /** The bits still set when itrunc has freed inode i's blocks of rank below n. */
  ghost predicate FreedBits(bm: Block, fs: Fs, i: nat, n: nat)
    requires fs.sb.nblocks <= 8 * BSIZE
  {
    forall b :: IsData(fs.sb, b) ==> (Used(bm, fs.sb, b) <==> Remains(fs, i, n, b))
  }

  ghost predicate Remains(fs: Fs, i: nat, n: nat, b: nat) {
    && b in fs.owner && ValidPath(fs.owner[b].path)
    && !(fs.owner[b].inum == i && Rank(fs.owner[b].path) < n)
  }

  lemma NothingFreed(v: Disk, fs: Fs, i: nat)
    requires Own(v, fs) && fs.loose == {}
    ensures FreedBits(v[fs.sb.bmapstart], fs, i, 0)
  {
  }

  /** Null pointers have nothing to free. */
  lemma FreeSkip(v: Disk, fs: Fs, i: nat, bm: Block, n: nat, m: nat)
    requires Own(v, fs) && Live(fs.ino, i) && FreedBits(bm, fs, i, n) && n <= m
    requires forall p: Path :: ValidPath(p) && n <= Rank(p) < m ==> PtrAt(v, fs.ino[i], p) == 0
    ensures FreedBits(bm, fs, i, m)
  {
    forall b | IsData(fs.sb, b) ensures Used(bm, fs.sb, b) <==> Remains(fs, i, m, b) {
      if b in fs.owner && fs.owner[b].inum == i { assert PtrAt(v, fs.ino[i], fs.owner[b].path) == b; }
    }
  }

  /** bfree of the block at path p. */
  lemma FreeStep(v: Disk, fs: Fs, i: nat, bm: Block, p: Path, bm': Block)
    requires Own(v, fs) && Live(fs.ino, i) && ValidPath(p) && FreedBits(bm, fs, i, Rank(p))
    requires PtrAt(v, fs.ino[i], p) != 0 && IsData(fs.sb, PtrAt(v, fs.ino[i], p))
    requires bm' == MarkBit(bm, PtrAt(v, fs.ino[i], p) - fs.sb.bmapstart - 1, false)
    ensures FreedBits(bm', fs, i, Rank(p) + 1)
  {
    OwnBasics(v, fs);
    hide Own, PtrAt, Rank, MarkBit, Remains, ValidPath, InosOk;
    var c := PtrAt(v, fs.ino[i], p);
    OwnerOf(v, fs, i, p);
    forall b: nat | IsData(fs.sb, b) ensures Used(bm', fs.sb, b) <==> Remains(fs, i, Rank(p) + 1, b) {
      BitFreed(fs.sb, bm, c, bm', b);
      FreeStepBit(v, fs, i, p, c, b);
    }
  }

  lemma BitFreed(sb: Super, bm: Block, c: nat, bm': Block, b: nat)
    requires sb.nblocks <= 8 * BSIZE && IsData(sb, b) && IsData(sb, c)
    requires bm' == MarkBit(bm, c - sb.bmapstart - 1, false)
    ensures Used(bm', sb, b) <==> b != c && Used(bm, sb, b)
  {
    MarkBitFacts(bm, c - sb.bmapstart - 1, false, b - sb.bmapstart - 1);
  }

  lemma FreeStepBit(v: Disk, fs: Fs, i: nat, p: Path, c: nat, b: nat)
    requires Own(v, fs) && Live(fs.ino, i) && ValidPath(p) && c in fs.owner && fs.owner[c] == Slot(i, p)
    ensures Remains(fs, i, Rank(p) + 1, b) <==> b != c && Remains(fs, i, Rank(p), b)
  {
    if b in fs.owner && fs.owner[b].inum == i && Rank(fs.owner[b].path) == Rank(p) {
      RankInjective(fs.owner[b].path, p);
      assert PtrAt(v, fs.ino[i], p) == b == c;
    }
  }

  ghost predicate NoBlocks(d: Dinode) { |d.addrs| == NADDR && forall k :: 0 <= k < NADDR ==> d.addrs[k] == 0 }

  lemma NoBlocksPtr(v: Disk, d: Dinode, p: Path)
    requires NoBlocks(d) && ValidPath(p)
    ensures PtrAt(v, d, p) == 0
  {
  }

  /** Everybody else's blocks. */
  function Others(owner: map<nat, Slot>, i: nat): map<nat, Slot> {
    map b | b in owner && owner[b].inum != i :: owner[b]
  }

  /** No byte of any file but i changes. */
  ghost predicate SameOthers(v: Disk, ino: seq<Dinode>, v': Disk, ino': seq<Dinode>, i: nat)
    requires InosOk(ino) && InosOk(ino')
  {
    && |ino'| == |ino|
    && (forall j: nat :: Live(ino, j) && j != i ==> Live(ino', j))
    && (forall j: nat, o: nat :: Live(ino, j) && j != i && o < MAX_FILE_SIZE ==>
          FileByte(v', ino'[j], o) == FileByte(v, ino[j], o))
  }

  /** Inode i becomes an empty one, live or free, and the bitmap forgets its blocks. */
  lemma EmptiedOwn(v: Disk, fs: Fs, i: nat, bm: Block, d: Dinode, v': Disk, fs': Fs)
    requires Own(v, fs) && fs.loose == {} && i < |fs.ino| && NoBlocks(d) && DinodeOk(d)
    requires FreedBits(bm, fs, i, 16778) && v' == v[fs.sb.bmapstart := bm]
    requires fs' == Fs(fs.sb, fs.ino[i := d], Others(fs.owner, i), {})
    ensures Own(v', fs') && SameOthers(v, fs.ino, v', fs'.ino, i)
  {
    OtherWrite(v, fs, fs.sb.bmapstart, bm);
    EmptiedForward(v, fs, i, d, v', fs');
    EmptiedBackward(v, fs, i, d, v', fs');
    assert Marks(bm, fs.sb, fs'.owner.Keys + fs'.loose);
    forall j: nat, o: nat | Live(fs.ino, j) && j != i && o < MAX_FILE_SIZE
      ensures FileByte(v', fs'.ino[j], o) == FileByte(v, fs.ino[j], o)
    {
      assert fs'.ino[j] == fs.ino[j];
    }
  }

  lemma EmptiedForward(v: Disk, fs: Fs, i: nat, d: Dinode, v': Disk, fs': Fs)
    requires Own(v, fs) && i < |fs.ino| && NoBlocks(d) && DinodeOk(d) && |v'| == |v| && SamePtrs(v, v', fs.ino)
    requires fs' == Fs(fs.sb, fs.ino[i := d], Others(fs.owner, i), {})
    ensures Forward(v', fs'.ino, fs'.owner)
  {
    hide Own, PtrAt, ValidPath, SamePtrs, Others, NoBlocks, DinodeOk;
    OwnBasics(v, fs);
    assert InosOk(fs'.ino);
    AllSized(fs'.ino);
    hide InosOk;
    forall j: nat, p: Path | Live(fs'.ino, j) && ValidPath(p) && PtrAt(v', fs'.ino[j], p) != 0
      ensures PtrAt(v', fs'.ino[j], p) in fs'.owner && fs'.owner[PtrAt(v', fs'.ino[j], p)] == Slot(j, p)
    {
      EmptiedPtr(v, fs, i, d, v', fs', j, p);
    }
  }

  lemma AllSized(ino: seq<Dinode>)
    requires InosOk(ino)
    ensures forall j :: 0 <= j < |ino| ==> |ino[j].addrs| == NADDR
  {
    assert forall j :: 0 <= j < |ino| ==> DinodeOk(ino[j]);
  }

  lemma EmptiedPtr(v: Disk, fs: Fs, i: nat, d: Dinode, v': Disk, fs': Fs, j: nat, p: Path)
    requires Own(v, fs) && i < |fs.ino| && NoBlocks(d) && DinodeOk(d) && SamePtrs(v, v', fs.ino)
    requires fs' == Fs(fs.sb, fs.ino[i := d], Others(fs.owner, i), {})
    requires Live(fs'.ino, j) && ValidPath(p) && |fs'.ino[j].addrs| == NADDR && PtrAt(v', fs'.ino[j], p) != 0
    ensures PtrAt(v', fs'.ino[j], p) in fs'.owner && fs'.owner[PtrAt(v', fs'.ino[j], p)] == Slot(j, p)
  {
    hide Own, PtrAt, ValidPath;
    NoBlocksPtr(v', d, p);
    assert PtrAt(v, fs.ino[j], p) == PtrAt(v', fs'.ino[j], p);
    OwnerOf(v, fs, j, p);
  }

  lemma EmptiedBackward(v: Disk, fs: Fs, i: nat, d: Dinode, v': Disk, fs': Fs)
    requires Own(v, fs) && i < |fs.ino| && DinodeOk(d) && |v'| == |v| && SamePtrs(v, v', fs.ino)
    requires fs' == Fs(fs.sb, fs.ino[i := d], Others(fs.owner, i), {})
    ensures Backward(v', fs')
  {
    forall b | b in fs'.owner
      ensures IsData(fs'.sb, b) && Live(fs'.ino, fs'.owner[b].inum) && ValidPath(fs'.owner[b].path)
      ensures PtrAt(v', fs'.ino[fs'.owner[b].inum], fs'.owner[b].path) == b
    {
      assert b in fs.owner && fs'.owner[b] == fs.owner[b];
    }
  }

  /** An inode that owns nothing can be rewritten, claimed or freed. */
  lemma OwnerlessOwn(v: Disk, fs: Fs, i: nat, d: Dinode, fs': Fs)
    requires Own(v, fs) && fs.loose == {} && i < |fs.ino| && Others(fs.owner, i) == fs.owner && NoBlocks(d)
    requires DinodeOk(d)
    requires fs' == fs.(ino := fs.ino[i := d])
    ensures Own(v, fs') && SameOthers(v, fs.ino, v, fs'.ino, i)
  {
    var bm := v[fs.sb.bmapstart];
    assert v[fs.sb.bmapstart := bm] == v;
    assert fs' == Fs(fs.sb, fs.ino[i := d], Others(fs.owner, i), {});
    forall b | IsData(fs.sb, b) ensures Used(bm, fs.sb, b) <==> Remains(fs, i, 16778, b) {
    }
    EmptiedOwn(v, fs, i, bm, d, v, fs');
  }

  lemma FreeOwnsNothing(v: Disk, fs: Fs, i: nat)
    requires Own(v, fs) && i < |fs.ino| && fs.ino[i].typ == 0
    ensures Others(fs.owner, i) == fs.owner
  {
  }

  // ----- what itrunc's loops skip ----------------------------------------------------

  /** Where freeing addrs[k] and everything below it starts. */
  function Start(k: nat): (r: nat)
    requires k <= NADDR
  {
    if k <= 7 then k else if k == 8 then 136 else if k == 9 then 265 else 16778
  }

  lemma TopRank(p: Path, k: nat)
    requires ValidPath(p) && k < NADDR && Start(k) <= Rank(p) < Start(k + 1)
    ensures p == Top(k) || (p.Sub? && p.k == k) || (p.Sub2? && k == NADDR - 1)
  {
  }

  lemma InnerRank(p: Path, oi: nat)
    requires ValidPath(p) && oi < PER && 265 + 129 * oi <= Rank(p) < 265 + 129 * (oi + 1)
    ensures p == Sub(NADDR - 1, oi) || (p.Sub2? && p.oi == oi)
  {
  }

  /** A missing addrs[k] has nothing below it. */
  lemma SkipTop(v: Disk, fs: Fs, i: nat, bm: Block, k: nat)
    requires Own(v, fs) && Live(fs.ino, i) && k < NADDR && FreedBits(bm, fs, i, Start(k)) && fs.ino[i].addrs[k] == 0
    ensures FreedBits(bm, fs, i, Start(k + 1))
  {
    hide Own, FreedBits, Rank;
    OwnBasics(v, fs);
    forall p: Path | ValidPath(p) && Start(k) <= Rank(p) < Start(k + 1) ensures PtrAt(v, fs.ino[i], p) == 0 {
      TopRank(p, k);
    }
    FreeSkip(v, fs, i, bm, Start(k), Start(k + 1));
  }

  /** A missing inner block has nothing below it. */
  lemma SkipInner(v: Disk, fs: Fs, i: nat, bm: Block, oi: nat)
    requires Own(v, fs) && Live(fs.ino, i) && oi < PER && FreedBits(bm, fs, i, 265 + 129 * oi)
    requires PtrAt(v, fs.ino[i], Sub(NADDR - 1, oi)) == 0
    ensures FreedBits(bm, fs, i, 265 + 129 * (oi + 1))
  {
    hide Own, FreedBits, Rank;
    OwnBasics(v, fs);
    forall p: Path | ValidPath(p) && 265 + 129 * oi <= Rank(p) < 265 + 129 * (oi + 1)
      ensures PtrAt(v, fs.ino[i], p) == 0
    {
      InnerRank(p, oi);
    }
    FreeSkip(v, fs, i, bm, 265 + 129 * oi, 265 + 129 * (oi + 1));
  }

  lemma SkipOne(v: Disk, fs: Fs, i: nat, bm: Block, p: Path)
    requires Own(v, fs) && Live(fs.ino, i) && ValidPath(p) && FreedBits(bm, fs, i, Rank(p))
    requires PtrAt(v, fs.ino[i], p) == 0
    ensures FreedBits(bm, fs, i, Rank(p) + 1)
  {
    forall q: Path | ValidPath(q) && Rank(p) <= Rank(q) < Rank(p) + 1 ensures PtrAt(v, fs.ino[i], q) == 0 {
      RankInjective(p, q);
    }
    FreeSkip(v, fs, i, bm, Rank(p), Rank(p) + 1);
  }

  lemma OthersThenSame(v: Disk, ino: seq<Dinode>, w: Disk, jno: seq<Dinode>, x: Disk, i: nat)
    requires InosOk(ino) && InosOk(jno) && SameOthers(v, ino, w, jno, i) && SameFiles(w, jno, x, jno)
    ensures SameOthers(v, ino, x, jno, i)
  {
    hide FileByte;
  }

  lemma OthersThenOthers(v: Disk, ino: seq<Dinode>, w: Disk, jno: seq<Dinode>, x: Disk, kno: seq<Dinode>, i: nat)
    requires InosOk(ino) && InosOk(jno) && InosOk(kno) && SameOthers(v, ino, w, jno, i) && SameOthers(w, jno, x, kno, i)
    ensures SameOthers(v, ino, x, kno, i)
  {
    hide FileByte;
  }

  lemma OthersTwice(owner: map<nat, Slot>, i: nat)
    ensures Others(Others(owner, i), i) == Others(owner, i)
  {
  }
}
