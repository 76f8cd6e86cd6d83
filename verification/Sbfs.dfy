/** The sbfs file system on top of the log: block allocation, inodes, reading, writing, truncating. */
module Sbfs {
  import opened Bytes
  import opened LogSpec
  import opened BufferCache
  import opened WriteAheadLog
  import opened SbfsSpec
  import opened SbfsOwn
  import opened SbfsTrunc
  import opened SbfsFoot
  import opened SbfsBytes
  import opened SbfsHome
  import opened SbfsCrash

  const EFBIG := 27
  const ENOSPC := 28
  const EINVAL := 22

  ghost predicate InMemory(icache: map<nat, Dinode>, ino: seq<Dinode>) {
    forall i :: i in icache ==> i < |ino| && icache[i] == ino[i]
  }

  /** The loop of balloc: the first clear bit, or n. */
  method FirstClear(bm: Block, n: nat) returns (k: nat)
    requires n <= 8 * BSIZE
    ensures k <= n && (forall j :: 0 <= j < k ==> BitAt(bm, j)) && (k < n ==> !BitAt(bm, k))
  {
    k := 0;
    while k < n && BitAt(bm, k)
      invariant k <= n && forall j :: 0 <= j < k ==> BitAt(bm, j)
    {
      k := k + 1;
    }
  }

  lemma InosAt(ino: seq<Dinode>, i: nat)
    requires InosOk(ino) && i < |ino|
    ensures DinodeOk(ino[i])
  {
  }

  /** Changing the in-memory copy of the inode being written. */
  lemma DirtyOk(view: Disk, sb: Super, table: seq<Dinode>, ino: seq<Dinode>, icache: map<nat, Dinode>, i: nat,
                d: Dinode)
    requires Synced(view, sb, table, ino, i) && InMemory(icache, ino) && i < |ino|
    ensures Synced(view, sb, table, ino[i := d], i) && InMemory(icache[i := d], ino[i := d])
  {
  }

  lemma PinAt(a: seq<Buf>, b: seq<Buf>, j: nat)
    requires PinsKept(a, b) && j < |a| && a[j].refcnt > 0
    ensures |b| == |a| && SamePin(a[j], b[j])
  {
  }

  /** v0 to v1: block nb was allocated; v1 to v2: it was entered at path p, into pointer block pb. */
  lemma EntryLinked(v0: Disk, v1: Disk, v2: Disk, mid: Fs, fs: Fs, i: nat, p: Path, pb: nat, nb: nat)
    requires Own(v1, mid) && mid.loose == {nb} && Live(mid.ino, i) && ValidPath(p) && !p.Top? && nb < U32MAX
    requires SameFiles(v0, mid.ino, v1, mid.ino) && SamePtrs(v0, v1, mid.ino)
    requires PtrAt(v0, mid.ino[i], p) == 0 && pb == PtrAt(v0, mid.ino[i], Parent(p)) != 0 && pb < |v1|
    requires v2 == v1[pb := PutU32(v1[pb], 4 * p.io, nb)]
    requires fs == Fs(mid.sb, mid.ino, mid.owner[nb := Slot(i, p)], {})
    ensures Own(v2, fs) && Grown(v0, fs.ino, v2, fs.ino, i) && PtrAt(v2, fs.ino[i], p) == nb
    ensures pb in fs.owner && fs.owner[pb] == Slot(i, Parent(p))
  {
    hide PtrAt, PutU32;
    var s := Slot(i, p);
    assert fs == Fs(mid.sb, mid.ino, mid.owner[nb := s], mid.loose - {nb});
    LinkEntry(v1, mid, s, nb, pb, v2, fs);
    GrownAlloc(v0, mid.ino, v1, i);
    GrownThen(v0, mid.ino, v1, mid.ino, v2, fs.ino, i);
    EntryPtr(v1, mid, s, nb, pb, v2, i, p);
    OwnerOf(v1, mid, i, Parent(p));
  }

  lemma SyncedSize(view: Disk, sb: Super, table: seq<Dinode>, ino: seq<Dinode>, dirty: int)
    requires Synced(view, sb, table, ino, dirty)
    ensures |ino| == |table| == sb.ninodes && sb.inodestart + (sb.ninodes + 7) / 8 <= |view|
  {
  }

  /** The inode-table write brings the table up to date and touches no file. */
  lemma TableWritten(v: Disk, fs: Fs, table: seq<Dinode>, i: nat, v': Disk)
    requires Own(v, fs) && Synced(v, fs.sb, table, fs.ino, i) && i < |fs.ino| && DinodeOk(fs.ino[i])
    requires fs.sb.inodestart + (fs.sb.ninodes + 7) / 8 <= fs.sb.bmapstart && 0 < fs.sb.inodestart
    requires var b := fs.sb.inodestart + i / 8; v' == v[b := PutDinode(v[b], i % 8, fs.ino[i])]
    ensures Own(v', fs) && Synced(v', fs.sb, fs.ino, fs.ino, -1)
    ensures SameFiles(v, fs.ino, v', fs.ino) && SamePtrs(v, v', fs.ino)
  {
    hide PutDinode, GetDinode;
    var b := fs.sb.inodestart + i / 8;
    OtherWrite(v, fs, b, v'[b]);
    SamePtrsOwn(v, v', fs, fs);
    forall j: nat | j < |fs.ino| ensures OnDisk(v', fs.sb, j) == fs.ino[j] {
      if j / 8 == i / 8 { DinodeRoundTrip(v[b], i % 8, fs.ino[i], j % 8); }
    }
  }

  /** The bytes of an n-byte write at off that a file can hold. */
  function Fitting(off: nat, n: nat): nat {
    if off > MAX_FILE_SIZE then 0 else if off + n > MAX_FILE_SIZE then MAX_FILE_SIZE - off else n
  }

  /** The inode after a write that ended at `end`; now is the 64-bit time of a write that moved any byte. */
  function Stamp(d: Dinode, addrs: seq<nat>, end: nat, touched: bool, now: nat): Dinode
    requires |d.attrs| == 4
  {
    d.(addrs := addrs, size := if end > d.size then end else d.size,
       attrs := if touched then [now % U32MAX, now / U32MAX] + d.attrs[2..] else d.attrs)
  }

  lemma StampOk(d: Dinode, d0: Dinode, end: nat, touched: bool, now: nat)
    requires DinodeOk(d) && d == d0.(addrs := d.addrs) && end <= MAX_FILE_SIZE && now < 0x1_0000_0000_0000_0000
    ensures DinodeOk(Stamp(d, d.addrs, end, touched, now))
    ensures Stamp(d, d.addrs, end, touched, now) == Stamp(d0, d.addrs, end, touched, now)
    ensures var e := Stamp(d, d.addrs, end, touched, now); e.addrs == d.addrs && e.typ == d.typ && e.nlink == d.nlink
  {
  }

  lemma WrittenSize(v: Disk, ino: seq<Dinode>, v': Disk, ino': seq<Dinode>, i: nat, off: nat, data: seq<byte>)
    requires FileWritten(v, ino, v', ino', i, off, data)
    ensures off + |data| <= MAX_FILE_SIZE
  {
  }

  /** Without its top pointer a file block is a hole. */
  lemma NoEntries(v: Disk, d: Dinode, bn: nat, k: nat)
    requires |d.addrs| == NADDR && NDIR <= bn < MAXBN && NDIR <= k < NADDR && d.addrs[k] == 0
    requires k == if bn >= NDIR + NINDIR * PER then NADDR - 1 else NDIR + (bn - NDIR) / PER
    ensures PtrAt(v, d, LeafPath(bn)) == 0
  {
  }

  lemma NoInner(v: Disk, d: Dinode, oi: nat, io: nat)
    requires |d.addrs| == NADDR && oi < PER && io < PER && PtrAt(v, d, Sub(NADDR - 1, oi)) == 0
    ensures PtrAt(v, d, Sub2(oi, io)) == 0
  {
  }

  /** Entry io of the pointer block at up. */
  function Below(up: Path, io: nat): Path { if up.Top? then Sub(up.k, io) else Sub2(up.io, io) }

  lemma BelowPtr(v: Disk, d: Dinode, up: Path, pb: nat, io: nat, data: Block)
    requires |d.addrs| == NADDR && ValidPath(up) && !IsLeaf(up) && io < PER && up != Top(NADDR - 1)
    requires pb == PtrAt(v, d, up) && 0 < pb < |v| && data == v[pb]
    ensures ValidPath(Below(up, io)) && U32(data, 4 * io) == PtrAt(v, d, Below(up, io))
  {
  }

  lemma OuterEntry(v: Disk, d: Dinode, pb: nat, oi: nat, data: Block)
    requires |d.addrs| == NADDR && oi < PER && pb == d.addrs[NADDR - 1] && 0 < pb < |v| && data == v[pb]
    ensures U32(data, 4 * oi) == PtrAt(v, d, Sub(NADDR - 1, oi))
  {
  }

  lemma DirtyTable(view: Disk, sb: Super, table: seq<Dinode>, ino: seq<Dinode>, i: nat, d: Dinode)
    requires Synced(view, sb, table, ino, -1) && i < |ino|
    ensures Synced(view, sb, table, ino[i := d], i)
  {
  }

  /** How much of page pgidx lies below the file's size. */
  function PageBytes(size: nat, pgidx: nat): nat {
    if size <= 4096 * pgidx then 0 else if size < 4096 * (pgidx + 1) then size - 4096 * pgidx else 4096
  }

  /** A freshly claimed inode: no blocks, no links, the time, and the type's default mode. */
  function NewInode(typ: nat, now: nat): Dinode {
    Dinode(typ, 0, 0, [now % U32MAX, now / U32MAX, DefaultMode(typ), 0], [0, 0, 0, 0, 0, 0, 0, 0, 0, 0])
  }

  /** S_IFREG | 0644, S_IFDIR | 0755, S_IFLNK | 0777. */
  function DefaultMode(typ: nat): nat {
    if typ == 1 then 0x81A4 else if typ == 2 then 0x41ED else if typ == 3 then 0xA1FF else 0
  }

  lemma NewInodeOk(typ: nat, now: nat)
    requires typ < 0x1_0000 && now < 0x1_0000_0000_0000_0000
    ensures DinodeOk(NewInode(typ, now)) && NoBlocks(NewInode(typ, now)) && NewInode(typ, now).typ == typ
  {
  }

  lemma LinkedInodeOk(now: nat)
    requires now < 0x1_0000_0000_0000_0000
    ensures var d := NewInode(1, now).(nlink := 1); DinodeOk(d) && NoBlocks(d) && d.typ == 1
  {
  }

  class FileSystem {
    const log: Log
    const sb: Super
    var icache: map<nat, Dinode>   // the valid in-memory inodes, by inode number
    ghost var fs: Fs
    ghost var table: seq<Dinode>   // what the inode table holds

    /** The disk is a consistent file system; inode `dirty` may be ahead of the inode table (-1: none). */
    ghost predicate Mounted(dirty: int)
      reads this, log, log.bio
    {
      var ok :=
        && log.Valid() && log.bio.g.raw == {} && SuperOk(log.layout, sb) && fs.sb == sb
        && Own(log.bio.g.view, fs) && Synced(log.bio.g.view, sb, table, fs.ino, dirty) && InMemory(icache, fs.ino);
      ok
    }

    /** Inside begin_op/end_op. */
    ghost predicate InTxn(dirty: int)
      reads this, log, log.bio
    {
      var ok := Mounted(dirty) && log.outstanding && log.installed == 0;
      ok
    }

    /** Between operations. */
    ghost predicate Ready()
      reads this, log, log.bio
    {
      var ok := Mounted(-1) && log.Idle() && fs.loose == {};
      ok
    }

    /** Mount: the superblock has been read and the log recovered. */
    constructor (l: Log, s: Super, ghost f: Fs)
      requires l.Idle() && SuperOk(l.layout, s) && f.sb == s && f.loose == {}
      requires Own(l.bio.g.view, f) && Synced(l.bio.g.view, s, f.ino, f.ino, -1)
      ensures Ready() && log == l && sb == s && fs == f
    {
      log, sb, icache, fs, table := l, s, map[], f, f.ino;
    }

    /** balloc: the first free block, marked and zeroed; 0 when every block is in use. */
    method Balloc(ghost dirty: int) returns (nb: nat)
      requires InTxn(dirty) && fs.loose == {} && log.bio.g.held <= 14
      requires |AddBlock(log.blocks, sb.bmapstart)| <= 13
      modifies this`fs, log`blocks, log`slots, log.bio`bufs, log.bio`lru, log.bio`g
      ensures InTxn(dirty) && Calm(old(log.Pinned()), log.Pinned())
      ensures nb == 0 ==>
        && fs == old(fs) && log.bio.g.view == old(log.bio.g.view) && log.blocks == old(log.blocks)
        && forall b: nat :: IsData(sb, b) ==> b in fs.owner
      ensures nb != 0 ==>
        && IsData(sb, nb) && fs == old(fs).(loose := {nb}) && nb !in fs.owner
        && log.blocks == AddBlock(AddBlock(old(log.blocks), sb.bmapstart), nb)
        && SameFiles(old(log.bio.g.view), fs.ino, log.bio.g.view, fs.ino)
        && SamePtrs(old(log.bio.g.view), log.bio.g.view, fs.ino)
        && nb < |old(log.bio.g.view)| == |log.bio.g.view|
        && log.bio.g.view == old(log.bio.g.view)[sb.bmapstart := log.bio.g.view[sb.bmapstart]][nb := ZeroBlock()]
    {
      hide Own, Synced, Log.Valid, PinsKept, SameFiles, SamePtrs, MarkBit, IsZero, ZeroBlock, Keeps, InMemory;
      ghost var v0, before := log.bio.g.view, log.Pinned();
      var bp := log.Read(sb.bmapstart);
      ghost var during := log.Pinned();
      var bm := log.bio.bufs[bp].data;
      var k := FirstClear(bm, sb.nblocks);
      if k == sb.nblocks {
        log.Release(bp);
        ReadBack(before, during, log.Pinned(), bp);
        AllOwned(v0, fs);
        return 0;
      }
      nb := sb.bmapstart + 1 + k;
      Claim(bp, MarkBit(bm, k, true), nb, before);
      fs := fs.(loose := {nb});
      AllocOwn(v0, old(fs), nb, ZeroBlock(), log.bio.g.view, fs);
      SyncedFrame(v0, log.bio.g.view, sb, table, fs.ino, dirty);
    }

    /** balloc's two log_writes: the bitmap held in bp, then the new block. */
    method Claim(bp: nat, bits: Block, nb: nat, ghost before: Pins)
      requires log.Valid() && log.outstanding && log.installed == 0 && log.bio.g.raw == {} && log.bio.g.held <= 15
      requires bp < |log.bio.bufs| == |before.bufs| && log.bio.bufs[bp].valid
      requires log.bio.bufs[bp].refcnt == before.bufs[bp].refcnt + 1
      requires Keeps(before.bufs, log.bio.bufs) && log.bio.bufs == before.bufs[bp := log.bio.bufs[bp]]
      requires log.bio.g.held == before.held + 1 && log.bio.g.trace == before.trace
      requires Loggable(log.layout, log.bio.bufs[bp].blockno) && Loggable(log.layout, nb)
      requires |AddBlock(log.blocks, log.bio.bufs[bp].blockno)| <= 13
      modifies log`blocks, log`slots, log.bio`bufs, log.bio`lru, log.bio`g
      ensures log.Valid() && Calm(before, log.Pinned()) && log.bio.g.raw == {}
      ensures var b := old(log.bio.bufs[bp].blockno);
              && b < |old(log.bio.g.view)| && nb < |old(log.bio.g.view)|
              && log.blocks == AddBlock(AddBlock(old(log.blocks), b), nb)
              && log.bio.g.view == old(log.bio.g.view)[b := bits][nb := ZeroBlock()]
    {
      hide Log.Valid, PinsKept, Keeps, IsZero, ZeroBlock;
      ghost var during := log.Pinned();
      log.Store(bp, bits);
      ghost var middle := log.Pinned();
      ReadBack(before, during, middle, bp);
      log.Overwrite(nb, ZeroBlock());
      CalmThen(before, middle, log.Pinned());
    }

    /** In the middle of writing inode i, within the blocks a write at `reach` may log. */
    ghost predicate Writing(i: nat, base: set<nat>, reach: set<Path>)
      reads this, log, log.bio
    {
      var ok :=
        && InTxn(i) && fs.loose == {} && Live(fs.ino, i) && i in icache
        && Foot(log.blocks, base, fs, i, reach) && |base| + 2 + |reach| <= 13;
      ok
    }

    /** While writing, the log never overflows. */
    lemma Capacity(i: nat, base: set<nat>, reach: set<Path>)
      requires Writing(i, base, reach)
      ensures |log.blocks| <= 13 && |AddBlock(log.blocks, sb.bmapstart)| <= 13
    {
      hide Own, Log.Valid, Synced, InMemory;
      log.Distinct();
      FootBound(log.bio.g.view, fs, log.blocks, base, i, reach);
      AddDistinct(log.blocks, sb.bmapstart);
      FootAdd(log.blocks, base, fs, i, reach, sb.bmapstart);
      FootBound(log.bio.g.view, fs, AddBlock(log.blocks, sb.bmapstart), base, i, reach);
    }

    lemma WritingOwn(i: nat, base: set<nat>, reach: set<Path>)
      requires Writing(i, base, reach)
      ensures Own(log.bio.g.view, fs) && Live(fs.ino, i) && i in icache && icache[i] == fs.ino[i] && DinodeOk(fs.ino[i])
      ensures fs.loose == {} && InTxn(i)
    {
    }

    /** Allocate addrs[k] of inode i if it is missing; 0 when the disk is full. */
    method TopAlloc(i: nat, k: nat, ghost base: set<nat>, ghost reach: set<Path>) returns (b: nat)
      requires Writing(i, base, reach) && log.bio.g.held <= 14 && k < NADDR && Top(k) in reach
      modifies this`icache, this`fs, log`blocks, log`slots, log.bio`bufs, log.bio`lru, log.bio`g
      ensures Writing(i, base, reach) && Calm(old(log.Pinned()), log.Pinned())
      ensures Grown(old(log.bio.g.view), old(fs.ino), log.bio.g.view, fs.ino, i)
      ensures b == fs.ino[i].addrs[k]
      ensures b == 0 ==> forall c: nat :: IsData(sb, c) ==> c in fs.owner
    {
      hide Own, Synced, Log.Valid, PinsKept, SameFiles, SamePtrs, PtrsKept, Foot, Grown, InosOk;
      Capacity(i, base, reach);
      OwnBasics(log.bio.g.view, fs);
      InosAt(fs.ino, i);
      b := icache[i].addrs[k];
      if b == 0 {
        b := Balloc(i);
        if b != 0 {
          ghost var mid := fs;
          DirtyOk(log.bio.g.view, sb, table, fs.ino, icache, i, icache[i].(addrs := icache[i].addrs[k := b]));
          icache := icache[i := icache[i].(addrs := icache[i].addrs[k := b])];
          fs := Fs(sb, fs.ino[i := icache[i]], fs.owner[b := Slot(i, Top(k))], {});
          GrownAlloc(old(log.bio.g.view), mid.ino, log.bio.g.view, i);
          LinkTop(log.bio.g.view, mid, i, k, b, fs);
          GrownThen(old(log.bio.g.view), mid.ino, log.bio.g.view, mid.ino, log.bio.g.view, fs.ino, i);
          FootLink(old(log.blocks), base, old(fs), fs, i, reach, b, Top(k));
        } else {
          GrownSelf(log.bio.g.view, fs.ino, i);
        }
      } else {
        GrownSelf(log.bio.g.view, fs.ino, i);
        CalmSelf(log.Pinned());
      }
    }

    /** Allocate the missing entry at path p of inode i into its pointer block, held in ibp. */
    method FillEntry(i: nat, p: Path, ibp: nat, ghost before: Pins, ghost base: set<nat>,
                     ghost reach: set<Path>) returns (b: nat)
      requires Writing(i, base, reach) && log.bio.g.held <= 14 && ValidPath(p) && !p.Top? && p in reach
      requires Parent(p) in reach
      requires PtrAt(log.bio.g.view, fs.ino[i], Parent(p)) != 0 && PtrAt(log.bio.g.view, fs.ino[i], p) == 0
      requires ibp < |log.bio.bufs| == |before.bufs| && log.bio.bufs[ibp].valid
      requires log.bio.bufs[ibp].refcnt == before.bufs[ibp].refcnt + 1
      requires log.bio.bufs[ibp].blockno == PtrAt(log.bio.g.view, fs.ino[i], Parent(p))
      requires Keeps(before.bufs, log.bio.bufs) && log.bio.bufs == before.bufs[ibp := log.bio.bufs[ibp]]
      requires log.bio.g.held == before.held + 1 && log.bio.g.trace == before.trace
      modifies this`fs, log`blocks, log`slots, log.bio`bufs, log.bio`lru, log.bio`g
      ensures Writing(i, base, reach) && Calm(before, log.Pinned())
      ensures fs.ino == old(fs.ino) && Grown(old(log.bio.g.view), fs.ino, log.bio.g.view, fs.ino, i)
      ensures b == PtrAt(log.bio.g.view, fs.ino[i], p)
      ensures b == 0 ==> forall c: nat :: IsData(sb, c) ==> c in fs.owner
    {
      hide Own, Synced, Log.Valid, PinsKept, SameFiles, SamePtrs, PtrsKept, Foot, Grown, InosOk, Keeps, PtrAt, InMemory;
      hide PutU32;
      Capacity(i, base, reach);
      ghost var v0, during := log.bio.g.view, log.Pinned();
      ghost var pb := log.bio.bufs[ibp].blockno;
      OwnerOf(v0, fs, i, Parent(p));
      b := Balloc(i);
      ghost var worked := log.Pinned();
      PinAt(during.bufs, worked.bufs, ibp);
      if b == 0 {
        log.Release(ibp);
        ReadWorkBack(before, during, worked, log.Pinned(), ibp);
        OwnBasics(log.bio.g.view, fs);
        GrownSelf(log.bio.g.view, fs.ino, i);
      } else {
        ghost var v1, mid, blocks1 := log.bio.g.view, fs, log.blocks;
        log.PinData(ibp);
        log.Store(ibp, PutU32(log.bio.bufs[ibp].data, 4 * p.io, b));
        ReadWorkBack(before, during, worked, log.Pinned(), ibp);
        fs := Fs(sb, fs.ino, fs.owner[b := Slot(i, p)], {});
        EntryLinked(v0, v1, log.bio.g.view, mid, fs, i, p, pb, b);
        SyncedFrame(v1, log.bio.g.view, sb, table, fs.ino, i);
        FootLink(old(log.blocks), base, old(fs), fs, i, reach, b, p);
        FootAdd(blocks1, base, fs, i, reach, pb);
        assert log.blocks == AddBlock(blocks1, pb);
        assert Mounted(i);
      }
    }

    /** The block recorded at path p of inode i, allocated if it is missing; 0 when the disk is full. */
    method EntryAlloc(i: nat, p: Path, pb: nat, ghost base: set<nat>, ghost reach: set<Path>) returns (b: nat)
      requires Writing(i, base, reach) && log.bio.g.held <= 13 && ValidPath(p) && !p.Top? && p in reach
      requires Parent(p) in reach
      requires pb == PtrAt(log.bio.g.view, fs.ino[i], Parent(p)) != 0
      modifies this`fs, log`blocks, log`slots, log.bio`bufs, log.bio`lru, log.bio`g
      ensures Writing(i, base, reach) && Calm(old(log.Pinned()), log.Pinned())
      ensures fs.ino == old(fs.ino) && Grown(old(log.bio.g.view), fs.ino, log.bio.g.view, fs.ino, i)
      ensures b == PtrAt(log.bio.g.view, fs.ino[i], p)
      ensures b == 0 ==> forall c: nat :: IsData(sb, c) ==> c in fs.owner
    {
      hide Own, Synced, Log.Valid, PinsKept, SameFiles, SamePtrs, PtrsKept, Foot, Grown, InosOk, Keeps, InMemory;
      ghost var before := log.Pinned();
      OwnBasics(log.bio.g.view, fs);
      InosAt(fs.ino, i);
      OwnerOf(log.bio.g.view, fs, i, Parent(p));
      log.Distinct();
      var ibp := log.Read(pb);
      b := U32(log.bio.bufs[ibp].data, 4 * p.io);
      assert b == PtrAt(log.bio.g.view, fs.ino[i], p);
      if b == 0 {
        b := FillEntry(i, p, ibp, before, base, reach);
      } else {
        ghost var during := log.Pinned();
        log.Release(ibp);
        ReadBack(before, during, log.Pinned(), ibp);
        OwnBasics(log.bio.g.view, fs);
        GrownSelf(log.bio.g.view, fs.ino, i);
      }
    }

    /** sbfs_writei's search: the data block for file block bn, allocated with its pointer blocks; 0 is ENOSPC. */
    method DataBlock(i: nat, bn: nat, ghost base: set<nat>, ghost reach: set<Path>) returns (b: nat)
      requires Writing(i, base, reach) && log.bio.g.held <= 13
      requires bn < MAXBN && LeafPath(bn) in reach && Above(bn) <= reach
      modifies this`icache, this`fs, log`blocks, log`slots, log.bio`bufs, log.bio`lru, log.bio`g
      ensures Writing(i, base, reach) && Calm(old(log.Pinned()), log.Pinned())
      ensures Grown(old(log.bio.g.view), old(fs.ino), log.bio.g.view, fs.ino, i)
      ensures b == PtrAt(log.bio.g.view, fs.ino[i], LeafPath(bn))
      ensures b == 0 ==> forall c: nat :: IsData(sb, c) ==> c in fs.owner
    {
      hide Own, Synced, Log.Valid, PinsKept, SameFiles, SamePtrs, PtrsKept, Foot, Grown, InosOk, Keeps, InMemory, Entry;
      hide Writing;
      ghost var v0, ino0, pins0 := log.bio.g.view, fs.ino, log.Pinned();
      if bn < NDIR {
        b := TopAlloc(i, bn, base, reach);
        return;
      }
      var double := bn >= NDIR + NINDIR * PER;
      var rel := if double then bn - NDIR - NINDIR * PER else bn - NDIR;
      var k := if double then NADDR - 1 else NDIR + rel / PER;
      b := TopAlloc(i, k, base, reach);
      ghost var v1, ino1, pins1 := log.bio.g.view, fs.ino, log.Pinned();
      if b == 0 {
        WritingOwn(i, base, reach);
        NoEntries(log.bio.g.view, fs.ino[i], bn, k);
        return;
      }
      b := EntryAlloc(i, Sub(k, if double then rel / PER else rel % PER), b, base, reach);
      ghost var v2, pins2 := log.bio.g.view, log.Pinned();
      CalmThen(pins0, pins1, pins2);
      GrownThen(v0, ino0, v1, ino1, v2, fs.ino, i);
      if b == 0 || !double {
        WritingOwn(i, base, reach);
        if double { NoInner(log.bio.g.view, fs.ino[i], rel / PER, rel % PER); }
        return;
      }
      b := EntryAlloc(i, Sub2(rel / PER, rel % PER), b, base, reach);
      CalmThen(pins0, pins2, log.Pinned());
      GrownThen(v0, ino0, v2, fs.ino, log.bio.g.view, fs.ino, i);
    }

    /** sbfs_ilock: load inode i from the inode table unless it is already in memory. */
    method Ilock(i: nat)
      requires Mounted(-1) && log.bio.g.held <= 16 && i < |fs.ino|
      modifies this`icache, log.bio`bufs, log.bio`lru, log.bio`g
      ensures Mounted(-1) && i in icache && icache[i] == fs.ino[i]
      ensures log.bio.g == old(log.bio.g).(at := log.bio.g.at) && Calm(old(log.Pinned()), log.Pinned())
    {
      hide Own, Log.Valid, PinsKept;
      if i in icache {
        CalmSelf(log.Pinned());
      } else {
        var data := log.Fetch(sb.inodestart + i / 8);
        icache := icache[i := GetDinode(data, i % 8)];
      }
    }

    /** The block at entry io of pointer block pb, read through the cache. */
    method ReadEntry(pb: nat, io: nat) returns (b: nat)
      requires Mounted(-1) && log.bio.g.held <= 16 && io < PER && 0 < pb < |log.bio.g.view|
      modifies log.bio`bufs, log.bio`lru, log.bio`g
      ensures Mounted(-1) && log.bio.g == old(log.bio.g).(at := log.bio.g.at) && Calm(old(log.Pinned()), log.Pinned())
      ensures b == Entry(log.bio.g.view, pb, io)
    {
      hide Own, Log.Valid, PinsKept, Synced, InMemory;
      log.Sized();
      var data := log.Fetch(pb);
      b := U32(data, 4 * io);
    }

    /** sbfs_readi's search: the data block of file block bn, 0 at a hole or past the last block a file can have. */
    method Lookup(i: nat, bn: nat) returns (b: nat)
      requires Mounted(-1) && log.bio.g.held <= 16 && Live(fs.ino, i) && i in icache && icache[i] == fs.ino[i]
      modifies log.bio`bufs, log.bio`lru, log.bio`g
      ensures Mounted(-1) && log.bio.g == old(log.bio.g).(at := log.bio.g.at) && Calm(old(log.Pinned()), log.Pinned())
      ensures |fs.ino[i].addrs| == NADDR
      ensures b == if bn < MAXBN then PtrAt(log.bio.g.view, fs.ino[i], LeafPath(bn)) else 0
    {
      hide Own, Log.Valid, PinsKept, Synced, InMemory, InosOk;
      OwnBasics(log.bio.g.view, fs);
      InosAt(fs.ino, i);
      ghost var pins := log.Pinned();
      CalmSelf(pins);
      if bn < NDIR {
        b := icache[i].addrs[bn];
        return;
      }
      var double := bn >= NDIR + NINDIR * PER;
      var rel := if double then bn - NDIR - NINDIR * PER else bn - NDIR;
      if rel / PER >= PER { return 0; }
      var k := if double then NADDR - 1 else NDIR + rel / PER;
      b := icache[i].addrs[k];
      if b == 0 { return; }
      OwnerOf(log.bio.g.view, fs, i, Top(k));
      b := ReadEntry(b, if double then rel / PER else rel % PER);
      if b == 0 || !double { return; }
      OwnerOf(log.bio.g.view, fs, i, Sub(k, rel / PER));
      ghost var pins1 := log.Pinned();
      b := ReadEntry(b, rel % PER);
      CalmThen(pins, pins1, log.Pinned());
    }

    /** One turn of sbfs_readi's loop; done at a hole. */
    method ReadStep(i: nat, off: nat, want: nat, sofar: seq<byte>) returns (done: bool, out: seq<byte>)
      requires Mounted(-1) && log.bio.g.held <= 16 && Live(fs.ino, i) && i in icache && icache[i] == fs.ino[i]
      requires ReadSoFar(log.bio.g.view, fs.ino[i], off, sofar) && |sofar| < want
      modifies log.bio`bufs, log.bio`lru, log.bio`g
      ensures Mounted(-1) && log.bio.g == old(log.bio.g).(at := log.bio.g.at) && Calm(old(log.Pinned()), log.Pinned())
      ensures ReadSoFar(log.bio.g.view, fs.ino[i], off, out) && |out| <= want
      ensures if done then out == sofar
        && (off + |out| < MAX_FILE_SIZE ==> !Backed(log.bio.g.view, fs.ino[i], off + |out|))
              else |out| > |sofar|
    {
      hide Own, Log.Valid, PinsKept, Synced, InMemory, InosOk, LeafPath, PtrAt;
      ghost var pins := log.Pinned();
      var bn, boff := (off + |sofar|) / BSIZE, (off + |sofar|) % BSIZE;
      var b := Lookup(i, bn);
      if b == 0 { return true, sofar; }
      OwnerOf(log.bio.g.view, fs, i, LeafPath(bn));
      OwnBasics(log.bio.g.view, fs);
      ghost var pins1 := log.Pinned();
      log.Sized();
      var data := log.Fetch(b);
      CalmThen(pins, pins1, log.Pinned());
      var chunk := if BSIZE - boff > want - |sofar| then want - |sofar| else BSIZE - boff;
      ReadMore(log.bio.g.view, fs.ino[i], off, sofar, b, chunk);
      return false, sofar + data[boff..boff + chunk];
    }

    /** sbfs_readi */
    method Readi(i: nat, off: nat, n: nat) returns (out: seq<byte>)
      requires Mounted(-1) && log.bio.g.held <= 16 && Live(fs.ino, i)
      modifies this`icache, log.bio`bufs, log.bio`lru, log.bio`g
      ensures Mounted(-1) && log.bio.g == old(log.bio.g).(at := log.bio.g.at) && Calm(old(log.Pinned()), log.Pinned())
      ensures ReadResult(log.bio.g.view, fs.ino[i], off, n, out)
    {
      hide Mounted, PinsKept, Backed, FileByte;
      Clean(i);
      Ilock(i);
      var want := Clamp(icache[i].size, off, n);
      out := [];
      var done := false;
      ghost var g0, pins := log.bio.g, log.Pinned();
      CalmSelf(pins);
      while |out| < want && !done
        invariant Mounted(-1) && i in icache && icache[i] == fs.ino[i] && |out| <= want
        invariant log.bio.g == g0.(at := log.bio.g.at) && Calm(pins, log.Pinned())
        invariant ReadSoFar(log.bio.g.view, fs.ino[i], off, out)
        invariant done && off + |out| < MAX_FILE_SIZE ==> !Backed(log.bio.g.view, fs.ino[i], off + |out|)
        decreases !done, want - |out|
      {
        ghost var p := log.Pinned();
        done, out := ReadStep(i, off, want, out);
        CalmThen(pins, p, log.Pinned());
      }
      CalmThen(old(log.Pinned()), pins, log.Pinned());
    }

    lemma Clean(i: nat)
      requires Mounted(-1) && i < |fs.ino|
      ensures i < |table| && table[i] == fs.ino[i] && DinodeOk(fs.ino[i])
    {
    }

    /** sbfs_iupdate: the in-memory inode goes to its slot of the inode table. */
    method Iupdate(i: nat)
      requires InTxn(i) && log.bio.g.held <= 16 && |log.blocks| < LOG_HDR_MAX && i in icache
      modifies this`table, log`blocks, log`slots, log.bio`bufs, log.bio`lru, log.bio`g
      ensures InTxn(-1) && Calm(old(log.Pinned()), log.Pinned())
      ensures log.blocks == AddBlock(old(log.blocks), sb.inodestart + i / 8)
      ensures SameFiles(old(log.bio.g.view), fs.ino, log.bio.g.view, fs.ino)
      ensures SamePtrs(old(log.bio.g.view), log.bio.g.view, fs.ino)
    {
      hide Own, Synced, Log.Valid, PinsKept, SameFiles, SamePtrs, InosOk, Keeps, PutDinode, DinodeOk;
      OwnBasics(log.bio.g.view, fs);
      SyncedSize(log.bio.g.view, sb, table, fs.ino, i);
      InosAt(fs.ino, i);
      ghost var v0, before := log.bio.g.view, log.Pinned();
      var bp := log.Read(sb.inodestart + i / 8);
      ghost var during := log.Pinned();
      log.Store(bp, PutDinode(log.bio.bufs[bp].data, i % 8, icache[i]));
      ReadBack(before, during, log.Pinned(), bp);
      table := fs.ino;
      TableWritten(v0, fs, old(table), i, log.bio.g.view);
      assert Mounted(-1);
    }

    /** sbfs_writei's copy of a chunk into data block b, the block behind file block bn of inode i. */
    method PutBlock(i: nat, bn: nat, b: nat, at: nat, chunk: seq<byte>, ghost base: set<nat>, ghost reach: set<Path>)
      requires Writing(i, base, reach) && log.bio.g.held <= 14 && bn < MAXBN && LeafPath(bn) in reach
      requires at + |chunk| <= BSIZE
      requires b == PtrAt(log.bio.g.view, fs.ino[i], LeafPath(bn)) != 0
      modifies log`blocks, log`slots, log.bio`bufs, log.bio`lru, log.bio`g
      ensures Writing(i, base, reach) && Calm(old(log.Pinned()), log.Pinned())
      ensures b < |log.bio.g.view| == |old(log.bio.g.view)| && b in fs.owner && fs.owner[b] == Slot(i, LeafPath(bn))
      ensures Patched(old(log.bio.g.view)[b], log.bio.g.view[b], at, chunk)
      ensures BytesSet(old(log.bio.g.view), log.bio.g.view, fs.ino, fs.owner[b], log.bio.g.view[b])
      ensures SamePtrs(old(log.bio.g.view), log.bio.g.view, fs.ino)
    {
      hide Own, Synced, Log.Valid, PinsKept, SamePtrs, Foot, InosOk, Keeps, PtrAt, InMemory, BytesSet, Patched, Patch;
      hide LeafPath;
      ghost var v0, before := log.bio.g.view, log.Pinned();
      Capacity(i, base, reach);
      OwnerOf(v0, fs, i, LeafPath(bn));
      log.Distinct();
      var bp := log.Read(b);
      ghost var during := log.Pinned();
      log.Store(bp, Patch(log.bio.bufs[bp].data, at, chunk));
      ReadBack(before, during, log.Pinned(), bp);
      LeafWrite(v0, fs, b, log.bio.g.view[b], log.bio.g.view);
      SyncedFrame(v0, log.bio.g.view, sb, table, fs.ino, i);
      FootAdd(old(log.blocks), base, fs, i, reach, b);
      assert Mounted(i);
    }

    /** Part of src has been written to inode i. */
    ghost predicate Putting(i: nat, base: set<nat>, reach: set<Path>, v0: Disk, ino0: seq<Dinode>, off: nat,
                            data: seq<byte>)
      reads this, log, log.bio
    {
      var ok :=
        && Writing(i, base, reach) && Live(ino0, i)
        && FileWritten(v0, ino0, log.bio.g.view, fs.ino, i, off, data) && OnlyAddrs(ino0, fs.ino, i);
      ok
    }

    /** One turn of sbfs_writei's loop; full means the allocator found nothing. */
    method WriteStep(i: nat, off: nat, src: seq<byte>, total: nat, n: nat,
                     ghost base: set<nat>, ghost f: nat, ghost c: nat, ghost v0: Disk, ghost ino0: seq<Dinode>)
      returns (full: bool, more: nat)
      requires total < n <= |src| && off + n <= MAX_FILE_SIZE && log.bio.g.held <= 13
      requires f == off / BSIZE && f + c == (off + n - 1) / BSIZE + 1 && c <= PER
      requires Putting(i, base, Reach(f, c), v0, ino0, off, src[..total])
      modifies this`icache, this`fs, log`blocks, log`slots, log.bio`bufs, log.bio`lru, log.bio`g
      ensures more <= n && Putting(i, base, Reach(f, c), v0, ino0, off, src[..more])
      ensures Calm(old(log.Pinned()), log.Pinned())
      ensures if full then more == total && forall c: nat :: IsData(sb, c) ==> c in fs.owner else more > total
      ensures full ==> i < |ino0| && InHole(v0, ino0[i], off + total)
    {
      hide Writing, FileWritten, Reach, Grown, Above, LeafPath, PinsKept, BytesSet, Patched, SamePtrs, PtrAt, Own;
      hide InosOk, Mounted, InTxn, DinodeOk, OnlyAddrs;
      var at := off + total;
      var bn, boff := at / BSIZE, at % BSIZE;
      ReachInside(f, c, bn);
      ghost var w, jno, pins := log.bio.g.view, fs.ino, log.Pinned();
      var b := DataBlock(i, bn, base, Reach(f, c));
      ghost var x, pins1 := log.bio.g.view, log.Pinned();
      WrittenThenGrown(v0, ino0, w, jno, x, fs.ino, i, off, src[..total]);
      WritingOwn(i, base, Reach(f, c));
      if b == 0 {
        HoleBefore(v0, ino0, x, fs.ino, i, off, src[..total], at);
        return true, total;
      }
      var chunk := if BSIZE - boff > n - total then n - total else BSIZE - boff;
      PutBlock(i, bn, b, boff, src[total..total + chunk], base, Reach(f, c));
      CalmThen(pins, pins1, log.Pinned());
      ChunkWritten(v0, ino0, x, fs, log.bio.g.view, i, off, src[..total], src[total..total + chunk], bn, b,
                   log.bio.g.view[b]);
      assert src[..total] + src[total..total + chunk] == src[..total + chunk];
      return false, total + chunk;
    }

    lemma Begun(i: nat, off: nat, n: nat)
      requires InTxn(-1) && fs.loose == {} && Live(fs.ino, i) && i in icache && off + n <= MAX_FILE_SIZE
      requires |log.blocks| + Span(off, n) + 5 <= 13
      ensures Putting(i, ToSet(log.blocks), WriteReach(off, n), log.bio.g.view, fs.ino, off, [])
      ensures |ToSet(log.blocks)| <= |log.blocks| && |WriteReach(off, n)| <= Span(off, n) + 3
    {
      hide Own, Log.Valid, FileWritten, InMemory, WriteReach;
      OwnBasics(log.bio.g.view, fs);
      NothingWritten(log.bio.g.view, fs.ino, i, off);
      ToSetSize(log.blocks);
      WriteReachSize(off, n);
      assert Mounted(i);
      assert OnlyAddrs(fs.ino, fs.ino, i);
    }

    /** Assign fields of the in-memory inode other than its type and block pointers. */
    method SetMeta(i: nat, d: Dinode)
      requires InTxn(i) && i in icache && DinodeOk(d) && d.addrs == icache[i].addrs && d.typ == icache[i].typ
      modifies this`icache, this`fs
      ensures InTxn(i) && icache == old(icache)[i := d] && i < |old(fs.ino)|
      ensures fs == old(fs).(ino := old(fs.ino)[i := d])
      ensures InosOk(old(fs.ino)) && InosOk(fs.ino)
      ensures SameFiles(log.bio.g.view, old(fs.ino), log.bio.g.view, fs.ino)
      ensures PtrsKept(log.bio.g.view, old(fs.ino), log.bio.g.view, fs.ino)
    {
      hide Own, InosOk, DinodeOk, Log.Valid, Synced, SameFiles, PtrsKept;
      ghost var mid := fs.(ino := fs.ino[i := d]);
      MetaOwn(log.bio.g.view, fs, i, d, mid);
      OwnBasics(log.bio.g.view, fs);
      OwnBasics(log.bio.g.view, mid);
      DirtyOk(log.bio.g.view, sb, table, fs.ino, icache, i, d);
      icache := icache[i := d];
      fs := mid;
    }

    /** The end of sbfs_writei: the size grows if needed, a write stamps the time, a changed inode goes to the table. */
    method Finish(i: nat, off: nat, total: nat, now: nat, d0: Dinode, ghost data: seq<byte>,
                  ghost base: set<nat>, ghost reach: set<Path>, ghost v0: Disk, ghost ino0: seq<Dinode>)
      requires Putting(i, base, reach, v0, ino0, off, data) && log.bio.g.held <= 13
      requires total == |data| && i < |table| && d0 == ino0[i] == table[i] && now < 0x1_0000_0000_0000_0000
      requires off <= MAX_FILE_SIZE
      modifies this`icache, this`fs, this`table, log`blocks, log`slots, log.bio`bufs, log.bio`lru, log.bio`g
      ensures InTxn(-1) && Calm(old(log.Pinned()), log.Pinned()) && fs.loose == {} && fs.owner == old(fs.owner)
      ensures FileWritten(v0, ino0, log.bio.g.view, fs.ino, i, off, data) && |log.blocks| <= |base| + 2 + |reach|
      ensures fs.ino[i] == Stamp(d0, fs.ino[i].addrs, off + total, total > 0, now)
    {
      hide Writing, InTxn, FileWritten, PinsKept, SamePtrs, SameFiles, PtrAt, Own, InosOk, DinodeOk, InMemory, Synced;
      hide PtrsKept, Foot, AddBlock, Stamp;
      WritingOwn(i, base, reach);
      FootWith(i, base, reach);
      WrittenSize(v0, ino0, log.bio.g.view, fs.ino, i, off, data);
      var d := Stamp(icache[i], icache[i].addrs, off + total, total > 0, now);
      StampOk(icache[i], d0, off + total, total > 0, now);
      if total > 0 || d != d0 {
        ghost var v1, ino1 := log.bio.g.view, fs.ino;
        SetMeta(i, d);
        ghost var ino2 := fs.ino;
        WrittenThenSame(v0, ino0, v1, ino1, v1, ino2, i, off, data);
        Iupdate(i);
        SamePtrsKept(v1, log.bio.g.view, ino2);
        WrittenThenSame(v0, ino0, v1, ino2, log.bio.g.view, ino2, i, off, data);
      } else {
        CalmSelf(log.Pinned());
        SameAsTable(i);
      }
    }

    lemma SameAsTable(i: nat)
      requires InTxn(i) && i < |table| && i < |fs.ino| && fs.ino[i] == table[i]
      ensures InTxn(-1)
    {
      hide Own, Log.Valid, InMemory, OnDisk;
      assert Mounted(-1);
    }

    /** Room for the inode's own block. */
    lemma FootWith(i: nat, base: set<nat>, reach: set<Path>)
      requires Writing(i, base, reach)
      ensures |AddBlock(log.blocks, sb.inodestart + i / 8)| <= |base| + 2 + |reach|
      ensures |log.blocks| <= |base| + 2 + |reach| <= 13
    {
      hide Own, Log.Valid, Synced, InMemory;
      log.Distinct();
      FootBound(log.bio.g.view, fs, log.blocks, base, i, reach);
      AddDistinct(log.blocks, sb.inodestart + i / 8);
      FootAdd(log.blocks, base, fs, i, reach, sb.inodestart + i / 8);
      FootBound(log.bio.g.view, fs, AddBlock(log.blocks, sb.inodestart + i / 8), base, i, reach);
    }

    /**
     sbfs_writei: r bytes of src (n after clamping to the largest file) are in file i from off on, fewer than
     asked only when every data block is in use. ghost total is r, or 0 when r is an error.
     */
    method Writei(i: nat, off: nat, src: seq<byte>, now: nat) returns (r: int, ghost total: nat)
      requires InTxn(-1) && fs.loose == {} && Live(fs.ino, i) && log.bio.g.held <= 13 && now < 0x1_0000_0000_0000_0000
      requires |log.blocks| + Span(off, Fitting(off, |src|)) + 5 <= 13
      modifies this`icache, this`fs, this`table, log`blocks, log`slots, log.bio`bufs, log.bio`lru, log.bio`g
      ensures InTxn(-1) && fs.loose == {} && Calm(old(log.Pinned()), log.Pinned())
      ensures off > MAX_FILE_SIZE ==> r == -EFBIG
      ensures off > MAX_FILE_SIZE || src == [] ==>
        total == 0 && fs == old(fs) && log.bio.g == old(log.bio.g).(at := log.bio.g.at) && log.blocks == old(log.blocks)
      ensures src == [] && off <= MAX_FILE_SIZE ==> r == 0
      ensures off <= MAX_FILE_SIZE && src != [] ==>
        && total <= Fitting(off, |src|)
        && FileWritten(old(log.bio.g.view), old(fs.ino), log.bio.g.view, fs.ino, i, off, src[..total])
        && fs.ino[i] == Stamp(old(fs.ino[i]), fs.ino[i].addrs, off + total, total > 0, now)
        && (total < Fitting(off, |src|) ==>
              && InHole(old(log.bio.g.view), old(fs.ino[i]), off + total)
              && forall c: nat :: IsData(sb, c) ==> c in fs.owner)
        && r == (if total == 0 < Fitting(off, |src|) then -ENOSPC else total)
        && |log.blocks| <= |old(log.blocks)| + Span(off, Fitting(off, |src|)) + 5
    {
      hide FileWritten, PinsKept, Stamp, Putting, Mounted, Reach;
      total := 0;
      Clean(i);
      Ilock(i);
      if off > MAX_FILE_SIZE { return -EFBIG, 0; }
      if src == [] { return 0, 0; }
      var n := Fitting(off, |src|);
      ghost var base, reach, v0, ino0, pins0 :=
        ToSet(log.blocks), WriteReach(off, n), log.bio.g.view, fs.ino, log.Pinned();
      ghost var g1 := log.bio.g;
      var d0 := icache[i];
      Begun(i, off, n);
      var done: nat, full := 0, false;
      assert src[..0] == [];
      CalmSelf(pins0);
      while done < n && !full
        invariant done <= n && Putting(i, base, reach, v0, ino0, off, src[..done])
        invariant Calm(pins0, log.Pinned()) && table == old(table)
        invariant full ==>
          && done < n && InHole(v0, ino0[i], off + done)
          && forall c: nat :: IsData(sb, c) ==> c in fs.owner
        decreases !full, n - done
      {
        ghost var p := log.Pinned();
        full, done := WriteStep(i, off, src, done, n, base, off / BSIZE, Span(off, n), v0, ino0);
        CalmThen(pins0, p, log.Pinned());
      }
      total := done;
      ghost var p := log.Pinned();
      Finish(i, off, done, now, d0, src[..done], base, reach, v0, ino0);
      CalmThen(pins0, p, log.Pinned());
      CalmThen(old(log.Pinned()), pins0, log.Pinned());
      r := if done == 0 && full then -ENOSPC else done;
    }

    // ----- truncation ---------------------------------------------------------------

    /** sbfs_itrunc has freed the blocks of inode i whose rank is below n; v0 is the disk it started from. */
    ghost predicate Truncating(i: nat, v0: Disk, n: nat, logged: seq<nat>)
      reads this`fs, log, log.bio
    {
      var ok :=
        && log.Valid() && log.outstanding && log.installed == 0 && log.bio.g.raw == {}
        && SuperOk(log.layout, sb) && fs.sb == sb && fs.loose == {} && Own(v0, fs) && Live(fs.ino, i)
        && |v0| == |log.bio.g.view| && sb.bmapstart < |v0|
        && log.bio.g.view == v0[sb.bmapstart := log.bio.g.view[sb.bmapstart]]
        && FreedBits(log.bio.g.view[sb.bmapstart], fs, i, n)
        && |logged| <= 13 && (log.blocks == logged || log.blocks == AddBlock(logged, sb.bmapstart));
      ok
    }

    /** bfree */
    method Bfree(b: nat)
      requires log.Valid() && log.outstanding && log.installed == 0 && log.bio.g.raw == {} && log.bio.g.held <= 16
      requires SuperOk(log.layout, sb) && |log.blocks| < LOG_HDR_MAX
      modifies log`blocks, log`slots, log.bio`bufs, log.bio`lru, log.bio`g
      ensures log.Valid() && log.bio.g.raw == {} && Calm(old(log.Pinned()), log.Pinned())
      ensures sb.bmapstart < |old(log.bio.g.view)|
      ensures !IsData(sb, b) ==> log.bio.g == old(log.bio.g) && log.blocks == old(log.blocks)
      ensures IsData(sb, b) ==>
        && log.bio.g.view == old(log.bio.g.view)[sb.bmapstart :=
             MarkBit(old(log.bio.g.view)[sb.bmapstart], b - sb.bmapstart - 1, false)]
        && log.blocks == AddBlock(old(log.blocks), sb.bmapstart)
    {
      hide Log.Valid, PinsKept, MarkBit, Keeps;
      log.Sized();
      if b <= sb.bmapstart || b >= sb.bmapstart + 1 + sb.nblocks {
        CalmSelf(log.Pinned());
        return;
      }
      ghost var before := log.Pinned();
      var bp := log.Read(sb.bmapstart);
      ghost var during := log.Pinned();
      log.Store(bp, MarkBit(log.bio.bufs[bp].data, b - sb.bmapstart - 1, false));
      ReadBack(before, during, log.Pinned(), bp);
    }

    /** Free the block at path p, if there is one. */
    method FreeAt(i: nat, ghost p: Path, b: nat, ghost v0: Disk, ghost logged: seq<nat>)
      requires ValidPath(p) && Truncating(i, v0, Rank(p), logged) && log.bio.g.held <= 16
      requires b == PtrAt(v0, fs.ino[i], p)
      modifies log`blocks, log`slots, log.bio`bufs, log.bio`lru, log.bio`g
      ensures Truncating(i, v0, Rank(p) + 1, logged) && Calm(old(log.Pinned()), log.Pinned())
    {
      hide Own, Log.Valid, PinsKept, FreedBits, MarkBit, PtrAt, Rank;
      if b != 0 {
        OwnerOf(v0, fs, i, p);
        ghost var bm := log.bio.g.view[sb.bmapstart];
        Bfree(b);
        FreeStep(v0, fs, i, bm, p, log.bio.g.view[sb.bmapstart]);
      } else {
        SkipOne(v0, fs, i, log.bio.g.view[sb.bmapstart], p);
        CalmSelf(log.Pinned());
      }
    }

    /** The loop over the entries of a pointer block, held while its data blocks are freed. */
    method FreeEntries(i: nat, ghost up: Path, pb: nat, ghost first: nat, ghost v0: Disk, ghost logged: seq<nat>)
      requires Truncating(i, v0, first, logged) && log.bio.g.held <= 14
      requires ValidPath(up) && !IsLeaf(up) && up != Top(NADDR - 1) && pb == PtrAt(v0, fs.ino[i], up) != 0
      requires forall io: nat :: io < PER ==> ValidPath(Below(up, io)) && Rank(Below(up, io)) == first + io
      modifies log`blocks, log`slots, log.bio`bufs, log.bio`lru, log.bio`g
      ensures Truncating(i, v0, first + PER, logged) && Calm(old(log.Pinned()), log.Pinned())
    {
      hide Own, Log.Valid, PinsKept, FreedBits, Rank, Keeps, Below;
      OwnerOf(v0, fs, i, up);
      OwnBasics(v0, fs);
      ghost var before := log.Pinned();
      log.Sized();
      var ibp := log.Read(pb);
      var data := log.bio.bufs[ibp].data;
      ghost var during := log.Pinned();
      CalmSelf(during);
      var io := 0;
      while io < PER
        invariant io <= PER && Truncating(i, v0, first + io, logged) && Calm(during, log.Pinned())
      {
        BelowPtr(v0, fs.ino[i], up, pb, io, data);
        ghost var pins := log.Pinned();
        FreeAt(i, Below(up, io), U32(data, 4 * io), v0, logged);
        CalmThen(during, pins, log.Pinned());
        io := io + 1;
      }
      ghost var worked := log.Pinned();
      PinAt(during.bufs, worked.bufs, ibp);
      log.Release(ibp);
      ReadWorkBack(before, during, worked, log.Pinned(), ibp);
    }

    /** The double-indirect tree of inode i, inner blocks first, then the outer block. */
    method FreeDouble(i: nat, pb: nat, ghost v0: Disk, ghost logged: seq<nat>)
      requires Truncating(i, v0, 265, logged) && log.bio.g.held <= 13 && |fs.ino[i].addrs| == NADDR
      requires pb == fs.ino[i].addrs[NADDR - 1] != 0
      modifies log`blocks, log`slots, log.bio`bufs, log.bio`lru, log.bio`g
      ensures Truncating(i, v0, 16778, logged) && Calm(old(log.Pinned()), log.Pinned())
    {
      hide Own, Log.Valid, PinsKept, FreedBits, Keeps, Entry, U32;
      OwnerOf(v0, fs, i, Top(NADDR - 1));
      OwnBasics(v0, fs);
      log.Sized();
      ghost var before := log.Pinned();
      var obp := log.Read(pb);
      var data := log.bio.bufs[obp].data;
      ghost var during := log.Pinned();
      CalmSelf(during);
      var oi := 0;
      while oi < PER
        invariant oi <= PER && Truncating(i, v0, 265 + 129 * oi, logged) && Calm(during, log.Pinned())
      {
        OuterEntry(v0, fs.ino[i], pb, oi, data);
        ghost var pins := log.Pinned();
        FreeInner(i, oi, U32(data, 4 * oi), v0, logged);
        CalmThen(during, pins, log.Pinned());
        oi := oi + 1;
      }
      ghost var worked := log.Pinned();
      PinAt(during.bufs, worked.bufs, obp);
      log.Release(obp);
      ghost var released := log.Pinned();
      ReadWorkBack(before, during, worked, released, obp);
      FreeAt(i, Top(NADDR - 1), pb, v0, logged);
      CalmThen(before, released, log.Pinned());
    }

    /** Inner block oi of the double-indirect tree, with its data blocks. */
    method FreeInner(i: nat, oi: nat, b: nat, ghost v0: Disk, ghost logged: seq<nat>)
      requires oi < PER && Truncating(i, v0, 265 + 129 * oi, logged) && log.bio.g.held <= 14
      requires |fs.ino[i].addrs| == NADDR && b == PtrAt(v0, fs.ino[i], Sub(NADDR - 1, oi))
      modifies log`blocks, log`slots, log.bio`bufs, log.bio`lru, log.bio`g
      ensures Truncating(i, v0, 265 + 129 * (oi + 1), logged) && Calm(old(log.Pinned()), log.Pinned())
    {
      hide Own, Log.Valid, PinsKept, FreedBits, PtrAt;
      if b != 0 {
        ghost var pins := log.Pinned();
        FreeEntries(i, Sub(NADDR - 1, oi), b, 265 + 129 * oi, v0, logged);
        ghost var pins1 := log.Pinned();
        FreeAt(i, Sub(NADDR - 1, oi), b, v0, logged);
        CalmThen(pins, pins1, log.Pinned());
      } else {
        SkipInner(v0, fs, i, log.bio.g.view[sb.bmapstart], oi);
        CalmSelf(log.Pinned());
      }
    }

    /** addrs[k] of inode i and everything below it. */
    method FreeTop(i: nat, k: nat, b: nat, ghost v0: Disk, ghost logged: seq<nat>)
      requires k < NADDR && Truncating(i, v0, Start(k), logged) && log.bio.g.held <= 13 && |fs.ino[i].addrs| == NADDR
      requires b == fs.ino[i].addrs[k]
      modifies log`blocks, log`slots, log.bio`bufs, log.bio`lru, log.bio`g
      ensures Truncating(i, v0, Start(k + 1), logged) && Calm(old(log.Pinned()), log.Pinned())
    {
      hide Truncating, PinsKept;
      ghost var pins := log.Pinned();
      if b == 0 {
        Skipped(i, k, v0, logged);
        CalmSelf(pins);
      } else if k < NDIR {
        FreeAt(i, Top(k), b, v0, logged);
      } else if k < NADDR - 1 {
        FreeEntries(i, Top(k), b, Start(k), v0, logged);
        ghost var pins1 := log.Pinned();
        FreeAt(i, Top(k), b, v0, logged);
        CalmThen(pins, pins1, log.Pinned());
      } else {
        FreeDouble(i, b, v0, logged);
      }
    }

    lemma Skipped(i: nat, k: nat, v0: Disk, logged: seq<nat>)
      requires k < NADDR && Truncating(i, v0, Start(k), logged) && |fs.ino[i].addrs| == NADDR && fs.ino[i].addrs[k] == 0
      ensures Truncating(i, v0, Start(k + 1), logged)
    {
      hide Own, Log.Valid, FreedBits, PtrAt;
      SkipTop(v0, fs, i, log.bio.g.view[sb.bmapstart], k);
    }

    lemma TruncBegin(i: nat)
      requires InTxn(-1) && fs.loose == {} && Live(fs.ino, i) && |log.blocks| <= 13
      ensures Truncating(i, log.bio.g.view, 0, log.blocks)
    {
      hide Own, Log.Valid, FreedBits, Synced, InMemory, Used, Live;
      NothingFreed(log.bio.g.view, fs, i);
      OwnBasics(log.bio.g.view, fs);
      var v := log.bio.g.view;
      assert v == v[sb.bmapstart := v[sb.bmapstart]];
    }

    /** The in-memory inodes other than i are current. */
    ghost predicate OthersInMemory(i: nat)
      reads this
    {
      forall j :: j in icache && j != i ==> j < |fs.ino| && icache[j] == fs.ino[j]
    }

    /** The end of sbfs_itrunc: size 0, a new time, and the inode goes to the table. */
    method TruncEnd(i: nat, now: nat, ghost v0: Disk, ghost logged: seq<nat>)
      requires Truncating(i, v0, 16778, logged) && log.bio.g.held <= 13 && now < 0x1_0000_0000_0000_0000
      requires Synced(v0, sb, table, fs.ino, -1) && OthersInMemory(i)
      requires DinodeOk(fs.ino[i]) && i in icache && icache[i] == fs.ino[i].(addrs := icache[i].addrs)
      requires NoBlocks(icache[i])
      modifies this`icache, this`fs, this`table, log`blocks, log`slots, log.bio`bufs, log.bio`lru, log.bio`g
      ensures InTxn(-1) && Calm(old(log.Pinned()), log.Pinned()) && fs.loose == {} && i in icache
      ensures i < |fs.ino| == |old(fs.ino)| && NoBlocks(fs.ino[i]) && fs.owner == Others(old(fs.owner), i)
      ensures fs.ino == old(fs.ino)[i := old(fs.ino[i]).(addrs := fs.ino[i].addrs, size := 0, attrs := fs.ino[i].attrs)]
      ensures InosOk(old(fs.ino)) && InosOk(fs.ino) && SameOthers(v0, old(fs.ino), log.bio.g.view, fs.ino, i)
      ensures |log.blocks| <= |logged| + 2
    {
      hide Own, Log.Valid, FreedBits, PinsKept, Synced, SameOthers, SameFiles, SamePtrs, InosOk, Others;
      var d := icache[i].(size := 0, attrs := [now % U32MAX, now / U32MAX] + icache[i].attrs[2..]);
      ghost var ino0, v1 := fs.ino, log.bio.g.view;
      OwnBasics(v0, fs);
      SyncedFrame(v0, v1, sb, table, fs.ino, -1);
      DirtyTable(v1, sb, table, fs.ino, i, d);
      icache := icache[i := d];
      fs := Fs(sb, fs.ino[i := d], Others(fs.owner, i), {});
      EmptiedOwn(v0, old(fs), i, v1[sb.bmapstart], d, v1, fs);
      OwnBasics(v1, fs);
      assert Mounted(i);
      Iupdate(i);
      OthersThenSame(v0, ino0, v1, fs.ino, log.bio.g.view, i);
    }

    /** sbfs_itrunc: inode i ends empty, its blocks are free, and no other file changes. */
    method Itrunc(i: nat, now: nat)
      requires InTxn(-1) && fs.loose == {} && Live(fs.ino, i) && i in icache && log.bio.g.held <= 13
      requires |log.blocks| <= 12 && now < 0x1_0000_0000_0000_0000
      modifies this`icache, this`fs, this`table, log`blocks, log`slots, log.bio`bufs, log.bio`lru, log.bio`g
      ensures InTxn(-1) && Calm(old(log.Pinned()), log.Pinned()) && fs.loose == {} && i in icache
      ensures i < |fs.ino| == |old(fs.ino)| && NoBlocks(fs.ino[i]) && fs.owner == Others(old(fs.owner), i)
      ensures fs.ino == old(fs.ino)[i := old(fs.ino[i]).(addrs := fs.ino[i].addrs, size := 0, attrs := fs.ino[i].attrs)]
      ensures InosOk(old(fs.ino)) && InosOk(fs.ino)
      ensures SameOthers(old(log.bio.g.view), old(fs.ino), log.bio.g.view, fs.ino, i)
      ensures |log.blocks| <= |old(log.blocks)| + 2
    {
      hide Truncating, PinsKept, SameOthers, Others, InosOk, Synced, Own, Log.Valid;
      ghost var v0, logged, d, pins := log.bio.g.view, log.blocks, fs.ino[i], log.Pinned();
      TruncBegin(i);
      Clean(i);
      CalmSelf(pins);
      var k := 0;
      while k < NADDR
        invariant k <= NADDR && Truncating(i, v0, Start(k), logged) && Calm(pins, log.Pinned())
        invariant i in icache && icache[i] == d.(addrs := icache[i].addrs) && |icache[i].addrs| == NADDR
        invariant forall j :: 0 <= j < NADDR ==> icache[i].addrs[j] == if j < k then 0 else d.addrs[j]
        invariant OthersInMemory(i) && table == old(table) && fs == old(fs)
      {
        ghost var p := log.Pinned();
        FreeTop(i, k, icache[i].addrs[k], v0, logged);
        CalmThen(pins, p, log.Pinned());
        icache := icache[i := icache[i].(addrs := icache[i].addrs[k := 0])];
        k := k + 1;
      }
      ghost var p := log.Pinned();
      TruncEnd(i, now, v0, logged);
      CalmThen(pins, p, log.Pinned());
    }

    // ----- operations -------------------------------------------------------------------

    /** begin_op */
    method Begin()
      requires Ready()
      modifies log
      ensures InTxn(-1) && fs.loose == {} && log.blocks == [] && log.bio.g.held == 0
      ensures HeaderN(log.bio.disk[log.layout.start]) == 0
    {
      hide Own, Synced, InMemory;
      log.BeginOp();
      assert Mounted(-1);
    }

    /** end_op: everything the transaction wrote is on the disk, and no file changes by committing. */
    method Commit(ghost t: Txn)
      requires InTxn(-1) && fs.loose == {} && log.bio.g.held == 0 && HeaderN(log.bio.disk[log.layout.start]) == 0
      requires log.Valid() && t == log.Pending()
      modifies log, log.bio
      ensures Ready() && log.blocks == [] && log.bio.g.view == log.bio.disk
      ensures CommittedBy(log.layout, old(log.bio.disk), old(log.bio.g.trace), log.bio.disk, log.bio.g.trace, t)
      ensures InosOk(fs.ino) && SameFiles(old(log.bio.g.view), fs.ino, log.bio.g.view, fs.ino)
      ensures PtrsKept(old(log.bio.g.view), fs.ino, log.bio.g.view, fs.ino)
    {
      hide Own, Synced, InMemory, SameFiles, SamePtrs, PtrsKept, InosOk, LogOk, SlotsOk, Bio.Valid;
      ghost var v := log.bio.g.view;
      OwnBasics(v, fs);
      log.EndOp();
      HomeOwn(log.layout, v, log.bio.g.view, fs);
      SyncedFrame(v, log.bio.g.view, sb, table, fs.ino, -1);
      SamePtrsKept(v, log.bio.g.view, fs.ino);
      assert Mounted(-1);
    }

    /** Between operations the disk itself holds the file system. */
    lemma ReadyConsistent()
      requires Ready()
      ensures Consistent(log.layout, log.bio.disk, fs) && log.bio.disk == log.bio.g.view
      ensures DiskOk(log.layout, log.bio.disk) && HeaderN(log.bio.disk[log.layout.start]) == 0
    {
      hide Own, InMemory;
      assert table == fs.ino;
      log.IdleDisk();
    }

    /** The transaction an operation committed survives crashes. */
    lemma OpSurvives(d: Disk, fs0: Fs, tr: seq<Write>, t: Txn)
      requires Ready() && Consistent(log.layout, d, fs0)
      requires CommittedBy(log.layout, d, tr, log.bio.disk, log.bio.g.trace, t) && HeaderN(d[log.layout.start]) == 0
      ensures Survives(log.layout, d, fs0, t, log.bio.disk, fs)
    {
      hide Mounted, Consistent, CommittedBy, Survives;
      ReadyConsistent();
      CommitSurvives(log.layout, d, fs0, tr, t, log.bio.disk, fs, log.bio.g.trace);
    }

    /** One transaction around sbfs_writei: a chunk of sbfs_op_write, or a page of sbfs_writepage_locked. */
    method WriteTxn(i: nat, off: nat, src: seq<byte>, now: nat) returns (r: int, ghost total: nat, ghost t: Txn)
      requires Ready() && Live(fs.ino, i) && now < 0x1_0000_0000_0000_0000
      requires |src| <= 6 * BSIZE || (|src| <= 8 * BSIZE && off % BSIZE == 0)
      modifies this, log, log.bio
      ensures Ready() && Live(fs.ino, i) && InosOk(old(fs.ino)) && InosOk(fs.ino)
      ensures CommittedBy(log.layout, old(log.bio.disk), old(log.bio.g.trace), log.bio.disk, log.bio.g.trace, t)
      ensures |t.blocks| <= 13
      ensures Survives(log.layout, old(log.bio.disk), old(fs), t, log.bio.disk, fs) && log.bio.disk == log.bio.g.view
      ensures off > MAX_FILE_SIZE ==> r == -EFBIG
      ensures off > MAX_FILE_SIZE || src == [] ==>
        total == 0 && fs == old(fs) && SameFiles(old(log.bio.g.view), fs.ino, log.bio.g.view, fs.ino)
      ensures src == [] && off <= MAX_FILE_SIZE ==> r == 0
      ensures off <= MAX_FILE_SIZE && src != [] ==>
        && total <= Fitting(off, |src|)
        && FileWritten(old(log.bio.g.view), old(fs.ino), log.bio.g.view, fs.ino, i, off, src[..total])
        && fs.ino[i] == Stamp(old(fs.ino[i]), fs.ino[i].addrs, off + total, total > 0, now)
        && (total < Fitting(off, |src|) ==>
              && InHole(old(log.bio.g.view), old(fs.ino[i]), off + total)
              && forall c: nat :: IsData(sb, c) ==> c in fs.owner)
        && r == (if total == 0 < Fitting(off, |src|) then -ENOSPC else total)
    {
      hide Mounted, FileWritten, PinsKept, Stamp, CommittedBy, SameFiles, PtrsKept, Log.Valid, InosOk, Span;
      hide Log.Pending, Survives, Consistent;
      SpanBounds(off, Fitting(off, |src|));
      ReadyConsistent();
      ghost var v0, ino0 := log.bio.g.view, fs.ino;
      Begin();
      r, total := Writei(i, off, src, now);
      ghost var v1 := log.bio.g.view;
      t := Gather();
      assert log.bio.disk == old(log.bio.disk);
      Commit(t);
      OpSurvives(old(log.bio.disk), old(fs), old(log.bio.g.trace), t);
      if off <= MAX_FILE_SIZE && src != [] {
        WrittenLive(v0, ino0, v1, fs.ino, i, off, src[..total]);
        WrittenThenSame(v0, ino0, v1, fs.ino, log.bio.g.view, fs.ino, i, off, src[..total]);
      }
    }

    ghost method Gather() returns (t: Txn)
      requires InTxn(-1)
      ensures log.Valid() && t == log.Pending() && t.blocks == log.blocks
    {
      t := log.Pending();
    }

    /** sbfs_op_write's bytes so far, and the size that goes with them. */
    ghost predicate Sofar(i: nat, off: nat, data: seq<byte>, v0: Disk, ino0: seq<Dinode>)
      reads this, log.bio
    {
      && Live(ino0, i) && FileWritten(v0, ino0, log.bio.g.view, fs.ino, i, off, data)
      && fs.ino[i].size == if off + |data| > ino0[i].size then off + |data| else ino0[i].size
    }

    /** sbfs_op_write: six-block chunks, one transaction each, until one comes up short. */
    method OpWrite(i: nat, off: nat, buf: seq<byte>, now: nat) returns (r: int, ghost total: nat, ghost pts: seq<Point>,
                   ghost ts: seq<Txn>)
      requires Ready() && Live(fs.ino, i) && now < 0x1_0000_0000_0000_0000
      modifies this, log, log.bio
      ensures Ready() && Live(fs.ino, i) && InosOk(old(fs.ino)) && InosOk(fs.ino)
      ensures off <= MAX_FILE_SIZE ==>
        && InChunks(log.layout, pts, ts, i, off, buf)
        && pts[0] == Point(old(log.bio.disk), old(log.bio.g.trace), old(fs), 0)
        && pts[|ts|] == Point(log.bio.disk, log.bio.g.trace, fs, total)
      ensures buf == [] ==> r == 0 && fs == old(fs) && log.bio.g == old(log.bio.g)
      ensures buf != [] && off > MAX_FILE_SIZE ==>
        r == -EFBIG && fs == old(fs) && SameFiles(old(log.bio.g.view), fs.ino, log.bio.g.view, fs.ino)
      ensures buf != [] && off <= MAX_FILE_SIZE ==>
        && total <= Fitting(off, |buf|) && Sofar(i, off, buf[..total], old(log.bio.g.view), old(fs.ino))
        && (total < Fitting(off, |buf|) ==> forall c: nat :: IsData(sb, c) ==> c in fs.owner)
        && r == (if total == 0 < Fitting(off, |buf|) then -ENOSPC else total)
    {
      hide Ready, FileWritten, Stamp, CommittedBy, SameFiles, InosOk, IsData, Survives, Consistent, InChunks;
      ghost var v0, ino0 := log.bio.g.view, fs.ino;
      total := 0;
      ReadyInos();
      ReadyConsistent();
      pts, ts := [Point(log.bio.disk, log.bio.g.trace, fs, 0)], [];
      if off <= MAX_FILE_SIZE { FirstPoint(log.layout, pts[0], i, off, buf); }
      if buf == [] { return 0, 0, pts, ts; }
      var done, err, stop := 0, 0, false;
      if off <= MAX_FILE_SIZE { NothingWritten(v0, ino0, i, off); }
      ghost var full := false;
      while done < |buf| && !stop
        invariant Ready() && Live(fs.ino, i) && done <= |buf| && InosOk(fs.ino) && (!stop ==> err == 0)
        invariant off > MAX_FILE_SIZE ==>
          && done == 0 && fs == old(fs)
          && (if stop then err == -EFBIG && SameFiles(v0, fs.ino, log.bio.g.view, fs.ino) else log.bio.g.view == v0)
        invariant log.bio.disk == log.bio.g.view && |pts| == |ts| + 1
        invariant pts[0] == Point(old(log.bio.disk), old(log.bio.g.trace), old(fs), 0)
        invariant pts[|ts|] == Point(log.bio.disk, log.bio.g.trace, fs, done)
        invariant off <= MAX_FILE_SIZE ==>
          InChunks(log.layout, pts, ts, i, off, buf) && (!stop ==> done == 6 * BSIZE * |ts| || done == |buf|)
        invariant off <= MAX_FILE_SIZE ==> done <= Fitting(off, |buf|)
        invariant off <= MAX_FILE_SIZE && (done > 0 || stop) ==> Sofar(i, off, buf[..done], v0, ino0)
        invariant off <= MAX_FILE_SIZE && done == 0 && !stop ==> fs == old(fs) && log.bio.g.view == v0
        invariant off <= MAX_FILE_SIZE && stop && done < Fitting(off, |buf|) ==> forall c: nat :: IsData(sb, c) ==>
          c in fs.owner
        invariant off <= MAX_FILE_SIZE && stop && done == 0 ==> err == if Fitting(off, |buf|) == 0 then 0 else -ENOSPC
        decreases !stop, |buf| - done
      {
        var n := if |buf| - done > 6 * BSIZE then 6 * BSIZE else |buf| - done;
        ghost var w, jno := log.bio.g.view, fs.ino;
        var got, count, t := WriteTxn(i, off + done, buf[done..done + n], now);
        if off <= MAX_FILE_SIZE {
          Chained(v0, ino0, w, jno, i, off, buf, done, n, count, now);
          NextPoint(log.layout, pts, ts, i, off, buf, t, Point(log.bio.disk, log.bio.g.trace, fs, done + count));
        }
        pts, ts := pts + [Point(log.bio.disk, log.bio.g.trace, fs, done + count)], ts + [t];
        if got < 0 {
          err, stop := got, true;
        } else if got == 0 {
          stop := true;
        } else {
          done := done + got;
          stop := got < n;
        }
      }
      total := done;
      r := if done > 0 then done else err;
    }

    lemma InIcache(i: nat)
      requires Ready() && i in icache
      ensures i < |fs.ino| && icache[i] == fs.ino[i]
    {
    }

    lemma ReadyInos()
      requires Ready()
      ensures InosOk(fs.ino)
    {
    }

    /** The next chunk's bytes join those already written. */
    lemma Chained(v0: Disk, ino0: seq<Dinode>, w: Disk, jno: seq<Dinode>, i: nat, off: nat, buf: seq<byte>, done: nat,
                  n: nat, count: nat, now: nat)
      requires done + n <= |buf| && count <= n && off <= MAX_FILE_SIZE && Live(ino0, i) && Live(jno, i) && InosOk(jno)
      requires InosOk(ino0)
      requires FileWritten(w, jno, log.bio.g.view, fs.ino, i, off + done, buf[done..done + n][..count])
      requires fs.ino[i] == Stamp(jno[i], fs.ino[i].addrs, off + done + count, count > 0, now)
      requires if done == 0 then w == v0 && jno == ino0
               else
                 && FileWritten(v0, ino0, w, jno, i, off, buf[..done])
                 && jno[i].size == if off + done > ino0[i].size then off + done else ino0[i].size
      ensures Sofar(i, off, buf[..done + count], v0, ino0)
    {
      hide FileWritten;
      assert buf[done..done + n][..count] == buf[done..done + count];
      assert buf[..done] + buf[done..done + count] == buf[..done + count];
      if done == 0 {
        NothingWritten(v0, ino0, i, off);
      }
      assert |buf[..done]| == done;
      if done > 0 {
        WrittenThenWritten(v0, ino0, w, jno, log.bio.g.view, fs.ino, i, off, buf[..done], buf[done..done + count]);
      } else {
        assert buf[..count] == buf[done..done + count];
      }
    }

    /** sbfs_writepage_locked: the part of the page below the file's size goes back, in one transaction. */
    method WritePage(i: nat, pgidx: nat, page: seq<byte>, now: nat) returns (rc: int, ghost total: nat, ghost t: Txn)
      requires Ready() && Live(fs.ino, i) && i in icache && |page| == 4096 && now < 0x1_0000_0000_0000_0000
      modifies this, log, log.bio
      ensures Ready() && Live(fs.ino, i) && InosOk(old(fs.ino)) && InosOk(fs.ino)
      ensures CommittedBy(log.layout, old(log.bio.disk), old(log.bio.g.trace), log.bio.disk, log.bio.g.trace, t)
      ensures |t.blocks| <= 13
      ensures Survives(log.layout, old(log.bio.disk), old(fs), t, log.bio.disk, fs)
      ensures 4096 * pgidx >= old(fs.ino[i].size) ==>
        rc == 0 && total == 0 && fs == old(fs) && PtrsKept(old(log.bio.g.view), fs.ino, log.bio.g.view, fs.ino)
          && SameFiles(old(log.bio.g.view), fs.ino, log.bio.g.view, fs.ino)
      ensures 4096 * pgidx < old(fs.ino[i].size) <= MAX_FILE_SIZE ==>
        && total <= PageBytes(old(fs.ino[i].size), pgidx)
        && FileWritten(old(log.bio.g.view), old(fs.ino), log.bio.g.view, fs.ino, i, 4096 * pgidx, page[..total])
        && fs.ino[i].size == old(fs.ino[i].size)
        && (total < PageBytes(old(fs.ino[i].size), pgidx) ==>
              InHole(old(log.bio.g.view), old(fs.ino[i]), 4096 * pgidx + total) && forall c: nat :: IsData(sb, c) ==>
                c in fs.owner)
        && rc == if total == 0 then -ENOSPC else 0
    {
      hide Mounted, FileWritten, CommittedBy, SameFiles, InosOk, Survives, Consistent;
      ReadyInos();
      ReadyConsistent();
      total := 0;
      var off := 4096 * pgidx;
      var end := off + 4096;
      InIcache(i);
      if end > icache[i].size { end := icache[i].size; }
      if end <= off {
        Begin();
        t := Gather();
        Commit(t);
        OpSurvives(old(log.bio.disk), old(fs), old(log.bio.g.trace), t);
        rc := 0;
        return;
      }
      var n := end - off;
      var got;
      got, total, t := WriteTxn(i, off, page[..n], now);
      if off <= MAX_FILE_SIZE {
        assert page[..n][..total] == page[..total];
      }
      rc := if got < 0 then got else 0;
    }

    /** sbfs_op_truncate: a regular file ends empty; anything else is refused untouched. */
    method OpTruncate(i: nat, now: nat) returns (rc: int, ghost t: Txn)
      requires Ready() && Live(fs.ino, i) && now < 0x1_0000_0000_0000_0000
      modifies this, log, log.bio
      ensures Ready() && InosOk(old(fs.ino)) && InosOk(fs.ino)
      ensures old(fs.ino[i].typ) != 1 ==> rc == -EINVAL && fs == old(fs) && log.bio.g.view == old(log.bio.g.view)
      ensures old(fs.ino[i].typ) == 1 ==>
        && CommittedBy(log.layout, old(log.bio.disk), old(log.bio.g.trace), log.bio.disk, log.bio.g.trace, t)
        && Survives(log.layout, old(log.bio.disk), old(fs), t, log.bio.disk, fs)
        && rc == 0 && |fs.ino| == |old(fs.ino)| && fs.owner == Others(old(fs.owner), i) && NoBlocks(fs.ino[i])
        && fs.ino[i].size == 0
        && SameOthers(old(log.bio.g.view), old(fs.ino), log.bio.g.view, fs.ino, i)
    {
      hide Mounted, SameOthers, Others, InosOk, PinsKept, SameFiles, PtrsKept, CommittedBy, NoBlocks, Survives;
      hide Consistent;
      ReadyInos();
      ReadyConsistent();
      t := Txn([], []);
      ghost var v0, ino0 := log.bio.g.view, fs.ino;
      Ilock(i);
      StillReady(old(log.bio.g));
      if icache[i].typ != 1 {
        rc := -EINVAL;
        return;
      }
      Begin();
      Itrunc(i, now);
      ghost var v1 := log.bio.g.view;
      t := Gather();
      assert log.bio.disk == old(log.bio.disk);
      Commit(t);
      OpSurvives(old(log.bio.disk), old(fs), old(log.bio.g.trace), t);
      OthersThenSame(v0, ino0, v1, fs.ino, log.bio.g.view, i);
      rc := 0;
    }

    lemma StillReady(g: Shadow)
      requires Mounted(-1) && fs.loose == {} && !log.outstanding && log.bio.g == g.(at := log.bio.g.at)
      requires g.raw == {} && g.held == 0 && log.layout.start < |log.bio.disk|
      requires HeaderN(log.bio.disk[log.layout.start]) == 0
      ensures Ready()
    {
    }

    /** Rewrite an in-memory inode that owns no blocks and save it. */
    method Rewrite(i: nat, d: Dinode)
      requires InTxn(-1) && fs.loose == {} && i < |fs.ino| && Others(fs.owner, i) == fs.owner && NoBlocks(d)
      requires DinodeOk(d)
      requires i in icache && log.bio.g.held <= 13 && |log.blocks| < LOG_HDR_MAX
      modifies this`icache, this`fs, this`table, log`blocks, log`slots, log.bio`bufs, log.bio`lru, log.bio`g
      ensures InTxn(-1) && Calm(old(log.Pinned()), log.Pinned()) && fs == old(fs).(ino := old(fs.ino)[i := d])
      ensures icache == old(icache)[i := d]
      ensures InosOk(old(fs.ino)) && InosOk(fs.ino)
      ensures SameOthers(old(log.bio.g.view), old(fs.ino), log.bio.g.view, fs.ino, i)
      ensures log.blocks == AddBlock(old(log.blocks), sb.inodestart + i / 8)
    {
      hide Own, Log.Valid, PinsKept, Synced, SameOthers, SameFiles, SamePtrs, InosOk, Others, DinodeOk, NoBlocks;
      ghost var v0, fs0 := log.bio.g.view, fs;
      OwnBasics(v0, fs);
      DirtyTable(v0, sb, table, fs.ino, i, d);
      icache := icache[i := d];
      fs := fs.(ino := fs.ino[i := d]);
      OwnerlessOwn(v0, fs0, i, d, fs);
      OwnBasics(v0, fs);
      assert Mounted(i);
      Iupdate(i);
      OthersThenSame(v0, fs0.ino, v0, fs.ino, log.bio.g.view, i);
    }

    /** sbfs_op_release: the last reference to an unlinked inode frees its blocks and the inode itself. */
    method OpRelease(i: nat, now: nat) returns (ghost t: Txn)
      requires Ready() && Live(fs.ino, i) && now < 0x1_0000_0000_0000_0000
      modifies this, log, log.bio
      ensures Ready() && InosOk(old(fs.ino)) && InosOk(fs.ino) && i !in icache
      ensures i in old(icache) && old(fs.ino[i].nlink) == 0 ==>
        && CommittedBy(log.layout, old(log.bio.disk), old(log.bio.g.trace), log.bio.disk, log.bio.g.trace, t)
        && Survives(log.layout, old(log.bio.disk), old(fs), t, log.bio.disk, fs)
        && |fs.ino| == |old(fs.ino)| && fs.ino[i].typ == 0 && fs.owner == Others(old(fs.owner), i)
        && SameOthers(old(log.bio.g.view), old(fs.ino), log.bio.g.view, fs.ino, i)
      ensures i !in old(icache) || old(fs.ino[i].nlink) != 0 ==> fs == old(fs) && log.bio.g == old(log.bio.g)
    {
      hide Mounted, SameOthers, Others, InosOk, PinsKept, SameFiles, PtrsKept, CommittedBy, Survives, Consistent;
      ReadyInos();
      ReadyConsistent();
      t := Txn([], []);
      ghost var v0, ino0 := log.bio.g.view, fs.ino;
      if i in icache {
        InIcache(i);
        if icache[i].nlink == 0 {
          Begin();
          Itrunc(i, now);
          ghost var v1, ino1 := log.bio.g.view, fs.ino;
          OthersTwice(old(fs.owner), i);
          InosAt(fs.ino, i);
          Clean(i);
          InTxnIcache(i);
          Rewrite(i, icache[i].(typ := 0));
          ghost var v2 := log.bio.g.view;
          OthersThenOthers(v0, ino0, v1, ino1, v2, fs.ino, i);
          t := Gather();
          assert log.bio.disk == old(log.bio.disk);
          Commit(t);
          OpSurvives(old(log.bio.disk), old(fs), old(log.bio.g.trace), t);
          OthersThenSame(v0, ino0, v2, fs.ino, log.bio.g.view, i);
        }
      }
      Forget(i);
    }

    lemma InTxnIcache(i: nat)
      requires InTxn(-1) && i in icache
      ensures i < |fs.ino| && icache[i] == fs.ino[i]
    {
    }

    /** valid = 0: the slot of the inode cache is free again. */
    method Forget(i: nat)
      requires Ready()
      modifies this`icache
      ensures Ready() && icache == old(icache) - {i}
    {
      hide Own, Synced, Log.Idle, Log.Valid;
      icache := icache - {i};
    }

    /** sbfs_ialloc: claim the first free inode from 1 on; 0 when there is none. */
    method Ialloc(typ: nat, now: nat) returns (r: nat)
      requires InTxn(-1) && fs.loose == {} && log.bio.g.held <= 13 && |log.blocks| < LOG_HDR_MAX
      requires 0 < typ < 0x1_0000 && now < 0x1_0000_0000_0000_0000
      modifies this`icache, this`fs, this`table, log`blocks, log`slots, log.bio`bufs, log.bio`lru, log.bio`g
      ensures InTxn(-1) && Calm(old(log.Pinned()), log.Pinned()) && fs.loose == {}
      ensures forall j: nat :: 1 <= j < |old(fs.ino)| && (r == 0 || j < r) ==> old(fs.ino[j].typ) != 0
      ensures r == 0 ==>
        fs == old(fs) && log.bio.g == old(log.bio.g).(at := log.bio.g.at) && log.blocks == old(log.blocks)
      ensures r != 0 ==>
        && r < |old(fs.ino)| && old(fs.ino[r].typ) == 0 && r in icache && NewInode(typ, now) == icache[r]
        && fs == old(fs).(ino := old(fs.ino)[r := NewInode(typ, now)])
        && InosOk(old(fs.ino)) && InosOk(fs.ino)
        && SameOthers(old(log.bio.g.view), old(fs.ino), log.bio.g.view, fs.ino, r) && Others(fs.owner, r) == fs.owner
        && log.blocks == AddBlock(old(log.blocks), sb.inodestart + r / 8)
    {
      hide Mounted, PinsKept, SameOthers, InosOk, NewInode, Own, Others;
      ghost var pins, v0 := log.Pinned(), log.bio.g.view;
      CalmSelf(pins);
      r := 1;
      while r < sb.ninodes
        invariant 1 <= r && InTxn(-1) && Calm(pins, log.Pinned()) && fs == old(fs) && table == old(table)
        invariant log.bio.g == old(log.bio.g).(at := log.bio.g.at) && log.blocks == old(log.blocks)
        invariant forall j: nat :: 1 <= j < r && j < |fs.ino| ==> fs.ino[j].typ != 0
      {
        ghost var p := log.Pinned();
        var d := Peek(r);
        CalmThen(pins, p, log.Pinned());
        if d.typ == 0 {
          p := log.Pinned();
          NewInodeOk(typ, now);
          OwnsNothing(r);
          Enter(r, d);
          Rewrite(r, NewInode(typ, now));
          InTxnIcache(r);
          CalmThen(pins, p, log.Pinned());
          return;
        }
        r := r + 1;
      }
      TableSize();
      r := 0;
    }

    /**
     sbfs_op_create without the new name: one transaction around sbfs_ialloc and the update that gives the inode its
     link. 0 when there is no free inode.
     */
    method OpCreate(now: nat) returns (r: nat, ghost t: Txn)
      requires Ready() && now < 0x1_0000_0000_0000_0000
      modifies this, log, log.bio
      ensures Ready() && InosOk(old(fs.ino)) && InosOk(fs.ino)
      ensures CommittedBy(log.layout, old(log.bio.disk), old(log.bio.g.trace), log.bio.disk, log.bio.g.trace, t)
      ensures Survives(log.layout, old(log.bio.disk), old(fs), t, log.bio.disk, fs)
      ensures forall j: nat :: 1 <= j < |old(fs.ino)| && (r == 0 || j < r) ==> old(fs.ino[j].typ) != 0
      ensures r == 0 ==> fs == old(fs) && SameFiles(old(log.bio.g.view), fs.ino, log.bio.g.view, fs.ino)
      ensures r != 0 ==>
        && r < |old(fs.ino)| && old(fs.ino[r].typ) == 0 && NewInode(1, now).(nlink := 1) == fs.ino[r]
        && fs == old(fs).(ino := old(fs.ino)[r := fs.ino[r]])
        && SameOthers(old(log.bio.g.view), old(fs.ino), log.bio.g.view, fs.ino, r)
    {
      hide Mounted, SameOthers, Others, InosOk, PinsKept, SameFiles, PtrsKept, CommittedBy, Survives, Consistent;
      hide NewInode, NoBlocks, DinodeOk;
      ReadyInos();
      ReadyConsistent();
      ghost var v0, ino0 := log.bio.g.view, fs.ino;
      Begin();
      r := Ialloc(1, now);
      ghost var v1, ino1 := log.bio.g.view, fs.ino;
      if r != 0 {
        LinkedInodeOk(now);
        Rewrite(r, icache[r].(nlink := 1));
        OthersThenOthers(v0, ino0, v1, ino1, log.bio.g.view, fs.ino, r);
      }
      ghost var v2 := log.bio.g.view;
      t := Gather();
      assert log.bio.disk == old(log.bio.disk);
      Commit(t);
      OpSurvives(old(log.bio.disk), old(fs), old(log.bio.g.trace), t);
      if r != 0 { OthersThenSame(v0, ino0, v2, fs.ino, log.bio.g.view, r); }
    }

    /** An inode-cache slot is filled with inode i. */
    method Enter(i: nat, d: Dinode)
      requires InTxn(-1) && i < |fs.ino| && d == fs.ino[i]
      modifies this`icache
      ensures InTxn(-1) && icache == old(icache)[i := d]
    {
      hide Own, Log.Valid, Synced;
      icache := icache[i := d];
      assert Mounted(-1);
    }

    lemma TableSize()
      requires InTxn(-1)
      ensures |fs.ino| == sb.ninodes
    {
    }

    lemma OwnsNothing(i: nat)
      requires InTxn(-1) && i < |fs.ino| && fs.ino[i].typ == 0
      ensures Others(fs.owner, i) == fs.owner
    {
      hide Log.Valid, Synced;
      FreeOwnsNothing(log.bio.g.view, fs, i);
    }

    /** The on-disk inode in its inode block, without caching it. */
    method Peek(i: nat) returns (d: Dinode)
      requires InTxn(-1) && log.bio.g.held <= 16 && i < sb.ninodes
      modifies log.bio`bufs, log.bio`lru, log.bio`g
      ensures InTxn(-1) && log.bio.g == old(log.bio.g).(at := log.bio.g.at) && Calm(old(log.Pinned()), log.Pinned())
      ensures i < |fs.ino| && d == fs.ino[i]
    {
      hide Own, Log.Valid, PinsKept;
      var data := log.Fetch(sb.inodestart + i / 8);
      d := GetDinode(data, i % 8);
      assert d == OnDisk(log.bio.g.view, sb, i);
    }
  }
}
