/** The disk image mkfs writes: the layout the kernel mounts, holding a consistent file system with a root directory. */
module Mkfs {
  import opened Bytes
  import opened LogSpec
  import opened SbfsSpec
  import opened SbfsOwn
  import opened SbfsHome
  import opened SbfsCrash

  const MAGIC := 0x5342_5633
  const NINODES := 256
  const LOGSIZE := 16
  const NDATABLOCKS := 4000
  const LOG_START := 2
  const INODE_START := LOG_START + LOGSIZE
  const BMAP_BLOCK := INODE_START + NINODES / 8
  const DATA_START := BMAP_BLOCK + 1
  const NBLOCKS := DATA_START + NDATABLOCKS

  const LAYOUT := Layout(LOG_START, LOGSIZE, NBLOCKS)
  const SUPER := Super(INODE_START, NINODES, BMAP_BLOCK, NDATABLOCKS)

  /** The root directory: two entries, one data block. */
  const ROOT := Dinode(2, 2, 32, [0, 0, 0x41ED, 0], [DATA_START, 0, 0, 0, 0, 0, 0, 0, 0, 0])

  const FREE := Dinode(0, 0, 0, [0, 0, 0, 0], [0, 0, 0, 0, 0, 0, 0, 0, 0, 0])

  const SUPER_WORDS: seq<nat> := [MAGIC, NBLOCKS, NDATABLOCKS, NINODES, LOGSIZE, LOG_START, INODE_START, BMAP_BLOCK]

  /** The superblock's fields, as sbfs_init reads them, if the magic number is right. */
  datatype Volume = NotSbfs | Volume(layout: Layout, sb: Super)

  function ReadSuper(blk: Block): Volume {
    if U32(blk, 0) != MAGIC then NotSbfs
    else Volume(Layout(U32(blk, 20), U32(blk, 16), U32(blk, 4)),
      Super(U32(blk, 24), U32(blk, 12), U32(blk, 28), U32(blk, 8)))
  }

  function SuperBlock(): Block { PutWords(ZeroBlock(), 0, SUPER_WORDS, 8) }

  /** "." and "..", both inode 1. */
  function DirBlock(): Block {
    ZeroBlock()[0 := 1][2 := 0x2E][16 := 1][18 := 0x2E][19 := 0x2E]
  }

  method Zeroed() returns (d: Disk)
    ensures |d| == NBLOCKS && forall k :: 0 <= k < NBLOCKS ==> d[k] == ZeroBlock()
  {
    d := [];
    while |d| < NBLOCKS
      invariant |d| <= NBLOCKS && forall k :: 0 <= k < |d| ==> d[k] == ZeroBlock()
    {
      d := d + [ZeroBlock()];
    }
  }

  /** mkfs: zeros, then the superblock, the root's directory block, its inode and the bitmap. */
  method Format() returns (d: Disk)
    ensures |d| == NBLOCKS && d[1] == SuperBlock() && d[DATA_START] == DirBlock()
    ensures GetDinode(d[INODE_START], 1) == ROOT && d[BMAP_BLOCK] == MarkBit(ZeroBlock(), 0, true)
    ensures DiskOk(LAYOUT, d) && HeaderN(d[LOG_START]) == 0
    ensures ReadSuper(d[1]) == Volume(LAYOUT, SUPER)
    ensures Consistent(LAYOUT, d, RootFs())
  {
    hide GetDinode, PutDinode, MarkBit, PutWords, Own, Synced, ReadSuper, RootFs;
    d := Zeroed();
    RootOk();
    d := d[1 := SuperBlock()];
    d := d[DATA_START := DirBlock()];
    d := d[INODE_START + 1 / 8 := PutDinode(d[INODE_START + 1 / 8], 1, ROOT)];
    d := d[BMAP_BLOCK := MarkBit(ZeroBlock(), 0, true)];
    assert U32(ZeroBlock(), 0) == 0;
    SuperReads();
    FreshOwn(d);
    FreshTable(d);
  }

  /** The file system on a fresh disk: the root directory owns the first data block. */
  ghost function RootFs(): Fs {
    Fs(SUPER, seq(NINODES, i => if i == 1 then ROOT else FREE), map[DATA_START := Slot(1, Top(0))], {})
  }

  lemma RootOk()
    ensures DinodeOk(ROOT) && DinodeOk(FREE)
  {
  }

  /** The numbers mkfs chooses are a layout the kernel can use: the inode table ends where the bitmap starts. */
  lemma LayoutFits()
    ensures SuperOk(LAYOUT, SUPER) && SUPER.inodestart + (SUPER.ninodes + 7) / 8 == SUPER.bmapstart
  {
  }

  /** sbfs_init reads back what mkfs wrote. */
  lemma SuperReads()
    ensures ReadSuper(SuperBlock()) == Volume(LAYOUT, SUPER)
  {
    var s := SuperBlock();
    PutWordsFacts(ZeroBlock(), 0, SUPER_WORDS, 8);
    assert forall i :: 0 <= i < 8 ==> U32(s, 0 + 4 * i) == SUPER_WORDS[i];
    assert U32(s, 0 + 4 * 0) == SUPER_WORDS[0] && U32(s, 0 + 4 * 1) == SUPER_WORDS[1]
      && U32(s, 0 + 4 * 2) == SUPER_WORDS[2];
    assert U32(s, 0 + 4 * 3) == SUPER_WORDS[3] && U32(s, 0 + 4 * 4) == SUPER_WORDS[4]
      && U32(s, 0 + 4 * 5) == SUPER_WORDS[5];
    assert U32(s, 0 + 4 * 6) == SUPER_WORDS[6] && U32(s, 0 + 4 * 7) == SUPER_WORDS[7];
  }

  lemma {:induction false} ZeroBits(k: nat)
    ensures !BitOf(0, k)
  {
    if k > 0 { ZeroBits(k - 1); }
  }

  /** The root names its first block and nothing else. */
  lemma RootPtr(d: Disk, p: Path)
    requires ValidPath(p)
    ensures |ROOT.addrs| == NADDR && PtrAt(d, ROOT, p) == if p == Top(0) then DATA_START else 0
  {
  }

  lemma FreshOwn(d: Disk)
    requires |d| == NBLOCKS && d[BMAP_BLOCK] == MarkBit(ZeroBlock(), 0, true)
    ensures Own(d, RootFs())
  {
    hide PtrAt, MarkBit;
    RootOk();
    var fs := RootFs();
    forall i: nat, p: Path | Live(fs.ino, i) && ValidPath(p)
      ensures i == 1 && PtrAt(d, fs.ino[i], p) == if p == Top(0) then DATA_START else 0
    {
      RootPtr(d, p);
    }
    forall b: nat | IsData(SUPER, b) ensures Used(d[BMAP_BLOCK], SUPER, b) <==> b == DATA_START {
      MarkBitFacts(ZeroBlock(), 0, true, b - BMAP_BLOCK - 1);
      ZeroBits((b - BMAP_BLOCK - 1) % 8);
    }
  }

  lemma ZeroWord(s: nat, i: nat)
    requires s < 8 && i < 16
    ensures DWord(ZeroBlock(), s, i) == 0
  {
  }

  lemma ZeroDinode(s: nat)
    requires s < 8
    ensures GetDinode(ZeroBlock(), s) == FREE
  {
    hide GetDinode, DWord;
    RootOk();
    forall i: nat | i < 16 ensures DWord(ZeroBlock(), s, i) == DinodeWords(FREE)[i] {
      ZeroWord(s, i);
    }
    WordsRead(ZeroBlock(), s, FREE);
  }

  lemma FreshTable(d: Disk)
    requires |d| == NBLOCKS && DinodeOk(ROOT) && d[INODE_START] == PutDinode(ZeroBlock(), 1, ROOT)
    requires forall b :: INODE_START < b < BMAP_BLOCK ==> d[b] == ZeroBlock()
    ensures Synced(d, SUPER, RootFs().ino, RootFs().ino, -1) && GetDinode(d[INODE_START], 1) == ROOT
  {
    hide GetDinode, PutDinode;
    var ino := RootFs().ino;
    DinodeRoundTrip(ZeroBlock(), 1, ROOT, 1);
    forall i: nat | i < NINODES ensures OnDisk(d, SUPER, i) == ino[i] {
      ZeroDinode(i % 8);
      if i < 8 { DinodeRoundTrip(ZeroBlock(), 1, ROOT, i); }
    }
  }
}
