/**
 The sbfs on-disk format and what it means: block pointers of an inode's direct,
 single-indirect and double-indirect tree, the bitmap, who owns which block, and
 the bytes of a file.
 */
module SbfsSpec {
  import opened Bytes
  import opened LogSpec

  const NDIR := 7        // direct slots addrs[0..6]
  const NINDIR := 2      // single-indirect slots addrs[7..8]
  const NADDR := 10      // addrs[9] is double-indirect
  const PER := 128       // block addresses per indirect block
  const MAXBN := 16647   // NDIR + NINDIR * PER + PER * PER
  const MAX_FILE_SIZE := 8523264  // MAXBN * BSIZE
  const DINODE := 64

  /** The superblock fields the file system code uses. */
  datatype Super = Super(inodestart: nat, ninodes: nat, bmapstart: nat, nblocks: nat)

  /** The order mkfs lays the disk out in: log, inode table, one bitmap block, data. */
  ghost predicate SuperOk(l: Layout, sb: Super) {
    && LayoutOk(l)
    && l.start + l.size <= sb.inodestart
    && sb.inodestart + (sb.ninodes + 7) / 8 <= sb.bmapstart
    && sb.bmapstart + 1 + sb.nblocks <= l.diskSize
    && sb.nblocks <= 8 * BSIZE
  }

  predicate IsData(sb: Super, b: nat) { sb.bmapstart < b < sb.bmapstart + 1 + sb.nblocks }

  // ----- inodes --------------------------------------------------------------

  /** type, nlink, size and addrs; attrs are the four words of mtime, mode, uid and gid. */
  datatype Dinode = Dinode(typ: nat, nlink: nat, size: nat, attrs: seq<nat>, addrs: seq<nat>)

  ghost predicate DinodeOk(d: Dinode) {
    && d.typ < 0x1_0000 && d.nlink < 0x1_0000 && d.size < U32MAX
    && |d.attrs| == 4 && |d.addrs| == NADDR
    && (forall k :: 0 <= k < |d.attrs| ==> d.attrs[k] < U32MAX)
    && (forall k :: 0 <= k < |d.addrs| ==> d.addrs[k] < U32MAX)
  }

  /** The sixteen words of an on-disk inode. */
  function DinodeWords(d: Dinode): seq<nat> { [d.typ + 0x1_0000 * d.nlink, d.size] + d.attrs + d.addrs }

  /** memcpy of an inode into slot s of its inode block. */
  function PutDinode(blk: Block, s: nat, d: Dinode): (r: Block)
    requires s < 8 && DinodeOk(d)
  {
    PutWords(blk, DINODE * s, DinodeWords(d), 16)
  }

  /** Word i of inode slot s. */
  function DWord(blk: Block, s: nat, i: nat): (r: nat)
    requires s < 8 && i < 16
    ensures r < U32MAX
  {
    U32(blk, DINODE * s + 4 * i)
  }

  function GetDinode(blk: Block, s: nat): (d: Dinode)
    requires s < 8
    ensures DinodeOk(d)
  {
    Dinode(DWord(blk, s, 0) % 0x1_0000, DWord(blk, s, 0) / 0x1_0000, DWord(blk, s, 1),
           seq(4, k requires 0 <= k < 4 => DWord(blk, s, 2 + k)),
           seq(NADDR, k requires 0 <= k < NADDR => DWord(blk, s, 6 + k)))
  }

  lemma WordsRead(r: Block, t: nat, d: Dinode)
    requires t < 8 && DinodeOk(d)
    requires forall i :: 0 <= i < 16 ==> DWord(r, t, i) == DinodeWords(d)[i]
    ensures GetDinode(r, t) == d
  {
    var ws := DinodeWords(d);
    assert DWord(r, t, 0) == ws[0] && DWord(r, t, 1) == ws[1];
    assert forall k :: 0 <= k < 4 ==> d.attrs[k] == ws[2 + k];
    assert forall k :: 0 <= k < NADDR ==> d.addrs[k] == ws[6 + k];
  }

  lemma WordsEqual(a: Block, b: Block, t: nat)
    requires t < 8 && forall i :: 0 <= i < 16 ==> DWord(a, t, i) == DWord(b, t, i)
    ensures GetDinode(a, t) == GetDinode(b, t)
  {
    assert DWord(a, t, 0) == DWord(b, t, 0) && DWord(a, t, 1) == DWord(b, t, 1);
  }

  /** An inode written is read back; the other seven inodes of the block are untouched. */
  lemma DinodeRoundTrip(blk: Block, s: nat, d: Dinode, t: nat)
    requires s < 8 && t < 8 && DinodeOk(d)
    ensures GetDinode(PutDinode(blk, s, d), t) == if t == s then d else GetDinode(blk, t)
  {
    var ws, r := DinodeWords(d), PutDinode(blk, s, d);
    PutWordsFacts(blk, DINODE * s, ws, 16);
    if t == s {
      forall i | 0 <= i < 16 ensures DWord(r, t, i) == ws[i] { assert U32(r, DINODE * s + 4 * i) == ws[i]; }
      WordsRead(r, t, d);
    } else {
      forall i | 0 <= i < 16 ensures DWord(r, t, i) == DWord(blk, t, i) { U32Frame(r, blk, DINODE * t + 4 * i); }
      WordsEqual(r, blk, t);
    }
  }

  // ----- paths through the block tree ------------------------------------------

  /**
   A place in an inode where a block number is stored: Top(k) is addrs[k]; Sub(k, io) entry io of the
   block at addrs[k]; Sub2(oi, io) entry io of the block named by entry oi of the double-indirect block.
   */
  datatype Path = Top(k: nat) | Sub(k: nat, io: nat) | Sub2(oi: nat, io: nat)

  predicate ValidPath(p: Path) {
    match p
    case Top(k) => k < NADDR
    case Sub(k, io) => NDIR <= k < NADDR && io < PER
    case Sub2(oi, io) => oi < PER && io < PER
  }

  /** Paths to file data, as opposed to paths to blocks of pointers. */
  predicate IsLeaf(p: Path) {
    match p
    case Top(k) => k < NDIR
    case Sub(k, io) => k < NADDR - 1
    case Sub2(oi, io) => true
  }

  /** Entry io of the pointer block b; a missing block has no entries. */
  function Entry(view: Disk, b: nat, io: nat): (r: nat)
    requires io < PER
  {
    if b == 0 || b >= |view| then 0 else U32(view[b], 4 * io)
  }

  function PtrAt(view: Disk, d: Dinode, p: Path): (r: nat)
    requires ValidPath(p) && |d.addrs| == NADDR
  {
    match p
    case Top(k) => d.addrs[k]
    case Sub(k, io) => Entry(view, d.addrs[k], io)
    case Sub2(oi, io) => Entry(view, Entry(view, d.addrs[NADDR - 1], oi), io)
  }

  /** Where file block bn's data block is recorded. */
  function LeafPath(bn: nat): (p: Path)
    requires bn < MAXBN
    ensures ValidPath(p) && IsLeaf(p)
  {
    if bn < NDIR then Top(bn)
    else if bn < NDIR + NINDIR * PER then Sub(NDIR + (bn - NDIR) / PER, (bn - NDIR) % PER)
    else Sub2((bn - NDIR - NINDIR * PER) / PER, (bn - NDIR - NINDIR * PER) % PER)
  }

  lemma LeafPathInjective(bn: nat, cn: nat)
    requires bn < MAXBN && cn < MAXBN && LeafPath(bn) == LeafPath(cn)
    ensures bn == cn
  {
  }

  /** Byte o of the file whose inode is d; holes read as zero. */
  function FileByte(view: Disk, d: Dinode, o: nat): (r: byte)
    requires o < MAX_FILE_SIZE && |d.addrs| == NADDR
  {
    var b := PtrAt(view, d, LeafPath(o / BSIZE));
    if b == 0 || b >= |view| then 0 else view[b][o % BSIZE]
  }

  // ----- bitmap ----------------------------------------------------------------

  /** x | (1 << k) */
  function SetBit(x: nat, k: nat): nat {
    if k == 0 then x - x % 2 + 1 else 2 * SetBit(x / 2, k - 1) + x % 2
  }

  /** x & ~(1 << k) */
  function ClearBit(x: nat, k: nat): nat {
    if k == 0 then x - x % 2 else 2 * ClearBit(x / 2, k - 1) + x % 2
  }

  lemma {:induction false} SetBitFacts(x: nat, k: nat, j: nat)
    ensures BitOf(SetBit(x, k), j) <==> j == k || BitOf(x, j)
  {
    if k > 0 && j > 0 { SetBitFacts(x / 2, k - 1, j - 1); }
  }

  lemma {:induction false} ClearBitFacts(x: nat, k: nat, j: nat)
    ensures BitOf(ClearBit(x, k), j) <==> j != k && BitOf(x, j)
  {
    if k > 0 && j > 0 { ClearBitFacts(x / 2, k - 1, j - 1); }
  }

  lemma {:induction false} BitBounds(x: nat, k: nat, m: nat)
    requires x < Pow2(m) && k < m
    ensures SetBit(x, k) < Pow2(m) && ClearBit(x, k) < Pow2(m)
  {
    if k > 0 { BitBounds(x / 2, k - 1, m - 1); }
  }

  /** The bitmap with bit i set or cleared. */
  function MarkBit(bm: Block, i: nat, on: bool): (r: Block)
    requires i < 8 * BSIZE
  {
    assert Pow2(8) == 256;
    BitBounds(bm[i / 8], i % 8, 8);
    bm[i / 8 := if on then SetBit(bm[i / 8], i % 8) else ClearBit(bm[i / 8], i % 8)]
  }

  predicate BitAt(bm: Block, i: nat)
    requires i < 8 * BSIZE
  {
    BitOf(bm[i / 8], i % 8)
  }

  lemma MarkBitFacts(bm: Block, i: nat, on: bool, j: nat)
    requires i < 8 * BSIZE && j < 8 * BSIZE
    ensures BitAt(MarkBit(bm, i, on), j) <==> if j == i then on else BitAt(bm, j)
  {
    SetBitFacts(bm[i / 8], i % 8, j % 8);
    ClearBitFacts(bm[i / 8], i % 8, j % 8);
  }

  /** Is data block b marked used? */
  predicate Used(bm: Block, sb: Super, b: nat)
    requires IsData(sb, b) && sb.nblocks <= 8 * BSIZE
  {
    BitAt(bm, b - sb.bmapstart - 1)
  }
}
