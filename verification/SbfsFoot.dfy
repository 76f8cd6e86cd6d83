/** How many distinct blocks a write can put into one transaction. */
module SbfsFoot {
  import opened Bytes
  import opened LogSpec
  import opened SbfsSpec
  import opened SbfsOwn
  import opened WriteAheadLog

  /** The pointer blocks on the way to file block bn. */
  function Above(bn: nat): (r: set<Path>)
    requires bn < MAXBN
    ensures forall p :: p in r ==> ValidPath(p)
  {
    if bn < NDIR then {}
    else if bn < NDIR + NINDIR * PER then {Top(NDIR + (bn - NDIR) / PER)}
    else {Top(NADDR - 1), Sub(NADDR - 1, (bn - NDIR - NINDIR * PER) / PER)}
  }

  function Leaves(f: nat, c: nat): (r: set<Path>)
    requires f + c <= MAXBN
  {
    if c == 0 then {} else Leaves(f, c - 1) + {LeafPath(f + c - 1)}
  }

  /** All the places a write to the c file blocks from f can touch. */
  function Reach(f: nat, c: nat): (r: set<Path>)
    requires f + c <= MAXBN && c > 0
  {
    Leaves(f, c) + Above(f) + Above(f + c - 1)
  }

  lemma {:induction false} LeavesSize(f: nat, c: nat)
    requires f + c <= MAXBN
    ensures |Leaves(f, c)| <= c
  {
    if c > 0 {
      LeavesSize(f, c - 1);
      assert Leaves(f, c) == Leaves(f, c - 1) + {LeafPath(f + c - 1)};
    }
  }

  lemma {:induction false} LeafInside(f: nat, c: nat, bn: nat)
    requires f + c <= MAXBN && f <= bn < f + c
    ensures LeafPath(bn) in Leaves(f, c)
  {
    if bn < f + c - 1 { LeafInside(f, c - 1, bn); }
  }

  /** A run of at most 128 blocks needs no pointer block its two ends do not need. */
  lemma AboveInside(f: nat, l: nat, bn: nat)
    requires f <= bn <= l < MAXBN && l - f < PER
    ensures Above(bn) <= Above(f) + Above(l)
  {
  }

  lemma AboveTwo(f: nat, l: nat)
    requires f <= l < MAXBN && l - f < PER
    ensures |Above(f) + Above(l)| <= 3
  {
    var k := NDIR + NINDIR * PER;
    if f < k {
      if l >= k {
        var a := {Top(NADDR - 1), Sub(NADDR - 1, (l - k) / PER)};
        assert Above(f) + Above(l) == a + Above(f);
      } else {
        assert |Above(f)| <= 1 && |Above(l)| <= 1;
      }
    } else {
      assert Above(f) + Above(l) == {Top(NADDR - 1), Sub(NADDR - 1, (f - k) / PER), Sub(NADDR - 1, (l - k) / PER)};
    }
  }

  lemma ReachInside(f: nat, c: nat, bn: nat)
    requires f + c <= MAXBN && f <= bn < f + c && c <= PER
    ensures LeafPath(bn) in Reach(f, c) && Above(bn) <= Reach(f, c)
  {
    LeafInside(f, c, bn);
    AboveInside(f, f + c - 1, bn);
  }

  lemma ReachSize(f: nat, c: nat)
    requires f + c <= MAXBN && 0 < c <= PER
    ensures |Reach(f, c)| <= c + 3
  {
    LeavesSize(f, c);
    AboveTwo(f, f + c - 1);
    var a := Above(f) + Above(f + c - 1);
    assert Reach(f, c) == Leaves(f, c) + a;
  }

  /** log_write's effect on the list of logged blocks. */
  function AddBlock(blocks: seq<nat>, b: nat): seq<nat> { if b in blocks then blocks else blocks + [b] }

  /**
   Every logged block was logged before the write began, or is the bitmap, or inode i's block, or a
   block of inode i at one of the places in reach.
   */
  ghost predicate Foot(blocks: seq<nat>, base: set<nat>, fs: Fs, i: nat, reach: set<Path>) {
    forall b :: b in blocks ==>
      || b in base || b == fs.sb.bmapstart || b == fs.sb.inodestart + i / 8
      || (b in fs.owner && fs.owner[b].inum == i && fs.owner[b].path in reach)
  }

  /** The blocks inode i owns at the given places. */
  ghost function OwnedAt(owner: map<nat, Slot>, i: nat, reach: set<Path>): set<nat> {
    set b | b in owner && owner[b].inum == i && owner[b].path in reach
  }

  /** A place owns at most one block. */
  lemma {:induction false} OwnedAtSize(v: Disk, fs: Fs, i: nat, reach: set<Path>)
    requires Own(v, fs)
    ensures |OwnedAt(fs.owner, i, reach)| <= |reach|
  {
    var all := OwnedAt(fs.owner, i, reach);
    if all != {} {
      var b :| b in all;
      var p := fs.owner[b].path;
      forall c | c in all && c != b ensures fs.owner[c].path != p {
        assert PtrAt(v, fs.ino[i], fs.owner[c].path) == c;
      }
      OwnedAtSize(v, fs, i, reach - {p});
      assert all == OwnedAt(fs.owner, i, reach - {p}) + {b};
    }
  }

  lemma FootCover(fs: Fs, blocks: seq<nat>, base: set<nat>, i: nat, reach: set<Path>, cover: set<nat>)
    requires Foot(blocks, base, fs, i, reach)
    requires cover == base + {fs.sb.bmapstart, fs.sb.inodestart + i / 8} + OwnedAt(fs.owner, i, reach)
    ensures forall s :: 0 <= s < |blocks| ==> blocks[s] in cover
  {
    forall s | 0 <= s < |blocks| ensures blocks[s] in cover {
      var b := blocks[s];
      assert b in blocks;
    }
  }

  lemma CoverSize(a: set<nat>, b: set<nat>, c: set<nat>)
    ensures |a + b + c| <= |a| + |b| + |c|
  {
  }

  lemma FootBound(v: Disk, fs: Fs, blocks: seq<nat>, base: set<nat>, i: nat, reach: set<Path>)
    requires Own(v, fs) && Foot(blocks, base, fs, i, reach)
    requires forall s, t :: 0 <= s < t < |blocks| ==> blocks[s] != blocks[t]
    ensures |blocks| <= |base| + 2 + |reach|
  {
    hide Own;
    OwnedAtSize(v, fs, i, reach);
    var meta: set<nat>, owned: set<nat> := {fs.sb.bmapstart, fs.sb.inodestart + i / 8}, OwnedAt(fs.owner, i, reach);
    var cover: set<nat> := base + meta + owned;
    FootCover(fs, blocks, base, i, reach, cover);
    CoverSize(base, meta, owned);
    ElemsCover(blocks, cover);
  }

  lemma FootAdd(blocks: seq<nat>, base: set<nat>, fs: Fs, i: nat, reach: set<Path>, b: nat)
    requires Foot(blocks, base, fs, i, reach)
    requires b == fs.sb.bmapstart || b == fs.sb.inodestart + i / 8
      || (b in fs.owner && fs.owner[b].inum == i && fs.owner[b].path in reach)
    ensures Foot(AddBlock(blocks, b), base, fs, i, reach)
  {
  }

  /** A block was allocated and named at a place in reach. */
  lemma FootLink(blocks: seq<nat>, base: set<nat>, fs: Fs, fs': Fs, i: nat, reach: set<Path>, nb: nat, p: Path)
    requires Foot(blocks, base, fs, i, reach) && nb !in fs.owner && p in reach
    requires fs'.sb == fs.sb && fs'.owner == fs.owner[nb := Slot(i, p)]
    ensures Foot(AddBlock(AddBlock(blocks, fs.sb.bmapstart), nb), base, fs', i, reach)
  {
    FootAdd(blocks, base, fs, i, reach, fs.sb.bmapstart);
  }

  lemma AddDistinct(blocks: seq<nat>, b: nat)
    requires forall s, t :: 0 <= s < t < |blocks| ==> blocks[s] != blocks[t]
    ensures forall s, t :: 0 <= s < t < |AddBlock(blocks, b)| ==> AddBlock(blocks, b)[s] != AddBlock(blocks, b)[t]
  {
  }

  function ToSet(s: seq<nat>): set<nat> { set b | b in s }

  lemma {:induction false} ToSetSize(s: seq<nat>)
    ensures |ToSet(s)| <= |s|
  {
    if s != [] {
      ToSetSize(s[1..]);
      assert ToSet(s) == ToSet(s[1..]) + {s[0]};
    }
  }

  /** How many file blocks the n bytes at off lie in. */
  function Span(off: nat, n: nat): nat { if n == 0 then 0 else (off + n - 1) / BSIZE - off / BSIZE + 1 }

  /** The places a write of n bytes at off can touch. */
  function WriteReach(off: nat, n: nat): set<Path>
    requires off + n <= MAX_FILE_SIZE
  {
    if n == 0 then {} else Reach(off / BSIZE, Span(off, n))
  }

  lemma WriteReachSize(off: nat, n: nat)
    requires off + n <= MAX_FILE_SIZE && Span(off, n) <= 8
    ensures |WriteReach(off, n)| <= Span(off, n) + 3
  {
    if n > 0 { ReachSize(off / BSIZE, Span(off, n)); }
  }

  /** A 3072-byte chunk touches at most seven blocks; a page-aligned 4096-byte page eight. */
  lemma SpanBounds(off: nat, n: nat)
    requires n <= 6 * BSIZE || (n <= 8 * BSIZE && off % BSIZE == 0)
    ensures Span(off, n) <= if n <= 6 * BSIZE then 7 else 8
  {
  }
}
