/** What a write does to the bytes of files. */
module SbfsBytes {
  import opened Bytes
  import opened LogSpec
  import opened SbfsSpec
  import opened SbfsOwn

  /** Byte o of file j after writing data at off into file i. */
  ghost function NewByte(v: Disk, d: Dinode, j: nat, o: nat, i: nat, off: nat, data: seq<byte>): byte
    requires |d.addrs| == NADDR && o < MAX_FILE_SIZE
  {
    if j == i && off <= o < off + |data| then data[o - off] else FileByte(v, d, o)
  }

  /** Byte o of the file has a block behind it. */
  ghost predicate Backed(v: Disk, d: Dinode, o: nat)
    requires |d.addrs| == NADDR && o < MAX_FILE_SIZE
  {
    PtrAt(v, d, LeafPath(o / BSIZE)) != 0
  }

  /** Nothing but inode i changes, and its type and link count do not. */
  ghost predicate OnlyInode(ino: seq<Dinode>, ino': seq<Dinode>, i: nat) {
    && i < |ino| == |ino'| && ino' == ino[i := ino'[i]]
    && ino'[i].typ == ino[i].typ && ino'[i].nlink == ino[i].nlink
  }

  /**
   The bytes of data are in file i from off on, with blocks behind them; every other byte of i and every
   byte of every other file is unchanged; no block has moved.
   */
  ghost predicate FileWritten(v: Disk, ino: seq<Dinode>, v': Disk, ino': seq<Dinode>, i: nat, off: nat,
                              data: seq<byte>) {
    && InosOk(ino) && InosOk(ino') && OnlyInode(ino, ino', i) && PtrsKept(v, ino, v', ino')
    && off + |data| <= MAX_FILE_SIZE
    && (forall j: nat, o: nat :: Live(ino, j) && o < MAX_FILE_SIZE ==>
          FileByte(v', ino'[j], o) == NewByte(v, ino[j], j, o, i, off, data))
    && (forall o: nat :: off <= o < off + |data| ==> Backed(v', ino'[i], o))
  }

  /** No block is behind byte o of the file. */
  ghost predicate InHole(v: Disk, d: Dinode, o: nat) {
    o < MAX_FILE_SIZE && |d.addrs| == NADDR && !Backed(v, d, o)
  }

  /** Writing never takes a block away, so a hole found on the way was there before. */
  lemma HoleBefore(v: Disk, ino: seq<Dinode>, x: Disk, kno: seq<Dinode>, i: nat, off: nat, data: seq<byte>, o: nat)
    requires FileWritten(v, ino, x, kno, i, off, data) && Live(ino, i) && o < MAX_FILE_SIZE
    requires PtrAt(x, kno[i], LeafPath(o / BSIZE)) == 0
    ensures InHole(v, ino[i], o)
  {
    hide PtrAt, FileByte, NewByte;
  }

  lemma NothingWritten(v: Disk, ino: seq<Dinode>, i: nat, off: nat)
    requires InosOk(ino) && i < |ino| && off <= MAX_FILE_SIZE
    ensures FileWritten(v, ino, v, ino, i, off, [])
  {
  }

  /** Metadata changes and the inode-table write do not touch file bytes. */
  lemma WrittenThenSame(v: Disk, ino: seq<Dinode>, w: Disk, jno: seq<Dinode>, x: Disk, kno: seq<Dinode>, i: nat,
                        off: nat, data: seq<byte>)
    requires FileWritten(v, ino, w, jno, i, off, data)
    requires InosOk(kno) && SameFiles(w, jno, x, kno) && PtrsKept(w, jno, x, kno) && OnlyInode(jno, kno, i)
    requires Live(ino, i)
    ensures FileWritten(v, ino, x, kno, i, off, data)
  {
    hide PtrAt, FileByte, NewByte;
    assert forall j: nat :: Live(ino, j) <==> Live(jno, j);
    forall o: nat | off <= o < off + |data| ensures Backed(x, kno[i], o) {
      assert Backed(w, jno[i], o);
    }
  }

  lemma WrittenThenGrown(v: Disk, ino: seq<Dinode>, w: Disk, jno: seq<Dinode>, x: Disk, kno: seq<Dinode>, i: nat,
                         off: nat, data: seq<byte>)
    requires FileWritten(v, ino, w, jno, i, off, data) && OnlyAddrs(ino, jno, i) && Live(ino, i)
    requires Grown(w, jno, x, kno, i)
    ensures FileWritten(v, ino, x, kno, i, off, data) && OnlyAddrs(ino, kno, i)
  {
    WrittenThenSame(v, ino, w, jno, x, kno, i, off, data);
  }

  /** One iteration's memcpy: chunk goes into the block behind file block bn, just after data. */
  lemma ChunkWritten(v: Disk, ino: seq<Dinode>, x: Disk, fs: Fs, y: Disk,
                     i: nat, off: nat, data: seq<byte>, chunk: seq<byte>, bn: nat, b: nat, blk: Block)
    requires FileWritten(v, ino, x, fs.ino, i, off, data) && Live(ino, i) && Own(x, fs)
    requires bn < MAXBN && b != 0 && b < |x| && b == PtrAt(x, fs.ino[i], LeafPath(bn)) && b in fs.owner
    requires Patched(x[b], blk, off + |data| - BSIZE * bn, chunk)
    requires BytesSet(x, y, fs.ino, fs.owner[b], blk) && SamePtrs(x, y, fs.ino) && fs.owner[b] == Slot(i, LeafPath(bn))
    ensures FileWritten(v, ino, y, fs.ino, i, off, data + chunk)
  {
    hide PtrAt, FileByte, NewByte, LeafPath, Patched, Own;
    OwnBasics(x, fs);
    PatchedSize(x[b], blk, off + |data| - BSIZE * bn, chunk);
    assert forall j: nat :: Live(ino, j) <==> Live(fs.ino, j);
    forall j: nat, o: nat | Live(ino, j) && o < MAX_FILE_SIZE
      ensures FileByte(y, fs.ino[j], o) == NewByte(v, ino[j], j, o, i, off, data + chunk)
    {
      assert ByteSet(x, y, fs.ino[j], j, o, Slot(i, LeafPath(bn)), blk);
      ChunkByte(v, ino[j], x, fs.ino[j], y, j, o, i, off, data, chunk, bn, b, blk);
    }
    forall o: nat | off <= o < off + |data + chunk| ensures Backed(y, fs.ino[i], o) {
      if o < off + |data| {
        assert Backed(x, fs.ino[i], o);
      } else {
        PatchedSize(x[b], blk, off + |data| - BSIZE * bn, chunk);
        assert o / BSIZE == bn;
      }
    }
  }

  /** memcpy(old + at, chunk) gives blk. */
  ghost predicate Patched(was: Block, blk: Block, at: int, chunk: seq<byte>) {
    && 0 <= at && at + |chunk| <= BSIZE
    && forall k :: 0 <= k < BSIZE ==> blk[k] == if at <= k < at + |chunk| then chunk[k - at] else was[k]
  }

  lemma PatchedSize(was: Block, blk: Block, at: int, chunk: seq<byte>)
    requires Patched(was, blk, at, chunk)
    ensures 0 <= at && at + |chunk| <= BSIZE
  {
  }

  lemma ChunkByte(v: Disk, d: Dinode, x: Disk, e: Dinode, y: Disk, j: nat, o: nat,
                  i: nat, off: nat, data: seq<byte>, chunk: seq<byte>, bn: nat, b: nat, blk: Block)
    requires |d.addrs| == |e.addrs| == NADDR && o < MAX_FILE_SIZE && bn < MAXBN && b < |x|
    requires FileByte(x, e, o) == NewByte(v, d, j, o, i, off, data)
    requires j == i ==> b == PtrAt(x, e, LeafPath(bn)) != 0
    requires Patched(x[b], blk, off + |data| - BSIZE * bn, chunk)
    requires ByteSet(x, y, e, j, o, Slot(i, LeafPath(bn)), blk)
    ensures FileByte(y, e, o) == NewByte(v, d, j, o, i, off, data + chunk)
  {
    hide PtrAt, LeafPath;
    if j == i && o / BSIZE != bn && LeafPath(o / BSIZE) == LeafPath(bn) { LeafPathInjective(o / BSIZE, bn); }
  }

  // ----- reading ---------------------------------------------------------------------

  /** How many bytes sbfs_readi is asked for once the size is taken into account. */
  function Clamp(size: nat, off: nat, n: nat): (r: nat) {
    if off > size then 0 else if off + n > size then size - off else n
  }

  ghost predicate GotByte(v: Disk, d: Dinode, o: nat, x: byte)
    requires |d.addrs| == NADDR
  {
    o < MAX_FILE_SIZE && Backed(v, d, o) && x == FileByte(v, d, o)
  }

  ghost predicate ReadSoFar(v: Disk, d: Dinode, off: nat, out: seq<byte>) {
    |d.addrs| == NADDR && forall k :: 0 <= k < |out| ==> GotByte(v, d, off + k, out[k])
  }

  /** sbfs_readi stops at the first byte that has no block behind it. */
  ghost predicate ReadResult(v: Disk, d: Dinode, off: nat, n: nat, out: seq<byte>) {
    && ReadSoFar(v, d, off, out) && |out| <= Clamp(d.size, off, n)
    && (|out| < Clamp(d.size, off, n) ==> off + |out| >= MAX_FILE_SIZE || !Backed(v, d, off + |out|))
  }

  /** The read is complete exactly when no byte asked for lies in a hole. */
  lemma ReadFull(v: Disk, d: Dinode, off: nat, n: nat, out: seq<byte>)
    requires ReadResult(v, d, off, n, out) && off + n <= MAX_FILE_SIZE
    ensures |out| == Clamp(d.size, off, n) <==> forall k :: off <= k < off + Clamp(d.size, off, n) ==> Backed(v, d, k)
  {
    if |out| == Clamp(d.size, off, n) {
      forall k | off <= k < off + Clamp(d.size, off, n)
        ensures Backed(v, d, k)
      {
        assert GotByte(v, d, off + (k - off), out[k - off]);
      }
    }
  }

  /** A file can have a size and no blocks; reading it gives nothing. */
  lemma HoleReadsShort(v: Disk, out: seq<byte>)
    requires ReadResult(v, Dinode(1, 1, BSIZE, [0, 0, 0, 0], [0, 0, 0, 0, 0, 0, 0, 0, 0, 0]), 0, BSIZE, out)
    ensures out == []
  {
    var d := Dinode(1, 1, BSIZE, [0, 0, 0, 0], [0, 0, 0, 0, 0, 0, 0, 0, 0, 0]);
    assert !Backed(v, d, 0);
    assert |out| > 0 ==> GotByte(v, d, 0, out[0]);
  }

  /** What was written is what a read of that range returns. */
  lemma WriteThenRead(v: Disk, ino: seq<Dinode>, v': Disk, ino': seq<Dinode>, i: nat, off: nat, data: seq<byte>,
                      out: seq<byte>)
    requires FileWritten(v, ino, v', ino', i, off, data) && Live(ino, i) && off + |data| <= ino'[i].size
    requires ReadResult(v', ino'[i], off, |data|, out)
    ensures out == data
  {
    ReadFull(v', ino'[i], off, |data|, out);
    forall k | 0 <= k < |out| ensures out[k] == data[k] {
      assert FileByte(v', ino'[i], off + k) == NewByte(v, ino[i], i, off + k, i, off, data);
    }
  }

  lemma ReadMore(v: Disk, d: Dinode, off: nat, out: seq<byte>, b: nat, chunk: nat)
    requires ReadSoFar(v, d, off, out) && off + |out| < MAX_FILE_SIZE
    requires b == PtrAt(v, d, LeafPath((off + |out|) / BSIZE)) != 0 && b < |v| && (off + |out|) % BSIZE + chunk <= BSIZE
    ensures var boff := (off + |out|) % BSIZE; ReadSoFar(v, d, off, out + v[b][boff..boff + chunk])
  {
    hide PtrAt, LeafPath;
    var at := off + |out|;
    var more := out + v[b][at % BSIZE..at % BSIZE + chunk];
    forall k | |out| <= k < |more|
      ensures GotByte(v, d, off + k, more[k])
    {
      assert (off + k) / BSIZE == at / BSIZE;
    }
  }

  /** The block memcpy leaves. */
  function Patch(was: Block, at: nat, chunk: seq<byte>): (r: Block)
    requires at + |chunk| <= BSIZE
    ensures Patched(was, r, at, chunk)
  {
    was[..at] + chunk + was[at + |chunk|..]
  }

  lemma WrittenLive(v: Disk, ino: seq<Dinode>, w: Disk, jno: seq<Dinode>, i: nat, off: nat, data: seq<byte>)
    requires FileWritten(v, ino, w, jno, i, off, data) && Live(ino, i)
    ensures Live(jno, i) && InosOk(ino) && InosOk(jno) && OnlyInode(jno, jno, i)
  {
  }

  /** Two writes end to end are one write. */
  lemma WrittenThenWritten(v: Disk, ino: seq<Dinode>, w: Disk, jno: seq<Dinode>, x: Disk, kno: seq<Dinode>,
                           i: nat, off: nat, data: seq<byte>, more: seq<byte>)
    requires FileWritten(v, ino, w, jno, i, off, data) && FileWritten(w, jno, x, kno, i, off + |data|, more)
    requires Live(ino, i)
    ensures FileWritten(v, ino, x, kno, i, off, data + more)
  {
    hide PtrAt, FileByte;
    assert forall j: nat :: Live(ino, j) <==> Live(jno, j);
    forall o: nat | off <= o < off + |data + more| ensures Backed(x, kno[i], o) {
      if o < off + |data| { assert Backed(w, jno[i], o); }
    }
    forall j: nat, o: nat | Live(ino, j) && o < MAX_FILE_SIZE
      ensures FileByte(x, kno[j], o) == NewByte(v, ino[j], j, o, i, off, data + more)
    {
      assert FileByte(w, jno[j], o) == NewByte(v, ino[j], j, o, i, off, data);
      assert FileByte(x, kno[j], o) == NewByte(w, jno[j], j, o, i, off + |data|, more);
    }
  }
}
