/** An sbfs file without holes is the sequence of bytes the page cache takes it for. */
module SbfsPages {
  import opened Bytes
  import opened LogSpec
  import opened SbfsSpec
  import opened SbfsOwn
  import opened SbfsBytes
  import opened SbfsCrash
  import opened Sbfs
  import PageCache

  /** Every byte below the size has a block behind it. */
  ghost predicate HoleFree(v: Disk, d: Dinode) {
    |d.addrs| == NADDR && d.size <= MAX_FILE_SIZE && forall o: nat :: o < d.size ==> Backed(v, d, o)
  }

  ghost function FileBytes(v: Disk, d: Dinode): (f: seq<byte>)
    requires |d.addrs| == NADDR && d.size <= MAX_FILE_SIZE
    ensures |f| == d.size && forall o :: 0 <= o < |f| ==> f[o] == FileByte(v, d, o)
  {
    seq(d.size, o requires 0 <= o < d.size => FileByte(v, d, o))
  }

  /** sbfs_readpage: what readi delivered, zero-filled to a page. */
  function PadPage(out: seq<byte>): (p: seq<byte>)
    requires |out| <= PageCache.PGSZ
  {
    out + seq(PageCache.PGSZ - |out|, k => 0)
  }

  /** From the first hole of page g on, the file has only zeros in that page. */
  ghost predicate ZeroAfterHole(v: Disk, d: Dinode, g: nat)
    requires |d.addrs| == NADDR && d.size <= MAX_FILE_SIZE
  {
    forall j: nat, k: nat ::
      PageCache.PGSZ * g <= j <= k < PageCache.PGSZ * g + PageCache.PGSZ && k < d.size && !Backed(v, d, j) ==>
      FileByte(v, d, k) == 0
  }

  lemma HoleFreeZero(v: Disk, d: Dinode, g: nat)
    requires HoleFree(v, d)
    ensures ZeroAfterHole(v, d, g)
  {
    hide FileByte, PtrAt, LeafPath;
  }

  lemma ReadBacked(v: Disk, d: Dinode, off: nat, out: seq<byte>, j: nat)
    requires |d.addrs| == NADDR && ReadSoFar(v, d, off, out) && off <= j
    ensures j < off + |out| ==> j < MAX_FILE_SIZE && Backed(v, d, j)
  {
    if j < off + |out| { assert GotByte(v, d, off + (j - off), out[j - off]); }
  }

  /**
   sbfs_readpage delivers the page the cache expects exactly when nothing but zeros follows the page's first hole: the
   read stops there, and the rest is filled with zeros.
   */
  lemma ReadPageIs(v: Disk, d: Dinode, g: nat, out: seq<byte>)
    requires |d.addrs| == NADDR && d.size <= MAX_FILE_SIZE
    requires ReadResult(v, d, PageCache.PGSZ * g, PageCache.PGSZ, out)
    ensures |out| <= PageCache.PGSZ
    ensures PadPage(out) == PageCache.PageOf(FileBytes(v, d), g) <==> ZeroAfterHole(v, d, g)
  {
    hide FileByte, PtrAt, LeafPath;
    var off, f := PageCache.PGSZ * g, FileBytes(v, d);
    var page, want := PadPage(out), PageCache.PageOf(f, g);
    forall k | 0 <= k < |out| ensures page[k] == want[k] && Backed(v, d, off + k) {
      assert GotByte(v, d, off + k, out[k]);
    }
    if ZeroAfterHole(v, d, g) {
      forall k | |out| <= k < PageCache.PGSZ ensures page[k] == want[k] {
        if off + k < d.size { assert !Backed(v, d, off + |out|); }
      }
      assert page == want;
    }
    if page == want {
      forall j: nat, k: nat | off <= j <= k < off + PageCache.PGSZ && k < d.size && !Backed(v, d, j)
        ensures FileByte(v, d, k) == 0
      {
        ReadBacked(v, d, off, out, j);
        assert page[k - off] == want[k - off];
      }
    }
  }

  /** sbfs_readpage over the mounted file system. */
  method LoadPage(fs: FileSystem, i: nat, g: nat) returns (page: seq<byte>)
    requires fs.Mounted(-1) && fs.log.bio.g.held <= 16 && Live(fs.fs.ino, i) && InosOk(fs.fs.ino)
    requires fs.fs.ino[i].size <= MAX_FILE_SIZE
    modifies fs`icache, fs.log.bio`bufs, fs.log.bio`lru, fs.log.bio`g
    ensures fs.Mounted(-1) && fs.log.bio.g == old(fs.log.bio.g).(at := fs.log.bio.g.at)
    ensures page == PageCache.PageOf(FileBytes(fs.log.bio.g.view, fs.fs.ino[i]), g) <==>
            ZeroAfterHole(fs.log.bio.g.view, fs.fs.ino[i], g)
    ensures HoleFree(fs.log.bio.g.view, fs.fs.ino[i]) ==>
      page == PageCache.PageOf(FileBytes(fs.log.bio.g.view, fs.fs.ino[i]), g)
  {
    hide FileSystem.Mounted, ReadResult, ZeroAfterHole, HoleFree;
    var out := fs.Readi(i, PageCache.PGSZ * g, PageCache.PGSZ);
    ReadPageIs(fs.log.bio.g.view, fs.fs.ino[i], g, out);
    if HoleFree(fs.log.bio.g.view, fs.fs.ino[i]) { HoleFreeZero(fs.log.bio.g.view, fs.fs.ino[i], g); }
    page := PadPage(out);
  }

  /** A write that starts at or before the end of the file is a splice, and leaves no hole. */
  lemma WriteIsSplice(v: Disk, ino: seq<Dinode>, v': Disk, ino': seq<Dinode>, i: nat, off: nat, data: seq<byte>)
    requires FileWritten(v, ino, v', ino', i, off, data) && Live(ino, i) && HoleFree(v, ino[i]) && off <= ino[i].size
    requires ino'[i].size == if off + |data| > ino[i].size then off + |data| else ino[i].size
    ensures HoleFree(v', ino'[i]) && FileBytes(v', ino'[i]) == PageCache.Splice(FileBytes(v, ino[i]), off, data)
  {
    hide FileByte, PtrAt, LeafPath;
    forall o: nat | o < ino'[i].size ensures Backed(v', ino'[i], o) {
      if o < ino[i].size { assert Backed(v, ino[i], o); }
    }
    forall o: nat | o < ino'[i].size ensures FileByte(v', ino'[i], o) == NewByte(v, ino[i], i, o, i, off, data) { }
  }

  /** No other file's bytes or blocks change. */
  lemma OtherFilesSame(v: Disk, ino: seq<Dinode>, v': Disk, ino': seq<Dinode>, i: nat, off: nat, data: seq<byte>,
                       j: nat)
    requires FileWritten(v, ino, v', ino', i, off, data) && Live(ino, j) && j != i && HoleFree(v, ino[j])
    ensures HoleFree(v', ino'[j]) && FileBytes(v', ino'[j]) == FileBytes(v, ino[j])
  {
    hide FileByte, PtrAt, LeafPath;
    forall o: nat | o < ino[j].size
      ensures Backed(v', ino'[j], o) && FileByte(v', ino'[j], o) == FileByte(v, ino[j], o)
    {
      assert Backed(v, ino[j], o);
      assert FileByte(v', ino'[j], o) == NewByte(v, ino[j], j, o, i, off, data);
    }
  }

  /**
   A write of part of page g below the size is a writeback exactly when the bytes it did not reach were right already.
   */
  lemma PageWritten(v: Disk, ino: seq<Dinode>, v': Disk, ino': seq<Dinode>, i: nat, g: nat, page: seq<byte>, n: nat)
    requires |page| == PageCache.PGSZ && Live(ino, i) && n <= PageBytes(ino[i].size, g) && InosOk(ino)
    requires ino[i].size <= MAX_FILE_SIZE
    requires FileWritten(v, ino, v', ino', i, PageCache.PGSZ * g, page[..n]) && ino'[i].size == ino[i].size
    ensures |ino'[i].addrs| == NADDR
    ensures FileBytes(v', ino'[i]) == PageCache.WriteBack(FileBytes(v, ino[i]), g, page) <==>
            forall k :: n <= k < PageBytes(ino[i].size, g) ==> FileByte(v, ino[i], PageCache.PGSZ * g + k) == page[k]
  {
    hide FileByte, PtrAt, LeafPath, PtrsKept;
    var off, f, f', back := PageCache.PGSZ * g, FileBytes(v, ino[i]), FileBytes(v', ino'[i]),
      PageCache.WriteBack(FileBytes(v, ino[i]), g, page);
    forall o: nat | o < |f| ensures f'[o] == if off <= o < off + n then page[o - off] else f[o] {
      assert FileByte(v', ino'[i], o) == NewByte(v, ino[i], i, o, i, off, page[..n]);
    }
    forall o: nat | o < |f| ensures back[o] == if off <= o < off + PageCache.PGSZ then page[o - off] else f[o] {
      InPage(o, g);
    }
    if f' == back {
      forall k | n <= k < PageBytes(ino[i].size, g)
        ensures FileByte(v, ino[i], off + k) == page[k]
      {
        assert f'[off + k] == back[off + k];
      }
    }
  }

  /** A writeback that stopped short stopped in a hole. */
  lemma Reached(v: Disk, d: Dinode, g: nat, n: nat)
    requires HoleFree(v, d) && n <= PageBytes(d.size, g)
    requires (n < PageBytes(d.size, g) ==> InHole(v, d, PageCache.PGSZ * g + n))
    ensures n == PageBytes(d.size, g)
  {
    hide PtrAt, LeafPath;
  }

  lemma StillWhole(v: Disk, ino: seq<Dinode>, v': Disk, ino': seq<Dinode>, i: nat, off: nat, data: seq<byte>)
    requires FileWritten(v, ino, v', ino', i, off, data) && Live(ino, i) && HoleFree(v, ino[i])
    requires ino'[i].size == ino[i].size
    ensures HoleFree(v', ino'[i])
  {
    hide FileByte, PtrAt, LeafPath;
    forall o: nat | o < ino'[i].size ensures Backed(v', ino'[i], o) { assert Backed(v, ino[i], o); }
  }

  /** Past the end there is nothing to write back. */
  lemma PastEnd(v: Disk, v': Disk, ino: seq<Dinode>, i: nat, g: nat, page: seq<byte>)
    requires InosOk(ino) && Live(ino, i) && ino[i].size <= MAX_FILE_SIZE && |page| == PageCache.PGSZ
    requires PageBytes(ino[i].size, g) == 0
    requires SameFiles(v, ino, v', ino) && PtrsKept(v, ino, v', ino)
    ensures FileBytes(v', ino[i]) == PageCache.WriteBack(FileBytes(v, ino[i]), g, page)
    ensures HoleFree(v, ino[i]) ==> HoleFree(v', ino[i])
  {
    hide FileByte, PtrAt, LeafPath;
    if HoleFree(v, ino[i]) {
      forall o: nat | o < ino[i].size ensures Backed(v', ino[i], o) { assert Backed(v, ino[i], o); }
    }
    forall o: nat | o < ino[i].size ensures o / PageCache.PGSZ != g { InPage(o, g); }
  }

  lemma InPage(o: nat, g: nat)
    ensures o / PageCache.PGSZ == g <==> PageCache.PGSZ * g <= o < PageCache.PGSZ * g + PageCache.PGSZ
    ensures o / PageCache.PGSZ == g ==> o % PageCache.PGSZ == o - PageCache.PGSZ * g
  {
  }

  /**
   The page cache's writeback of page g. On a file without holes it needs no new block, so it succeeds, even on a full
   disk, and is the whole page; on any file it is the whole page exactly when the bytes it could not write were right.
   */
  method Flush(fs: FileSystem, i: nat, g: nat, page: seq<byte>, now: nat) returns (rc: int, ghost n: nat)
    requires fs.Ready() && Live(fs.fs.ino, i) && i in fs.icache && |page| == PageCache.PGSZ
    requires now < 0x1_0000_0000_0000_0000
    requires InosOk(fs.fs.ino) && fs.fs.ino[i].size <= MAX_FILE_SIZE
    modifies fs, fs.log, fs.log.bio
    ensures fs.Ready() && Live(fs.fs.ino, i) && InosOk(fs.fs.ino) && fs.fs.ino[i].size == old(fs.fs.ino[i].size)
    ensures n <= PageBytes(old(fs.fs.ino[i].size), g)
    ensures (rc == 0 <==> n > 0 || PageBytes(old(fs.fs.ino[i].size), g) == 0)
    ensures (FileBytes(fs.log.bio.g.view, fs.fs.ino[i])
             == PageCache.WriteBack(old(FileBytes(fs.log.bio.g.view, fs.fs.ino[i])), g, page)) <==>
            forall k :: n <= k < PageBytes(old(fs.fs.ino[i].size), g) ==>
              old(FileByte(fs.log.bio.g.view, fs.fs.ino[i], PageCache.PGSZ * g + k)) == page[k]
    ensures old(HoleFree(fs.log.bio.g.view, fs.fs.ino[i])) ==>
      && rc == 0 && HoleFree(fs.log.bio.g.view, fs.fs.ino[i])
      && FileBytes(fs.log.bio.g.view, fs.fs.ino[i]) ==
           PageCache.WriteBack(old(FileBytes(fs.log.bio.g.view, fs.fs.ino[i])), g, page)
  {
    hide FileSystem.Ready, FileWritten, FileByte, Survives, CommittedBy, SameFiles;
    ghost var v, ino := fs.log.bio.g.view, fs.fs.ino;
    ghost var t;
    rc, n, t := fs.WritePage(i, g, page, now);
    if PageBytes(ino[i].size, g) > 0 {
      PageWritten(v, ino, fs.log.bio.g.view, fs.fs.ino, i, g, page, n);
      if HoleFree(v, ino[i]) {
        Reached(v, ino[i], g, n);
        StillWhole(v, ino, fs.log.bio.g.view, fs.fs.ino, i, PageCache.PGSZ * g, page[..n]);
      }
    } else {
      PastEnd(v, fs.log.bio.g.view, ino, i, g, page);
    }
  }

  // ----- the cache over the file system ---------------------------------------------------------

  /** The cache's backing store is the file system: files without holes, byte for byte. */
  ghost predicate Backing(files: PageCache.Files, v: Disk, ino: seq<Dinode>) {
    forall i :: i in files ==> BackedFile(files, v, ino, i)
  }

  ghost predicate BackedFile(files: PageCache.Files, v: Disk, ino: seq<Dinode>, i: nat)
    requires i in files
  {
    Live(ino, i) && HoleFree(v, ino[i]) && files[i] == FileBytes(v, ino[i])
  }

  /** A write to file i is the splice the cache takes it for, and no other file changes. */
  lemma StillBacking(files: PageCache.Files, v: Disk, ino: seq<Dinode>, v': Disk, ino': seq<Dinode>, i: nat, off: nat,
                     data: seq<byte>)
    requires Backing(files, v, ino) && i in files && off <= |files[i]| && FileWritten(v, ino, v', ino', i, off, data)
    requires ino'[i].size == if off + |data| > ino[i].size then off + |data| else ino[i].size
    ensures Backing(files[i := PageCache.Splice(files[i], off, data)], v', ino')
  {
    hide FileByte, HoleFree, FileBytes, FileWritten;
    var files' := files[i := PageCache.Splice(files[i], off, data)];
    forall j | j in files' ensures BackedFile(files', v', ino', j) {
      assert BackedFile(files, v, ino, j) && BackedFile(files, v, ino, i);
      LiveAfter(v, ino, v', ino', i, off, data, j);
      if j == i {
        WriteIsSplice(v, ino, v', ino', i, off, data);
      } else {
        OtherFilesSame(v, ino, v', ino', i, off, data, j);
      }
    }
  }

  lemma LiveAfter(v: Disk, ino: seq<Dinode>, v': Disk, ino': seq<Dinode>, i: nat, off: nat, data: seq<byte>, j: nat)
    requires FileWritten(v, ino, v', ino', i, off, data) && Live(ino, j)
    ensures Live(ino', j)
  {
  }

  /** Every byte of file i read through the cache is the file's. */
  ghost predicate Shows(s: seq<PageCache.Slot>, files: PageCache.Files, v: Disk, d: Dinode, i: nat) {
    && PageCache.PagesSized(s) && i in files && |d.addrs| == NADDR && |files[i]| <= MAX_FILE_SIZE
    && forall o: nat :: o < |files[i]| ==> PageCache.Logical(s, files, i, o) == FileByte(v, d, o)
  }

  /** Every other file reads through the cache as it did. */
  ghost predicate OthersShown(s: seq<PageCache.Slot>, f: PageCache.Files, s': seq<PageCache.Slot>, f': PageCache.Files,
                              i: nat) {
    && PageCache.PagesSized(s) && PageCache.PagesSized(s') && f'.Keys == f.Keys
    && (forall q :: q in f && q != i ==> f'[q] == f[q])
    && forall q, o: nat :: q in f && q != i && o < |f[q]| ==>
      PageCache.Logical(s', f', q, o) == PageCache.Logical(s, f, q, o)
  }

  lemma RangeSub(s: seq<PageCache.Slot>, i: nat, off: nat, n: nat, m: nat)
    requires PageCache.RangeFree(s, i, off, n) && m <= n && off + n <= MAX_FILE_SIZE
    ensures PageCache.RangeFree(s, i, off, m)
  {
  }

  lemma WholeFile(files: PageCache.Files, v: Disk, ino: seq<Dinode>, i: nat)
    requires Backing(files, v, ino) && i in files
    ensures Live(ino, i) && |ino[i].addrs| == NADDR && |files[i]| == ino[i].size <= MAX_FILE_SIZE
    ensures files[i] == FileBytes(v, ino[i])
    ensures forall o: nat :: o < |files[i]| ==> files[i][o] == FileByte(v, ino[i], o)
  {
    hide FileByte;
    assert BackedFile(files, v, ino, i);
  }

  /**
   All of sbfs_op_write: the transactions, then the cache forgets the pages of what was written. The cache is again over
   the file system, and if it had no dirty page of the file, every byte read through it is the file's.
   */
  method WriteFile(fs: FileSystem, cache: PageCache.Cache, i: nat, off: nat, buf: seq<byte>, now: nat)
      returns (r: int, ghost total: nat)
    requires fs.Ready() && cache.Valid() && i in cache.files && now < 0x1_0000_0000_0000_0000
    requires Backing(cache.files, fs.log.bio.g.view, fs.fs.ino) && off <= |cache.files[i]|
    requires PageCache.RangeFree(cache.slots, i, off, Fitting(off, |buf|))
    modifies fs, fs.log, fs.log.bio, cache`slots, cache`files
    ensures fs.Ready() && cache.Valid() && Backing(cache.files, fs.log.bio.g.view, fs.fs.ino)
    ensures total <= Fitting(off, |buf|) && r == (if total == 0 < Fitting(off, |buf|) then -ENOSPC else total)
    ensures total < Fitting(off, |buf|) ==> forall c: nat :: IsData(fs.sb, c) ==> c in fs.fs.owner
    ensures off <= |old(cache.files)[i]| && total <= |buf|
    ensures cache.files == old(cache.files)[i := PageCache.Splice(old(cache.files)[i], off, buf[..total])]
    ensures PageCache.SamePins(old(cache.slots), cache.slots)
    ensures old(PageCache.DirtyFlushable(cache.slots, cache.flushable)) ==>
      PageCache.DirtyFlushable(cache.slots, cache.flushable)
    ensures PageCache.FileClean(old(cache.slots), i) ==>
      i < |fs.fs.ino| && Shows(cache.slots, cache.files, fs.log.bio.g.view, fs.fs.ino[i], i)
    ensures OthersShown(old(cache.slots), old(cache.files), cache.slots, cache.files, i)
  {
    hide FileSystem.Ready, FileWritten, FileByte, PageCache.Cache.Valid, InChunks, HoleFree, Backing;
    hide PageCache.RangeFree, PageCache.Logical, PageCache.SeenAfter;
    ghost var v, ino := fs.log.bio.g.view, fs.fs.ino;
    WholeFile(cache.files, v, ino, i);
    ghost var done, pts, ts;
    r, done, pts, ts := fs.OpWrite(i, off, buf, now);
    var n := if r > 0 then r else 0;
    total := n;
    PageCache.NoWrite(cache.files[i], off);
    if buf != [] {
      StillBacking(cache.files, v, ino, fs.log.bio.g.view, fs.fs.ino, i, off, buf[..n]);
    } else {
      assert buf[..n] == [];
      assert cache.files[i := cache.files[i]] == cache.files;
    }
    RangeSub(cache.slots, i, off, Fitting(off, |buf|), n);
    cache.Write(i, off, buf[..n]);
    WholeFile(cache.files, fs.log.bio.g.view, fs.fs.ino, i);
  }

  lemma StillUnpinned(s: seq<PageCache.Slot>, t: seq<PageCache.Slot>)
    requires PageCache.SamePins(s, t)
    ensures PageCache.Unpinned(s) ==> PageCache.Unpinned(t)
  {
    if PageCache.Unpinned(s) {
      var k :| 0 <= k < |s| && s[k].refcnt == 0;
      assert t[k].refcnt == 0;
    }
  }

  /** What was written comes back through the cache. */
  method WriteThenRead(fs: FileSystem, cache: PageCache.Cache, i: nat, off: nat, buf: seq<byte>, now: nat,
                       failing: set<nat>, readOk: bool) returns (r: int, rc: int, out: seq<byte>)
    requires fs.Ready() && cache.Valid() && i in cache.files && now < 0x1_0000_0000_0000_0000
    requires Backing(cache.files, fs.log.bio.g.view, fs.fs.ino) && off <= |cache.files[i]|
    requires PageCache.RangeFree(cache.slots, i, off, Fitting(off, |buf|)) && PageCache.FileClean(cache.slots, i)
    requires PageCache.DirtyFlushable(cache.slots, cache.flushable)
    modifies fs, fs.log, fs.log.bio, cache`slots, cache`files, cache`lru
    ensures r <= |buf| && |out| <= |buf|
    ensures r >= 0 && rc >= 0 ==> |out| == rc <= r && out == buf[..|out|]
    ensures r >= 0 && readOk && failing == {} && old(PageCache.Unpinned(cache.slots)) ==> rc == r && out == buf[..r]
  {
    hide FileSystem.Ready, FileByte, PageCache.Cache.Valid, HoleFree, Backing, PageCache.RangeFree, PageCache.Logical;
    hide PageCache.DirtyFlushable, PageCache.FileClean, PageCache.Unpinned, PageCache.SamePins;
    ghost var total;
    r, total := WriteFile(fs, cache, i, off, buf, now);
    WholeFile(cache.files, fs.log.bio.g.view, fs.fs.ino, i);
    StillUnpinned(old(cache.slots), cache.slots);
    ghost var s1, f1 := cache.slots, cache.files;
    rc, out := cache.Read(i, off, if r > 0 then r else 0, failing, readOk);
    forall k | 0 <= k < |out| ensures out[k] == buf[k] {
      assert out[k] == PageCache.Logical(s1, f1, i, off + k) == f1[i][off + k];
    }
  }
}
