/** Mounting sbfs: on a fresh image, and on any disk a crash left behind. */
module SbfsMount {
  import opened Bytes
  import opened LogSpec
  import opened BufferCache
  import opened WriteAheadLog
  import opened SbfsSpec
  import opened SbfsOwn
  import opened SbfsCrash
  import opened Sbfs
  import opened Mkfs

  /** Recovery will find the consistent file system f on disk d. */
  ghost predicate Mountable(d: Disk, f: Fs) {
    && 1 < |d|
    && match ReadSuper(d[1])
       case NotSbfs => true
       case Volume(l, sb) => f.sb == sb && DiskOk(l, d) && Consistent(l, Recover(l, d), f)
  }

  /** sbfs_init: reads the superblock, replays the log, and finds the file system; null for a foreign disk. */
  method Init(b: Bio, ghost f: Fs) returns (m: FileSystem?)
    requires b.Valid() && b.g == Shadow(b.disk, b.g.trace, b.g.at, {}, {}, 0) && Mountable(b.disk, f)
    modifies b
    ensures m == null <==> old(ReadSuper(b.disk[1])).NotSbfs?
    ensures m == null ==> b.disk == old(b.disk)
    ensures m != null ==>
      && m.Ready() && m.fs == f && m.log.bio == b && m.log.layout == old(ReadSuper(b.disk[1])).layout
      && DiskOk(m.log.layout, old(b.disk)) && b.disk == Recover(m.log.layout, old(b.disk))
  {
    hide Own, Recover, RecoverWrites, FileSystem.Mounted;
    b.NoFreeBufferPanic(1);
    var i := b.Bread(1);
    var v := ReadSuper(b.bufs[i].data);
    b.Brelse(i);
    assert b.disk == old(b.disk);
    if v.NotSbfs? { return null; }
    var l := new Log(b, v.layout);
    l.RecoverFromLog();
    RecoverIs(v.layout, old(b.disk));
    m := new FileSystem(l, v.sb, f);
  }

  lemma RecoverIs(l: Layout, d: Disk)
    requires DiskOk(l, d)
    ensures Recover(l, d) == Apply(d, RecoverWrites(l, d))
  {
  }

  /** A disk whose log is empty recovers to itself. */
  lemma EmptyLogRecovers(l: Layout, d: Disk)
    requires DiskOk(l, d) && HeaderN(d[l.start]) == 0 && HeaderTrusted(l, d[l.start])
    ensures Recover(l, d) == d
  {
  }

  /** mkfs, then boot: the kernel mounts the root directory mkfs made. */
  method FirstBoot() returns (m: FileSystem?)
    ensures m != null && fresh(m) && m.Ready() && m.fs == RootFs() && Live(m.fs.ino, 1)
  {
    hide Consistent, FileSystem.Ready, Recover, ReadSuper;
    var d := Format();
    assert HeaderTrusted(LAYOUT, d[LOG_START]);
    EmptyLogRecovers(LAYOUT, d);
    var b := new Bio(d);
    m := Init(b, RootFs());
  }

  /** Neither commits nor recoveries write the boot block or the superblock. */
  lemma {:induction false} SuperKept(l: Layout, d: Disk, ks: seq<nat>)
    requires DiskOk(l, d)
    ensures CrashedRecoveries(l, d, ks)[1] == d[1]
    decreases |ks|
  {
    if ks != [] {
      var ws := Cut(RecoverWrites(l, d), ks[0]);
      CutWritesOk(d, RecoverWrites(l, d), ks[0]);
      forall w | w in ws ensures w.bno != 1 { assert w in RecoverWrites(l, d); }
      ApplyUntouched(d, ws, 1);
      SuperKept(l, Apply(d, ws), ks[1..]);
    }
  }

  lemma CommitKeepsSuper(l: Layout, d: Disk, t: Txn, k: nat)
    requires DiskOk(l, d) && TxnOk(l, t) && k <= 2 * |t.blocks| + 2
    ensures CrashedCommit(l, d, t, k)[1] == d[1]
  {
    var ws := CommitWrites(l, d[l.start], t);
    CommitWritesParts(l, d[l.start], t);
    forall w | w in ws[..k] ensures w.bno != 1 { assert w in ws; }
    ApplyUntouched(d, ws[..k], 1);
  }

  /**
   A crash anywhere in a transaction that survives crashes, and then in any number of boots, leaves a disk that the next
   boot mounts: as the file system before the transaction, or as the one after it.
   */
  lemma CrashMounts(l: Layout, d: Disk, fs: Fs, t: Txn, e: Disk, fs': Fs, k: nat, ks: seq<nat>)
    requires Survives(l, d, fs, t, e, fs') && fs.sb == fs'.sb && k <= 2 * |t.blocks| + 2
    requires ReadSuper(d[1]) == Volume(l, fs.sb)
    ensures DiskOk(l, d) && TxnOk(l, t)
    ensures Mountable(CrashedRecoveries(l, CrashedCommit(l, d, t, k), ks), if k <= |t.blocks| then fs else fs')
  {
    hide Recover, Consistent, CrashedCommit, ReadSuper;
    CommitKeepsSuper(l, d, t, k);
    SuperKept(l, CrashedCommit(l, d, t, k), ks);
    assert Recovered(l, if k <= |t.blocks| then d else e, if k <= |t.blocks| then fs
      else fs', AfterCrash(l, d, t, k, ks));
  }
}
