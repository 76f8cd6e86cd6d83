/** A crash during an operation leaves the file system as it was before the operation or as it is after it. */
module SbfsCrash {
  import opened Bytes
  import opened LogSpec
  import opened SbfsSpec
  import opened SbfsOwn
  import opened SbfsBytes
  import opened SbfsHome

  /** Disk d is a consistent file system with metadata fs. */
  ghost predicate Consistent(l: Layout, d: Disk, fs: Fs) {
    && SuperOk(l, fs.sb) && fs.loose == {} && Own(d, fs) && Synced(d, fs.sb, fs.ino, fs.ino, -1)
  }

  /** The block writes between the two disks are exactly those that commit t. */
  ghost predicate CommittedBy(l: Layout, d: Disk, trace: seq<Write>, d': Disk, trace': seq<Write>, t: Txn) {
    && DiskOk(l, d) && TxnOk(l, t)
    && var ws := CommitWrites(l, d[l.start], t);
    && WritesOk(d, ws) && d' == Apply(d, ws) && trace' == trace + ws
  }

  lemma HomeConsistent(l: Layout, d: Disk, d': Disk, fs: Fs)
    requires Consistent(l, d, fs) && HomeEq(l, d', d)
    ensures Consistent(l, d', fs) && SameFiles(d, fs.ino, d', fs.ino) && SamePtrs(d, d', fs.ino)
  {
    hide Own;
    HomeOwn(l, d, d', fs);
    SyncedFrame(d, d', fs.sb, fs.ino, fs.ino, -1);
  }

  lemma WholeCommit(l: Layout, d: Disk, t: Txn)
    requires DiskOk(l, d) && TxnOk(l, t)
    ensures var ws := CommitWrites(l, d[l.start], t);
            WritesOk(d, ws) && CrashedCommit(l, d, t, 2 * |t.blocks| + 2) == Apply(d, ws)
  {
    var ws := CommitWrites(l, d[l.start], t);
    assert ws[..|ws|] == ws;
  }

  /** Disk d' holds the consistent file system fs, and its files read as on disk d. */
  ghost predicate Recovered(l: Layout, d: Disk, fs: Fs, d': Disk) {
    HeaderAt(l, d') && Consistent(l, d', fs) && SameFiles(d, fs.ino, d', fs.ino) && SamePtrs(d, d', fs.ino)
  }

  ghost predicate HeaderAt(l: Layout, d: Disk) { l.start < |d| && HeaderN(d[l.start]) == 0 }

  /** What the disk holds after k block writes of t's commit, recoveries that crash after ks writes, and a whole one. */
  ghost function AfterCrash(l: Layout, d: Disk, t: Txn, k: nat, ks: seq<nat>): Disk
    requires DiskOk(l, d) && TxnOk(l, t) && k <= 2 * |t.blocks| + 2
  {
    Recover(l, CrashedRecoveries(l, CrashedCommit(l, d, t, k), ks))
  }

  /**
   Transaction t takes file system fs on disk d to fs' on disk e, whatever happens: after a crash at any of its block
   writes and in any number of recoveries, the disk recovers to the one if the commit header had not been written,
   and to the other if it had.
   */
  ghost predicate Survives(l: Layout, d: Disk, fs: Fs, t: Txn, e: Disk, fs': Fs) {
    && DiskOk(l, d) && TxnOk(l, t)
    && forall k: nat, ks: seq<nat> :: k <= 2 * |t.blocks| + 2 ==>
         if k <= |t.blocks| then Recovered(l, d, fs, AfterCrash(l, d, t, k, ks))
         else Recovered(l, e, fs', AfterCrash(l, d, t, k, ks))
  }

  lemma CrashKeepsFiles(l: Layout, d: Disk, fs: Fs, t: Txn, e: Disk, fs': Fs, k: nat, ks: seq<nat>)
    requires DiskOk(l, d) && TxnOk(l, t) && HeaderN(d[l.start]) == 0 && k <= 2 * |t.blocks| + 2
    requires WritesOk(d, CommitWrites(l, d[l.start], t)) && e == Apply(d, CommitWrites(l, d[l.start], t))
    requires Consistent(l, d, fs) && Consistent(l, e, fs')
    ensures var after := AfterCrash(l, d, t, k, ks);
            if k <= |t.blocks| then Recovered(l, d, fs, after) else Recovered(l, e, fs', after)
  {
    hide Consistent, CommitWrites, CrashedCommit, Recover, CrashedRecoveries, Install;
    CrashAtomicity(l, d, t, k, ks);
    var after := AfterCrash(l, d, t, k, ks);
    if k <= |t.blocks| {
      HomeConsistent(l, d, after, fs);
    } else {
      CompletedCommit(l, d, t);
      WholeCommit(l, d, t);
      HomeConsistent(l, e, after, fs');
    }
  }

  /** Every transaction that a consistent file system commits, leaving a consistent one, survives crashes. */
  lemma CommitSurvives(l: Layout, d: Disk, fs: Fs, tr: seq<Write>, t: Txn, e: Disk, fs': Fs, tr': seq<Write>)
    requires CommittedBy(l, d, tr, e, tr', t) && HeaderN(d[l.start]) == 0 && Consistent(l, d, fs)
    requires Consistent(l, e, fs')
    ensures Survives(l, d, fs, t, e, fs')
  {
    hide Consistent, CommitWrites, AfterCrash, Recovered;
    forall k: nat, ks: seq<nat> | k <= 2 * |t.blocks| + 2
      ensures if k <= |t.blocks| then Recovered(l, d, fs, AfterCrash(l, d, t, k, ks))
              else Recovered(l, e, fs', AfterCrash(l, d, t, k, ks))
    {
      CrashKeepsFiles(l, d, fs, t, e, fs', k, ks);
    }
  }

  /** The file system between two transactions of a write, the block writes so far, and how many of its bytes are in. */
  datatype Point = Point(disk: Disk, trace: seq<Write>, fs: Fs, done: nat)

  /** Between points p and q the disk sees exactly t's commit, which survives crashes. */
  ghost predicate Between(l: Layout, p: Point, t: Txn, q: Point) {
    CommittedBy(l, p.disk, p.trace, q.disk, q.trace, t) && Survives(l, p.disk, p.fs, t, q.disk, q.fs)
  }

  /** At point p, exactly the first p.done bytes of buf have been written to inode i. */
  ghost predicate HasWritten(p0: Point, p: Point, i: nat, off: nat, buf: seq<byte>) {
    && p.done <= |buf| && Live(p0.fs.ino, i)
    && FileWritten(p0.disk, p0.fs.ino, p.disk, p.fs.ino, i, off, buf[..p.done])
  }

  /**
   The points of a write in chunks: each transaction between them survives crashes, and all chunks but the last are
   whole.
   */
  ghost predicate InChunks(l: Layout, pts: seq<Point>, ts: seq<Txn>, i: nat, off: nat, buf: seq<byte>) {
    && |pts| == |ts| + 1
    && (forall j :: 0 <= j < |pts| ==> HasWritten(pts[0], pts[j], i, off, buf))
    && (forall j :: 0 <= j < |ts| ==> pts[j].done == 6 * BSIZE * j)
    && (forall j :: 0 <= j < |ts| ==> Between(l, pts[j], ts[j], pts[j + 1]))
  }

  lemma FirstPoint(l: Layout, p: Point, i: nat, off: nat, buf: seq<byte>)
    requires InosOk(p.fs.ino) && Live(p.fs.ino, i) && p.done == 0 && off <= MAX_FILE_SIZE
    ensures InChunks(l, [p], [], i, off, buf)
  {
    hide FileWritten;
    assert buf[..0] == [];
    NothingWritten(p.disk, p.fs.ino, i, off);
  }

  lemma NextPoint(l: Layout, pts: seq<Point>, ts: seq<Txn>, i: nat, off: nat, buf: seq<byte>, t: Txn, p: Point)
    requires InChunks(l, pts, ts, i, off, buf) && pts[|ts|].done == 6 * BSIZE * |ts|
    requires HasWritten(pts[0], p, i, off, buf) && Between(l, pts[|ts|], t, p)
    ensures InChunks(l, pts + [p], ts + [t], i, off, buf)
  {
    hide HasWritten, Between;
  }

  lemma ConsistentInos(l: Layout, d: Disk, fs: Fs)
    requires Consistent(l, d, fs)
    ensures InosOk(fs.ino)
  {
  }

  lemma WrittenInode(p0: Point, p: Point, i: nat, off: nat, buf: seq<byte>)
    requires HasWritten(p0, p, i, off, buf)
    ensures OnlyInode(p.fs.ino, p.fs.ino, i)
  {
  }

  /** So a crash at any block write of any chunk leaves a whole number of chunks, or all that was written. */
  lemma CrashLeavesChunks(l: Layout, pts: seq<Point>, ts: seq<Txn>, i: nat, off: nat, buf: seq<byte>, j: nat, k: nat,
                          ks: seq<nat>)
    requires InChunks(l, pts, ts, i, off, buf) && j < |ts| && k <= 2 * |ts[j].blocks| + 2
    ensures DiskOk(l, pts[j].disk) && TxnOk(l, ts[j])
    ensures var p := pts[if k <= |ts[j].blocks| then j else j + 1];
            && (p.done == 6 * BSIZE * j || p.done == 6 * BSIZE * (j + 1) || p == pts[|ts|])
            && var after := AfterCrash(l, pts[j].disk, ts[j], k, ks);
            && Consistent(l, after, p.fs) && HasWritten(pts[0], p.(disk := after), i, off, buf)
  {
    hide Consistent, FileWritten, AfterCrash;
    var m := if k <= |ts[j].blocks| then j else j + 1;
    assert Between(l, pts[j], ts[j], pts[j + 1]);
    var p, after := pts[m], AfterCrash(l, pts[j].disk, ts[j], k, ks);
    assert Recovered(l, p.disk, p.fs, after);
    assert HasWritten(pts[0], p, i, off, buf);
    ConsistentInos(l, after, p.fs);
    SamePtrsKept(p.disk, after, p.fs.ino);
    WrittenInode(pts[0], p, i, off, buf);
    WrittenThenSame(pts[0].disk, pts[0].fs.ino, p.disk, p.fs.ino, after, p.fs.ino, i, off, buf[..p.done]);
  }
}
