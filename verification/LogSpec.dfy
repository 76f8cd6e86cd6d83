/**
 The write-ahead log protocol on a disk of atomically written blocks: which
 block writes a commit and a recovery issue, in which order, and what any crash
 between two of those writes leaves behind.
 */
module LogSpec {
  import opened Bytes

  const LOG_HDR_MAX := 15

  datatype Layout = Layout(start: nat, size: nat, diskSize: nat)

  ghost predicate LayoutOk(l: Layout) {
    && 2 <= l.start
    && LOG_HDR_MAX + 1 <= l.size
    && l.start + l.size <= l.diskSize < U32MAX
  }

  type Disk = seq<Block>

  ghost predicate DiskOk(l: Layout, d: Disk) { LayoutOk(l) && |d| == l.diskSize }

  predicate InLog(l: Layout, b: nat) { l.start <= b < l.start + l.size }

  /** Blocks a transaction may contain: not boot, not superblock, not the log, on the disk. */
  predicate Loggable(l: Layout, b: nat) { 2 <= b < l.diskSize && !InLog(l, b) }

  /** Equal outside the log region. */
  ghost predicate HomeEq(l: Layout, d: Disk, e: Disk) {
    |d| == |e| && forall b :: 0 <= b < |d| && !InLog(l, b) ==> d[b] == e[b]
  }

  // ----- block writes ------------------------------------------------------

  datatype Write = Write(bno: nat, data: Block)

  ghost predicate WritesOk(d: Disk, ws: seq<Write>) { forall w :: w in ws ==> w.bno < |d| }

  function Apply(d: Disk, ws: seq<Write>): (e: Disk)
    requires WritesOk(d, ws)
    ensures |e| == |d|
    decreases |ws|
  {
    if ws == [] then d else Apply(d[ws[0].bno := ws[0].data], ws[1..])
  }

  lemma {:induction false} ApplyConcat(d: Disk, ws: seq<Write>, vs: seq<Write>)
    requires WritesOk(d, ws) && WritesOk(d, vs)
    ensures WritesOk(d, ws + vs) && Apply(d, ws + vs) == Apply(Apply(d, ws), vs)
    decreases |ws|
  {
    if ws == [] {
      assert ws + vs == vs;
    } else {
      assert (ws + vs)[1..] == ws[1..] + vs;
      ApplyConcat(d[ws[0].bno := ws[0].data], ws[1..], vs);
    }
  }

  lemma ApplyOne(d: Disk, w: Write)
    requires w.bno < |d|
    ensures WritesOk(d, [w]) && Apply(d, [w]) == d[w.bno := w.data]
  {
    assert [w][1..] == [];
  }

  lemma {:induction false} ApplyUntouched(d: Disk, ws: seq<Write>, b: nat)
    requires WritesOk(d, ws) && b < |d|
    requires forall w :: w in ws ==> w.bno != b
    ensures Apply(d, ws)[b] == d[b]
    decreases |ws|
  {
    if ws != [] {
      assert ws[0] in ws;
      ApplyUntouched(d[ws[0].bno := ws[0].data], ws[1..], b);
    }
  }

  // ----- header block ------------------------------------------------------

  function HeaderN(h: Block): nat { U32(h, 0) }

  function HeaderBlk(h: Block, i: nat): nat
    requires i < LOG_HDR_MAX
  {
    U32(h, 4 + 4 * i)
  }

  /** The header write_log_header produces: count and entries set, later entries left as they were. */
  function EncodeHeader(h: Block, blocks: seq<nat>): (r: Block)
    requires |blocks| <= LOG_HDR_MAX
    requires forall i :: 0 <= i < |blocks| ==> blocks[i] < U32MAX
  {
    PutWords(PutU32(h, 0, |blocks|), 4, blocks, |blocks|)
  }

  /** Reading the header back gives the count and the entries. */
  lemma EncodeHeaderFacts(h: Block, blocks: seq<nat>)
    requires |blocks| <= LOG_HDR_MAX
    requires forall i :: 0 <= i < |blocks| ==> blocks[i] < U32MAX
    ensures HeaderN(EncodeHeader(h, blocks)) == |blocks| && HeaderBlocks(EncodeHeader(h, blocks)) == blocks
  {
    PutWordsFacts(PutU32(h, 0, |blocks|), 4, blocks, |blocks|);
    U32Frame(EncodeHeader(h, blocks), PutU32(h, 0, |blocks|), 0);
  }

  // ----- commit and recovery as sequences of block writes --------------------

  /** One transaction: the home block numbers it changes and their new contents. */
  datatype Txn = Txn(blocks: seq<nat>, data: seq<Block>)

  ghost predicate TxnOk(l: Layout, t: Txn) {
    && |t.blocks| == |t.data| <= LOG_HDR_MAX
    && (forall i :: 0 <= i < |t.blocks| ==> Loggable(l, t.blocks[i]))
    && (forall i, j :: 0 <= i < j < |t.blocks| ==> t.blocks[i] != t.blocks[j])
  }

  /** The flat block array after t, all at once. */
  ghost function Install(d: Disk, t: Txn): (e: Disk)
    ensures |e| == |d|
  {
    seq(|d|, b requires 0 <= b < |d| =>
      if exists i :: 0 <= i < |t.blocks| && i < |t.data| && t.blocks[i] == b
      then t.data[(var i :| 0 <= i < |t.blocks| && i < |t.data| && t.blocks[i] == b; i)]
      else d[b])
  }

  function LogWrites(l: Layout, data: seq<Block>): seq<Write> {
    seq(|data|, i requires 0 <= i < |data| => Write(l.start + 1 + i, data[i]))
  }

  function HomeWrites(blocks: seq<nat>, data: seq<Block>): seq<Write>
    requires |blocks| <= |data|
  {
    seq(|blocks|, i requires 0 <= i < |blocks| => Write(blocks[i], data[i]))
  }

  /** end_op: log data, commit header, home locations, cleared header. */
  ghost function CommitWrites(l: Layout, h: Block, t: Txn): (ws: seq<Write>)
    requires LayoutOk(l) && TxnOk(l, t)
    ensures |ws| == 2 * |t.blocks| + 2
  {
    var h1 := EncodeHeader(h, t.blocks);
    LogWrites(l, t.data) + [Write(l.start, h1)] + HomeWrites(t.blocks, t.data) + [Write(l.start, EncodeHeader(h1, []))]
  }

  /** recover_from_log rejects a count or an entry that no commit could have written. */
  ghost predicate HeaderTrusted(l: Layout, h: Block) {
    HeaderN(h) <= LOG_HDR_MAX && forall i :: 0 <= i < HeaderN(h) ==> Loggable(l, HeaderBlk(h, i))
  }

  ghost function HeaderBlocks(h: Block): (bs: seq<nat>)
    requires HeaderN(h) <= LOG_HDR_MAX
  {
    seq(HeaderN(h), i requires 0 <= i < HeaderN(h) => HeaderBlk(h, i))
  }

  /** The writes of recovery, from all it reads: the header block and the log data blocks. */
  ghost function ReplayWrites(l: Layout, h: Block, data: seq<Block>): (ws: seq<Write>)
    requires LayoutOk(l) && |data| == LOG_HDR_MAX
    ensures forall w :: w in ws ==> w.bno < l.diskSize
    ensures forall i :: 0 <= i < |ws| - 1 ==> !InLog(l, ws[i].bno)
  {
    if !HeaderTrusted(l, h) then [Write(l.start, EncodeHeader(h, []))]
    else if HeaderN(h) == 0 then []
    else HomeWrites(HeaderBlocks(h), data) + [Write(l.start, EncodeHeader(h, []))]
  }

  function LogData(l: Layout, d: Disk): (s: seq<Block>)
    requires l.start + 1 + LOG_HDR_MAX <= |d|
  {
    d[l.start + 1..l.start + 1 + LOG_HDR_MAX]
  }

  ghost function RecoverWrites(l: Layout, d: Disk): (ws: seq<Write>)
    requires DiskOk(l, d)
    ensures WritesOk(d, ws)
  {
    ReplayWrites(l, d[l.start], LogData(l, d))
  }

  ghost function Recover(l: Layout, d: Disk): (e: Disk)
    requires DiskOk(l, d)
    ensures |e| == |d|
  {
    Apply(d, RecoverWrites(l, d))
  }

  function Cut<T>(s: seq<T>, k: nat): seq<T> { if k <= |s| then s[..k] else s }

  lemma CutWritesOk(d: Disk, ws: seq<Write>, k: nat)
    requires WritesOk(d, ws)
    ensures WritesOk(d, Cut(ws, k))
  {
  }

  /** Boot, crash after ks[0] recovery writes, boot again, crash after ks[1] writes, and so on. */
  ghost function CrashedRecoveries(l: Layout, d: Disk, ks: seq<nat>): (e: Disk)
    requires DiskOk(l, d)
    ensures |e| == |d|
    decreases |ks|
  {
    if ks == [] then d
    else
      CutWritesOk(d, RecoverWrites(l, d), ks[0]);
      CrashedRecoveries(l, Apply(d, Cut(RecoverWrites(l, d), ks[0])), ks[1..])
  }

  // ----- recovery under crashes ---------------------------------------------

  lemma {:induction false} ApplyCovered(d: Disk, e: Disk, ws: seq<Write>)
    requires |d| == |e| && WritesOk(d, ws)
    requires forall b :: 0 <= b < |d| && d[b] != e[b] ==> exists w :: w in ws && w.bno == b
    ensures Apply(d, ws) == Apply(e, ws)
    decreases |ws|
  {
    if ws != [] {
      var d', e' := d[ws[0].bno := ws[0].data], e[ws[0].bno := ws[0].data];
      forall b | 0 <= b < |d'| && d'[b] != e'[b] ensures exists w :: w in ws[1..] && w.bno == b {
        var w :| w in ws && w.bno == b;
        assert w in ws[1..];
      }
      ApplyCovered(d', e', ws[1..]);
    } else {
      assert d == e;
    }
  }

  /** Replaying a write sequence over any prefix of itself changes nothing. */
  lemma ApplyAgain(d: Disk, ws: seq<Write>, k: nat)
    requires WritesOk(d, ws) && k <= |ws|
    ensures WritesOk(d, ws[..k]) && Apply(Apply(d, ws[..k]), ws) == Apply(d, ws)
  {
    var e := Apply(d, ws[..k]);
    forall b | 0 <= b < |d| && d[b] != e[b] ensures exists w :: w in ws && w.bno == b {
      if forall w :: w in ws[..k] ==> w.bno != b { ApplyUntouched(d, ws[..k], b); }
    }
    ApplyCovered(d, e, ws);
  }

  lemma RecoverClears(l: Layout, d: Disk)
    requires DiskOk(l, d)
    ensures HeaderN(Recover(l, d)[l.start]) == 0
    ensures RecoverWrites(l, Recover(l, d)) == []
  {
    var h, ws := d[l.start], RecoverWrites(l, d);
    EncodeHeaderFacts(h, []);
    if ws != [] {
      ApplyConcat(d, ws[..|ws| - 1], [ws[|ws| - 1]]);
      assert ws == ws[..|ws| - 1] + [ws[|ws| - 1]];
    }
  }

  lemma LogRegionKept(l: Layout, d: Disk, ws: seq<Write>)
    requires DiskOk(l, d) && WritesOk(d, ws)
    requires forall w :: w in ws ==> !InLog(l, w.bno)
    ensures forall b :: 0 <= b < |d| && InLog(l, b) ==> Apply(d, ws)[b] == d[b]
  {
    forall b | 0 <= b < |d| && InLog(l, b) ensures Apply(d, ws)[b] == d[b] { ApplyUntouched(d, ws, b); }
  }

  /** A recovery that crashes after any number of its writes, and is run again, ends the same. */
  lemma OneCrashedRecovery(l: Layout, d: Disk, k: nat)
    requires DiskOk(l, d)
    ensures WritesOk(d, Cut(RecoverWrites(l, d), k))
    ensures Recover(l, Apply(d, Cut(RecoverWrites(l, d), k))) == Recover(l, d)
  {
    var h, ws := d[l.start], RecoverWrites(l, d);
    CutWritesOk(d, ws, k);
    if k >= |ws| {
      RecoverClears(l, d);
      assert Cut(ws, k) == ws;
    } else {
      RecoverWritesStable(l, d, k);
      ApplyAgain(d, ws, k);
    }
  }

  /** Until its last write, recovery keeps everything it reads: header and log data. */
  lemma RecoverWritesStable(l: Layout, d: Disk, k: nat)
    requires DiskOk(l, d) && k < |RecoverWrites(l, d)|
    ensures WritesOk(d, RecoverWrites(l, d)[..k])
    ensures RecoverWrites(l, Apply(d, RecoverWrites(l, d)[..k])) == RecoverWrites(l, d)
  {
    var done := RecoverWrites(l, d)[..k];
    LogRegionKept(l, d, done);
    assert LogData(l, Apply(d, done)) == LogData(l, d);
  }

  /**
   Recovery is crash-proof on every disk image, whatever its header holds: any number of
   crashed recoveries followed by one that completes ends in the same disk as a single recovery.
   */
  lemma {:induction false} RecoveryIdempotent(l: Layout, d: Disk, ks: seq<nat>)
    requires DiskOk(l, d)
    ensures Recover(l, CrashedRecoveries(l, d, ks)) == Recover(l, d)
    decreases |ks|
  {
    if ks != [] {
      OneCrashedRecovery(l, d, ks[0]);
      RecoveryIdempotent(l, Apply(d, Cut(RecoverWrites(l, d), ks[0])), ks[1..]);
    }
  }

  // ----- commit under crashes -----------------------------------------------

  lemma {:induction false} HomeWritesApplied(d: Disk, blocks: seq<nat>, data: seq<Block>, n: nat)
    requires n <= |blocks| <= |data|
    requires forall i :: 0 <= i < |blocks| ==> blocks[i] < |d|
    requires forall i, j :: 0 <= i < j < |blocks| ==> blocks[i] != blocks[j]
    ensures WritesOk(d, HomeWrites(blocks, data)[..n])
    ensures var e := Apply(d, HomeWrites(blocks, data)[..n]);
            && (forall i :: 0 <= i < n ==> e[blocks[i]] == data[i])
            && (forall b :: 0 <= b < |d| && b !in blocks[..n] ==> e[b] == d[b])
  {
    if n > 0 {
      var ws := HomeWrites(blocks, data);
      HomeWritesApplied(d, blocks, data, n - 1);
      ApplyConcat(d, ws[..n - 1], [ws[n - 1]]);
      assert ws[..n] == ws[..n - 1] + [ws[n - 1]];
    }
  }

  lemma {:induction false} LogWritesApplied(l: Layout, d: Disk, data: seq<Block>, n: nat)
    requires DiskOk(l, d) && n <= |data| <= LOG_HDR_MAX
    ensures WritesOk(d, LogWrites(l, data)[..n])
    ensures var e := Apply(d, LogWrites(l, data)[..n]);
            && (forall i :: 0 <= i < n ==> e[l.start + 1 + i] == data[i])
            && (forall b :: 0 <= b < |d| && !(l.start < b < l.start + 1 + n) ==> e[b] == d[b])
  {
    if n > 0 {
      var ws := LogWrites(l, data);
      LogWritesApplied(l, d, data, n - 1);
      ApplyConcat(d, ws[..n - 1], [ws[n - 1]]);
      assert ws[..n] == ws[..n - 1] + [ws[n - 1]];
    }
  }

  /** The disk after the log data and the commit header are written. */
  ghost function Committed(l: Layout, d: Disk, t: Txn): (e: Disk)
    requires DiskOk(l, d) && TxnOk(l, t)
  {
    LogWritesApplied(l, d, t.data, |t.data|);
    assert LogWrites(l, t.data)[..|t.data|] == LogWrites(l, t.data);
    Apply(d, LogWrites(l, t.data))[l.start := EncodeHeader(d[l.start], t.blocks)]
  }

  lemma CommittedFacts(l: Layout, d: Disk, t: Txn)
    requires DiskOk(l, d) && TxnOk(l, t)
    ensures var e := Committed(l, d, t);
            && |e| == |d| && HomeEq(l, e, d)
            && e[l.start] == EncodeHeader(d[l.start], t.blocks)
            && HeaderTrusted(l, e[l.start]) && HeaderBlocks(e[l.start]) == t.blocks
            && e[l.start + 1..l.start + 1 + |t.data|] == t.data
  {
    LogWritesApplied(l, d, t.data, |t.data|);
    EncodeHeaderFacts(d[l.start], t.blocks);
    assert LogWrites(l, t.data)[..|t.data|] == LogWrites(l, t.data);
    forall i | 0 <= i < |t.blocks| ensures HeaderBlk(Committed(l, d, t)[l.start], i) == t.blocks[i] {
      assert HeaderBlk(Committed(l, d, t)[l.start], i) == HeaderBlocks(Committed(l, d, t)[l.start])[i];
    }
  }

  lemma InstallAt(l: Layout, d: Disk, t: Txn)
    requires TxnOk(l, t) && |d| == l.diskSize
    ensures forall i :: 0 <= i < |t.blocks| ==> Install(d, t)[t.blocks[i]] == t.data[i]
    ensures forall b :: 0 <= b < |d| && b !in t.blocks ==> Install(d, t)[b] == d[b]
  {
  }

  lemma CommittedRecoverWrites(l: Layout, d: Disk, t: Txn)
    requires DiskOk(l, d) && TxnOk(l, t)
    ensures var e := Committed(l, d, t);
            RecoverWrites(l, e) ==
            if t.blocks == [] then []
            else HomeWrites(t.blocks, t.data) + [Write(l.start, EncodeHeader(EncodeHeader(d[l.start], t.blocks), []))]
  {
    CommittedFacts(l, d, t);
    TrustedRecoverWrites(l, Committed(l, d, t), t.blocks, t.data);
  }

  lemma TrustedRecoverWrites(l: Layout, e: Disk, blocks: seq<nat>, data: seq<Block>)
    requires DiskOk(l, e) && HeaderTrusted(l, e[l.start]) && |blocks| == |data| <= LOG_HDR_MAX
    requires HeaderBlocks(e[l.start]) == blocks && e[l.start + 1..l.start + 1 + |data|] == data
    ensures RecoverWrites(l, e) ==
            if blocks == [] then [] else HomeWrites(blocks, data) + [Write(l.start, EncodeHeader(e[l.start], []))]
  {
    var h := e[l.start];
    assert HeaderN(h) == |HeaderBlocks(h)| == |blocks|;
    assert LogData(l, e)[..|data|] == data;
    assert HomeWrites(blocks, LogData(l, e)) == HomeWrites(blocks, data);
  }

  /** From the commit header on, recovery installs the whole transaction. */
  lemma CommittedRecovers(l: Layout, d: Disk, t: Txn)
    requires DiskOk(l, d) && TxnOk(l, t)
    ensures HomeEq(l, Recover(l, Committed(l, d, t)), Install(d, t))
  {
    var e, h := Committed(l, d, t), EncodeHeader(EncodeHeader(d[l.start], t.blocks), []);
    assert HomeEq(l, e, d) by { CommittedFacts(l, d, t); }
    var ws := if t.blocks == [] then [] else HomeWrites(t.blocks, t.data) + [Write(l.start, h)];
    assert RecoverWrites(l, e) == ws by { CommittedRecoverWrites(l, d, t); }
    hide EncodeHeader, Committed, RecoverWrites, HomeWrites, TxnOk;
    if t.blocks != [] {
      HomeThenHeader(l, e, t, h);
    }
    InstalledIsInstall(l, d, Apply(e, ws), t);
  }

  lemma HomeThenHeader(l: Layout, e: Disk, t: Txn, h: Block)
    requires DiskOk(l, e) && TxnOk(l, t)
    ensures var ws := HomeWrites(t.blocks, t.data) + [Write(l.start, h)];
            && WritesOk(e, ws)
            && (forall i :: 0 <= i < |t.blocks| ==> Apply(e, ws)[t.blocks[i]] == t.data[i])
            && (forall b :: 0 <= b < |e| && !InLog(l, b) && b !in t.blocks ==> Apply(e, ws)[b] == e[b])
  {
    var hw := HomeWrites(t.blocks, t.data);
    HomeWritesApplied(e, t.blocks, t.data, |t.blocks|);
    assert hw[..|t.blocks|] == hw && t.blocks[..|t.blocks|] == t.blocks;
    ApplyConcat(e, hw, [Write(l.start, h)]);
  }

  lemma InstalledIsInstall(l: Layout, d: Disk, e: Disk, t: Txn)
    requires DiskOk(l, d) && TxnOk(l, t) && |e| == |d|
    requires forall i :: 0 <= i < |t.blocks| ==> e[t.blocks[i]] == t.data[i]
    requires forall b :: 0 <= b < |d| && !InLog(l, b) && b !in t.blocks ==> e[b] == d[b]
    ensures HomeEq(l, e, Install(d, t))
  {
    InstallAt(l, d, t);
  }

  lemma CommitWritesParts(l: Layout, h: Block, t: Txn)
    requires LayoutOk(l) && TxnOk(l, t)
    ensures var ws, n := CommitWrites(l, h, t), |t.blocks|;
            && ws[..n] == LogWrites(l, t.data)
            && ws[n] == Write(l.start, EncodeHeader(h, t.blocks))
            && ws[n + 1..]
               == HomeWrites(t.blocks, t.data) + [Write(l.start, EncodeHeader(EncodeHeader(h, t.blocks), []))]
            && (forall w :: w in ws ==> w.bno < l.diskSize)
  {
    var lw, hw := LogWrites(l, t.data), HomeWrites(t.blocks, t.data);
    var ws, c := CommitWrites(l, h, t), Write(l.start, EncodeHeader(h, t.blocks));
    var z := Write(l.start, EncodeHeader(EncodeHeader(h, t.blocks), []));
    assert ws == lw + [c] + hw + [z];
    forall w | w in ws ensures w.bno < l.diskSize {
      assert w in lw || w == c || w in hw || w == z;
    }
  }

  /** The disk after the first k block writes of end_op, before the commit header. */
  lemma CommitHead(l: Layout, d: Disk, t: Txn, k: nat)
    requires DiskOk(l, d) && TxnOk(l, t) && k <= |t.blocks|
    ensures var ws := CommitWrites(l, d[l.start], t);
            WritesOk(d, ws[..k]) && WritesOk(d, LogWrites(l, t.data)[..k])
            && Apply(d, ws[..k]) == Apply(d, LogWrites(l, t.data)[..k])
  {
    var ws, n := CommitWrites(l, d[l.start], t), |t.blocks|;
    CommitWritesParts(l, d[l.start], t);
    assert ws[..k] == ws[..n][..k];
  }

  /** The same, from the commit header on. */
  lemma CommitTail(l: Layout, d: Disk, t: Txn, k: nat)
    requires DiskOk(l, d) && TxnOk(l, t) && |t.blocks| < k <= 2 * |t.blocks| + 2
    ensures var ws, n := CommitWrites(l, d[l.start], t), |t.blocks|;
            && WritesOk(d, ws[..k]) && WritesOk(d, ws[n + 1..][..k - n - 1])
            && Apply(d, ws[..k]) == Apply(Committed(l, d, t), ws[n + 1..][..k - n - 1])
  {
    var ws, n := CommitWrites(l, d[l.start], t), |t.blocks|;
    assert WritesOk(d, ws) by { CommitWritesParts(l, d[l.start], t); }
    ApplySplit(d, ws, n, k);
    CommittedBySplit(l, d, t);
  }

  lemma CommittedBySplit(l: Layout, d: Disk, t: Txn)
    requires DiskOk(l, d) && TxnOk(l, t)
    ensures var ws, n := CommitWrites(l, d[l.start], t), |t.blocks|;
            && WritesOk(d, ws[..n]) && ws[n].bno == l.start
            && Apply(d, ws[..n])[l.start := ws[n].data] == Committed(l, d, t)
  {
    CommitWritesParts(l, d[l.start], t);
  }

  lemma ApplySplit(d: Disk, ws: seq<Write>, n: nat, k: nat)
    requires WritesOk(d, ws) && n < k <= |ws|
    ensures WritesOk(d, ws[..n]) && WritesOk(d, ws[..k]) && WritesOk(d, ws[n + 1..][..k - n - 1])
    ensures ws[n] in ws
    ensures Apply(d, ws[..k]) == Apply(Apply(d, ws[..n])[ws[n].bno := ws[n].data], ws[n + 1..][..k - n - 1])
  {
    var head, mid, tail := ws[..n], [ws[n]], ws[n + 1..][..k - n - 1];
    assert ws[..k] == head + (mid + tail);
    assert WritesOk(d, mid) && WritesOk(d, mid + tail);
    ApplyConcat(d, head, mid + tail);
    ApplyConcat(Apply(d, head), mid, tail);
  }

  /** What a crash after the first k block writes of end_op leaves on the disk. */
  ghost function CrashedCommit(l: Layout, d: Disk, t: Txn, k: nat): (e: Disk)
    requires DiskOk(l, d) && TxnOk(l, t) && k <= 2 * |t.blocks| + 2
    ensures |e| == |d|
  {
    CommitWritesParts(l, d[l.start], t);
    Apply(d, CommitWrites(l, d[l.start], t)[..k])
  }

  /** Past the commit header, a crashed commit is a crashed recovery of the committed disk. */
  lemma CommitTailIsRecovery(l: Layout, d: Disk, t: Txn, k: nat)
    requires DiskOk(l, d) && TxnOk(l, t)
    requires |t.blocks| < k <= 2 * |t.blocks| + 2
    ensures Recover(l, CrashedCommit(l, d, t, k)) == Recover(l, Committed(l, d, t))
  {
    var n := |t.blocks|;
    CommitTail(l, d, t, k);
    if n > 0 {
      InstallingIsRecovering(l, d, t);
      OneCrashedRecovery(l, Committed(l, d, t), k - n - 1);
    } else {
      EmptyCommit(l, d, t, k - 1);
    }
  }

  lemma InstallingIsRecovering(l: Layout, d: Disk, t: Txn)
    requires DiskOk(l, d) && TxnOk(l, t) && t.blocks != []
    ensures CommitWrites(l, d[l.start], t)[|t.blocks| + 1..] == RecoverWrites(l, Committed(l, d, t))
  {
    CommitWritesParts(l, d[l.start], t);
    CommittedRecoverWrites(l, d, t);
  }

  /** An empty transaction writes the header twice; the second write changes nothing. */
  lemma EmptyCommit(l: Layout, d: Disk, t: Txn, k: nat)
    requires DiskOk(l, d) && TxnOk(l, t) && t.blocks == [] && k <= 1
    ensures var e, tail := Committed(l, d, t), CommitWrites(l, d[l.start], t)[1..][..k];
            WritesOk(e, tail) && Apply(e, tail) == e
  {
    CommitWritesParts(l, d[l.start], t);
    CommittedFacts(l, d, t);
    EmptyHeaderIdempotent(d[l.start]);
    var e := Committed(l, d, t);
    assert e[l.start := e[l.start]] == e;
  }

  lemma EmptyHeaderIdempotent(h: Block)
    ensures EncodeHeader(EncodeHeader(h, []), []) == EncodeHeader(h, [])
  {
  }

  /**
   Crash atomicity. Crash end_op after any k of its block writes, crash recovery any number of
   times, let one recovery complete: the home blocks are all old when the crash came before the
   commit header was written, and all new when it came after.
   */
  lemma CrashAtomicity(l: Layout, d: Disk, t: Txn, k: nat, ks: seq<nat>)
    requires DiskOk(l, d) && TxnOk(l, t) && HeaderN(d[l.start]) == 0
    requires k <= 2 * |t.blocks| + 2
    ensures var after := Recover(l, CrashedRecoveries(l, CrashedCommit(l, d, t, k), ks));
            && HeaderN(after[l.start]) == 0
            && HomeEq(l, after, if k <= |t.blocks| then d else Install(d, t))
  {
    var e := CrashedCommit(l, d, t, k);
    RecoveryIdempotent(l, e, ks);
    RecoverClears(l, e);
    if k <= |t.blocks| {
      CommitHead(l, d, t, k);
      LogWritesApplied(l, d, t.data, k);
    } else {
      CommitTailIsRecovery(l, d, t, k);
      CommittedRecovers(l, d, t);
    }
  }

  // ----- whole runs ----------------------------------------------------------

  datatype Event =
    | Commit(t: Txn)                               // end_op runs to its end
    | Crash(t: Txn, at: nat, reboots: seq<nat>)    // end_op dies after `at` writes; then reboots

  ghost predicate EventOk(l: Layout, e: Event) {
    TxnOk(l, e.t) && (e.Crash? ==> e.at <= 2 * |e.t.blocks| + 2)
  }

  ghost function Step(l: Layout, d: Disk, e: Event): (r: Disk)
    requires DiskOk(l, d) && EventOk(l, e)
    ensures |r| == |d|
  {
    match e
    case Commit(t) => CrashedCommit(l, d, t, 2 * |t.blocks| + 2)
    case Crash(t, at, reboots) => Recover(l, CrashedRecoveries(l, CrashedCommit(l, d, t, at), reboots))
  }

  /** What the event means to the file system: its transaction happened, or it did not. */
  ghost function StepSpec(d: Disk, e: Event): (r: Disk)
    ensures |r| == |d|
  {
    if e.Crash? && e.at <= |e.t.blocks| then d else Install(d, e.t)
  }

  ghost function Run(l: Layout, d: Disk, es: seq<Event>): (r: Disk)
    requires DiskOk(l, d) && forall e :: e in es ==> EventOk(l, e)
    ensures |r| == |d|
    decreases |es|
  {
    if es == [] then d else Run(l, Step(l, d, es[0]), es[1..])
  }

  ghost function RunSpec(d: Disk, es: seq<Event>): (r: Disk)
    ensures |r| == |d|
    decreases |es|
  {
    if es == [] then d else RunSpec(StepSpec(d, es[0]), es[1..])
  }

  lemma CompletedCommit(l: Layout, d: Disk, t: Txn)
    requires DiskOk(l, d) && TxnOk(l, t) && HeaderN(d[l.start]) == 0
    ensures var e := CrashedCommit(l, d, t, 2 * |t.blocks| + 2);
            HeaderN(e[l.start]) == 0 && HomeEq(l, e, Install(d, t))
  {
    var ws := CommitWrites(l, d[l.start], t);
    var k := |ws|;
    CommitTailIsRecovery(l, d, t, k);
    CommittedRecovers(l, d, t);
    CommitTail(l, d, t, k);
    CommitWritesParts(l, d[l.start], t);
    EncodeHeaderFacts(EncodeHeader(d[l.start], t.blocks), []);
    var last := ws[k - 1];
    assert ws[..k] == ws[..k - 1] + [last];
    ApplyConcat(d, ws[..k - 1], [last]);
  }

  lemma HomeEqInstall(l: Layout, d: Disk, e: Disk, t: Txn)
    requires HomeEq(l, d, e) && TxnOk(l, t) && |d| == l.diskSize
    ensures HomeEq(l, Install(d, t), Install(e, t))
  {
    InstallAt(l, d, t);
    InstallAt(l, e, t);
  }

  /**
   Every run of transactions, each completed or crashed anywhere and recovered through any number
   of further crashes, leaves the home blocks of a flat array to which exactly the transactions
   whose commit header reached the disk were applied, whole and in order.
   */
  lemma {:induction false} RunRefinesFlatArray(l: Layout, d: Disk, flat: Disk, es: seq<Event>)
    requires DiskOk(l, d) && HomeEq(l, d, flat) && HeaderN(d[l.start]) == 0
    requires forall e :: e in es ==> EventOk(l, e)
    ensures HeaderN(Run(l, d, es)[l.start]) == 0
    ensures HomeEq(l, Run(l, d, es), RunSpec(flat, es))
    decreases |es|
  {
    if es != [] {
      var e := es[0];
      assert EventOk(l, e);
      match e {
        case Commit(t) => CompletedCommit(l, d, t);
        case Crash(t, at, reboots) => CrashAtomicity(l, d, t, at, reboots);
      }
      HomeEqInstall(l, d, flat, e.t);
      RunRefinesFlatArray(l, Step(l, d, e), StepSpec(flat, e), es[1..]);
    }
  }
}
