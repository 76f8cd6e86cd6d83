/** The write-ahead log: transactions on top of the buffer cache. */
module WriteAheadLog {
  import opened Bytes
  import opened LogSpec
  import opened BufferCache

  /** The cache's dirty blocks are the transaction's blocks not yet installed. */
  ghost predicate LogOk(l: Layout, blocks: seq<nat>, installed: nat, pend: set<nat>) {
    && installed <= |blocks| <= LOG_HDR_MAX
    && (forall s :: 0 <= s < |blocks| ==> Loggable(l, blocks[s]))
    && (forall s, t :: installed <= s < t < |blocks| ==> blocks[s] != blocks[t])
    && (forall s :: installed <= s < |blocks| ==> blocks[s] in pend)
    && |pend| == |blocks| - installed
  }

  ghost predicate SlotsOk(slots: seq<int>, blocks: seq<nat>, installed: nat, at: map<nat, nat>) {
    && |slots| == LOG_HDR_MAX && |blocks| <= |slots|
    && (forall s :: 0 <= s < |slots| ==> slots[s] < NBUF)
    && (forall s :: installed <= s < |blocks| ==> blocks[s] in at && at[blocks[s]] == slots[s])
  }

  /** Distinct elements need as many places. */
  lemma {:induction false} ElemsCover(s: seq<nat>, a: set<nat>)
    requires forall i :: 0 <= i < |s| ==> s[i] in a
    requires forall i, j :: 0 <= i < j < |s| ==> s[i] != s[j]
    ensures |s| <= |a|
  {
    if s != [] {
      ElemsCover(s[1..], a - {s[0]});
    }
  }

  /** Nothing outside the transaction is pending. */
  lemma NotPending(l: Layout, blocks: seq<nat>, installed: nat, pend: set<nat>, b: nat)
    requires LogOk(l, blocks, installed, pend) && b !in blocks[installed..]
    ensures b !in pend && pend - {b} == pend
  {
    if b in pend { ElemsCover(blocks[installed..], pend - {b}); }
  }

  lemma AppendOk(l: Layout, blocks: seq<nat>, pend: set<nat>, slots: seq<int>, at: map<nat, nat>, b: nat)
    requires LogOk(l, blocks, 0, pend) && SlotsOk(slots, blocks, 0, at)
    requires |blocks| < LOG_HDR_MAX && b !in blocks && Loggable(l, b) && b in at && at[b] < NBUF
    ensures LogOk(l, blocks + [b], 0, pend + {b})
    ensures SlotsOk(slots[|blocks| := at[b]], blocks + [b], 0, at)
  {
    NotPending(l, blocks, 0, pend, b);
  }

  lemma SlotsKept(l: Layout, blocks: seq<nat>, installed: nat, pend: set<nat>, slots: seq<int>, at: map<nat, nat>,
                  at': map<nat, nat>)
    requires LogOk(l, blocks, installed, pend) && SlotsOk(slots, blocks, installed, at) && SameOn(pend, at, at')
    ensures SlotsOk(slots, blocks, installed, at')
  {
  }

  /** The next transaction block has gone home. */
  lemma InstalledOne(l: Layout, blocks: seq<nat>, installed: nat, pend: set<nat>, slots: seq<int>, at: map<nat, nat>)
    requires LogOk(l, blocks, installed, pend) && SlotsOk(slots, blocks, installed, at) && installed < |blocks|
    ensures LogOk(l, blocks, installed + 1, pend - {blocks[installed]})
    ensures SlotsOk(slots, blocks, installed + 1, at)
  {
  }

  /** Disk, trace and view before; what they are after the writes ws went through the cache. */
  datatype Image = Image(disk: Disk, view: Disk, trace: seq<Write>)

  ghost predicate Wrote(a: Image, b: Image, ws: seq<Write>) {
    && |a.disk| == |a.view| && WritesOk(a.disk, ws)
    && b == Image(Apply(a.disk, ws), Apply(a.view, ws), a.trace + ws)
  }

  lemma WroteNothing(a: Image)
    requires |a.disk| == |a.view|
    ensures Wrote(a, a, [])
  {
    assert a.trace + [] == a.trace;
  }

  lemma WroteThen(a: Image, b: Image, c: Image, ws: seq<Write>, vs: seq<Write>)
    requires Wrote(a, b, ws) && Wrote(b, c, vs)
    ensures Wrote(a, c, ws + vs)
  {
    ApplyConcat(a.disk, ws, vs);
    ApplyConcat(a.view, ws, vs);
    assert a.trace + ws + vs == a.trace + (ws + vs);
  }

  lemma WroteOne(a: Image, b: Image, w: Write)
    requires |a.disk| == |a.view| && w.bno < |a.disk|
    requires b == Image(a.disk[w.bno := w.data], a.view[w.bno := w.data], a.trace + [w])
    ensures Wrote(a, b, [w])
  {
    ApplyOne(a.disk, w);
    ApplyOne(a.view, w);
  }

  function Contents(view: Disk, blocks: seq<nat>): (r: seq<Block>)
    requires forall s :: 0 <= s < |blocks| ==> blocks[s] < |view|
    ensures |r| == |blocks|
  {
    seq(|blocks|, s requires 0 <= s < |blocks| => view[blocks[s]])
  }

  /** The header-filling loop of write_log_header. */
  method FillHeader(old_: Block, blocks: seq<nat>) returns (h: Block)
    requires |blocks| <= LOG_HDR_MAX && forall s :: 0 <= s < |blocks| ==> blocks[s] < U32MAX
    ensures h == EncodeHeader(old_, blocks)
  {
    h := PutU32(old_, 0, |blocks|);
    var k := 0;
    while k < |blocks|
      invariant 0 <= k <= |blocks|
      invariant h == PutWords(PutU32(old_, 0, |blocks|), 4, blocks, k)
    {
      h := PutU32(h, 4 * (k + 1), blocks[k]);
      k := k + 1;
    }
  }

  /** What a client that holds buffers cares about: the buffers, how many are held, and the writes so far. */
  datatype Pins = Pins(bufs: seq<Buf>, held: int, trace: seq<Write>)

  /** Held buffers stay the buffers of their blocks; nothing reached the disk. */
  ghost predicate Calm(a: Pins, b: Pins) {
    b.held == a.held && b.trace == a.trace && PinsKept(a.bufs, b.bufs)
  }

  ghost predicate PinsKept(a: seq<Buf>, b: seq<Buf>) {
    |b| == |a| && forall j :: 0 <= j < |a| && a[j].refcnt > 0 ==> SamePin(a[j], b[j])
  }

  ghost predicate SamePin(a: Buf, b: Buf) { b.refcnt == a.refcnt && b.valid == a.valid && b.blockno == a.blockno }

  lemma CalmThen(a: Pins, b: Pins, c: Pins)
    requires Calm(a, b) && Calm(b, c)
    ensures Calm(a, c)
  {
  }

  lemma CalmSelf(a: Pins)
    ensures Calm(a, a)
  {
  }

  /** bread, other work, then brelse. */
  lemma ReadWorkBack(a: Pins, b: Pins, c: Pins, d: Pins, i: nat)
    requires i < |a.bufs| == |d.bufs| && Keeps(a.bufs, b.bufs) && b.bufs == a.bufs[i := b.bufs[i]]
    requires b.bufs[i].refcnt == a.bufs[i].refcnt + 1 && b.trace == a.trace
    requires Calm(b, c)
    requires d.bufs == c.bufs[i := d.bufs[i]] && SamePin(c.bufs[i], d.bufs[i].(refcnt := d.bufs[i].refcnt + 1))
    requires d.held == a.held && d.trace == a.trace
    ensures Calm(a, d)
  {
  }

  /** bread then brelse of the same buffer, perhaps with new contents. */
  lemma ReadBack(a: Pins, b: Pins, c: Pins, i: nat)
    requires i < |a.bufs| == |c.bufs| && Keeps(a.bufs, b.bufs) && b.bufs == a.bufs[i := b.bufs[i]]
    requires b.bufs[i].refcnt == a.bufs[i].refcnt + 1
    requires c.bufs == b.bufs[i := c.bufs[i]] && SamePin(b.bufs[i], c.bufs[i].(refcnt := c.bufs[i].refcnt + 1))
    requires c.held == a.held && c.trace == a.trace
    ensures Calm(a, c)
  {
  }

  class Log {
    const bio: Bio
    const layout: Layout
    var outstanding: bool
    var blocks: seq<nat>      // log.blocks[..log.nblocks]
    var slots: seq<int>       // log.bufs; -1 is the null pointer
    ghost var installed: nat  // transaction blocks already written home, during end_op

    ghost predicate Valid()
      reads this, bio
    {
      var coherent :=
        && bio.Valid()
        && DiskOk(layout, bio.disk)
        && LogOk(layout, blocks, installed, bio.g.pend)
        && SlotsOk(slots, blocks, installed, bio.g.at)
        && (!outstanding ==> installed == |blocks|);
      coherent
    }

    ghost function Img(): Image
      reads bio
    {
      Image(bio.disk, bio.g.view, bio.g.trace)
    }

    /** Between operations: nobody holds a buffer, nothing is pending, the header is clear. */
    ghost predicate Idle()
      reads this, bio
    {
      && Valid() && !outstanding && bio.g.raw == {} && bio.g.held == 0
      && HeaderN(bio.disk[layout.start]) == 0
    }

    /** Between transactions the cache shows what the disk holds. */
    lemma IdleDisk()
      requires Idle()
      ensures bio.g.view == bio.disk && DiskOk(layout, bio.disk)
    {
    }

    /** The transaction end_op is about to commit. */
    ghost function Pending(): (t: Txn)
      requires Valid()
      reads this, bio
    {
      Txn(blocks, Contents(bio.g.view, blocks))
    }

    /** log_init, on a cache that has nothing pending. */
    constructor (b: Bio, l: Layout)
      requires b.Valid() && DiskOk(l, b.disk) && b.g.pend == {}
      ensures Valid() && bio == b && layout == l && !outstanding && blocks == []
    {
      bio, layout, outstanding, blocks, installed := b, l, false, [], 0;
      slots := seq(LOG_HDR_MAX, i => -1);
    }

    /** begin_op */
    method BeginOp()
      requires Valid() && !outstanding
      modifies this
      ensures Valid() && outstanding && blocks == [] && installed == 0
    {
      outstanding, blocks, installed := true, [], 0;
      slots := seq(LOG_HDR_MAX, i => -1);
    }

    /** bread, by a client of the log. */
    method Read(b: nat) returns (i: nat)
      requires Valid() && bio.g.held <= 16 && b < layout.diskSize
      modifies bio`bufs, bio`lru, bio`g
      ensures Valid() && bio.g == old(bio.g).(at := bio.g.at, held := old(bio.g.held) + 1)
      ensures |bio.g.view| == layout.diskSize
      ensures i < |bio.bufs| && bio.bufs[i].valid && bio.bufs[i].blockno == b && bio.bufs[i].data == bio.g.view[b]
      ensures bio.bufs[i].refcnt == old(bio.bufs[i].refcnt) + 1 && bio.bufs == old(bio.bufs)[i := bio.bufs[i]]
      ensures Keeps(old(bio.bufs), bio.bufs)
    {
      bio.NoFreeBufferPanic(b);
      ghost var pend, at := bio.g.pend, bio.g.at;
      i := bio.Bread(b);
      SlotsKept(layout, blocks, installed, pend, slots, at, bio.g.at);
    }

    /** brelse, by a client of the log. */
    method Release(i: nat)
      requires Valid() && i < |bio.bufs| && bio.bufs[i].refcnt > 0
      requires bio.bufs[i].refcnt == 1 && bio.bufs[i].valid ==> bio.bufs[i].blockno !in bio.g.raw
      modifies bio`bufs, bio`lru, bio`g
      ensures Valid() && bio.g == old(bio.g).(held := old(bio.g.held) - 1)
      ensures bio.bufs == old(bio.bufs)[i := old(bio.bufs[i]).(refcnt := old(bio.bufs[i].refcnt) - 1)]
    {
      bio.Brelse(i);
    }

    /** The deduplication loop of log_write: the transaction's slot for b, or the next free one. */
    method FindSlot(b: nat) returns (s: nat)
      ensures s <= |blocks| && b !in blocks[..s] && (s < |blocks| ==> blocks[s] == b)
    {
      s := 0;
      while s < |blocks| && blocks[s] != b
        invariant s <= |blocks| && forall t :: 0 <= t < s ==> blocks[t] != b
      {
        s := s + 1;
      }
    }

    /** log_write: the buffer's block joins the transaction, once; the cache will not drop it. */
    method LogWrite(i: nat)
      requires Valid() && outstanding && installed == 0
      requires |blocks| < LOG_HDR_MAX
      requires i < |bio.bufs| && bio.bufs[i].valid && bio.bufs[i].refcnt > 0 && Loggable(layout, bio.bufs[i].blockno)
      modifies this`blocks, this`slots, bio`bufs, bio`g
      ensures Valid()
      ensures bio.bufs == old(bio.bufs)[i := old(bio.bufs[i]).(dirty := true)]
      ensures var b := old(bio.bufs[i].blockno);
              && blocks == (if b in old(blocks) then old(blocks) else old(blocks) + [b])
              && bio.g == old(bio.g).(pend := old(bio.g.pend) + {b}, raw := old(bio.g.raw) - {b})
    {
      var b := bio.bufs[i].blockno;
      var s := FindSlot(b);
      if s < |blocks| {
        assert bio.g.pend + {b} == bio.g.pend;
      } else {
        assert blocks[..s] == blocks;
        AppendOk(layout, blocks, bio.g.pend, slots, bio.g.at, b);
        blocks := blocks + [b];
      }
      slots := slots[s := i];
      bio.MarkDirty(i);
    }

    ghost function Pinned(): Pins
      reads bio
    {
      Pins(bio.bufs, bio.g.held, bio.g.trace)
    }

    /** bread, copy out, brelse. */
    method Fetch(b: nat) returns (data: Block)
      requires Valid() && bio.g.held <= 16 && b < layout.diskSize && bio.g.raw == {}
      modifies bio`bufs, bio`lru, bio`g
      ensures Valid() && bio.g == old(bio.g).(at := bio.g.at) && Calm(old(Pinned()), Pinned())
      ensures b < |bio.g.view| && data == bio.g.view[b]
    {
      hide Valid, PinsKept, Keeps;
      ghost var before := Pinned();
      var i := Read(b);
      ghost var during := Pinned();
      data := bio.bufs[i].data;
      Release(i);
      ReadBack(before, during, Pinned(), i);
    }

    /** Change a held buffer and log_write it. */
    method LogSet(i: nat, data: Block)
      requires Valid() && outstanding && installed == 0 && |blocks| < LOG_HDR_MAX && bio.g.raw == {}
      requires i < |bio.bufs| && bio.bufs[i].valid && bio.bufs[i].refcnt > 0 && Loggable(layout, bio.bufs[i].blockno)
      modifies this`blocks, this`slots, bio`bufs, bio`g
      ensures Valid()
      ensures bio.bufs == old(bio.bufs)[i := old(bio.bufs[i]).(data := data, dirty := true)]
      ensures var b := old(bio.bufs[i].blockno);
              && b < |old(bio.g.view)|
              && blocks == (if b in old(blocks) then old(blocks) else old(blocks) + [b])
              && bio.g == old(bio.g).(view := old(bio.g.view)[b := data], pend := bio.g.pend)
    {
      hide LogOk, SlotsOk, Bio.Valid, DiskOk;
      PinData(i);
      bio.SetData(i, data);
      LogWrite(i);
    }

    /** memcpy into a held buffer, log_write and brelse. */
    method Store(i: nat, data: Block)
      requires Valid() && outstanding && installed == 0 && |blocks| < LOG_HDR_MAX && bio.g.raw == {}
      requires i < |bio.bufs| && bio.bufs[i].valid && bio.bufs[i].refcnt > 0 && Loggable(layout, bio.bufs[i].blockno)
      modifies this`blocks, this`slots, bio`bufs, bio`lru, bio`g
      ensures Valid()
      ensures bio.bufs == old(bio.bufs)[i :=
        old(bio.bufs[i]).(data := data, dirty := true, refcnt := old(bio.bufs[i].refcnt) - 1)]
      ensures var b := old(bio.bufs[i].blockno);
              && b < |old(bio.g.view)|
              && blocks == (if b in old(blocks) then old(blocks) else old(blocks) + [b])
              && bio.g == old(bio.g).(view := old(bio.g.view)[b := data], pend := bio.g.pend, held :=
                   old(bio.g.held) - 1)
    {
      hide Valid;
      LogSet(i, data);
      Release(i);
    }

    /** bread, replace the contents, log_write, brelse. */
    method Overwrite(b: nat, data: Block)
      requires Valid() && outstanding && installed == 0 && |blocks| < LOG_HDR_MAX && bio.g.raw == {} && bio.g.held <= 16
      requires Loggable(layout, b)
      modifies this`blocks, this`slots, bio`bufs, bio`lru, bio`g
      ensures Valid() && b < |old(bio.g.view)| && Calm(old(Pinned()), Pinned())
      ensures blocks == (if b in old(blocks) then old(blocks) else old(blocks) + [b])
      ensures bio.g == old(bio.g).(view := old(bio.g.view)[b := data], pend := bio.g.pend, at := bio.g.at)
    {
      hide Valid, PinsKept, Keeps;
      ghost var before := Pinned();
      var i := Read(b);
      ghost var during := Pinned();
      Store(i, data);
      ReadBack(before, during, Pinned(), i);
    }

    /** memcpy, bwrite and brelse of a held buffer of the log region. */
    method StoreLogBlock(i: nat, data: Block)
      requires Valid() && i < |bio.bufs| && bio.bufs[i].valid && bio.bufs[i].refcnt > 0
      requires InLog(layout, bio.bufs[i].blockno)
      modifies bio
      ensures Valid()
      ensures var b := old(bio.bufs[i].blockno);
              && bio.disk == old(bio.disk)[b := data]
              && bio.g == old(bio.g).(view := old(bio.g.view)[b := data], trace := old(bio.g.trace) + [Write(b, data)],
                                      raw := old(bio.g.raw) - {b}, held := old(bio.g.held) - 1)
    {
      NotPending(layout, blocks, installed, bio.g.pend, bio.bufs[i].blockno);
      bio.WriteAndRelease(i, data);
    }

    method WriteLogHeader()
      requires Valid() && bio.g.held <= 16 && bio.g.raw == {}
      modifies bio
      ensures Valid()
      ensures |blocks| <= LOG_HDR_MAX && forall s :: 0 <= s < |blocks| ==> blocks[s] < U32MAX
      ensures Wrote(old(Img()), Img(), [Write(layout.start, EncodeHeader(old(bio.g.view)[layout.start], blocks))])
      ensures bio.g == old(bio.g).(view := bio.g.view, at := bio.g.at, trace := bio.g.trace)
    {
      hide Valid, EncodeHeader;
      EntriesOk();
      Sized();
      var hb := Read(layout.start);
      var h := FillHeader(bio.bufs[hb].data, blocks);
      StoreLogBlock(hb, h);
      WroteOne(old(Img()), Img(), Write(layout.start, h));
    }

    /** Step 1 of end_op, for one slot: the logged buffer's data goes to its log block. */
    method WriteLogData(k: nat)
      requires Valid() && bio.g.held <= 16 && bio.g.raw == {} && installed <= k < |blocks|
      modifies bio
      ensures Valid()
      ensures blocks[k] < |bio.g.view| && |bio.g.view| == layout.diskSize
      ensures Wrote(old(Img()), Img(), [Write(layout.start + 1 + k, old(bio.g.view)[blocks[k]])])
      ensures bio.g == old(bio.g).(view := bio.g.view, at := bio.g.at, trace := bio.g.trace)
    {
      hide Valid;
      PlaceOk(k);
      SlotData(k);
      Sized();
      var b, i := blocks[k], slots[k];
      var lb := Read(layout.start + 1 + k);
      SlotData(k);
      StoreLogBlock(lb, bio.bufs[i].data);
      WroteOne(old(Img()), Img(), Write(layout.start + 1 + k, old(bio.g.view)[b]));
    }

    lemma EntriesOk()
      requires Valid()
      ensures layout.start < layout.diskSize && InLog(layout, layout.start)
      ensures |blocks| <= LOG_HDR_MAX && forall s :: 0 <= s < |blocks| ==> blocks[s] < U32MAX
    {
    }

    /** A logged buffer is dirty and holds its block's contents until it has been installed. */
    lemma SlotData(k: nat)
      requires Valid() && installed <= k < |blocks|
      ensures k < |slots| && 0 <= slots[k] < |bio.bufs| == NBUF && bio.bufs[slots[k]].dirty && blocks[k] < |bio.g.view|
      ensures bio.bufs[slots[k]].data == bio.g.view[blocks[k]]
    {
    }

    /** A held buffer shows the current contents of its block. */
    lemma PinData(i: nat)
      requires Valid() && i < |bio.bufs| && bio.bufs[i].valid
      ensures i < NBUF && bio.bufs[i].blockno < |bio.g.view| && bio.bufs[i].data == bio.g.view[bio.bufs[i].blockno]
    {
    }

    lemma Sized()
      requires Valid()
      ensures |bio.g.view| == |bio.disk| == layout.diskSize && |bio.bufs| == NBUF
    {
    }

    lemma Distinct()
      requires Valid() && installed == 0
      ensures forall s, t :: 0 <= s < t < |blocks| ==> blocks[s] != blocks[t]
      ensures |bio.g.view| == layout.diskSize
    {
    }

    lemma PlaceOk(k: nat)
      requires Valid() && k < |blocks|
      ensures Loggable(layout, blocks[k]) && InLog(layout, layout.start + 1 + k)
      ensures layout.start + 1 + k < layout.diskSize
    {
    }

    /** Both breads of one install_trans iteration: log data block k and its home block. */
    method ReadPair(k: nat) returns (lb: nat, db: nat)
      requires Valid() && bio.g.held <= 14 && k < |blocks|
      modifies bio`bufs, bio`lru, bio`g
      ensures Valid() && bio.g == old(bio.g).(at := bio.g.at, held := old(bio.g.held) + 2)
      ensures lb < |bio.bufs| && bio.bufs[lb].valid && bio.bufs[lb].refcnt > 0
      ensures bio.bufs[lb].blockno == layout.start + 1 + k && bio.bufs[lb].data == bio.g.view[layout.start + 1 + k]
      ensures db < |bio.bufs| && bio.bufs[db].valid && bio.bufs[db].refcnt > 0 && bio.bufs[db].blockno == blocks[k]
    {
      hide Valid;
      PlaceOk(k);
      var b, c := layout.start + 1 + k, blocks[k];
      lb := Read(b);
      db := Read(c);
    }

    /** One iteration of install_trans. */
    method InstallOne(k: nat)
      requires Valid() && bio.g.held <= 14 && bio.g.raw == {} && k < |blocks|
      requires installed == k || installed == |blocks|
      modifies bio, this`installed
      ensures Valid() && blocks[k] < layout.diskSize
      ensures installed == if old(installed) == k then k + 1 else old(installed)
      ensures Wrote(old(Img()), Img(), [Write(blocks[k], old(bio.g.view)[layout.start + 1 + k])])
      ensures bio.g == old(bio.g).(view := bio.g.view, at := bio.g.at, trace := bio.g.trace, pend :=
        old(bio.g.pend) - {blocks[k]})
    {
      hide Valid;
      PlaceOk(k);
      Sized();
      ghost var a, w := Img(), Write(blocks[k], bio.g.view[layout.start + 1 + k]);
      var lb, db := ReadPair(k);
      Sized();
      assert lb != db;
      InstallBuf(k, lb, db);
      WroteOne(a, Img(), w);
      ReleasePair(lb, db);
    }

    method ReleasePair(i: nat, j: nat)
      requires Valid() && bio.g.raw == {} && i < NBUF && j < NBUF && i != j
      requires bio.bufs[i].refcnt > 0 && bio.bufs[j].refcnt > 0
      modifies bio`bufs, bio`lru, bio`g
      ensures Valid() && bio.g == old(bio.g).(held := old(bio.g.held) - 2)
    {
      Release(i);
      Release(j);
    }

    method InstallBuf(k: nat, lb: nat, db: nat)
      requires Valid() && bio.g.raw == {} && k < |blocks|
      requires installed == k || installed == |blocks|
      requires lb < NBUF && bio.bufs[lb].valid
      requires db < NBUF && bio.bufs[db].valid && bio.bufs[db].refcnt > 0 && bio.bufs[db].blockno == blocks[k]
      modifies bio, this`installed
      ensures Valid() && installed == if old(installed) == k then k + 1 else old(installed)
      ensures bio.bufs == old(bio.bufs)[db := old(bio.bufs[db]).(data := old(bio.bufs[lb].data), dirty := false)]
      ensures var b, data := blocks[k], old(bio.bufs[lb].data);
              && bio.disk == old(bio.disk)[b := data]
              && bio.g == old(bio.g).(view := old(bio.g.view)[b := data], trace := old(bio.g.trace) + [Write(b, data)],
                                      pend := old(bio.g.pend) - {b})
    {
      if installed == k {
        InstalledOne(layout, blocks, installed, bio.g.pend, slots, bio.g.at);
        installed := k + 1;
      } else {
        NotPending(layout, blocks, installed, bio.g.pend, blocks[k]);
      }
      bio.WriteThrough(db, bio.bufs[lb].data);
    }

    /** k log data blocks written; the transaction's contents are still what they were. */
    ghost predicate Logging(a: Image, g0: Shadow, data: seq<Block>, k: nat)
      reads this, bio
    {
      var progress :=
        && Valid() && installed == 0 && k <= |blocks| == |data|
        && Wrote(a, Img(), LogWrites(layout, data)[..k])
        && (forall s :: 0 <= s < |blocks| ==> blocks[s] < |bio.g.view| && bio.g.view[blocks[s]] == data[s])
        && bio.g == g0.(view := bio.g.view, at := bio.g.at, trace := bio.g.trace);
      progress
    }

    method LogNext(ghost a: Image, ghost g0: Shadow, ghost data: seq<Block>, k: nat)
      requires Logging(a, g0, data, k) && k < |blocks| && g0.held <= 16 && g0.raw == {}
      modifies bio
      ensures Logging(a, g0, data, k + 1)
    {
      ghost var mid, bs := Img(), blocks;
      assert forall s :: 0 <= s < |bs| ==> Loggable(layout, bs[s]);
      WriteLogData(k);
      LoggedOne(layout, a, mid, Img(), bs, data, k);
    }

    /** Step 1 of end_op: every logged buffer goes to its log data block. */
    method WriteAllLogData()
      requires Valid() && bio.g.held <= 16 && bio.g.raw == {} && installed == 0
      modifies bio
      ensures Logging(old(Img()), old(bio.g), old(Pending()).data, |blocks|)
    {
      ghost var a, g0, data := Img(), bio.g, Pending().data;
      assert Logging(a, g0, data, 0) by {
        WroteNothing(a);
        assert LogWrites(layout, data)[..0] == [];
      }
      var k := 0;
      while k < |blocks|
        invariant k <= |blocks| && Logging(a, g0, data, k)
      {
        LogNext(a, g0, data, k);
        k := k + 1;
      }
    }

    /** k blocks installed; the log data they came from is untouched. */
    ghost predicate Installing(a: Image, g0: Shadow, commit: bool, k: nat)
      reads this, bio
    {
      var progress :=
        && Valid() && k <= |blocks| && installed == (if commit then k else |blocks|)
        && |a.view| == layout.diskSize && LogData(layout, bio.g.view) == LogData(layout, a.view)
        && Wrote(a, Img(), HomeWrites(blocks, LogData(layout, a.view))[..k])
        && bio.g == g0.(view := bio.g.view, at := bio.g.at, trace := bio.g.trace, pend := bio.g.pend);
      progress
    }

    method InstallNext(ghost a: Image, ghost g0: Shadow, ghost commit: bool, k: nat)
      requires Installing(a, g0, commit, k) && k < |blocks| && g0.held <= 14 && g0.raw == {}
      modifies bio, this`installed
      ensures Installing(a, g0, commit, k + 1)
    {
      ghost var mid, bs := Img(), blocks;
      assert Loggable(layout, bs[k]) && |bs| <= LOG_HDR_MAX;
      InstallOne(k);
      HomeOne(layout, a, mid, Img(), bs, k);
    }

    /** install_trans */
    method InstallTrans(ghost commit: bool)
      requires Valid() && bio.g.held <= 14 && bio.g.raw == {} && installed == if commit then 0 else |blocks|
      modifies bio, this`installed
      ensures Installing(old(Img()), old(bio.g), commit, |blocks|)
    {
      ghost var a, g0 := Img(), bio.g;
      assert Installing(a, g0, commit, 0) by {
        WroteNothing(a);
        assert HomeWrites(blocks, LogData(layout, a.view))[..0] == [];
      }
      var k := 0;
      while k < |blocks|
        invariant k <= |blocks| && Installing(a, g0, commit, k)
      {
        InstallNext(a, g0, commit, k);
        k := k + 1;
      }
    }

    /** Steps 1 to 3 of end_op: log data, commit header, home locations. */
    method CommitAndInstall()
      requires Valid() && outstanding && installed == 0 && bio.g.held <= 14 && bio.g.raw == {}
      modifies bio, this`installed
      ensures Valid() && installed == |blocks| && TxnOk(layout, old(Pending()))
      ensures var t, h := old(Pending()), old(bio.g.view)[layout.start];
              Wrote(old(Img()), Img(), LogWrites(layout, t.data) + [Write(layout.start, EncodeHeader(h, t.blocks))]
                                       + HomeWrites(t.blocks, t.data))
      ensures bio.g == old(bio.g).(view := bio.g.view, at := bio.g.at, trace := bio.g.trace, pend := bio.g.pend)
    {
      ghost var a, t := Img(), Pending();
      assert DiskOk(layout, a.disk) && DiskOk(layout, a.view) && TxnOk(layout, t);
      WriteAllLogData();
      ghost var b := Img();
      assert Wrote(a, b, LogWrites(layout, t.data)[..|t.blocks|]);
      WriteLogHeader();
      ghost var c := Img();
      InstallTrans(true);
      CommitImage(layout, a, b, c, Img(), t);
    }

    /** Step 5 of end_op: every remembered buffer's dirty flag is cleared, and forgotten. */
    method ForgetBuffers()
      requires Valid() && blocks == [] && installed == 0
      modifies this`slots, bio`bufs
      ensures Valid()
    {
      var k := 0;
      while k < |slots|
        invariant Valid() && k <= |slots| == LOG_HDR_MAX && bio.bufs == old(bio.bufs)
      {
        if slots[k] >= 0 {
          var i := slots[k];
          assert bio.g.pend == {};
          assert bio.bufs[i := bio.bufs[i].(dirty := false)] == bio.bufs;
          bio.bufs := bio.bufs[i := bio.bufs[i].(dirty := false)];
          slots := slots[k := -1];
        }
        k := k + 1;
      }
    }

    /**
     end_op. The block writes are exactly the commit protocol's, in its order; afterwards the disk
     holds everything the transaction's client saw, and nothing is pending.
     */
    method EndOp()
      requires Valid() && outstanding && installed == 0 && bio.g.held <= 14 && bio.g.raw == {}
      requires HeaderN(bio.disk[layout.start]) == 0
      modifies this, bio
      ensures Valid() && !outstanding && blocks == [] && bio.g.held == old(bio.g.held)
      ensures bio.g.raw == {} && bio.g.pend == {} && bio.g.view == bio.disk
      ensures TxnOk(layout, old(Pending()))
      ensures Wrote(old(Img()), Img(), CommitWrites(layout, old(bio.disk)[layout.start], old(Pending())))
      ensures HeaderN(bio.disk[layout.start]) == 0
      ensures HomeEq(layout, bio.disk, old(bio.g.view))
    {
      ghost var a, t := Img(), Pending();
      assert DiskOk(layout, a.disk) && DiskOk(layout, a.view);
      HeaderSynced();
      CommitAndInstall();
      ghost var b := Img();
      ClearLog();
      CommitDone(layout, a, b, Img(), t);
    }

    /** Steps 4 and 5 of end_op: the header is cleared and the transaction forgotten. */
    method ClearLog()
      requires Valid() && installed == |blocks| && bio.g.held <= 16 && bio.g.raw == {}
      modifies this, bio
      ensures Valid() && !outstanding && blocks == [] && bio.g.held == old(bio.g.held)
      ensures bio.g.raw == {} && bio.g.pend == {} && bio.g.view == bio.disk
      ensures Wrote(old(Img()), Img(), [Write(layout.start, EncodeHeader(old(bio.g.view)[layout.start], []))])
    {
      AllSynced();
      blocks, installed := [], 0;
      WriteLogHeader();
      ForgetBuffers();
      outstanding := false;
      AllSynced();
    }

    lemma HeaderSynced()
      requires Valid() && bio.g.raw == {}
      ensures bio.disk[layout.start] == bio.g.view[layout.start]
    {
      NotPending(layout, blocks, installed, bio.g.pend, layout.start);
    }

    lemma AllSynced()
      requires Valid() && bio.g.raw == {} && installed == |blocks|
      ensures bio.g.pend == {} && bio.disk == bio.g.view
    {
    }

    /** Copy the header's entries out of the cached header block; not ok means "clear the log". */
    method ReadHeader() returns (ok: bool, entries: seq<nat>)
      requires Valid() && bio.g.held <= 16 && bio.g.raw == {}
      modifies bio`bufs, bio`lru, bio`g
      ensures Valid() && bio.g == old(bio.g).(at := bio.g.at)
      ensures ok <==> HeaderTrusted(layout, bio.g.view[layout.start])
      ensures ok ==> entries == HeaderBlocks(bio.g.view[layout.start])
    {
      var hb := Read(layout.start);
      ok, entries := DecodeHeader(layout, bio.bufs[hb].data);
      Release(hb);
    }

    /** Replay: install the recovered entries, then clear the header. */
    method Replay(entries: seq<nat>)
      requires Valid() && !outstanding && bio.g.held <= 14 && bio.g.raw == {}
      requires |entries| <= LOG_HDR_MAX && forall s :: 0 <= s < |entries| ==> Loggable(layout, entries[s])
      modifies this, bio
      ensures Valid() && !outstanding && blocks == [] && bio.g.raw == {} && bio.g.pend == {}
      ensures bio.g.held == old(bio.g.held)
      ensures Wrote(old(Img()), Img(), HomeWrites(entries, LogData(layout, old(bio.g.view)))
                                       + [Write(layout.start, EncodeHeader(old(bio.g.view)[layout.start], []))])
    {
      ghost var a := Img();
      AllSynced();
      blocks, installed := entries, |entries|;
      slots := seq(LOG_HDR_MAX, i => -1);
      InstallTrans(false);
      ghost var b := Img();
      ClearLog();
      ReplayImage(layout, a, b, Img(), entries);
    }

    /** recover_from_log: exactly the recovery writes of the protocol; the header ends clear. */
    method RecoverFromLog()
      requires Valid() && !outstanding && bio.g.held <= 14 && bio.g.raw == {}
      modifies this, bio
      ensures Valid() && !outstanding && blocks == [] && bio.g.raw == {} && bio.g.pend == {}
      ensures bio.g.held == old(bio.g.held)
      ensures bio.g.view == bio.disk
      ensures Wrote(old(Img()), Img(), RecoverWrites(layout, old(bio.disk)))
      ensures HeaderN(bio.disk[layout.start]) == 0
    {
      AllSynced();
      ghost var a := Img();
      assert DiskOk(layout, a.disk);
      RecoverClears(layout, a.disk);
      var ok, entries := ReadHeader();
      if !ok {
        ClearLog();
      } else if entries != [] {
        assert forall s :: 0 <= s < |entries| ==> Loggable(layout, entries[s]);
        Replay(entries);
      } else {
        blocks, installed := [], 0;
        WroteNothing(a);
      }
      AllSynced();
    }
  }

  lemma CommitDone(l: Layout, a: Image, b: Image, c: Image, t: Txn)
    requires DiskOk(l, a.disk) && DiskOk(l, a.view) && TxnOk(l, t)
    requires a.disk[l.start] == a.view[l.start] && HeaderN(a.view[l.start]) == 0
    requires forall s :: 0 <= s < |t.blocks| ==> t.data[s] == a.view[t.blocks[s]]
    requires Wrote(a, b, LogWrites(l, t.data) + [Write(l.start, EncodeHeader(a.view[l.start], t.blocks))]
                         + HomeWrites(t.blocks, t.data))
    requires Wrote(b, c, [Write(l.start, EncodeHeader(b.view[l.start], []))])
    ensures Wrote(a, c, CommitWrites(l, a.disk[l.start], t))
    ensures HeaderN(c.view[l.start]) == 0 && HomeEq(l, c.view, a.view)
  {
    var h := EncodeHeader(a.view[l.start], t.blocks);
    var pre := LogWrites(l, t.data) + [Write(l.start, h)];
    var hw := HomeWrites(t.blocks, t.data);
    assert WritesOk(a.view, pre) && WritesOk(a.view, hw) by {
      assert forall w :: w in pre ==> w in pre + hw;
      assert forall w :: w in hw ==> w in pre + hw;
    }
    ApplyConcat(a.view, pre, hw);
    HeaderSurvives(l, a.view, t, h);
    WroteThen(a, b, c, pre + hw, [Write(l.start, EncodeHeader(h, []))]);
    assert pre + hw + [Write(l.start, EncodeHeader(h, []))] == CommitWrites(l, a.disk[l.start], t);
    CompletedCommit(l, a.view, t);
    var ws := CommitWrites(l, a.view[l.start], t);
    assert ws[..2 * |t.blocks| + 2] == ws;
    InstallAt(l, a.view, t);
    forall x | 0 <= x < |a.view| && !InLog(l, x) ensures Install(a.view, t)[x] == a.view[x] {
      if x in t.blocks { var i :| 0 <= i < |t.blocks| && t.blocks[i] == x; }
    }
  }

  lemma HeaderSurvives(l: Layout, v: Disk, t: Txn, h: Block)
    requires DiskOk(l, v) && TxnOk(l, t)
    ensures var pre, hw := LogWrites(l, t.data) + [Write(l.start, h)], HomeWrites(t.blocks, t.data);
            WritesOk(v, pre) && WritesOk(v, hw) && Apply(Apply(v, pre), hw)[l.start] == h
  {
    var lw, w, hw := LogWrites(l, t.data), Write(l.start, h), HomeWrites(t.blocks, t.data);
    assert forall x :: x in lw ==> x.bno < |v|;
    ApplyConcat(v, lw, [w]);
    ApplyOne(Apply(v, lw), w);
    ApplyUntouched(Apply(v, lw + [w]), hw, l.start);
  }

  /** The checking loop of recover_from_log. */
  method DecodeHeader(l: Layout, h: Block) returns (ok: bool, entries: seq<nat>)
    ensures ok <==> HeaderTrusted(l, h)
    ensures ok ==> entries == HeaderBlocks(h)
  {
    var n := U32(h, 0);
    entries := [];
    if n > LOG_HDR_MAX { return false, []; }
    var i := 0;
    while i < n
      invariant i <= n && |entries| == i
      invariant forall k :: 0 <= k < i ==> entries[k] == HeaderBlk(h, k) && Loggable(l, entries[k])
    {
      var b := U32(h, 4 + 4 * i);
      if b == 0 || b == 1 || (b >= l.start && b < l.start + l.size) || b >= l.diskSize {
        assert !Loggable(l, HeaderBlk(h, i));
        return false, [];
      }
      entries := entries + [b];
      i := i + 1;
    }
    ok := true;
  }

  lemma ReplayImage(l: Layout, a: Image, b: Image, c: Image, entries: seq<nat>)
    requires DiskOk(l, a.view) && |entries| <= LOG_HDR_MAX
    requires forall s :: 0 <= s < |entries| ==> Loggable(l, entries[s])
    requires Wrote(a, b, HomeWrites(entries, LogData(l, a.view))[..|entries|])
    requires Wrote(b, c, [Write(l.start, EncodeHeader(b.view[l.start], []))])
    ensures Wrote(a, c, HomeWrites(entries, LogData(l, a.view)) + [Write(l.start, EncodeHeader(a.view[l.start], []))])
  {
    var hw := HomeWrites(entries, LogData(l, a.view));
    assert hw[..|entries|] == hw;
    ApplyUntouched(a.view, hw, l.start);
    WroteThen(a, b, c, hw, [Write(l.start, EncodeHeader(b.view[l.start], []))]);
  }

  lemma CommitImage(l: Layout, a: Image, b: Image, c: Image, d: Image, t: Txn)
    requires DiskOk(l, a.disk) && DiskOk(l, a.view) && TxnOk(l, t)
    requires Wrote(a, b, LogWrites(l, t.data)[..|t.blocks|])
    requires Wrote(b, c, [Write(l.start, EncodeHeader(b.view[l.start], t.blocks))])
    requires Wrote(c, d, HomeWrites(t.blocks, LogData(l, c.view))[..|t.blocks|])
    ensures Wrote(a, d, LogWrites(l, t.data) + [Write(l.start, EncodeHeader(a.view[l.start], t.blocks))]
                        + HomeWrites(t.blocks, t.data))
  {
    var lw, h := LogWrites(l, t.data), Write(l.start, EncodeHeader(b.view[l.start], t.blocks));
    assert lw[..|t.blocks|] == lw;
    LogWritesApplied(l, a.view, t.data, |t.data|);
    ApplyOne(b.view, h);
    WroteThen(a, b, c, lw, [h]);
    var hw := HomeWrites(t.blocks, LogData(l, c.view));
    assert hw[..|t.blocks|] == hw;
    assert hw == HomeWrites(t.blocks, t.data) by {
      forall i | 0 <= i < |t.blocks| ensures LogData(l, c.view)[i] == t.data[i] {
        assert LogData(l, c.view)[i] == c.view[l.start + 1 + i];
      }
    }
    WroteThen(a, c, d, lw + [h], hw);
  }

  lemma HomeOne(l: Layout, a: Image, b: Image, c: Image, blocks: seq<nat>, k: nat)
    requires LayoutOk(l) && k < |blocks| <= LOG_HDR_MAX && Loggable(l, blocks[k])
    requires |a.view| == |b.view| == l.diskSize && LogData(l, b.view) == LogData(l, a.view)
    requires Wrote(a, b, HomeWrites(blocks, LogData(l, a.view))[..k])
    requires Wrote(b, c, [Write(blocks[k], b.view[l.start + 1 + k])])
    ensures Wrote(a, c, HomeWrites(blocks, LogData(l, a.view))[..k + 1])
    ensures |c.view| == l.diskSize && LogData(l, c.view) == LogData(l, a.view)
  {
    var ws := HomeWrites(blocks, LogData(l, a.view));
    assert LogData(l, a.view)[k] == LogData(l, b.view)[k] == b.view[l.start + 1 + k];
    WroteThen(a, b, c, ws[..k], [ws[k]]);
    assert ws[..k] + [ws[k]] == ws[..k + 1];
    ApplyOne(b.view, ws[k]);
  }

  lemma LoggedOne(l: Layout, a: Image, b: Image, c: Image, blocks: seq<nat>, data: seq<Block>, k: nat)
    requires LayoutOk(l) && k < |blocks| == |data| <= LOG_HDR_MAX && |b.view| == l.diskSize
    requires forall s :: 0 <= s < |blocks| ==> Loggable(l, blocks[s]) && b.view[blocks[s]] == data[s]
    requires Wrote(a, b, LogWrites(l, data)[..k]) && Wrote(b, c, [Write(l.start + 1 + k, data[k])])
    ensures Wrote(a, c, LogWrites(l, data)[..k + 1])
    ensures |c.view| == l.diskSize
    ensures forall s :: 0 <= s < |blocks| ==> blocks[s] < |c.view| && c.view[blocks[s]] == data[s]
  {
    var ws := LogWrites(l, data);
    WroteThen(a, b, c, ws[..k], [ws[k]]);
    assert ws[..k] + [ws[k]] == ws[..k + 1];
    ApplyOne(b.view, ws[k]);
  }
}
