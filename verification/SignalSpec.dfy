/** Signal frames, the choice of the next signal, and runs of deliveries and returns. */
module SignalSpec {
  import opened Bytes

  const WORDS := 0x1_0000_0000_0000_0000
  const NSIG := 32
  const SIGKILL := 9
  const SIGCHLD := 17
  const SIGCONT := 18
  const SIGSTOP := 19
  const SIGTSTP := 20
  const SIGTTIN := 21
  const SIGTTOU := 22

  const TF_RA := 0
  const TF_SP := 1
  const TF_A0 := 9
  const TF_SEPC := 31
  const TF_SSTATUS := 32
  const TF_WORDS := 36
  const FRAME_WORDS := 40
  const FRAME_BYTES := 320
  const MAGIC := 0x53_4253_4947_464D
  const SPIE := 5
  const SPP := 8
  const SUM := 18
  const MXR := 19

  type Word = w: nat | w < WORDS
  type Mask = s: set<nat> | forall k :: k in s ==> k < 64

  /** Signals that are never blocked, caught or ignored. */
  const HARD: Mask := {SIGKILL, SIGSTOP}

  predicate Soft(m: Mask) { SIGKILL !in m && SIGSTOP !in m }

  // ---- a mask as a 64-bit word ----

  lemma Pow2Values()
    ensures Pow2(64) == WORDS
  {
    assert Pow2(8) == 0x100;
    assert Pow2(16) == 0x1_0000;
    assert Pow2(24) == 0x100_0000;
    assert Pow2(32) == 0x1_0000_0000;
    assert Pow2(40) == 0x100_0000_0000;
    assert Pow2(48) == 0x1_0000_0000_0000;
    assert Pow2(56) == 0x100_0000_0000_0000;
  }

  /** Bits k and up of b, as a number. */
  function Upper(b: Mask, k: nat): (w: nat)
    requires k <= 64
    ensures w < Pow2(64 - k)
    decreases 64 - k
  {
    if k == 64 then 0 else (if k in b then 1 else 0) + 2 * Upper(b, k + 1)
  }

  function ToWord(b: Mask): (w: Word) {
    assert Pow2(64) == WORDS by { Pow2Values(); }
    Upper(b, 0)
  }

  function Bits(w: nat): Mask {
    set k: nat | k < 64 && BitOf(w, k)
  }

  lemma {:induction false} UpperBit(b: Mask, k: nat, j: nat)
    requires k + j < 64
    ensures BitOf(Upper(b, k), j) <==> k + j in b
    decreases j
  {
    if j > 0 {
      assert Upper(b, k) / 2 == Upper(b, k + 1);
      UpperBit(b, k + 1, j - 1);
    }
  }

  /** A mask written as a word reads back as itself. */
  lemma MaskRoundTrip(b: Mask)
    ensures Bits(ToWord(b)) == b
  {
    forall k: nat | k < 64 ensures BitOf(ToWord(b), k) <==> k in b { UpperBit(b, 0, k); }
  }

  // ---- frames in user memory ----

  type Memory = nat -> Word

  /** A delivery that has not returned: where its frame is, what it interrupted, the mask to go back to. */
  datatype Ctx = Ctx(va: nat, tf: seq<Word>, mask: Mask)

  function FrameWords(c: Ctx): (ws: seq<Word>)
    ensures |ws| == |c.tf| + 4
  {
    [MAGIC, ToWord(c.mask)] + c.tf + [0, 0]
  }

  function Loaded(mem: Memory, va: nat): (ws: seq<Word>)
    ensures |ws| == FRAME_WORDS
  {
    seq(FRAME_WORDS, i requires 0 <= i => mem(va + 8 * i))
  }

  function Stored(mem: Memory, va: nat, ws: seq<Word>): Memory {
    (a: nat) => if va <= a < va + 8 * |ws| && (a - va) % 8 == 0 then ws[(a - va) / 8] else mem(a)
  }

  ghost predicate Intact(mem: Memory, c: Ctx) {
    |c.tf| == TF_WORDS && Loaded(mem, c.va) == FrameWords(c)
  }

  lemma StoredAt(mem: Memory, va: nat, ws: seq<Word>, i: nat)
    requires i < |ws|
    ensures Stored(mem, va, ws)(va + 8 * i) == ws[i]
  {
    assert (va + 8 * i - va) / 8 == i;
  }

  lemma StoredBack(mem: Memory, va: nat, ws: seq<Word>)
    requires |ws| == FRAME_WORDS
    ensures Loaded(Stored(mem, va, ws), va) == ws
  {
    hide Stored;
    forall i: nat | i < FRAME_WORDS ensures Loaded(Stored(mem, va, ws), va)[i] == ws[i] { StoredAt(mem, va, ws, i); }
  }

  lemma StoredFrame(mem: Memory, c: Ctx)
    requires |c.tf| == TF_WORDS
    ensures Intact(Stored(mem, c.va, FrameWords(c)), c)
  {
    hide FrameWords, Stored;
    StoredBack(mem, c.va, FrameWords(c));
  }

  /** A frame that does not overlap the new one is untouched by it. */
  lemma StoredApart(mem: Memory, c: Ctx, d: Ctx)
    requires Intact(mem, d) && |c.tf| == TF_WORDS && (d.va + FRAME_BYTES <= c.va || c.va + FRAME_BYTES <= d.va)
    ensures Intact(Stored(mem, c.va, FrameWords(c)), d)
  {
    hide FrameWords;
    var m := Stored(mem, c.va, FrameWords(c));
    forall i | 0 <= i < FRAME_WORDS ensures m(d.va + 8 * i) == mem(d.va + 8 * i) {
    }
    assert Loaded(m, d.va) == Loaded(mem, d.va);
  }

  /** What sigreturn lets through of a saved status word: user mode, interrupts on, no supervisor access bits. */
  function Clean(w: Word): Word {
    ToWord(Bits(w) - {SPP, SUM, MXR} + {SPIE})
  }

  function Restored(tf: seq<Word>): (r: seq<Word>)
    requires |tf| == TF_WORDS
    ensures |r| == TF_WORDS && forall i :: 0 <= i < TF_WORDS && i != TF_SSTATUS ==> r[i] == tf[i]
  {
    tf[TF_SSTATUS := Clean(tf[TF_SSTATUS])]
  }

  /** Where the frame for a stack ending at base goes: 16-aligned, modulo 2^64. */
  function FrameVa(base: Word): (va: Word)
    ensures va % 16 == 0
  {
    (base + WORDS - FRAME_BYTES) % WORDS / 16 * 16
  }

  lemma FrameBelow(base: Word)
    requires base >= FRAME_BYTES
    ensures FrameVa(base) % 16 == 0 && FrameVa(base) + FRAME_BYTES <= base < FrameVa(base) + FRAME_BYTES + 16
  {
    assert (base + WORDS - FRAME_BYTES) % WORDS == base - FRAME_BYTES;
  }

  // ---- which signal is next ----

  datatype Action = Action(handler: Word, mask: Mask, restart: bool, onstack: bool, restorer: Word)

  const SIG_DFL: Word := 0
  const SIG_IGN: Word := 1

  datatype Default = Terminate | Ignore | Stop | Continue

  function DefaultAction(sig: nat): Default {
    if sig == SIGCHLD then Ignore
    else if sig == SIGCONT then Continue
    else if sig in {SIGSTOP, SIGTSTP, SIGTTIN, SIGTTOU} then Stop
    else Terminate
  }

  predicate Caught(a: Action) { a.handler != SIG_DFL && a.handler != SIG_IGN }

  predicate NoOp(actions: seq<Action>, sig: nat)
    requires sig < |actions|
  {
    actions[sig].handler == SIG_IGN
      || (actions[sig].handler == SIG_DFL && (DefaultAction(sig).Ignore? || DefaultAction(sig).Continue?))
  }

  /** sig would have an effect if the process returned to user mode now. */
  predicate Actionable(pending: Mask, blocked: Mask, actions: seq<Action>, sig: nat)
    requires |actions| == NSIG
  {
    1 <= sig < NSIG && sig in pending && sig !in blocked && !NoOp(actions, sig)
  }

  ghost predicate AnyActionable(pending: Mask, blocked: Mask, actions: seq<Action>)
    requires |actions| == NSIG
  {
    exists i: nat :: Actionable(pending, blocked, actions, i)
  }

  /** sig is the lowest-numbered actionable signal, or 0 when there is none. */
  ghost predicate IsNext(pending: Mask, blocked: Mask, actions: seq<Action>, sig: nat)
    requires |actions| == NSIG
  {
    && (sig != 0 ==> Actionable(pending, blocked, actions, sig))
    && forall i: nat :: Actionable(pending, blocked, actions, i) ==> sig != 0 && sig <= i
  }

  // ---- runs ----

  /** What user code can see of the state, with the deliveries that have not returned. */
  datatype Snap = Snap(tf: seq<Word>, mask: Mask, live: seq<Ctx>, suspended: bool)

  ghost predicate Delivers(a: Snap, b: Snap) {
    b.live != [] && b.live == a.live + [Ctx(b.live[|b.live| - 1].va, a.tf, a.mask)]
  }

  ghost predicate Returns(a: Snap, b: Snap) {
    && a.live != [] && b.live == a.live[..|a.live| - 1]
    && var c := a.live[|a.live| - 1];
    && |c.tf| == TF_WORDS && b.tf == Restored(c.tf) && (!b.suspended ==> b.mask == c.mask)
  }

  ghost predicate Step(a: Snap, b: Snap) {
    Delivers(a, b) || Returns(a, b) || b.live == a.live
  }

  ghost predicate IsRun(run: seq<Snap>) {
    forall i :: 0 < i < |run| ==> Step(run[i - 1], run[i])
  }

  /** While no return goes below depth d, the first d deliveries stay as they are. */
  lemma {:induction false} OuterKept(run: seq<Snap>, i: nat, k: nat, d: nat)
    requires IsRun(run) && i <= k < |run| && d <= |run[i].live|
    requires forall x :: i <= x <= k ==> |run[x].live| >= d
    ensures run[k].live[..d] == run[i].live[..d]
    decreases k
  {
    if i < k {
      OuterKept(run, i, k - 1, d);
      assert Step(run[k - 1], run[k]);
    }
  }

  /**
   Bracketing: the return that matches a delivery, with any nesting of other deliveries and returns and any user code
   in between, gives back the registers, program counter, stack pointer and mask the delivery interrupted.
   */
  lemma Bracketing(run: seq<Snap>, i: nat, j: nat)
    requires IsRun(run) && i < j && j + 1 < |run| && Delivers(run[i], run[i + 1]) && Returns(run[j], run[j + 1])
    requires |run[j + 1].live| == |run[i].live| && forall x :: i < x <= j ==> |run[x].live| > |run[i].live|
    ensures |run[i].tf| == TF_WORDS && run[j + 1].tf == Restored(run[i].tf) && run[j + 1].live == run[i].live
    ensures !run[j + 1].suspended ==> run[j + 1].mask == run[i].mask
  {
    var d := |run[i].live| + 1;
    OuterKept(run, i + 1, j, d);
    assert run[j].live == run[j].live[..d];
    assert run[i + 1].live == run[i + 1].live[..d];
  }
}
