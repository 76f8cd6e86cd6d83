/** Signal delivery and return for one process: its masks, its actions and its trap frame. */
module Signals {
  import opened SignalSpec

  const PAGE_SIZE := 4096
  const KVMEM_OFFSET := 0xFFFF_FFFF_0000_0000
  const USER_STACK_TOP := 0x40_0000_0000
  const MINSIGSTKSZ := 2048
  const EPERM := 1
  const EINTR := 4
  const ENOMEM := 12
  const EFAULT := 14
  const EINVAL := 22
  const ERESTARTSYS := 512

  /** A user pointer argument: null, unreadable, or what it points to. */
  datatype Arg<T> = Null | Bad | Given(v: T)

  const SS_DISABLE := 2

  datatype Stack = Stack(sp: Word, flags: Word, size: Word)

  const STOPS: Mask := {SIGSTOP, SIGTSTP, SIGTTIN, SIGTTOU}

  datatype ProcState = Running | Sleeping | Stopped | Dead(code: nat)

  /** A negative result as the register holds it. */
  function Negative(n: nat): Word
    requires 0 < n <= WORDS
  {
    WORDS - n
  }

  /** A trap frame sigreturn accepts. */
  predicate Sane(tf: seq<Word>)
    requires |tf| == TF_WORDS
  {
    tf[TF_SEPC] < USER_STACK_TOP && 0 < tf[TF_SP] < USER_STACK_TOP
  }

  /** What a return value looks like in a0, and back. */
  function U64(ret: int): Word
    requires -0x8000_0000_0000_0000 <= ret < 0x8000_0000_0000_0000
  {
    if ret < 0 then ret + WORDS else ret
  }

  function Signed(w: Word): int {
    if w < 0x8000_0000_0000_0000 then w else w - WORDS
  }

  function Plus(w: Word, d: int): Word { (w + d) % WORDS }

  /** Frames away from the one at va are as they were. */
  ghost predicate OthersIntact(m: Memory, m': Memory, va: nat) {
    forall c :: Intact(m, c) && (c.va + FRAME_BYTES <= va || va + FRAME_BYTES <= c.va) ==> Intact(m', c)
  }

  ghost predicate Alive(s: ProcState) { s == Running || s == Stopped }

  /** The registers and mask that user code, interrupted at depth n, will go on with. */
  ghost function Resumes(s: Snap, n: nat): (seq<Word>, Mask)
    requires n <= |s.live|
  {
    if n < |s.live| then (s.live[n].tf, s.live[n].mask) else (s.tf, s.mask)
  }

  /** No handler's mask blocks SIGKILL or SIGSTOP, which have their default actions. */
  ghost predicate ActionsOk(actions: seq<Action>)
    requires |actions| == NSIG
  {
    && (forall i :: 0 <= i < NSIG ==> Soft(actions[i].mask))
    && actions[SIGKILL].handler == SIG_DFL && actions[SIGSTOP].handler == SIG_DFL
  }

  ghost predicate LiveOk(live: seq<Ctx>) {
    forall i :: 0 <= i < |live| ==> |live[i].tf| == TF_WORDS && live[i].va % 16 == 0 && Soft(live[i].mask)
  }

  lemma LiveAdd(live: seq<Ctx>, c: Ctx)
    requires LiveOk(live) && |c.tf| == TF_WORDS && c.va % 16 == 0 && Soft(c.mask)
    ensures LiveOk(live + [c])
  {
  }

  lemma LiveDrop(live: seq<Ctx>)
    requires LiveOk(live) && live != []
    ensures LiveOk(live[..|live| - 1]) && |live[|live| - 1].tf| == TF_WORDS && live[|live| - 1].va % 16 == 0
    ensures Soft(live[|live| - 1].mask)
  {
  }

  lemma NextFacts(pending: Mask, blocked: Mask, actions: seq<Action>, sig: nat)
    requires |actions| == NSIG && IsNext(pending, blocked, actions, sig) && sig != 0
    ensures sig < NSIG && !NoOp(actions, sig)
  {
  }

  lemma SoftKeeps(m: Mask, sig: nat)
    requires Soft(m) && sig in HARD
    ensures m - {sig} == m
  {
  }

  lemma NextExists(pending: Mask, blocked: Mask, actions: seq<Action>, sig: nat)
    requires |actions| == NSIG && IsNext(pending, blocked, actions, sig) && AnyActionable(pending, blocked, actions)
    ensures sig != 0
  {
  }

  lemma OneNext(pending: Mask, blocked: Mask, actions: seq<Action>, a: nat, b: nat)
    requires |actions| == NSIG && IsNext(pending, blocked, actions, a) && IsNext(pending, blocked, actions, b)
    ensures a == b
  {
  }

  /** The parts of a frame, as sigreturn reads them. */
  lemma FrameParts(c: Ctx)
    requires |c.tf| == TF_WORDS
    ensures |FrameWords(c)| == FRAME_WORDS && FrameWords(c)[0] == MAGIC && FrameWords(c)[2..2 + TF_WORDS] == c.tf
    ensures Bits(FrameWords(c)[1]) == c.mask
  {
    hide Bits, ToWord;
    MaskRoundTrip(c.mask);
  }

  lemma CleanBits(w: Word)
    ensures SPIE in Bits(Clean(w)) && {SPP, SUM, MXR} !! Bits(Clean(w))
  {
    hide Bits, ToWord;
    MaskRoundTrip(Bits(w) - {SPP, SUM, MXR} + {SPIE});
  }

  /** A frame in user space is one that did not wrap around below zero. */
  lemma FrameFits(base: Word)
    requires FrameVa(base) + FRAME_BYTES <= KVMEM_OFFSET
    ensures base >= FRAME_BYTES
  {
    if base < FRAME_BYTES { assert false; }
  }

  lemma CleanStatus(tf: seq<Word>)
    requires |tf| == TF_WORDS && Sane(tf)
    ensures var r := Restored(tf); Sane(r) && SPIE in Bits(r[TF_SSTATUS]) && {SPP, SUM, MXR} !! Bits(r[TF_SSTATUS])
  {
    CleanBits(tf[TF_SSTATUS]);
  }

  lemma StoredOthers(m: Memory, c: Ctx)
    requires |c.tf| == TF_WORDS
    ensures OthersIntact(m, Stored(m, c.va, FrameWords(c)), c.va)
  {
    hide Intact;
    forall d | Intact(m, d) && (d.va + FRAME_BYTES <= c.va || c.va + FRAME_BYTES <= d.va)
      ensures Intact(Stored(m, c.va, FrameWords(c)), d)
    {
      StoredApart(m, c, d);
    }
  }

  lemma Extend(run: seq<Snap>, s: Snap)
    requires run != [] && IsRun(run) && Step(run[|run| - 1], s)
    ensures IsRun(run + [s])
  {
  }

  /** What the sentinel in a saved a0 turns into is not what was saved. */
  lemma Differ(tf: seq<Word>, a0: Word)
    requires |tf| == TF_WORDS
    ensures tf[TF_SEPC := Plus(tf[TF_SEPC], -4)][TF_A0 := a0] != tf
    ensures tf[TF_A0] == Negative(ERESTARTSYS) ==> tf[TF_A0 := Negative(EINTR)] != tf
  {
    assert tf[TF_SEPC := Plus(tf[TF_SEPC], -4)][TF_A0 := a0][TF_SEPC] != tf[TF_SEPC];
    assert tf[TF_A0 := Negative(EINTR)][TF_A0] == Negative(EINTR);
  }

  class Process {
    var pending: Mask
    var blocked: Mask
    var actions: seq<Action>
    var tf: seq<Word>
    var mem: Memory
    var suspended: bool
    var suspendMask: Mask
    var altOn: bool
    var altSp: nat
    var altSize: nat
    var state: ProcState
    ghost var live: seq<Ctx>
    ghost var run: seq<Snap>

    /** The mask user code has, or will have once sigsuspend is over. */
    function UserMask(): Mask
      reads this`suspended, this`suspendMask, this`blocked
    {
      if suspended then suspendMask else blocked
    }

    ghost function Now(): Snap
      reads this`suspended, this`suspendMask, this`blocked, this`tf, this`live
    {
      Snap(tf, UserMask(), live, suspended)
    }

    ghost predicate Shape()
      reads this`suspended, this`suspendMask, this`blocked, this`tf, this`live, this`actions, this`altOn, this`altSp,
        this`altSize
    {
      && |actions| == NSIG && |tf| == TF_WORDS && Soft(blocked) && Soft(suspendMask) && ActionsOk(actions)
      && LiveOk(live)
      && (altOn ==> PAGE_SIZE <= altSp && altSp + altSize <= KVMEM_OFFSET && MINSIGSTKSZ <= altSize)
    }

    ghost predicate Valid()
      reads this`suspended, this`suspendMask, this`blocked, this`tf, this`live, this`actions, this`altOn, this`altSp,
        this`altSize, this`run
    {
      var ok := Shape() && run != [] && IsRun(run) && run[|run| - 1] == Now();
      ok
    }

    /** A fresh process: nothing pending, nothing blocked, every action the default. */
    constructor (regs: seq<Word>, m: Memory)
      requires |regs| == TF_WORDS
      ensures Valid() && live == [] && state == Running && !suspended
    {
      pending, blocked, suspendMask := {}, {}, {};
      actions := seq(NSIG, i => Action(SIG_DFL, {}, false, false, 0));
      tf, mem, suspended, altOn, altSp, altSize, state := regs, m, false, false, 0, 0, Running;
      live, run := [], [Snap(regs, {}, [], false)];
    }

    /** User code runs: registers and memory change as it likes. */
    method UserRuns(regs: seq<Word>, m: Memory)
      requires Valid() && |regs| == TF_WORDS
      modifies this`tf, this`mem, this`run
      ensures Valid() && tf == regs && mem == m && run == old(run) + [Now()]
    {
      tf, mem := regs, m;
      run := run + [Now()];
    }

    method SetFrame(regs: seq<Word>)
      requires Valid() && |regs| == TF_WORDS
      modifies this`tf, this`run
      ensures Valid() && tf == regs
    {
      tf := regs;
      run := run + [Now()];
    }

    /** pick_actionable: drops deliverable signals without effect and finds the next one to act on. */
    method PickActionable() returns (sig: nat)
      requires Valid()
      modifies this`pending
      ensures Valid() && IsNext(old(pending), blocked, actions, sig) && IsNext(pending, blocked, actions, sig)
      ensures pending == set i | i in old(pending) && !(1 <= i < NSIG && i !in blocked && NoOp(actions, i))
    {
      sig := 0;
      var i := 1;
      var deliverable := pending - blocked;
      while i < NSIG
        invariant 1 <= i <= NSIG && Valid()
        invariant pending == set k | k in old(pending) && !(1 <= k < i && k !in blocked && NoOp(actions, k))
        invariant sig < i && (sig != 0 ==> Actionable(old(pending), blocked, actions, sig))
        invariant forall k: nat :: k < i && Actionable(old(pending), blocked, actions, k) ==> sig != 0 && sig <= k
      {
        if i in deliverable {
          if NoOp(actions, i) {
            pending := pending - {i};
          } else if sig == 0 {
            sig := i;
          }
        }
        i := i + 1;
      }
      assert forall k: nat :: Actionable(pending, blocked, actions, k) ==>
        Actionable(old(pending), blocked, actions, k);
    }

    /** sig_has_actionable */
    method HasActionable() returns (b: bool)
      requires Valid()
      ensures b <==> AnyActionable(pending, blocked, actions)
    {
      var i := 1;
      b := false;
      while i < NSIG && !b
        invariant 1 <= i <= NSIG && (b ==> exists k: nat :: Actionable(pending, blocked, actions, k))
        invariant !b ==> forall k: nat :: k < i ==> !Actionable(pending, blocked, actions, k)
        decreases NSIG - i, !b
      {
        if Actionable(pending, blocked, actions, i) { b := true; } else { i := i + 1; }
      }
    }

    /** sp_on_altstack */
    predicate OnAlt(sp: nat)
      reads this
    {
      altOn && altSp != 0 && altSize != 0 && altSp <= sp < altSp + altSize
    }

    /** Where the stack for sig's frame ends: the top of the alternate stack, or the interrupted stack pointer. */
    function FrameBase(sig: nat): (base: Word)
      requires Shape() && sig < NSIG
      reads this
    {
      if actions[sig].onstack && altOn && !OnAlt(tf[TF_SP]) && altSp != 0 && altSize >= MINSIGSTKSZ then altSp + altSize
        else tf[TF_SP]
    }

    /**
     build_sigframe_and_redirect: the interrupted context is saved in a frame on the user's stack and the handler
     entered. A frame not overlapping the new one stays as it was.
     */
    method Deliver(sig: nat, copied: bool)
      requires Valid() && state == Running && 1 <= sig < NSIG && sig !in HARD && Caught(actions[sig])
      modifies this`blocked, this`tf, this`mem, this`suspended, this`state, this`live, this`run
      ensures Valid() && (state == Running || state == Dead(11))
      ensures state == Running <==>
        (var va := old(FrameVa(FrameBase(sig))); PAGE_SIZE <= va && va + FRAME_BYTES <= KVMEM_OFFSET && copied)
      ensures state == Running ==>
        Delivers(old(Now()), Now()) && live[|live| - 1].va == tf[TF_SP] == old(FrameVa(FrameBase(sig)))
      ensures state == Running ==>
        run == old(run) + [Now()] && Intact(mem, live[|live| - 1]) && OthersIntact(old(mem), mem, tf[TF_SP])
      ensures state == Running ==> tf[TF_SP] + FRAME_BYTES <= old(FrameBase(sig)) < tf[TF_SP] + FRAME_BYTES + 16
      ensures state == Running ==>
        tf == old(tf)[TF_SEPC := actions[sig].handler][TF_A0 := sig][TF_SP := tf[TF_SP]][TF_RA := actions[sig].restorer]
      ensures state == Running ==> !suspended && blocked == old(blocked) + {sig} + actions[sig].mask
      ensures state != Running ==> Now() == old(Now())
    {
      hide FrameVa, Process.Valid, Delivers, Intact, OthersIntact;
      Facts();
      var va := FrameVa(FrameBase(sig));
      if va < PAGE_SIZE || (va + FRAME_BYTES) % WORDS > KVMEM_OFFSET || va + FRAME_BYTES > KVMEM_OFFSET || !copied {
        state := Dead(11);
        return;
      }
      FrameFits(FrameBase(sig));
      FrameBelow(FrameBase(sig));
      Push(sig, va);
    }

    lemma Facts()
      requires Valid()
      ensures Shape()
    {
    }

    /** The frame goes to va and the handler is entered. */
    method Push(sig: nat, va: Word)
      requires Valid() && 1 <= sig < NSIG && sig !in HARD && va % 16 == 0
      modifies this`blocked, this`tf, this`mem, this`suspended, this`live, this`run
      ensures Valid() && Delivers(old(Now()), Now()) && live[|live| - 1].va == va
      ensures run == old(run) + [Now()] && Intact(mem, live[|live| - 1]) && OthersIntact(old(mem), mem, va)
      ensures tf == old(tf)[TF_SEPC := actions[sig].handler][TF_A0 := sig][TF_SP := va][TF_RA := actions[sig].restorer]
      ensures !suspended && blocked == old(blocked) + {sig} + actions[sig].mask
    {
      hide FrameWords, ToWord, Loaded, Stored, LiveOk;
      var c := Ctx(va, tf, UserMask());
      LiveAdd(live, c);
      assert Soft(actions[sig].mask);
      hide ActionsOk;
      suspended := false;
      StoredFrame(mem, c);
      StoredOthers(mem, c);
      hide Intact, OthersIntact, IsRun;
      mem := Stored(mem, va, FrameWords(c));
      blocked := blocked + {sig} + actions[sig].mask - HARD;
      tf := tf[TF_SEPC := actions[sig].handler][TF_A0 := sig][TF_SP := va][TF_RA := actions[sig].restorer];
      live := live + [c];
      Extend(run, Now());
      run := run + [Now()];
    }

    method EndSuspend()
      requires Valid() && suspended
      modifies this`blocked, this`suspended, this`run
      ensures Valid() && !suspended && blocked == suspendMask
    {
      blocked := suspendMask;
      suspended := false;
      run := run + [Now()];
    }

    /**
     check_signals: acts on the next signal, if there is one. What was interrupted is kept, in the trap frame or in the
     new signal frame; only a stop leaves sigsuspend's temporary mask in force.
     */
    method CheckSignals(copied: bool) returns (sig: nat)
      requires Valid() && state == Running
      modifies this`pending, this`blocked, this`tf, this`mem, this`suspended, this`state, this`live, this`run
      ensures Valid() && IsNext(old(pending), old(blocked), actions, sig)
      ensures Alive(state) ==> |live| >= |old(live)| && Resumes(Now(), |old(live)|) == (old(tf), old(UserMask()))
      ensures sig == 0 ==> state == Running && live == old(live) && !suspended && mem == old(mem)
      ensures sig != 0 && !Caught(actions[sig]) ==>
        live == old(live) && state == if DefaultAction(sig).Stop? then Stopped else Dead(sig)
      ensures sig != 0 && Caught(actions[sig]) ==> state == Running || state == Dead(11)
      ensures state == Stopped ==> suspended == old(suspended) && blocked == old(blocked)
      ensures state == Running && sig != 0 ==>
        Delivers(old(Now()), Now()) && Intact(mem, live[|live| - 1]) && OthersIntact(old(mem), mem, tf[TF_SP])
      ensures suspended ==> old(suspended) && state != Running
    {
      hide Process.Valid, IsNext, OthersIntact, Intact, LiveOk;
      Facts();
      assert actions[SIGKILL].handler == SIG_DFL && actions[SIGSTOP].handler == SIG_DFL;
      hide Process.Shape;
      sig := PickActionable();
      if sig != 0 { NextFacts(old(pending), blocked, actions, sig); }
      if sig == 0 {
        if suspended {
          EndSuspend();
        }
        return;
      }
      pending := pending - {sig};
      if sig == SIGKILL {
        state := Dead(sig);
        return;
      }
      if sig == SIGSTOP {
        state := Stopped;
        return;
      }
      if actions[sig].handler == SIG_DFL {
        if DefaultAction(sig).Stop? {
          state := Stopped;
          return;
        }
        state := Dead(sig);
        return;
      }
      Deliver(sig, copied);
    }

    /** The sentinel becomes EINTR, or the call is rewound for the handler that will run. */
    method Rewind(a0: Word) returns (sig: nat)
      requires Valid()
      modifies this`pending, this`tf, this`run
      ensures Valid() && IsNext(old(pending), blocked, actions, sig) && IsNext(pending, blocked, actions, sig)
      ensures tf == if sig != 0 && Caught(actions[sig]) && actions[sig].restart
                    then old(tf)[TF_SEPC := Plus(old(tf)[TF_SEPC], -4)][TF_A0 := a0]
                      else old(tf)[TF_A0 := Negative(EINTR)]
    {
      SetFrame(tf[TF_A0 := Negative(EINTR)]);
      sig := PickActionable();
      if sig != 0 && Caught(actions[sig]) && actions[sig].restart {
        SetFrame(tf[TF_SEPC := Plus(tf[TF_SEPC], -4)][TF_A0 := a0]);
      }
    }

    /**
     check_signals_after_syscall: the restart sentinel becomes EINTR, or the call is rewound when the handler about to
     run asks for it. The signal chosen here is the one then delivered.
     */
    method AfterSyscall(ret: int, a0: Word, copied: bool) returns (sig: nat)
      requires Valid() && state == Running
      modifies this`pending, this`blocked, this`tf, this`mem, this`suspended, this`state, this`live, this`run
      ensures Valid() && IsNext(old(pending), old(blocked), actions, sig)
      ensures Alive(state) ==> |live| >= |old(live)| && Resumes(Now(), |old(live)|).1 == old(UserMask())
      ensures Alive(state) ==> Resumes(Now(), |old(live)|).0 == if ret != -ERESTARTSYS then old(tf)
                else if sig != 0 && Caught(actions[sig]) && actions[sig].restart
                  then old(tf)[TF_SEPC := Plus(old(tf)[TF_SEPC], -4)][TF_A0 := a0]
                else old(tf)[TF_A0 := Negative(EINTR)]
      ensures suspended ==> old(suspended) && state != Running
    {
      hide IsRun, IsNext, OthersIntact, LiveOk;
      ghost var sig0 := 0;
      if ret == -ERESTARTSYS { sig0 := Rewind(a0); }
      ghost var p := pending;
      sig := CheckSignals(copied);
      if ret == -ERESTARTSYS { OneNext(p, old(blocked), actions, sig0, sig); }
    }

    /** check_user_return: a trap frame that does not lead back to user space ends the process. */
    method UserReturn()
      requires Valid()
      modifies this`state
      ensures Valid() && state == if old(state) == Running && !Sane(tf) then Dead(11) else old(state)
    {
      if state == Running && !Sane(tf) { state := Dead(11); }
    }

    /**
     A system call with result ret. Interrupted with the restart sentinel, it shows EINTR, or, when the handler that
     runs asks for restarts, the caller goes on exactly as it was before the call: at the same instruction and with the
     same arguments.
     */
    method Ecall(ret: int, copied: bool) returns (sig: nat)
      requires Valid() && state == Running && -0x8000_0000_0000_0000 <= ret < 0x8000_0000_0000_0000
      modifies this`pending, this`blocked, this`tf, this`mem, this`suspended, this`state, this`live, this`run
      ensures Valid() && IsNext(old(pending), old(blocked), actions, sig)
      ensures Alive(state) ==> |live| >= |old(live)| && Resumes(Now(), |old(live)|).1 == old(UserMask())
      ensures Alive(state) ==> Resumes(Now(), |old(live)|).0 == if ret == -ERESTARTSYS && sig != 0
        && Caught(actions[sig]) && actions[sig].restart then old(tf)
                else old(tf)[TF_SEPC := Plus(old(tf)[TF_SEPC], 4)][TF_A0 := if ret == -ERESTARTSYS then Negative(EINTR)
                  else U64(ret)]
      ensures suspended ==> old(suspended) && !state.Running?
    {
      hide IsRun, IsNext, LiveOk, ActionsOk;
      var a0 := tf[TF_A0];
      ghost var was := tf;
      SetFrame(tf[TF_SEPC := Plus(tf[TF_SEPC], 4)][TF_A0 := U64(ret)]);
      assert tf[TF_SEPC := Plus(tf[TF_SEPC], -4)][TF_A0 := a0] == was;
      sig := AfterSyscall(ret, a0, copied);
      UserReturn();
    }

    /** The last delivery's handler is returning: the stack pointer is at its frame. */
    ghost predicate Returning()
      reads this
    {
      live != [] && |tf| == TF_WORDS && tf[TF_SP] == live[|live| - 1].va
    }

    ghost predicate Matches(raw: Arg<seq<Word>>)
      reads this
    {
      Returning() && raw.Given? && raw.v == FrameWords(live[|live| - 1])
    }

    /** sys_sigreturn, given what copyin finds at the stack pointer. */
    method Sigreturn(raw: Arg<seq<Word>>)
      requires Valid() && state == Running && (raw.Given? ==> |raw.v| == FRAME_WORDS)
      modifies this`tf, this`blocked, this`state, this`live, this`run
      ensures Valid() && (state == Running || state == Dead(11))
      ensures old(Matches(raw)) ==> (state == Running <==> Sane(old(live)[|old(live)| - 1].tf))
      ensures old(Matches(raw)) && state == Running ==> Returns(old(Now()), Now())
      ensures state == Running ==> Sane(tf) && SPIE in Bits(tf[TF_SSTATUS]) && {SPP, SUM, MXR} !! Bits(tf[TF_SSTATUS])
      ensures !old(Matches(raw)) ==> live == old(live)
      ensures !raw.Given? ==> state == Dead(11)
    {
      hide IsRun, Bits, LiveOk, ActionsOk, FrameWords, Process.Valid, Restored, Returns;
      Facts();
      ghost var matched := Matches(raw);
      if matched {
        LiveDrop(live);
        FrameParts(live[|live| - 1]);
      }
      if !raw.Given? || raw.v[0] != MAGIC || !Sane(raw.v[2..2 + TF_WORDS]) {
        state := Dead(11);
        return;
      }
      var saved := raw.v[2..2 + TF_WORDS];
      CleanStatus(saved);
      Resume(Restored(saved), Bits(raw.v[1]), matched);
    }

    /** The trap frame and mask are replaced; on a matching return the delivery is over. */
    method Resume(regs: seq<Word>, m: Mask, ghost matched: bool)
      requires Valid() && |regs| == TF_WORDS
      requires matched ==>
        && live != [] && |live[|live| - 1].tf| == TF_WORDS && regs == Restored(live[|live| - 1].tf)
        && m == live[|live| - 1].mask
      modifies this`tf, this`blocked, this`live, this`run
      ensures Valid() && tf == regs && blocked == m - HARD
      ensures matched ==> Returns(old(Now()), Now())
      ensures !matched ==> live == old(live)
    {
      hide IsRun, LiveOk, ActionsOk, Restored;
      if matched { LiveDrop(live); }
      tf := regs;
      blocked := m - HARD;
      if matched { live := live[..|live| - 1]; }
      assert matched ==> Returns(old(Now()), Now());
      Extend(run, Now());
      run := run + [Now()];
    }

    /**
     The end of the sigreturn call: its result is the restored a0, which is taken for the sentinel if it looks like
     it.
     */
    method AfterReturn(a0: Word, copied: bool) returns (sig: nat)
      requires Valid() && state == Running
      modifies this`pending, this`blocked, this`tf, this`mem, this`suspended, this`state, this`live, this`run
      ensures Valid()
      ensures Alive(state) ==> |live| >= |old(live)| && Resumes(Now(), |old(live)|).1 == old(UserMask())
      ensures Alive(state) ==> (Resumes(Now(), |old(live)|).0 == old(tf) <==> old(tf)[TF_A0] != Negative(ERESTARTSYS))
    {
      hide IsRun, IsNext, LiveOk, ActionsOk;
      Differ(tf, a0);
      sig := AfterSyscall(Signed(tf[TF_A0]), a0, copied);
      UserReturn();
    }

    /**
     The sigreturn system call as a whole. Through an intact frame it gives back the interrupted registers exactly when
     the saved a0 is not the restart sentinel, and the interrupted mask unless a stop left sigsuspend unfinished.
     */
    method SigreturnCall(raw: Arg<seq<Word>>, copied: bool) returns (sig: nat)
      requires Valid() && state == Running
      requires (raw.Given? ==> |raw.v| == FRAME_WORDS && (tf[TF_SP] % 8 == 0 ==> raw.v == Loaded(mem, tf[TF_SP])))
      modifies this`pending, this`blocked, this`tf, this`mem, this`suspended, this`state, this`live, this`run
      ensures Valid()
      ensures old(Returning() && Intact(mem, live[|live| - 1])) && raw.Given? && Alive(state) ==>
                var c := old(live)[|old(live)| - 1];
                && |live| >= |old(live)| - 1
                && (Resumes(Now(), |old(live)| - 1).0 == Restored(c.tf) <==> c.tf[TF_A0] != Negative(ERESTARTSYS))
                && (!old(suspended) ==> Resumes(Now(), |old(live)| - 1).1 == c.mask)
      ensures old(Returning() && Intact(mem, live[|live| - 1])) && !Sane(old(live)[|old(live)| - 1].tf) ==>
        state == Dead(11)
    {
      hide IsRun, IsNext, FrameWords, Bits, Restored, Loaded, LiveOk, ActionsOk;
      if live != [] { LiveDrop(live); }
      sig := 0;
      var a0 := tf[TF_A0];
      SetFrame(tf[TF_SEPC := Plus(tf[TF_SEPC], 4)]);
      Sigreturn(raw);
      if state != Running { return; }
      sig := AfterReturn(a0, copied);
    }

    /** send_signal to this process. A stopped process is moved by SIGKILL and SIGCONT only. */
    method Arrive(sig: int)
      requires Valid() && !state.Dead?
      modifies this`pending, this`blocked, this`actions, this`state
      ensures Valid() && blocked == old(blocked) && actions == old(actions)
      ensures pending == if !(0 < sig < NSIG) then old(pending)
                         else if sig == SIGCONT then old(pending) - STOPS + (if Caught(actions[SIGCONT]) then {SIGCONT}
                           else {})
                         else if sig in STOPS && old(state) == Stopped then old(pending) else old(pending) + {sig}
      ensures old(state) == Stopped ==> state == if sig == SIGKILL || sig == SIGCONT then Running else Stopped
      ensures old(state) == Sleeping && 0 < sig < NSIG && !(sig == SIGCONT && !Caught(actions[SIGCONT])) ==>
        state == if pending <= blocked then Sleeping else Running
      ensures old(state) == Sleeping ==> state == Sleeping || state == Running
      ensures old(state) == Running ==> state == Running
    {
      hide IsRun, Soft;
      if sig <= 0 || sig >= NSIG { return; }
      if sig == SIGKILL || sig == SIGSTOP { Force(sig); }
      if sig == SIGCONT {
        pending := pending - STOPS;
        if state == Stopped { state := Running; }
        if !Caught(actions[SIGCONT]) { return; }
      }
      if sig in STOPS && state == Stopped { return; }
      Post(sig);
    }

    /** SIGKILL and SIGSTOP are unblocked and reset to their default, which they already are. */
    method Force(sig: nat)
      requires Valid() && sig in HARD
      modifies this`blocked, this`actions
      ensures Valid() && blocked == old(blocked) && actions == old(actions)
    {
      hide IsRun, Soft;
      SoftKeeps(blocked, sig);
      blocked := blocked - {sig};
      actions := actions[sig := actions[sig].(handler := SIG_DFL)];
      assert actions == old(actions);
    }

    /** The signal becomes pending, and wakes the process if it can be delivered. */
    method Post(sig: nat)
      requires Valid() && sig < NSIG && !state.Dead?
      modifies this`pending, this`state
      ensures Valid() && pending == old(pending) + {sig}
      ensures state == if old(state) == Stopped && sig == SIGKILL then Running
        else if old(state) == Sleeping && !(pending <= blocked) then Running else old(state)
    {
      hide IsRun;
      pending := pending + {sig};
      if sig == SIGKILL && state == Stopped { state := Running; }
      if state == Sleeping && !(pending <= blocked) { state := Running; }
    }

    /** Sleeps until a signal that matters has come, or all arrivals have. */
    method SleepUntil(arrivals: seq<int>)
      requires Valid() && state == Running
      modifies this`pending, this`blocked, this`actions, this`state
      ensures Valid() && blocked == old(blocked) && actions == old(actions) && (state == Running || state == Sleeping)
      ensures state == Running <==> AnyActionable(pending, blocked, actions)
    {
      hide AnyActionable, IsRun;
      var k := 0;
      var ready := HasActionable();
      while !ready && k < |arrivals|
        invariant k <= |arrivals| && Valid() && blocked == old(blocked) && actions == old(actions)
        invariant (state == Running || state == Sleeping) && (ready <==> AnyActionable(pending, blocked, actions))
        decreases |arrivals| - k
      {
        state := Sleeping;
        Arrive(arrivals[k]);
        k := k + 1;
        ready := HasActionable();
      }
      state := if ready then Running else Sleeping;
    }

    /** sys_sigsuspend, with the signals that arrive while it sleeps. It stays asleep if none of them is actionable. */
    method Sigsuspend(mask: Arg<Mask>, arrivals: seq<int>) returns (rc: int)
      requires Valid() && state == Running
      modifies this`pending, this`blocked, this`actions, this`suspended, this`suspendMask, this`state, this`run
      ensures Valid() && UserMask() == (if mask.Given? then old(blocked) else old(UserMask()))
      ensures actions == old(actions)
      ensures rc == if mask.Null? then -EINVAL else if mask.Bad? then -EFAULT else -EINTR
      ensures !mask.Given? ==> state == Running && suspended == old(suspended) && pending == old(pending)
      ensures mask.Given? ==> suspended && blocked == mask.v - HARD && (state == Running || state == Sleeping)
      ensures mask.Given? ==> (state == Running <==> AnyActionable(pending, blocked, actions))
    {
      hide IsRun, AnyActionable;
      if mask.Null? { return -EINVAL; }
      if mask.Bad? { return -EFAULT; }
      suspendMask := blocked;
      suspended := true;
      blocked := mask.v - HARD;
      run := run + [Now()];
      Extend(old(run), Now());
      rc := -EINTR;
      SleepUntil(arrivals);
    }

    /**
     The sigsuspend system call as a whole: back in user mode the caller finds EINTR and the mask it called with, at
     once or when the handler returns. The temporary mask outlives the call exactly when the signal stopped the process.
     */
    method SuspendCall(mask: Mask, arrivals: seq<int>, copied: bool) returns (sig: nat)
      requires Valid() && state == Running
      modifies this`pending, this`blocked, this`actions, this`tf, this`mem, this`suspended, this`suspendMask,
        this`state, this`live, this`run
      ensures Valid() && (state == Sleeping || sig != 0)
      ensures Alive(state) ==> |live| >= |old(live)|
      ensures Alive(state) ==>
        Resumes(Now(), |old(live)|) == (old(tf)[TF_SEPC := Plus(old(tf)[TF_SEPC], 4)][TF_A0 := Negative(EINTR)],
          old(blocked))
      ensures state == Running ==> !suspended
      ensures state == Stopped ==> suspended && blocked == mask - HARD
    {
      hide IsRun, IsNext, LiveOk, ActionsOk;
      sig := 0;
      var a0 := tf[TF_A0];
      SetFrame(tf[TF_SEPC := Plus(tf[TF_SEPC], 4)]);
      var rc := Sigsuspend(Given(mask), arrivals);
      if state == Sleeping { return; }
      SetFrame(tf[TF_A0 := Negative(EINTR)]);
      ghost var p := pending;
      sig := CheckSignals(copied);
      NextExists(p, mask - HARD, actions, sig);
      UserReturn();
    }

    /** sys_sigprocmask */
    method Sigprocmask(how: int, mask: Arg<Mask>, oldBad: bool) returns (rc: int)
      requires Valid()
      modifies this`blocked, this`run
      ensures Valid()
      ensures rc == if !mask.Null? && !(0 <= how <= 2) then -EINVAL else if mask.Bad? || oldBad then -EFAULT else 0
      ensures blocked == if rc != 0 || mask.Null? then old(blocked)
                         else if how == 0 then old(blocked) + mask.v - HARD else if how == 1 then old(blocked) - mask.v
                           else mask.v - HARD
    {
      hide IsRun;
      if !mask.Null? && !(0 <= how <= 2) { return -EINVAL; }
      if mask.Bad? || oldBad { return -EFAULT; }
      rc := 0;
      if mask.Given? {
        var s := mask.v - HARD;
        blocked := if how == 0 then blocked + s else if how == 1 then blocked - s else s;
        Extend(run, Now());
        run := run + [Now()];
      }
    }

    /** sys_sigaction: SIGKILL and SIGSTOP keep their default, and no handler's mask blocks them. */
    method Sigaction(sig: int, act: Arg<Action>, oldBad: bool) returns (rc: int)
      requires Valid()
      modifies this`actions
      ensures Valid()
      ensures rc == if !(0 < sig < NSIG) || sig == SIGKILL || sig == SIGSTOP then -EINVAL
        else if act.Bad? || oldBad then -EFAULT else 0
      ensures actions == if rc == 0 && act.Given? then old(actions)[sig := act.v.(mask := act.v.mask - HARD)]
        else old(actions)
    {
      hide IsRun;
      if sig <= 0 || sig >= NSIG { return -EINVAL; }
      if sig == SIGKILL || sig == SIGSTOP { return -EINVAL; }
      if act.Bad? || oldBad { return -EFAULT; }
      if act.Given? { actions := actions[sig := act.v.(mask := act.v.mask - HARD)]; }
      rc := 0;
    }

    /** sys_sigaltstack: never while on it, and only inside user space. */
    method Sigaltstack(ss: Arg<Stack>, oldBad: bool) returns (rc: int)
      requires Valid()
      modifies this`altOn, this`altSp, this`altSize
      ensures Valid() && (rc != 0 || ss.Null? ==> altOn == old(altOn) && altSp == old(altSp) && altSize == old(altSize))
      ensures rc == 0 && ss.Given? ==>
        !old(OnAlt(tf[TF_SP])) && altOn == (ss.v.flags == 0) && (altOn ==> altSp == ss.v.sp && altSize == ss.v.size)
      ensures ss.Given? && old(OnAlt(tf[TF_SP])) ==> rc == -EPERM
    {
      hide IsRun;
      if ss.Bad? { return -EFAULT; }
      if ss.Given? {
        if OnAlt(tf[TF_SP]) { return -EPERM; }
        if ss.v.flags != 0 && ss.v.flags != SS_DISABLE { return -EINVAL; }
        if ss.v.flags == 0 {
          var hi := (ss.v.sp + ss.v.size) % WORDS;
          if hi < ss.v.sp { return -EINVAL; }
          if ss.v.sp < PAGE_SIZE || hi > KVMEM_OFFSET { return -EINVAL; }
          if ss.v.size < MINSIGSTKSZ { return -ENOMEM; }
        }
      }
      if oldBad { return -EFAULT; }
      if ss.Given? {
        if ss.v.flags == SS_DISABLE {
          altSp, altOn, altSize := 0, false, 0;
        } else {
          altSp, altOn, altSize := ss.v.sp, true, ss.v.size;
        }
      }
      rc := 0;
    }
  }
}
