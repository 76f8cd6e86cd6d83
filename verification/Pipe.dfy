/** Pipes: a ring buffer, readers and writers that sleep, and the wakeups between them. */
module Pipe {
  import opened Bytes

  const PIPESIZE := 512
  const WRAP := 0x1_0000_0000
  const EPIPE := 32
  const ERESTARTSYS := 512

  /** What a process inside a pipe call is doing. */
  datatype Op = Reading(n: nat) | Writing(buf: seq<byte>, i: nat)

  /** Running covers a woken sleeper that has not run yet. */
  datatype Task = Running(op: Op) | Asleep(op: Op)

  datatype Outcome = Slept | Read(bytes: seq<byte>) | Wrote(n: nat) | Failed(errno: int)

  ghost predicate OpsOk(procs: map<nat, Task>) {
    forall p :: p in procs && procs[p].op.Writing? ==> procs[p].op.i < |procs[p].op.buf|
  }

  /** No wakeup is lost: a sleeping reader has nothing to read, a sleeping writer has no room. */
  ghost predicate NoneStranded(procs: map<nat, Task>, fill: int, readopen: bool, writeopen: bool) {
    forall p :: p in procs && procs[p].Asleep? ==>
      if procs[p].op.Reading? then fill == 0 && writeopen else fill == PIPESIZE && readopen
  }

  /** proc_wakeup_chan */
  function Woken(procs: map<nat, Task>): map<nat, Task> {
    map p | p in procs :: Running(procs[p].op)
  }

  lemma WokenOk(procs: map<nat, Task>, fill: int, r: bool, w: bool)
    requires OpsOk(procs)
    ensures OpsOk(Woken(procs)) && NoneStranded(Woken(procs), fill, r, w) && Woken(procs).Keys == procs.Keys
  {
  }

  /** Wrapped counters compare as the totals do, since the totals are at most a buffer apart. */
  lemma CountersAgree(a: nat, b: nat, d: nat)
    requires a <= b <= a + PIPESIZE && d <= PIPESIZE
    ensures b % WRAP == (a % WRAP + d) % WRAP <==> b == a + d
  {
    assert (a % WRAP + d) % WRAP == (a + d) % WRAP;
    if b < a + d { CountersApart(b, a + d); } else if b > a + d { CountersApart(a + d, b); }
  }

  lemma CountersApart(a: nat, b: nat)
    requires a < b <= a + PIPESIZE
    ensures a % WRAP != b % WRAP
  {
  }

  lemma SlotAgrees(a: nat)
    ensures (a % WRAP) % PIPESIZE == a % PIPESIZE
  {
    var q := a / WRAP;
    assert a == q * WRAP + a % WRAP;
    assert q * WRAP == (q * (WRAP / PIPESIZE)) * PIPESIZE;
    ModStep(q * (WRAP / PIPESIZE), a % WRAP);
  }

  lemma ModStep(k: nat, r: nat)
    ensures (k * PIPESIZE + r) % PIPESIZE == r % PIPESIZE
  {
  }

  /** Two bytes in flight never share a cell. */
  lemma CellsApart(a: nat, b: nat)
    requires a < b < a + PIPESIZE
    ensures a % PIPESIZE != b % PIPESIZE
  {
  }

  class Channel {
    const data: array<byte>
    var nread: nat               // 32-bit counters
    var nwrite: nat
    var readopen: bool
    var writeopen: bool
    var procs: map<nat, Task>    // the processes inside a call on this pipe
    ghost var written: seq<byte> // every byte ever written, in order
    ghost var taken: nat         // how many of them have been read
    ghost var received: seq<byte> // every byte readers have been given, in order

    ghost predicate BufferOk()
      reads this, data
    {
      var ok :=
        && data.Length == PIPESIZE && nread == taken % WRAP && nwrite == |written| % WRAP
        && taken <= |written| <= taken + PIPESIZE && received == written[..taken]
        && forall k :: taken <= k < |written| ==> data[k % PIPESIZE] == written[k];
      ok
    }

    ghost predicate Valid()
      reads this, data
    {
      && BufferOk() && OpsOk(procs) && NoneStranded(procs, |written| - taken, readopen, writeopen)
    }

    /** pipe_alloc */
    constructor ()
      ensures Valid() && readopen && writeopen && written == [] && taken == 0 && procs == map[] && fresh(data)
    {
      data := new byte[PIPESIZE](_ => 0);
      nread, nwrite, readopen, writeopen, procs, written, taken, received := 0, 0, true, true, map[], [], 0, [];
    }

    /** The copy loop of pipe_read: up to n bytes, as many as there are. */
    method Drain(n: nat) returns (out: seq<byte>)
      requires BufferOk()
      modifies this`nread, this`taken, this`received
      ensures received == old(received) + out
      ensures BufferOk() && taken == old(taken) + |out|
      ensures |out| == if |written| - old(taken) < n then |written| - old(taken) else n
      ensures out == written[old(taken)..taken]
    {
      out := [];
      CountersAgree(taken, |written|, 0);
      while |out| < n && nread != nwrite
        invariant BufferOk() && |out| <= n && taken == old(taken) + |out| && out == written[old(taken)..taken]
        invariant received == old(received) + out
        invariant nread == nwrite <==> taken == |written|
        decreases n - |out|
      {
        var b := Pop();
        out := out + [b];
        CountersAgree(taken, |written|, 0);
      }
    }

    method Pop() returns (b: byte)
      requires BufferOk() && taken < |written|
      modifies this`nread, this`taken, this`received
      ensures BufferOk() && taken == old(taken) + 1 && b == written[old(taken)] && received == old(received) + [b]
    {
      SlotAgrees(taken);
      b := data[nread % PIPESIZE];
      received := received + [b];
      nread := (nread + 1) % WRAP;
      taken := taken + 1;
      assert written[..taken] == written[..taken - 1] + [written[taken - 1]];
    }

    /** The copy loop of pipe_write, from byte i until the buffer is full or all is written. */
    method Pour(buf: seq<byte>, i: nat) returns (j: nat)
      requires BufferOk() && i <= |buf|
      modifies data, this`nwrite, this`written
      ensures BufferOk() && i <= j <= |buf| && written == old(written) + buf[i..j]
      ensures j == if |buf| - i <= taken + PIPESIZE - |old(written)| then |buf|
        else i + (taken + PIPESIZE - |old(written)|)
    {
      j := i;
      CountersAgree(taken, |written|, PIPESIZE);
      while j < |buf| && nwrite != (nread + PIPESIZE) % WRAP
        invariant BufferOk() && i <= j <= |buf| && written == old(written) + buf[i..j]
        invariant nwrite == (nread + PIPESIZE) % WRAP <==> |written| == taken + PIPESIZE
        decreases |buf| - j
      {
        Push(buf[j]);
        j := j + 1;
        CountersAgree(taken, |written|, PIPESIZE);
      }
    }

    method Push(b: byte)
      requires BufferOk() && |written| < taken + PIPESIZE
      modifies data, this`nwrite, this`written
      ensures BufferOk() && written == old(written) + [b]
    {
      SlotAgrees(|written|);
      forall k | taken <= k < |written| ensures k % PIPESIZE != |written| % PIPESIZE { CellsApart(k, |written|); }
      data[nwrite % PIPESIZE] := b;
      nwrite := (nwrite + 1) % WRAP;
      written := written + [b];
    }

    /**
     pipe_read by process pid, from the call or from a wakeup up to its next sleep or its return. What it returns
     is the next unread bytes in the order they were written; interrupted says a signal ended its sleep.
     */
    method RunReader(pid: nat, interrupted: bool) returns (o: Outcome)
      requires Valid() && pid in procs && procs[pid].Running? && procs[pid].op.Reading?
      modifies this`nread, this`taken, this`received, this`procs
      ensures Valid()
      ensures interrupted ==> o == Failed(-ERESTARTSYS) && procs == old(procs) - {pid} && received == old(received)
      ensures !interrupted && o.Slept? ==>
        && procs == old(procs)[pid := Asleep(old(procs)[pid].op)] && taken == |written| && writeopen
        && received == old(received)
      ensures !interrupted && !o.Slept? ==>
        o.Read? && received == old(received) + o.bytes && procs == Woken(old(procs) - {pid})
      ensures !interrupted && !o.Slept? ==>
        |o.bytes| == (var avail, n := |written| - old(taken), old(procs)[pid].op.n; if avail < n then avail else n)
          && (old(taken) < |written| || !writeopen)
    {
      var n := procs[pid].op.n;
      if interrupted {
        procs := procs - {pid};
        return Failed(-ERESTARTSYS);
      }
      CountersAgree(taken, |written|, 0);
      if nread == nwrite && writeopen {
        procs := procs[pid := Asleep(procs[pid].op)];
        return Slept;
      }
      var out := Drain(n);
      WokenOk(procs - {pid}, |written| - taken, readopen, writeopen);
      procs := Woken(procs - {pid});
      return Read(out);
    }

    /** pipe_write by process pid, from the call or from a wakeup up to its next sleep or its return. */
    method RunWriter(pid: nat, interrupted: bool) returns (o: Outcome)
      requires Valid() && pid in procs && procs[pid].Running? && procs[pid].op.Writing?
      modifies data, this`nwrite, this`written, this`procs
      ensures Valid()
      ensures var w := old(procs)[pid].op;
        && (interrupted ==>
              && o == (if w.i > 0 then Wrote(w.i) else Failed(-ERESTARTSYS))
              && procs == old(procs) - {pid} && written == old(written))
        && (!interrupted && !readopen ==> o == Failed(-EPIPE) && procs == old(procs) - {pid} && written == old(written))
        && (!interrupted && readopen ==>
              if o.Slept? then
                && pid in procs && procs[pid].Asleep? && procs[pid].op.Writing? && procs[pid].op.buf == w.buf
                && w.i <= procs[pid].op.i < |w.buf|
                && written == old(written) + w.buf[w.i..procs[pid].op.i] && |written| == taken + PIPESIZE
                && procs == Woken(old(procs) - {pid})[pid := procs[pid]]
              else o == Wrote(|w.buf|) && written == old(written) + w.buf[w.i..] && procs == Woken(old(procs) - {pid}))
    {
      var op := procs[pid].op;
      if interrupted {
        procs := procs - {pid};
        return if op.i > 0 then Wrote(op.i) else Failed(-ERESTARTSYS);
      }
      if !readopen {
        procs := procs - {pid};
        return Failed(-EPIPE);
      }
      var j := Pour(op.buf, op.i);
      WokenOk(procs - {pid}, |written| - taken, readopen, writeopen);
      if j < |op.buf| {
        procs := Woken(procs - {pid})[pid := Asleep(Writing(op.buf, j))];
        return Slept;
      }
      procs := Woken(procs - {pid});
      assert op.buf[op.i..j] == op.buf[op.i..];
      return Wrote(|op.buf|);
    }

    /** A process enters pipe_read or pipe_write; an empty write only wakes the others. */
    method Enter(pid: nat, op: Op)
      requires Valid() && pid !in procs && (op.Writing? ==> op.i == 0)
      modifies this`procs
      ensures Valid()
      ensures procs == if op.Writing? && op.buf == [] then Woken(old(procs)) else old(procs)[pid := Running(op)]
    {
      if op.Writing? && op.buf == [] {
        WokenOk(procs, |written| - taken, readopen, writeopen);
        procs := Woken(procs);
      } else {
        procs := procs[pid := Running(op)];
      }
    }

    /** A signal makes a sleeper runnable. */
    method Interrupt(pid: nat)
      requires Valid() && pid in procs
      modifies this`procs
      ensures Valid() && procs == old(procs)[pid := Running(old(procs)[pid].op)]
    {
      procs := procs[pid := Running(procs[pid].op)];
    }

    /** pipe_close: everybody gets to see it. */
    method Close(writable: bool)
      requires Valid()
      modifies this`readopen, this`writeopen, this`procs
      ensures Valid() && procs == Woken(old(procs))
      ensures writeopen == (old(writeopen) && !writable) && readopen == (old(readopen) && writable)
    {
      if writable { writeopen := false; } else { readopen := false; }
      WokenOk(procs, |written| - taken, readopen, writeopen);
      procs := Woken(procs);
    }
  }
}
