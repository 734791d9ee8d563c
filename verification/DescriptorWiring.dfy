/**
 The descriptor plumbing of `fork_and_exec` (source/jse_jsprocess.c:65-199): which
 process holds which pipe end after `pipe`, `fork`, `dup2` and `close`.
 */
module DescriptorWiring {
  import opened ExecProtocol

  /** What a descriptor refers to: an end of one of the two new pipes, or anything else. */
  datatype End = ReadEnd(stream: Stream) | WriteEnd(stream: Stream) | Other

  type Table = map<int, End>

  /** Some descriptor is the write end of the stream's pipe. */
  predicate HoldsWriteEnd(t: Table, s: Stream) {
    exists fd :: fd in t && t[fd] == WriteEnd(s)
  }

  ghost predicate NoPipes(t: Table) {
    forall fd :: fd in t ==> t[fd] == Other
  }

  function Number(s: Stream): nat { if s == Stdout then 1 else 2 }

  /** The lowest descriptor from `fd` up that is not in use. */
  function LowestFree(used: set<int>, fd: nat): (free: nat)
    ensures fd <= free && free !in used
    ensures forall g :: fd <= g < free ==> g in used
    decreases |used|
  {
    if fd !in used then fd
    else
      var free := LowestFree(used - {fd}, fd + 1);
      assert forall g :: fd < g < free ==> g in used by {
        forall g | fd < g < free ensures g in used { assert g in used - {fd}; }
      }
      free
  }

  class Process {
    var fds: Table

    constructor (t: Table)
      ensures fds == t
    {
      fds := t;
    }

    /** `pipe` takes the two lowest free descriptors, the read end first. */
    method Pipe(s: Stream) returns (r: nat, w: nat)
      modifies this
      ensures r == LowestFree(old(fds).Keys, 0) && w == LowestFree(old(fds).Keys + {r}, 0)
      ensures fds == old(fds)[r := ReadEnd(s)][w := WriteEnd(s)]
    {
      r := LowestFree(fds.Keys, 0);
      fds := fds[r := ReadEnd(s)];
      assert fds.Keys == old(fds).Keys + {r};
      w := LowestFree(fds.Keys, 0);
      fds := fds[w := WriteEnd(s)];
    }

    /** `dup2`: a no-op when both numbers are the same. */
    method Dup2(from: nat, to: nat)
      requires from in fds
      modifies this
      ensures fds == old(fds)[to := old(fds)[from]]
    {
      fds := fds[to := fds[from]];
    }

    method Close(fd: nat)
      modifies this
      ensures fds == old(fds) - {fd}
    {
      fds := fds - {fd};
    }
  }

  /** Which of the system calls fail; the duplications are made by the child. */
  datatype Faults = Faults(outPipe: bool, errPipe: bool, fork: bool, dupOut: bool, dupErr: bool)
  {
    /** The parent sees a failure. */
    predicate Any() { outPipe || errPipe || fork }

    /** The child gets as far as `execve`. */
    predicate Execs() { !dupOut && !dupErr }
  }

  /** The parent's table after both `pipe` calls; the child starts with a copy. */
  function WithPipes(t: Table, outR: nat, outW: nat, errR: nat, errW: nat): Table {
    t[outR := ReadEnd(Stdout)][outW := WriteEnd(Stdout)][errR := ReadEnd(Stderr)][errW := WriteEnd(Stderr)]
  }

  /** The four descriptors are the lowest free ones, in order. */
  predicate Allocated(t: Table, outR: nat, outW: nat, errR: nat, errW: nat) {
    && outR == LowestFree(t.Keys, 0)
    && outW == LowestFree(t.Keys + {outR}, 0)
    && errR == LowestFree(t.Keys + {outR} + {outW}, 0)
    && errW == LowestFree(t.Keys + {outR} + {outW} + {errR}, 0)
  }

  /** What a successful call leaves in the parent. */
  ghost predicate ParentWired(before: Table, after: Table, outfd: nat, errfd: nat) {
    && outfd != errfd && outfd !in before && errfd !in before
    && after == before[outfd := ReadEnd(Stdout)][errfd := ReadEnd(Stderr)]
    && (forall s :: !HoldsWriteEnd(after, s))
  }

  /** What the program is started with: its own numbered write ends and no other pipe end. */
  ghost predicate ChildWired(before: Table, child: Table) {
    && (forall s :: HoldsWriteEnd(child, s) <==> Number(s) in before)
    && (forall fd :: fd in child && child[fd] != Other ==>
          exists s :: fd == Number(s) && child[fd] == WriteEnd(s))
  }

  /**
   `fork_and_exec` with both streams redirected.  A failure leaves the parent's table as
   it was.  On success the parent gains exactly the two read ends and keeps no write end.
   A child whose `dup2` fails exits with both write ends still open. One that starts its
   program holds nothing of either pipe but its own numbered write end, and it holds
   that one if and only if the parent already had a descriptor with that number: had it
   been free, `pipe` would have taken it and the clean-up closes of the child would close it.
   */
  method ForkAndExec(parent: Process, faults: Faults, childPid: int)
    returns (pid: int, child: Process?, execs: bool, outfd: nat, errfd: nat)
    requires NoPipes(parent.fds) && childPid > 0
    modifies parent
    ensures pid == if faults.Any() then -1 else childPid
    ensures pid == -1 ==> parent.fds == old(parent.fds)
    ensures pid != -1 ==> ParentWired(old(parent.fds), parent.fds, outfd, errfd)
    ensures pid != -1 ==> child != null && fresh(child) && execs == faults.Execs()
    ensures pid != -1 && execs ==> ChildWired(old(parent.fds), child.fds)
    ensures pid != -1 && !execs ==> HoldsWriteEnd(child.fds, Stdout) && HoldsWriteEnd(child.fds, Stderr)
  {
    ghost var t := parent.fds;
    child, execs, outfd, errfd := null, false, 0, 0;
    var piped, outR, outW, errR, errW := OpenPipes(parent, faults);
    if !piped { return -1, null, false, 0, 0; }
    if faults.fork {
      CloseAll(parent, outR, outW, errR, errW);
      ClosingUndoes(t, outR, outW, errR, errW);
      return -1, null, false, 0, 0;
    }
    pid := childPid;
    child := new Process(parent.fds);
    execs := ChildPlumbing(child, faults, outR, outW, errR, errW);
    parent.Close(outW);
    parent.Close(errW);
    outfd, errfd := outR, errR;
    ParentEnds(t, outR, outW, errR, errW);
    if execs {
      ChildEnds(t, outR, outW, errR, errW);
    } else {
      ChildKeepsEnds(t, outR, outW, errR, errW);
    }
  }

  /** Both calls of `pipe`; when the second fails the first pipe is closed again. */
  method OpenPipes(parent: Process, faults: Faults)
    returns (piped: bool, outR: nat, outW: nat, errR: nat, errW: nat)
    modifies parent
    ensures piped <==> !faults.outPipe && !faults.errPipe
    ensures !piped ==> parent.fds == old(parent.fds)
    ensures piped ==> Allocated(old(parent.fds), outR, outW, errR, errW)
    ensures piped ==> parent.fds == WithPipes(old(parent.fds), outR, outW, errR, errW)
  {
    ghost var t := parent.fds;
    piped, outR, outW, errR, errW := false, 0, 0, 0, 0;
    if faults.outPipe { return; }
    outR, outW := parent.Pipe(Stdout);
    if faults.errPipe {
      parent.Close(outR);
      parent.Close(outW);
      assert parent.fds == t;
      return;
    }
    assert parent.fds.Keys == t.Keys + {outR} + {outW};
    errR, errW := parent.Pipe(Stderr);
    piped := true;
  }

  method CloseAll(process: Process, outR: nat, outW: nat, errR: nat, errW: nat)
    modifies process
    ensures process.fds == old(process.fds) - {outR} - {outW} - {errR} - {errW}
  {
    process.Close(outR);
    process.Close(outW);
    process.Close(errR);
    process.Close(errW);
  }

  /** The child's side, between `fork` and `execve`; a failing `dup2` makes it exit. */
  method ChildPlumbing(child: Process, faults: Faults, outR: nat, outW: nat, errR: nat, errW: nat)
    returns (execs: bool)
    requires outW in child.fds && errW in child.fds
    modifies child
    ensures execs == faults.Execs()
    ensures execs ==> child.fds == ChildTable(old(child.fds), outR, outW, errR, errW)
    ensures !execs ==>
      child.fds == old(child.fds) || child.fds == old(child.fds)[Number(Stdout) := old(child.fds)[outW]]
  {
    if faults.dupOut { return false; }
    child.Dup2(outW, Number(Stdout));
    if faults.dupErr { return false; }
    child.Dup2(errW, Number(Stderr));
    child.Close(outW);
    child.Close(outR);
    child.Close(errW);
    child.Close(errR);
    execs := true;
  }

  /** Duplicate the write ends to 1 and 2, then close all four pipe descriptors. */
  function ChildTable(t: Table, outR: nat, outW: nat, errR: nat, errW: nat): Table
    requires outW in t && errW in t
  {
    var one := t[Number(Stdout) := t[outW]];
    one[Number(Stderr) := one[errW]] - {outW} - {outR} - {errW} - {errR}
  }

  lemma Distinct(t: Table, outR: nat, outW: nat, errR: nat, errW: nat)
    requires Allocated(t, outR, outW, errR, errW)
    ensures outR < outW < errR < errW
    ensures outR !in t && outW !in t && errR !in t && errW !in t
  {}

  /** Four pipe ends take 1 or 2 exactly when it is free, and only stdout's pipe can take 1. */
  lemma TakesLowNumbers(t: Table, outR: nat, outW: nat, errR: nat, errW: nat)
    requires Allocated(t, outR, outW, errR, errW)
    ensures 1 !in t <==> outR == 1 || outW == 1
    ensures 2 !in t <==> outR == 2 || outW == 2 || errR == 2
    ensures 1 < errR && 2 < errW
  {}

  lemma ClosingUndoes(t: Table, outR: nat, outW: nat, errR: nat, errW: nat)
    requires Allocated(t, outR, outW, errR, errW)
    ensures WithPipes(t, outR, outW, errR, errW) - {outR} - {outW} - {errR} - {errW} == t
  {
    Distinct(t, outR, outW, errR, errW);
  }

  /** A child that gives up after a failing `dup2` still has both write ends. */
  lemma ChildKeepsEnds(t: Table, outR: nat, outW: nat, errR: nat, errW: nat)
    requires Allocated(t, outR, outW, errR, errW)
    ensures var child := WithPipes(t, outR, outW, errR, errW);
            && HoldsWriteEnd(child, Stdout) && HoldsWriteEnd(child, Stderr)
            && HoldsWriteEnd(child[Number(Stdout) := child[outW]], Stdout)
            && HoldsWriteEnd(child[Number(Stdout) := child[outW]], Stderr)
  {
    Distinct(t, outR, outW, errR, errW);
    TakesLowNumbers(t, outR, outW, errR, errW);
    var child := WithPipes(t, outR, outW, errR, errW);
    assert child[outW] == WriteEnd(Stdout) && child[errW] == WriteEnd(Stderr);
    var one := child[Number(Stdout) := child[outW]];
    assert one[outW] == WriteEnd(Stdout) && one[errW] == WriteEnd(Stderr);
  }

  lemma ParentEnds(t: Table, outR: nat, outW: nat, errR: nat, errW: nat)
    requires NoPipes(t) && Allocated(t, outR, outW, errR, errW)
    ensures outR !in t && errR !in t && outR != errR
    ensures WithPipes(t, outR, outW, errR, errW) - {outW} - {errW}
         == t[outR := ReadEnd(Stdout)][errR := ReadEnd(Stderr)]
    ensures !HoldsWriteEnd(t[outR := ReadEnd(Stdout)][errR := ReadEnd(Stderr)], Stdout)
    ensures !HoldsWriteEnd(t[outR := ReadEnd(Stdout)][errR := ReadEnd(Stderr)], Stderr)
  {
    Distinct(t, outR, outW, errR, errW);
  }

  lemma ChildEnds(t: Table, outR: nat, outW: nat, errR: nat, errW: nat)
    requires NoPipes(t) && Allocated(t, outR, outW, errR, errW)
    ensures var child := ChildTable(WithPipes(t, outR, outW, errR, errW), outR, outW, errR, errW);
            && (forall s :: HoldsWriteEnd(child, s) <==> Number(s) in t)
            && (forall fd :: fd in child && child[fd] != Other ==>
                  exists s :: fd == Number(s) && child[fd] == WriteEnd(s))
  {
    Distinct(t, outR, outW, errR, errW);
    TakesLowNumbers(t, outR, outW, errR, errW);
    var child := ChildTable(WithPipes(t, outR, outW, errR, errW), outR, outW, errR, errW);
    forall fd | fd in child && child[fd] != Other
      ensures exists s :: fd == Number(s) && child[fd] == WriteEnd(s)
    {
      assert fd == Number(if fd == 1 then Stdout else Stderr);
    }
    forall s ensures HoldsWriteEnd(child, s) <==> Number(s) in t {
      if Number(s) in t { assert child[Number(s)] == WriteEnd(s); }
    }
  }
}
