/**
 `read_and_wait` and `fork_exec_read_and_wait` (source/jse_jsprocess.c:280-494) over real
 buffers, proved to be runs of the protocol in ExecProtocol.
 */
module ReadAndWait {
  import opened ReadBuffer
  import opened ExecProtocol
  import opened DescriptorWiring

  /** The most that the child's next step can write; 1 when that step is not a write. */
  function Largest(w: World): nat {
    if w.child.Running? && w.child.todo != [] && w.child.todo[0].Write? &&
       w.child.writing.At(w.child.todo[0].to) && w.child.todo[0].data != []
    then
      var room, len := Room(w.pipes.At(w.child.todo[0].to)), |w.child.todo[0].data|;
      if room < len then room else len
    else 1
  }

  /**
   The operating system as `read_and_wait` sees it.  Inside every system call the child
   runs for as long as it likes, moving as many bytes as it likes.
   */
  class Kernel {
    var world: World
    var faulted: bool
    ghost const setup: Setup
    ghost var trace: seq<Label>

    /** The world is where the recorded schedule leads. */
    ghost predicate Valid()
      reads this
    {
      && setup.Valid()
      && Runnable(setup.Start(), trace)
      && world == Now().world
      && WriteEndsClosed(Now())
      && (faulted <==> Now().phase == Returned(-1, 0))
    }

    ghost function Now(): State
      reads this
      requires Runnable(setup.Start(), trace)
    {
      Run(setup.Start(), trace)
    }

    constructor (c: Setup)
      requires c.Valid() && !c.held.out && !c.held.err
      ensures Valid() && setup == c && Now() == c.Start() && !faulted
    {
      world, faulted := c.Start().world, false;
      setup, trace := c, [];
    }

    /** Records one step and carries the world along. */
    method Move(l: Label, after: World)
      requires Valid() && !Now().phase.Returned? && Enabled(Now(), l) && after == Apply(Now(), l).world
      modifies this
      ensures Valid() && Now() == Apply(old(Now()), l) && Inv(Now(), setup)
      ensures Measure(Now()) < Measure(old(Now()))
    {
      RunKeepsInv(setup.Start(), trace, setup);
      RunExtends(setup.Start(), trace, l);
      StepKeepsInv(Now(), l, setup);
      StepKeepsWriteEnds(Now(), l);
      StepDescends(Now(), l, setup);
      NotFailedYet(Now(), l);
      faulted := l.Fault?;
      trace := trace + [l];
      world := after;
    }

    lemma NotFailedYet(st: State, l: Label)
      requires Enabled(st, l) && !st.phase.Returned?
      ensures Apply(st, l).phase == Returned(-1, 0) <==> l.Fault?
    {}

    /** One step of a child that is not blocked. */
    method ChildRuns()
      requires Valid() && !Now().phase.Returned?
      requires world.child.Running? && Largest(world) > 0
      modifies this
      ensures Valid() && Inv(Now(), setup)
      ensures Now() == old(Now()).(world := world) && Measure(Now()) < Measure(old(Now()))
      ensures ChildWork(world.child) < ChildWork(old(world.child))
    {
      var n :| 1 <= n <= Largest(world);
      ChildMoveDescends(Now(), n);
      ChildWorkFalls(world, n);
      Move(ChildMove(n), ChildStep(world, n));
    }

    lemma ChildWorkFalls(w: World, n: nat)
      requires ChildCan(w, n)
      ensures ChildWork(ChildStep(w, n).child) < ChildWork(w.child)
    {
      var c := w.child;
      if c.todo != [] && c.todo[0].Write? && c.writing.At(c.todo[0].to) && c.todo[0].data != [] {
        assert Work([Write(c.todo[0].to, c.todo[0].data[n..])] + c.todo[1..])
            == 1 + (|c.todo[0].data| - n) + Work(c.todo[1..]);
      }
    }

    /** The child runs for a while, possibly not at all. */
    method Preempt()
      requires Valid() && !Now().phase.Returned? && Inv(Now(), setup)
      modifies this
      ensures Valid() && Inv(Now(), setup) && Now() == old(Now()).(world := world)
      ensures Measure(Now()) <= Measure(old(Now()))
    {
      var more: bool := *;
      while more && world.child.Running? && Largest(world) > 0
        invariant Valid() && Inv(Now(), setup) && Now() == old(Now()).(world := world)
        invariant Measure(Now()) <= Measure(old(Now()))
        decreases ChildWork(world.child)
      {
        ChildRuns();
        more := *;
      }
    }

    /** A child that has not exited and is not at a full pipe can run. */
    lemma OnlyFullPipesBlock()
      requires Valid() && Inv(Now(), setup) && world.child.Running? && Largest(world) == 0
      ensures exists s :: world.HasWriter(s) && world.pipes.At(s).data != []
    {
      var s := world.child.todo[0].to;
      assert world.HasWriter(s) && world.pipes.At(s).data != [];
    }

    /** `select` without a timeout: blocks, while the child runs, until a stream is ready. */
    method Select(out: bool, err: bool) returns (sel: int, outSet: bool, errSet: bool)
      requires Valid() && Inv(Now(), setup) && Now().phase == Selecting
      requires out == Now().readers.out.open && err == Now().readers.err.open
      modifies this
      ensures Valid() && Inv(Now(), setup) && Now().readers == old(Now()).readers
      ensures faulted <==> sel == -1
      ensures Measure(Now()) < Measure(old(Now()))
      ensures sel != -1 ==> sel > 0 && Now().phase == DrainOut(outSet, errSet)
    {
      outSet, errSet := false, false;
      Preempt();
      var ok: bool := *;
      if !ok {
        Move(Fault, world);
        return -1, false, false;
      }
      while !(out && world.Ready(Stdout)) && !(err && world.Ready(Stderr))
        invariant Valid() && Inv(Now(), setup) && Now() == old(Now()).(world := world)
        invariant Measure(Now()) <= Measure(old(Now()))
        decreases ChildWork(world.child)
      {
        if world.child.Running? && Largest(world) == 0 {
          OnlyFullPipesBlock();
          assert false;
        }
        ChildRuns();
      }
      outSet, errSet := out && world.Ready(Stdout), err && world.Ready(Stderr);
      Move(ParentMove(0), world);
      sel := (if outSet then 1 else 0) + (if errSet then 1 else 0);
    }

    /** `read` of up to `request` bytes from a stream that `select` reported. */
    method Read(s: Stream, request: nat) returns (result: ReadResult)
      requires Valid() && Inv(Now(), setup)
      requires if s == Stdout then Now().phase.DrainOut? && Now().phase.out
               else Now().phase.DrainErr? && Now().phase.err
      requires request == Now().readers.At(s).buf.size - |Now().readers.At(s).buf.got|
      modifies this
      ensures Valid() && Inv(Now(), setup)
      ensures faulted <==> result.Failed?
      ensures Measure(Now()) < Measure(old(Now()))
      ensures result.Failed? ==> Now().readers == old(Now()).readers
      ensures result.Got? ==>
        && |result.data| <= request
        && Now().readers == old(Now()).readers.Put(s,
             Reader(result.data != [], Absorb(old(Now()).readers.At(s).buf, result.data)))
        && Now().phase == if s == Stdout then DrainErr(old(Now()).phase.err) else Checking
    {
      Preempt();
      var ok: bool := *;
      if !ok {
        Move(Fault, world);
        return Failed;
      }
      ReadyCanBeRead(Now(), s, setup.Total(s));
      var p := world.pipes.At(s);
      if p.data == [] {
        Move(ParentMove(1), world);
        return Got([]);
      }
      var limit := if |p.data| < request then |p.data| else request;
      var n :| 1 <= n <= limit;
      Move(ParentMove(n), world.(pipes := world.pipes.Put(s, p.(data := p.data[n..]))));
      result := Got(p.data[..n]);
    }

    /** `waitpid`: blocks until the child has exited. */
    method Wait() returns (pid: int, status: int)
      requires Valid() && Inv(Now(), setup) && Now().phase == Checking
      requires !Now().readers.out.open && !Now().readers.err.open
      modifies this
      ensures Valid() && Inv(Now(), setup) && Now().readers == old(Now()).readers
      ensures faulted <==> pid == -1
      ensures Measure(Now()) < Measure(old(Now()))
      ensures pid != -1 ==> Now().phase == Returned(0, status)
      ensures pid != -1 ==> 0 <= status < 256 && (setup.code - status) % 256 == 0
    {
      Preempt();
      var ok: bool := *;
      if !ok {
        Move(Fault, world);
        return -1, 0;
      }
      while world.child.Running?
        invariant Valid() && Inv(Now(), setup) && Now() == old(Now()).(world := world)
        invariant Measure(Now()) <= Measure(old(Now()))
        decreases ChildWork(world.child)
      {
        if Largest(world) == 0 {
          OnlyFullPipesBlock();
          assert false;
        }
        ChildRuns();
      }
      pid, status := 1, ExitStatus(world.child.code);
      Move(ParentMove(0), world);
    }

    /** A move of the parent's own control, with no system call in it. */
    ghost method Advance()
      requires Valid() && Inv(Now(), setup)
      requires (Now().phase.DrainOut? && !Now().phase.out) || Now().phase == DrainErr(false) ||
               (Now().phase == Checking && (Now().readers.out.open || Now().readers.err.open))
      modifies this`trace
      ensures Valid() && Inv(Now(), setup) && Now() == ParentStep(old(Now()), 0)
      ensures Measure(Now()) < Measure(old(Now()))
    {
      RunExtends(setup.Start(), trace, ParentMove(0));
      StepKeepsInv(Now(), ParentMove(0), setup);
      StepDescends(Now(), ParentMove(0), setup);
      trace := trace + [ParentMove(0)];
    }
  }

  /**
   One stream's half of the loop body: if it is open and was reported, read once into its
   buffer and drop the stream at end of file.
   */
  method DrainStream(k: Kernel, s: Stream, open: bool, ready: bool, buf: Buffer)
    returns (ok: bool, stillOpen: bool)
    requires k.Valid() && Inv(k.Now(), k.setup) && buf.Valid()
    requires k.Now().readers.At(s) == Reader(open, buf.View())
    requires if s == Stdout then k.Now().phase.DrainOut? && k.Now().phase.out == ready
             else k.Now().phase == DrainErr(ready)
    modifies k, buf, buf.block
    ensures k.Valid() && Inv(k.Now(), k.setup) && buf.Valid()
    ensures buf.block == old(buf.block) || fresh(buf.block)
    ensures ok <==> !k.faulted
    ensures k.Now().readers == old(k.Now()).readers.Put(s, Reader(stillOpen, buf.View()))
    ensures Measure(k.Now()) < Measure(old(k.Now()))
    ensures ok ==> k.Now().phase == if s == Stdout then DrainErr(old(k.Now()).phase.err) else Checking
    ensures !ok ==> stillOpen == open && buf.View() == old(buf.View())
  {
    ok, stillOpen := true, open;
    if open && ready {
      var result := k.Read(s, buf.size - buf.off);
      var bytes := buf.ReadFdOnce(result);
      if bytes == -1 { ok := false; }
      else if bytes == 0 { stillOpen := false; }
    } else {
      k.Advance();
    }
  }

  /** The loop's local variables agree with the protocol state. */
  ghost predicate Linked(k: Kernel, outOpen: bool, errOpen: bool, outbuf: Buffer, errbuf: Buffer)
    reads k, outbuf, outbuf.block, errbuf, errbuf.block
  {
    && k.Valid() && Inv(k.Now(), k.setup) && outbuf.Valid() && errbuf.Valid()
    && outbuf != errbuf && outbuf.block != errbuf.block
    && k.Now().readers == Both(Reader(outOpen, outbuf.View()), Reader(errOpen, errbuf.View()))
  }

  /** The tail of the loop body: wait for the child once both streams have ended. */
  method WaitIfEnded(k: Kernel, outOpen: bool, errOpen: bool) returns (ret: int, status: int)
    requires k.Valid() && Inv(k.Now(), k.setup) && k.Now().phase == Checking
    requires outOpen == k.Now().readers.out.open && errOpen == k.Now().readers.err.open
    modifies k
    ensures k.Valid() && Inv(k.Now(), k.setup) && k.Now().readers == old(k.Now()).readers
    ensures Measure(k.Now()) < Measure(old(k.Now()))
    ensures (ret == 0 && !k.faulted) || (ret == -1 && status == 0)
    ensures k.Now().phase == if ret == 0 || k.faulted then Returned(ret, status) else Selecting
  {
    ret, status := -1, 0;
    if !outOpen && !errOpen {
      var pid, st := k.Wait();
      if pid != -1 { ret, status := 0, st; }
    } else {
      k.Advance();
    }
  }

  /**
   The `do` loop of `read_and_wait`.  It ends, because every step lowers the protocol's
   measure, and it leaves the protocol in its returned state.
   */
  method SelectLoop(k: Kernel, outbuf: Buffer, errbuf: Buffer)
    returns (ret: int, status: int, outOpen: bool, errOpen: bool)
    requires Linked(k, true, true, outbuf, errbuf) && k.Now().phase == Selecting && !k.faulted
    modifies k, outbuf, outbuf.block, errbuf, errbuf.block
    ensures Linked(k, outOpen, errOpen, outbuf, errbuf)
    ensures ret == if k.faulted then -1 else 0
    ensures k.Now().phase == Returned(ret, status)
  {
    ret, status := -1, 0;
    outOpen, errOpen := true, true;
    while ret != 0
      invariant Linked(k, outOpen, errOpen, outbuf, errbuf)
      invariant outbuf.block == old(outbuf.block) || fresh(outbuf.block)
      invariant errbuf.block == old(errbuf.block) || fresh(errbuf.block)
      invariant k.Now().phase == (if ret == 0 then Returned(0, status) else Selecting)
      invariant ret == 0 || (ret == -1 && status == 0)
      decreases Measure(k.Now())
    {
      outOpen, errOpen, ret, status := LoopBody(k, outOpen, errOpen, outbuf, errbuf);
      if k.faulted { return; }
    }
  }

  /** Both reads of one pass, after `select` reported which streams are ready. */
  method DrainBoth(k: Kernel, out: bool, err: bool, outSet: bool, errSet: bool,
                   outbuf: Buffer, errbuf: Buffer)
    returns (ok: bool, outOpen: bool, errOpen: bool)
    requires Linked(k, out, err, outbuf, errbuf) && k.Now().phase == DrainOut(outSet, errSet)
    modifies k, outbuf, outbuf.block, errbuf, errbuf.block
    ensures Linked(k, outOpen, errOpen, outbuf, errbuf)
    ensures outbuf.block == old(outbuf.block) || fresh(outbuf.block)
    ensures errbuf.block == old(errbuf.block) || fresh(errbuf.block)
    ensures ok <==> !k.faulted
    ensures ok ==> k.Now().phase == Checking
    ensures Measure(k.Now()) < Measure(old(k.Now()))
  {
    errOpen := err;
    ok, outOpen := DrainStream(k, Stdout, out, outSet, outbuf);
    if ok {
      ok, errOpen := DrainStream(k, Stderr, err, errSet, errbuf);
    }
  }

  /** One pass of the loop: `select`, the two reads, and possibly the wait. */
  method LoopBody(k: Kernel, out: bool, err: bool, outbuf: Buffer, errbuf: Buffer)
    returns (outOpen: bool, errOpen: bool, ret: int, status: int)
    requires Linked(k, out, err, outbuf, errbuf) && k.Now().phase == Selecting
    modifies k, outbuf, outbuf.block, errbuf, errbuf.block
    ensures Linked(k, outOpen, errOpen, outbuf, errbuf)
    ensures outbuf.block == old(outbuf.block) || fresh(outbuf.block)
    ensures errbuf.block == old(errbuf.block) || fresh(errbuf.block)
    ensures (ret == 0 && !k.faulted) || (ret == -1 && status == 0)
    ensures k.Now().phase == if ret == 0 || k.faulted then Returned(ret, status) else Selecting
    ensures Measure(k.Now()) < Measure(old(k.Now()))
  {
    outOpen, errOpen, ret, status := out, err, -1, 0;
    var sel, outSet, errSet := k.Select(outOpen, errOpen);
    if sel == -1 { return; }
    var ok;
    ok, outOpen, errOpen := DrainBoth(k, outOpen, errOpen, outSet, errSet, outbuf, errbuf);
    if !ok { return; }
    ret, status := WaitIfEnded(k, outOpen, errOpen);
  }

  /**
   `read_and_wait`: the select loop over two growing buffers.  It always ends; it returns
   0 exactly when no system call failed, and then both buffers and lengths are exactly
   what the child wrote, and the status is the child's exit status.  Of the two read
   descriptors it closes those whose stream had not ended, so none after a success.
   */
  method ReadAndWait(k: Kernel, parent: Process, outfd: nat, errfd: nat, outbuf: Buffer, errbuf: Buffer)
    returns (ret: int, status: int)
    requires k.Valid() && k.Now() == k.setup.Start() && k.setup.size == INITIAL_SIZE
    requires outbuf.Valid() && errbuf.Valid() && outbuf != errbuf && outbuf.block != errbuf.block
    requires outbuf.View() == FRESH && errbuf.View() == FRESH
    modifies k, parent, outbuf, outbuf.block, errbuf, errbuf.block
    ensures outbuf.Valid() && errbuf.Valid() && k.Valid()
    ensures k.Now().phase == Returned(ret, status)
    ensures ret == if k.faulted then -1 else 0
    ensures ret == 0 ==> outbuf.View() == k.setup.Captured(Stdout)
    ensures ret == 0 ==> errbuf.View() == k.setup.Captured(Stderr)
    ensures ret == 0 ==> 0 <= status < 256 && (k.setup.code - status) % 256 == 0
    ensures outbuf.View().got <= k.setup.Total(Stdout) && errbuf.View().got <= k.setup.Total(Stderr)
    ensures parent.fds == old(parent.fds)
              - (if k.Now().readers.out.open then {outfd} else {})
              - (if k.Now().readers.err.open then {errfd} else {})
    ensures ret == 0 ==> parent.fds == old(parent.fds)
  {
    RunKeepsInv(k.setup.Start(), k.trace, k.setup);
    var outOpen, errOpen;
    ret, status, outOpen, errOpen := SelectLoop(k, outbuf, errbuf);
    ExactCapture(k.setup, k.trace);
    if outOpen { parent.Close(outfd); }
    if errOpen { parent.Close(errfd); }
  }

  const EXIT_FAILURE := 1

  /**
   `fork_exec_read_and_wait`.  A program that starts can do anything, scheduled in any way.
   The result is -1 exactly when some system call of the parent failed.  Otherwise the
   buffers are exactly the child's output on each stream whose number the parent already had
   open when it called, and empty on a stream whose number was free; a child whose `dup2`
   failed has written nothing and its status is that of a failure.  The parent is left with
   the read descriptors of the streams that have ended: both of them after a success, for
   nothing closes them then.
   */
  method ForkExecReadAndWait(parent: Process, faults: Faults, childPid: int,
                             todo: seq<Action>, code: int, caps: Both<nat>)
    returns (pid: int, outbuf: Buffer, errbuf: Buffer, status: int,
             k: Kernel?, outfd: nat, errfd: nat)
    requires NoPipes(parent.fds) && childPid > 0 && 0 < caps.out && 0 < caps.err
    modifies parent
    ensures outbuf.Valid() && errbuf.Valid()
    ensures k == null <==> faults.Any()
    ensures k != null ==> k.Valid() && k.Now().phase == Returned(if k.faulted then -1 else 0, status)
    ensures pid == if faults.Any() || k.faulted then -1 else childPid
    ensures pid != -1 && faults.Execs() ==>
      && outbuf.View().got == Emitted(todo, 1 in old(parent.fds), Stdout)
      && errbuf.View().got == Emitted(todo, 2 in old(parent.fds), Stderr)
      && 0 <= status < 256 && (code - status) % 256 == 0 && (0 <= code < 256 ==> status == code)
    ensures pid != -1 && !faults.Execs() ==>
      outbuf.View().got == errbuf.View().got == [] && status == 1
    ensures pid != -1 ==> outbuf.size == |outbuf.View().got| && errbuf.size == |errbuf.View().got|
    ensures k == null ==> parent.fds == old(parent.fds)
    ensures k != null ==>
      && outfd != errfd && outfd !in old(parent.fds) && errfd !in old(parent.fds)
      && parent.fds == old(parent.fds)[outfd := ReadEnd(Stdout)][errfd := ReadEnd(Stderr)]
                       - (if k.Now().readers.out.open then {outfd} else {})
                       - (if k.Now().readers.err.open then {errfd} else {})
    ensures pid != -1 ==>
      parent.fds == old(parent.fds)[outfd := ReadEnd(Stdout)][errfd := ReadEnd(Stderr)]
  {
    outbuf := new Buffer();
    errbuf := new Buffer();
    status, k := 0, null;
    var child, execs;
    pid, child, execs, outfd, errfd := ForkAndExec(parent, faults, childPid);
    if pid == -1 { return; }
    ghost var writing := Both(1 in old(parent.fds), 2 in old(parent.fds));
    assert execs ==> writing == Both(HoldsWriteEnd(child.fds, Stdout), HoldsWriteEnd(child.fds, Stderr)) by {
      assert Number(Stdout) == 1 && Number(Stderr) == 2;
    }
    var ret;
    ret, status, k := ReadChild(parent, child, execs, todo, code, caps, writing, outfd, errfd, outbuf, errbuf);
    if ret != 0 { pid := -1; }
  }

  /** The part of `fork_exec_read_and_wait` after the fork. */
  method ReadChild(parent: Process, child: Process, execs: bool, todo: seq<Action>, code: int, caps: Both<nat>,
                   ghost writing: Both<bool>, outfd: nat, errfd: nat, outbuf: Buffer, errbuf: Buffer)
    returns (ret: int, status: int, k: Kernel)
    requires 0 < caps.out && 0 < caps.err
    requires !HoldsWriteEnd(parent.fds, Stdout) && !HoldsWriteEnd(parent.fds, Stderr)
    requires execs ==> writing == Both(HoldsWriteEnd(child.fds, Stdout), HoldsWriteEnd(child.fds, Stderr))
    requires outbuf.Valid() && errbuf.Valid() && outbuf != errbuf && outbuf.block != errbuf.block
    requires outbuf.View() == FRESH && errbuf.View() == FRESH
    modifies parent, outbuf, outbuf.block, errbuf, errbuf.block
    ensures outbuf.Valid() && errbuf.Valid() && fresh(k) && k.Valid()
    ensures k.Now().phase == Returned(ret, status) && ret == if k.faulted then -1 else 0
    ensures ret == 0 ==> outbuf.size == |outbuf.View().got| && errbuf.size == |errbuf.View().got|
    ensures ret == 0 && execs ==>
      && outbuf.View().got == Emitted(todo, writing.out, Stdout)
      && errbuf.View().got == Emitted(todo, writing.err, Stderr)
      && 0 <= status < 256 && (code - status) % 256 == 0 && (0 <= code < 256 ==> status == code)
    ensures ret == 0 && !execs ==> outbuf.View().got == errbuf.View().got == [] && status == 1
    ensures parent.fds == old(parent.fds)
              - (if k.Now().readers.out.open then {outfd} else {})
              - (if k.Now().readers.err.open then {errfd} else {})
    ensures ret == 0 ==> parent.fds == old(parent.fds)
  {
    var c := SetupFor(parent, child, execs, todo, code, caps);
    k := new Kernel(c);
    ret, status := ReadAndWait(k, parent, outfd, errfd, outbuf, errbuf);
  }

  /** What the protocol starts from, given the tables of both processes. */
  method SetupFor(parent: Process, child: Process, execs: bool, todo: seq<Action>, code: int, caps: Both<nat>)
    returns (c: Setup)
    ensures c.caps == caps && c.size == INITIAL_SIZE
    ensures c.writing == Both(HoldsWriteEnd(child.fds, Stdout), HoldsWriteEnd(child.fds, Stderr))
    ensures c.held == Both(HoldsWriteEnd(parent.fds, Stdout), HoldsWriteEnd(parent.fds, Stderr))
    ensures if execs then c.todo == todo && c.code == code else c.todo == [] && c.code == EXIT_FAILURE
  {
    c := Setup(if execs then todo else [], if execs then code else EXIT_FAILURE, caps,
               Both(HoldsWriteEnd(child.fds, Stdout), HoldsWriteEnd(child.fds, Stderr)),
               Both(HoldsWriteEnd(parent.fds, Stdout), HoldsWriteEnd(parent.fds, Stderr)), INITIAL_SIZE);
  }

  /** With standard output closed in the parent, what the child writes to its own is not captured. */
  method ClosedStdoutExample() returns (pid: int, outbuf: Buffer, errbuf: Buffer)
    ensures outbuf.Valid() && errbuf.Valid()
    ensures pid != -1 ==> outbuf.View().got == [] && errbuf.View().got == [66]
  {
    var parent := new Process(map[0 := Other, 2 := Other]);
    var todo := [Write(Stdout, [65]), Write(Stderr, [66])];
    var status, k, outfd, errfd;
    pid, outbuf, errbuf, status, k, outfd, errfd :=
      ForkExecReadAndWait(parent, Faults(false, false, false, false, false), 7, todo, 0, Both(4096, 4096));
    assert todo[1..] == [Write(Stderr, [66])] && todo[1..][1..] == [];
    assert Emitted(todo, true, Stderr) == [] + ([66] + []);
  }
}
