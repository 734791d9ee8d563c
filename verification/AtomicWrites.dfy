/**
 The protocol under a kernel that never splits a small write: a write of at most `pipeBuf`
 bytes waits until all of it fits, and a longer one moves at least `pipeBuf` bytes at a time.
 Such a kernel refuses some of the child's steps, so progress has to be shown anew.
 */
module AtomicWrites {
  import opened ExecProtocol

  /** The kernel takes the step: a write is moved as a whole or in a large part. */
  predicate Whole(st: State, l: Label, pipeBuf: nat) {
    l.ChildMove? ==>
      var c := st.world.child;
      c.Running? && c.todo != [] && c.todo[0].Write? && Feeds(c, c.todo[0].to)
      ==> l.n == |c.todo[0].data| || l.n >= pipeBuf
  }

  predicate WholeEnabled(st: State, l: Label, pipeBuf: nat) { Enabled(st, l) && Whole(st, l, pipeBuf) }

  /** A schedule of such steps, which is a schedule of the protocol. */
  predicate WholeRunnable(st: State, ls: seq<Label>, pipeBuf: nat): (whole: bool)
    ensures whole ==> Runnable(st, ls)
    decreases |ls|
  {
    ls == [] || (WholeEnabled(st, ls[0], pipeBuf) && WholeRunnable(Apply(st, ls[0]), ls[1..], pipeBuf))
  }

  /** Nothing but a failing call can happen, and the loop has not returned. */
  ghost predicate WholeDeadlocked(st: State, pipeBuf: nat) {
    !st.phase.Returned? && forall l :: WholeEnabled(st, l, pipeBuf) ==> l.Fault?
  }

  /** The pipes can hold a small write, now that they are what the setup made them. */
  predicate Roomy(st: State, pipeBuf: nat) {
    0 < pipeBuf <= st.world.pipes.out.cap && pipeBuf <= st.world.pipes.err.cap
  }

  /** A child that this kernel holds up has exited, or waits for a pipe that holds data. */
  lemma BlockedWhole(st: State, c: Setup, pipeBuf: nat) returns (l: Label, s: Stream)
    requires Inv(st, c) && Roomy(st, pipeBuf)
    ensures (l.ChildMove? && WholeEnabled(st, l, pipeBuf)) || st.world.child.Exited? ||
            (st.world.HasWriter(s) && st.world.pipes.At(s).data != [])
  {
    l, s := ChildMove(0), Stdout;
    var child := st.world.child;
    if child.Running? && child.todo != [] && child.todo[0].Write? {
      s := child.todo[0].to;
      l := ChildMove(if |child.todo[0].data| < pipeBuf then |child.todo[0].data| else pipeBuf);
    }
  }

  lemma WholeProgress(st: State, c: Setup, pipeBuf: nat) returns (l: Label)
    requires Inv(st, c) && WriteEndsClosed(st) && !st.phase.Returned? && Roomy(st, pipeBuf)
    ensures WholeEnabled(st, l, pipeBuf) && !l.Fault?
  {
    var s;
    l, s := BlockedWhole(st, c, pipeBuf);
    if l.ChildMove? && WholeEnabled(st, l, pipeBuf) { return; }
    l := ParentMove(1);
    if st.phase.DrainOut? && st.phase.out {
      ReadyCanBeRead(st, Stdout, c.Total(Stdout));
    } else if st.phase.DrainErr? && st.phase.err {
      ReadyCanBeRead(st, Stderr, c.Total(Stderr));
    }
  }

  /** Any state runs, without a fault, until nothing but a fault is left. */
  lemma WholeRunsOut(st: State, c: Setup, pipeBuf: nat) returns (ls: seq<Label>)
    requires Inv(st, c)
    ensures WholeRunnable(st, ls, pipeBuf)
    ensures forall l :: WholeEnabled(Run(st, ls), l, pipeBuf) ==> l.Fault?
    ensures !st.phase.Returned? && Run(st, ls).phase.Returned? ==> Run(st, ls).phase.ret == 0
    decreases Measure(st)
  {
    if l :| WholeEnabled(st, l, pipeBuf) && !l.Fault? {
      StepKeepsInv(st, l, c);
      StepDescends(st, l, c);
      var rest := WholeRunsOut(Apply(st, l), c, pipeBuf);
      ls := [l] + rest;
      assert ls[1..] == rest;
    } else {
      ls := [];
    }
  }

  /**
   Freedom from deadlock under such a kernel, exactly: for any child and any pipes that can
   hold a small write, no schedule reaches a deadlock if and only if the parent closed both of
   its write ends.
   */
  lemma DeadlockFreeWhole(c: Setup, pipeBuf: nat)
    requires c.Valid() && 0 < pipeBuf <= c.caps.out && pipeBuf <= c.caps.err
    ensures (forall ls | WholeRunnable(c.Start(), ls, pipeBuf) ::
               !WholeDeadlocked(Run(c.Start(), ls), pipeBuf))
            <==> !c.held.out && !c.held.err
  {
    var start := c.Start();
    if !c.held.out && !c.held.err {
      forall ls | WholeRunnable(start, ls, pipeBuf)
        ensures !WholeDeadlocked(Run(start, ls), pipeBuf)
      {
        RunKeepsInv(start, ls, c);
        RunKeepsWriteEnds(start, ls);
        RunKeepsCapacity(start, ls);
        if !Run(start, ls).phase.Returned? {
          var l := WholeProgress(Run(start, ls), c, pipeBuf);
        }
      }
    } else {
      var ls := WholeRunsOut(start, c, pipeBuf);
      RunKeepsInv(start, ls, c);
      RunKeepsWriteEnds(start, ls);
      assert WholeDeadlocked(Run(start, ls), pipeBuf);
    }
  }
}
