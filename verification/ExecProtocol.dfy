/**
 The `execProcess` protocol (source/jse_jsprocess.c) as a step system: a child process
 that writes to two bounded pipes, and the parent's loop of `select`, `read`, `read`,
 `waitpid`.  A schedule is a sequence of labels, so a statement about every runnable
 schedule is a statement about every interleaving and every pattern of short reads
 and short writes.
 */
module ExecProtocol {
  import opened ReadBuffer

  datatype Stream = Stdout | Stderr

  datatype Both<T> = Both(out: T, err: T)
  {
    function At(s: Stream): T { if s == Stdout then out else err }
    function Put(s: Stream, t: T): Both<T> {
      if s == Stdout then Both(t, err) else Both(out, t)
    }
  }

  /** What the child process does, in order; at the end of its actions it exits. */
  datatype Action = Write(to: Stream, data: seq<byte>) | Close(which: Stream)

  datatype Child =
    | Running(todo: seq<Action>, code: int, writing: Both<bool>)
    | Exited(code: int)

  datatype Pipe = Pipe(cap: nat, data: seq<byte>, parentWrites: bool)

  /** The kernel's side: the child and the two pipes. */
  datatype World = World(child: Child, pipes: Both<Pipe>)
  {
    /** Some process still has the write end open. */
    predicate HasWriter(s: Stream) {
      pipes.At(s).parentWrites || (child.Running? && child.writing.At(s))
    }

    /** `select` reports the stream: there is data, or a read would give end of file. */
    predicate Ready(s: Stream) { pipes.At(s).data != [] || !HasWriter(s) }
  }

  /** One of the parent's streams: `fd != -1`, and its buffer. */
  datatype Reader = Reader(open: bool, buf: Buf)

  datatype Phase =
    | Selecting                         // at the top of the loop
    | DrainOut(out: bool, err: bool)    // select returned these ready flags
    | DrainErr(err: bool)               // the stdout half is done
    | Checking                          // at the test that both streams have ended
    | Returned(ret: int, status: int)

  datatype State = State(world: World, readers: Both<Reader>, phase: Phase)

  /** ChildMove carries a byte count for a write, ParentMove one for a read. */
  datatype Label = ChildMove(n: nat) | ParentMove(n: nat) | Fault

  // ----- the child

  function Room(p: Pipe): nat { if |p.data| < p.cap then p.cap - |p.data| else 0 }

  /** A write to an open pipe moves some bytes, and blocks while the pipe is full. */
  predicate ChildCan(w: World, n: nat) {
    w.child.Running? &&
    (w.child.todo != [] && w.child.todo[0].Write? &&
     w.child.writing.At(w.child.todo[0].to) && w.child.todo[0].data != []
     ==> 0 < n <= |w.child.todo[0].data| && n <= Room(w.pipes.At(w.child.todo[0].to)))
  }

  function ChildStep(w: World, n: nat): World
    requires ChildCan(w, n)
  {
    var c := w.child;
    if c.todo == [] then w.(child := Exited(c.code))
    else match c.todo[0]
      case Close(s) => w.(child := c.(todo := c.todo[1..], writing := c.writing.Put(s, false)))
      case Write(s, data) =>
        if !c.writing.At(s) || data == [] then w.(child := c.(todo := c.todo[1..]))
        else var p := w.pipes.At(s);
             World(c.(todo := [Write(s, data[n..])] + c.todo[1..]),
                   w.pipes.Put(s, p.(data := p.data + data[..n])))
  }

  // ----- the parent

  /** `read` returns: data is there, or no writer is left, or no byte was asked for. */
  predicate ReadCan(st: State, s: Stream, n: nat) {
    var b, p := st.readers.At(s).buf, st.world.pipes.At(s);
    |b.got| <= b.size &&
    (b.HasRoom() ==>
      if p.data != [] then 0 < n <= |p.data| && n <= b.size - |b.got|
      else !st.world.HasWriter(s))
  }

  /** One stream's half of the loop body: `jse_read_fd_once`, and 0 drops the stream. */
  function ReadStep(st: State, s: Stream, n: nat, next: Phase): State
    requires ReadCan(st, s, n)
  {
    var r, p := st.readers.At(s), st.world.pipes.At(s);
    if !r.buf.HasRoom() || p.data == [] then
      st.(readers := st.readers.Put(s, Reader(false, Absorb(r.buf, []))), phase := next)
    else
      State(st.world.(pipes := st.world.pipes.Put(s, p.(data := p.data[n..]))),
            st.readers.Put(s, r.(buf := Absorb(r.buf, p.data[..n]))), next)
  }

  predicate ParentCan(st: State, n: nat) {
    match st.phase
    case Selecting =>
      (!st.readers.out.open && !st.readers.err.open) ||
      (st.readers.out.open && st.world.Ready(Stdout)) ||
      (st.readers.err.open && st.world.Ready(Stderr))
    case DrainOut(out, _) => out ==> ReadCan(st, Stdout, n)
    case DrainErr(err) => err ==> ReadCan(st, Stderr, n)
    case Checking => !st.readers.out.open && !st.readers.err.open ==> st.world.child.Exited?
    case Returned(_, _) => false
  }

  function ParentStep(st: State, n: nat): State
    requires ParentCan(st, n)
  {
    match st.phase
    case Selecting =>
      if !st.readers.out.open && !st.readers.err.open then st.(phase := Checking)
      else st.(phase := DrainOut(st.readers.out.open && st.world.Ready(Stdout),
                                 st.readers.err.open && st.world.Ready(Stderr)))
    case DrainOut(out, err) =>
      if out then ReadStep(st, Stdout, n, DrainErr(err)) else st.(phase := DrainErr(err))
    case DrainErr(err) =>
      if err then ReadStep(st, Stderr, n, Checking) else st.(phase := Checking)
    case Checking =>
      if st.readers.out.open || st.readers.err.open then st.(phase := Selecting)
      else st.(phase := Returned(0, ExitStatus(st.world.child.code)))
    case Returned(_, _) => st
  }

  /** `WEXITSTATUS` of a normal exit keeps the low eight bits of the exit code. */
  function ExitStatus(code: int): (status: int)
    ensures 0 <= status < 256 && (code - status) % 256 == 0
    ensures 0 <= code < 256 ==> status == code
  {
    code % 256
  }

  // ----- runs

  /** A system call of the parent may fail wherever the parent makes one. */
  predicate Enabled(st: State, l: Label) {
    match l
    case ChildMove(n) => ChildCan(st.world, n)
    case ParentMove(n) => ParentCan(st, n)
    case Fault => !st.phase.Returned?
  }

  function Apply(st: State, l: Label): State
    requires Enabled(st, l)
  {
    match l
    case ChildMove(n) => st.(world := ChildStep(st.world, n))
    case ParentMove(n) => ParentStep(st, n)
    case Fault => st.(phase := Returned(-1, 0))
  }

  predicate Runnable(st: State, ls: seq<Label>)
    decreases |ls|
  {
    ls == [] || (Enabled(st, ls[0]) && Runnable(Apply(st, ls[0]), ls[1..]))
  }

  function Run(st: State, ls: seq<Label>): State
    requires Runnable(st, ls)
    decreases |ls|
  {
    if ls == [] then st else Run(Apply(st, ls[0]), ls[1..])
  }

  /** No step is possible other than a failing system call. */
  ghost predicate Stuck(st: State) {
    forall l :: Enabled(st, l) ==> l.Fault?
  }

  /**
   How an execution is set up: the child's actions and exit code, the pipe capacities,
   which streams the child can write, which write ends the parent kept, the buffer size.
   */
  datatype Setup = Setup(todo: seq<Action>, code: int, caps: Both<nat>,
                         writing: Both<bool>, held: Both<bool>, size: nat)
  {
    predicate Valid() { 0 < caps.out && 0 < caps.err && 0 < size }

    function Start(): State {
      State(World(Running(todo, code, writing),
                  Both(Pipe(caps.out, [], held.out), Pipe(caps.err, [], held.err))),
            Both(Reader(true, Buf([], size)), Reader(true, Buf([], size))),
            Selecting)
    }

    /** Everything that the child writes to a stream. */
    function Total(s: Stream): seq<byte> { Emitted(todo, writing.At(s), s) }

    /** The buffer and length that capture a stream exactly. */
    function Captured(s: Stream): Buf { Buf(Total(s), |Total(s)|) }
  }

  /** The bytes that a list of actions puts into one stream. */
  function Emitted(todo: seq<Action>, writing: bool, s: Stream): seq<byte> {
    if todo == [] || !writing then []
    else match todo[0]
      case Write(to, data) => (if to == s then data else []) + Emitted(todo[1..], writing, s)
      case Close(which) => Emitted(todo[1..], which != s, s)
  }

  /** What the child has still to write to a stream. */
  function Remaining(c: Child, s: Stream): seq<byte> {
    if c.Running? then Emitted(c.todo, c.writing.At(s), s) else []
  }

  // ----- the invariant

  /** Per stream: nothing is lost or reordered, and a stream that ended has ended for good. */
  ghost predicate StreamInv(st: State, s: Stream, total: seq<byte>) {
    var r, p := st.readers.At(s), st.world.pipes.At(s);
    && total == r.buf.got + p.data + Remaining(st.world.child, s)
    && 0 < p.cap
    && (if r.open then r.buf.HasRoom()
        else r.buf.size == |r.buf.got| && p.data == [] && !st.world.HasWriter(s))
  }

  ghost predicate PhaseInv(st: State, code: int) {
    && st.world.child.code == code
    && (match st.phase
        case Selecting => st.readers.out.open || st.readers.err.open
        case DrainOut(out, err) =>
          && (out || err)
          && (out ==> st.readers.out.open && st.world.Ready(Stdout))
          && (err ==> st.readers.err.open && st.world.Ready(Stderr))
        case DrainErr(err) => err ==> st.readers.err.open && st.world.Ready(Stderr)
        case Checking => true
        case Returned(ret, status) =>
          ret == -1 ||
          (ret == 0 && status == ExitStatus(code) && st.world.child.Exited? &&
           !st.readers.out.open && !st.readers.err.open))
  }

  ghost predicate Inv(st: State, c: Setup) {
    && PhaseInv(st, c.code)
    && StreamInv(st, Stdout, c.Total(Stdout))
    && StreamInv(st, Stderr, c.Total(Stderr))
  }

  /** A move that puts no byte into the stream and keeps what the child has still to write to it. */
  lemma QuietMoveKeepsStream(st: State, n: nat, s: Stream, total: seq<byte>)
    requires StreamInv(st, s, total) && ChildCan(st.world, n)
    requires var w := ChildStep(st.world, n);
             && w.pipes.At(s) == st.world.pipes.At(s)
             && Remaining(w.child, s) == Remaining(st.world.child, s)
             && (w.HasWriter(s) ==> st.world.HasWriter(s))
    ensures StreamInv(Apply(st, ChildMove(n)), s, total)
    ensures st.readers.At(s).open && st.world.Ready(s) ==> Apply(st, ChildMove(n)).world.Ready(s)
  {}

  /** The action at the head puts bytes into the stream. */
  predicate Feeds(c: Child, s: Stream) {
    && c.Running? && c.todo != [] && c.todo[0].Write? && c.todo[0].to == s
    && c.writing.At(s) && c.todo[0].data != []
  }

  lemma OtherMoveIsQuiet(w: World, n: nat, s: Stream)
    requires ChildCan(w, n) && !Feeds(w.child, s)
    ensures ChildStep(w, n).pipes.At(s) == w.pipes.At(s)
    ensures Remaining(ChildStep(w, n).child, s) == Remaining(w.child, s)
    ensures ChildStep(w, n).HasWriter(s) ==> w.HasWriter(s)
  {
    if w.child.todo != [] && w.child.todo[0].Write? { OtherWriteIsQuiet(w, n, s); }
  }

  lemma OtherWriteIsQuiet(w: World, n: nat, s: Stream)
    requires ChildCan(w, n) && !Feeds(w.child, s) && w.child.todo != [] && w.child.todo[0].Write?
    ensures ChildStep(w, n).pipes.At(s) == w.pipes.At(s)
    ensures Remaining(ChildStep(w, n).child, s) == Remaining(w.child, s)
    ensures ChildStep(w, n).child.Running? && ChildStep(w, n).child.writing == w.child.writing
  {
    var c := w.child;
    var rest := Emitted(c.todo[1..], c.writing.At(s), s);
    assert c.todo[0].to != s || c.todo[0].data == [] || rest == [];
    assert [] + rest == rest;
  }

  lemma FeedRemaining(w: World, n: nat, s: Stream)
    requires ChildCan(w, n) && Feeds(w.child, s)
    ensures var data, rest := w.child.todo[0].data, Emitted(w.child.todo[1..], true, s);
            && n <= |data|
            && Remaining(w.child, s) == data + rest
            && Remaining(ChildStep(w, n).child, s) == data[n..] + rest
            && ChildStep(w, n).pipes.At(s) == w.pipes.At(s).(data := w.pipes.At(s).data + data[..n])
            && w.HasWriter(s) && ChildStep(w, n).HasWriter(s)
  {
    assert ([Write(s, w.child.todo[0].data[n..])] + w.child.todo[1..])[1..] == w.child.todo[1..];
  }

  lemma FeedKeepsStream(st: State, n: nat, s: Stream, total: seq<byte>)
    requires StreamInv(st, s, total) && ChildCan(st.world, n) && Feeds(st.world.child, s)
    ensures StreamInv(Apply(st, ChildMove(n)), s, total)
    ensures st.world.Ready(s) ==> Apply(st, ChildMove(n)).world.Ready(s)
  {
    FeedRemaining(st.world, n, s);
    var data, rest := st.world.child.todo[0].data, Emitted(st.world.child.todo[1..], true, s);
    MoveBytes(st.readers.At(s).buf.got, st.world.pipes.At(s).data, data, n, rest);
  }

  lemma MoveBytes(got: seq<byte>, held: seq<byte>, data: seq<byte>, n: nat, rest: seq<byte>)
    requires n <= |data|
    ensures got + held + (data + rest) == got + (held + data[..n]) + (data[n..] + rest)
  {}

  lemma ChildMoveKeepsStream(st: State, n: nat, s: Stream, total: seq<byte>)
    requires StreamInv(st, s, total) && ChildCan(st.world, n)
    ensures StreamInv(Apply(st, ChildMove(n)), s, total)
    ensures st.readers.At(s).open && st.world.Ready(s) ==> Apply(st, ChildMove(n)).world.Ready(s)
  {
    if Feeds(st.world.child, s) {
      FeedKeepsStream(st, n, s, total);
    } else {
      OtherMoveIsQuiet(st.world, n, s);
      QuietMoveKeepsStream(st, n, s, total);
    }
  }

  lemma ReadKeepsStream(st: State, s: Stream, n: nat, next: Phase, total: seq<byte>)
    requires StreamInv(st, s, total) && st.readers.At(s).open && ReadCan(st, s, n)
    ensures StreamInv(ReadStep(st, s, n, next), s, total)
  {
    var r, p := st.readers.At(s), st.world.pipes.At(s);
    var after := ReadStep(st, s, n, next);
    if p.data != [] {
      assert r.buf.got + p.data == (r.buf.got + p.data[..n]) + p.data[n..];
      assert after.readers.At(s).buf.got == r.buf.got + p.data[..n];
    } else {
      assert r.buf.got + [] == r.buf.got;
    }
  }

  lemma StepKeepsInv(st: State, l: Label, c: Setup)
    requires Inv(st, c) && Enabled(st, l)
    ensures Inv(Apply(st, l), c)
  {
    match l
    case ChildMove(n) =>
      ChildMoveKeepsStream(st, n, Stdout, c.Total(Stdout));
      ChildMoveKeepsStream(st, n, Stderr, c.Total(Stderr));
    case ParentMove(n) =>
      if st.phase.DrainOut? && st.phase.out {
        ReadKeepsStream(st, Stdout, n, DrainErr(st.phase.err), c.Total(Stdout));
      } else if st.phase.DrainErr? && st.phase.err {
        ReadKeepsStream(st, Stderr, n, Checking, c.Total(Stderr));
      }
    case Fault =>
  }

  lemma {:induction false} RunKeepsInv(st: State, ls: seq<Label>, c: Setup)
    requires Inv(st, c) && Runnable(st, ls)
    ensures Inv(Run(st, ls), c)
    decreases |ls|
  {
    if ls != [] {
      StepKeepsInv(st, ls[0], c);
      RunKeepsInv(Apply(st, ls[0]), ls[1..], c);
    }
  }

  /**
   Exact capture: for every child, pipe capacities, initial buffer size and schedule,
   when the loop returns 0 both buffers, with their returned lengths, are exactly what
   the child wrote to each stream, and the status is the low eight bits of the child's exit code.  A buffer
   never holds anything but a prefix of it before that.
   */
  lemma ExactCapture(c: Setup, ls: seq<Label>)
    requires c.Valid()
    requires Runnable(c.Start(), ls)
    ensures var end := Run(c.Start(), ls);
            && end.readers.out.buf.got <= c.Total(Stdout)
            && end.readers.err.buf.got <= c.Total(Stderr)
            && (end.phase.Returned? && end.phase.ret == 0 ==>
                 && end.readers.out.buf == c.Captured(Stdout)
                 && end.readers.err.buf == c.Captured(Stderr)
                 && 0 <= end.phase.status < 256 && (c.code - end.phase.status) % 256 == 0
                 && (0 <= c.code < 256 ==> end.phase.status == c.code)
                 && end.world.child == Exited(c.code))
  {
    RunKeepsInv(c.Start(), ls, c);
  }

  // ----- the buffers

  /** Each open buffer has room, is a doubling of the first size and is mostly in use. */
  ghost predicate Tight(st: State, c: Setup) {
    && (st.readers.out.open ==> Between(st.readers.out.buf, c.size))
    && (st.readers.err.open ==> Between(st.readers.err.buf, c.size))
  }

  lemma StepKeepsTight(st: State, l: Label, c: Setup)
    requires Inv(st, c) && Tight(st, c) && Enabled(st, l)
    ensures Tight(Apply(st, l), c)
  {
    if l.ParentMove? && st.phase.DrainOut? && st.phase.out && st.world.pipes.out.data != [] {
      AbsorbKeepsRoom(st.readers.out.buf, c.size, st.world.pipes.out.data[..l.n]);
    } else if l.ParentMove? && st.phase.DrainErr? && st.phase.err && st.world.pipes.err.data != [] {
      AbsorbKeepsRoom(st.readers.err.buf, c.size, st.world.pipes.err.data[..l.n]);
    }
  }

  lemma {:induction false} RunKeepsTight(st: State, ls: seq<Label>, c: Setup)
    requires Inv(st, c) && Tight(st, c) && Runnable(st, ls)
    ensures Tight(Run(st, ls), c)
    decreases |ls|
  {
    if ls != [] {
      StepKeepsInv(st, ls[0], c);
      StepKeepsTight(st, ls[0], c);
      RunKeepsTight(Apply(st, ls[0]), ls[1..], c);
    }
  }

  /**
   In every reachable state both buffers leave room for a read while their stream is open,
   at a size that is a doubling of the first one and at most twice the data, and are cut to
   the data when it has ended.
   */
  lemma BuffersStayTight(c: Setup, ls: seq<Label>, s: Stream)
    requires c.Valid() && Runnable(c.Start(), ls)
    ensures var r := Run(c.Start(), ls).readers.At(s);
            if r.open then Between(r.buf, c.size) else r.buf.size == |r.buf.got|
  {
    assert c.Start().readers.out.buf.size == c.size * Pow2(0);
    RunKeepsTight(c.Start(), ls, c);
    RunKeepsInv(c.Start(), ls, c);
  }

  // ----- progress

  /** Neither write end was kept by the parent (source/jse_jsprocess.c:151-152). */
  predicate WriteEndsClosed(st: State) {
    !st.world.pipes.out.parentWrites && !st.world.pipes.err.parentWrites
  }

  /** A child that cannot move has exited or is blocked on a full pipe. */
  lemma BlockedChild(st: State, c: Setup) returns (l: Label, s: Stream)
    requires Inv(st, c)
    ensures (l.ChildMove? && Enabled(st, l)) || st.world.child.Exited? ||
            (st.world.HasWriter(s) && st.world.pipes.At(s).data != [])
  {
    l, s := ChildMove(0), Stdout;
    var child := st.world.child;
    if child.Running? && child.todo != [] && child.todo[0].Write? {
      l, s := ChildMove(1), child.todo[0].to;
    }
  }

  /** Some byte count lets the parent read a stream that `select` reported. */
  lemma ReadyCanBeRead(st: State, s: Stream, total: seq<byte>)
    requires StreamInv(st, s, total) && st.readers.At(s).open && st.world.Ready(s)
    ensures ReadCan(st, s, 1)
  {}

  /** With the write ends closed, every state before the end has a step. */
  lemma Progress(st: State, c: Setup) returns (l: Label)
    requires Inv(st, c) && WriteEndsClosed(st) && !st.phase.Returned?
    ensures Enabled(st, l) && !l.Fault?
  {
    var s;
    l, s := BlockedChild(st, c);
    if l.ChildMove? && Enabled(st, l) { return; }
    l := ParentMove(1);
    if st.phase.DrainOut? && st.phase.out {
      ReadyCanBeRead(st, Stdout, c.Total(Stdout));
    } else if st.phase.DrainErr? && st.phase.err {
      ReadyCanBeRead(st, Stderr, c.Total(Stderr));
    }
  }

  // ----- termination

  function Work(todo: seq<Action>): nat {
    if todo == [] then 1
    else 1 + (if todo[0].Write? then |todo[0].data| else 0) + Work(todo[1..])
  }

  function ChildWork(c: Child): nat { if c.Running? then Work(c.todo) else 0 }

  function PhaseRank(p: Phase): nat {
    match p
    case Selecting => 4
    case DrainOut(_, _) => 3
    case DrainErr(err) => if err then 2 else 6
    case Checking => 5
    case Returned(_, _) => 0
  }

  function StreamWeight(st: State, s: Stream): nat {
    10 * |st.world.pipes.At(s).data| + if st.readers.At(s).open then 10 else 0
  }

  /** Bytes left, bytes buffered, streams open and the place in the loop, as one number. */
  function Measure(st: State): nat {
    11 * ChildWork(st.world.child) + StreamWeight(st, Stdout) + StreamWeight(st, Stderr)
    + PhaseRank(st.phase)
  }

  lemma ChildMoveDescends(st: State, n: nat)
    requires ChildCan(st.world, n)
    ensures Measure(Apply(st, ChildMove(n))) < Measure(st)
  {
    var c := st.world.child;
    if c.todo != [] && c.todo[0].Write? && c.writing.At(c.todo[0].to) && c.todo[0].data != [] {
      assert Work([Write(c.todo[0].to, c.todo[0].data[n..])] + c.todo[1..])
          == 1 + (|c.todo[0].data| - n) + Work(c.todo[1..]);
    }
  }

  lemma ReadDescends(st: State, s: Stream, n: nat, next: Phase)
    requires ReadCan(st, s, n) && st.readers.At(s).open && st.readers.At(s).buf.HasRoom()
    ensures Measure(ReadStep(st, s, n, next)) <= Measure(st) - PhaseRank(st.phase) + PhaseRank(next) - 10
  {}

  lemma ParentMoveDescends(st: State, n: nat, c: Setup)
    requires Inv(st, c) && ParentCan(st, n)
    ensures Measure(ParentStep(st, n)) < Measure(st)
  {
    match st.phase
    case DrainOut(out, err) => if out { ReadDescends(st, Stdout, n, DrainErr(err)); }
    case DrainErr(err) => if err { ReadDescends(st, Stderr, n, Checking); }
    case _ =>
  }

  /** Every step, of the child, of the parent or a fault, lowers the measure. */
  lemma StepDescends(st: State, l: Label, c: Setup)
    requires Inv(st, c) && Enabled(st, l)
    ensures Measure(Apply(st, l)) < Measure(st)
  {
    match l
    case ChildMove(n) => ChildMoveDescends(st, n);
    case ParentMove(n) => ParentMoveDescends(st, n, c);
    case Fault =>
  }

  lemma {:induction false} RunIsBounded(st: State, ls: seq<Label>, c: Setup)
    requires Inv(st, c) && Runnable(st, ls)
    ensures |ls| + Measure(Run(st, ls)) <= Measure(st)
    decreases |ls|
  {
    if ls != [] {
      StepDescends(st, ls[0], c);
      StepKeepsInv(st, ls[0], c);
      RunIsBounded(Apply(st, ls[0]), ls[1..], c);
    }
  }

  /**
   Termination: no schedule of any child is longer than a bound that is linear in the
   child's actions and bytes, whatever the capacities and read sizes.
   */
  lemma Termination(c: Setup, ls: seq<Label>)
    requires c.Valid()
    requires Runnable(c.Start(), ls)
    ensures |ls| <= 11 * Work(c.todo) + 24
  {
    RunIsBounded(c.Start(), ls, c);
  }

  // ----- deadlock

  lemma {:induction false} RunExtends(st: State, ls: seq<Label>, l: Label)
    requires Runnable(st, ls) && Enabled(Run(st, ls), l)
    ensures Runnable(st, ls + [l]) && Run(st, ls + [l]) == Apply(Run(st, ls), l)
    decreases |ls|
  {
    if ls == [] {
      assert ([l])[1..] == [];
    } else {
      RunExtends(Apply(st, ls[0]), ls[1..], l);
      assert (ls + [l])[1..] == ls[1..] + [l];
    }
  }

  lemma StepKeepsWriteEnds(st: State, l: Label)
    requires Enabled(st, l)
    ensures Apply(st, l).world.pipes.out.parentWrites == st.world.pipes.out.parentWrites
    ensures Apply(st, l).world.pipes.err.parentWrites == st.world.pipes.err.parentWrites
  {}

  lemma {:induction false} RunKeepsWriteEnds(st: State, ls: seq<Label>)
    requires Runnable(st, ls)
    ensures Run(st, ls).world.pipes.out.parentWrites == st.world.pipes.out.parentWrites
    ensures Run(st, ls).world.pipes.err.parentWrites == st.world.pipes.err.parentWrites
    decreases |ls|
  {
    if ls != [] { RunKeepsWriteEnds(Apply(st, ls[0]), ls[1..]); }
  }

  /** Any state runs, without a fault, to one that is stuck or has returned. */
  lemma RunsOut(st: State, c: Setup) returns (ls: seq<Label>)
    requires Inv(st, c)
    ensures Runnable(st, ls) && Fault !in ls && Stuck(Run(st, ls))
    ensures !st.phase.Returned? && Run(st, ls).phase.Returned? ==> Run(st, ls).phase.ret == 0
    decreases Measure(st)
  {
    if Stuck(st) { return []; }
    var l :| Enabled(st, l) && !l.Fault?;
    StepKeepsInv(st, l, c);
    StepDescends(st, l, c);
    var rest := RunsOut(Apply(st, l), c);
    ls := [l] + rest;
    assert ls[1..] == rest;
  }

  /** The loop is left waiting: nothing but a failing call can happen, and it has not returned. */
  ghost predicate Deadlocked(st: State) { Stuck(st) && !st.phase.Returned? }

  /**
   Freedom from deadlock, exactly: for any child and any positive capacities, no schedule
   reaches a deadlock if and only if the parent closed both of its write ends.
   */
  lemma DeadlockFree(c: Setup)
    requires c.Valid()
    ensures (forall ls | Runnable(c.Start(), ls) ::
               !Deadlocked(Run(c.Start(), ls)))
            <==> !c.held.out && !c.held.err
  {
    var start := c.Start();
    if !c.held.out && !c.held.err {
      forall ls | Runnable(start, ls) ensures !Deadlocked(Run(start, ls)) {
        RunKeepsInv(start, ls, c);
        RunKeepsWriteEnds(start, ls);
        if !Run(start, ls).phase.Returned? {
          var l := Progress(Run(start, ls), c);
        }
      }
    } else {
      var ls := RunsOut(start, c);
      RunKeepsInv(start, ls, c);
      RunKeepsWriteEnds(start, ls);
      assert Deadlocked(Run(start, ls));
    }
  }

  /**
   Liveness: with the write ends closed, a schedule that has no fault and cannot be
   continued has returned 0 with exactly the child's output and status.
   */
  lemma MaximalRunsComplete(c: Setup, ls: seq<Label>)
    requires c.Valid() && !c.held.out && !c.held.err
    requires Runnable(c.Start(), ls) && Fault !in ls
    requires Stuck(Run(c.Start(), ls))
    ensures Run(c.Start(), ls) ==
            State(World(Exited(c.code), Both(Pipe(c.caps.out, [], false), Pipe(c.caps.err, [], false))),
                  Both(Reader(false, c.Captured(Stdout)),
                       Reader(false, c.Captured(Stderr))),
                  Returned(0, ExitStatus(c.code)))
    ensures var status := Run(c.Start(), ls).phase.status;
            && 0 <= status < 256 && (c.code - status) % 256 == 0
            && (0 <= c.code < 256 ==> status == c.code)
  {
    var start := c.Start();
    RunKeepsInv(start, ls, c);
    RunKeepsWriteEnds(start, ls);
    DeadlockFree(c);
    assert !Deadlocked(Run(start, ls));
    NoFaultNoError(start, ls);
    RunKeepsCapacity(start, ls);
    var end := Run(start, ls);
    assert end.world.pipes.out == Pipe(c.caps.out, [], false);
    assert end.world.pipes.err == Pipe(c.caps.err, [], false);
    assert end.readers.out.buf.got == c.Total(Stdout);
    assert end.readers.err.buf.got == c.Total(Stderr);
  }

  lemma {:induction false} NoFaultNoError(st: State, ls: seq<Label>)
    requires Runnable(st, ls) && Fault !in ls
    requires st.phase.Returned? ==> st.phase.ret == 0
    ensures Run(st, ls).phase.Returned? ==> Run(st, ls).phase.ret == 0
    decreases |ls|
  {
    if ls != [] { NoFaultNoError(Apply(st, ls[0]), ls[1..]); }
  }

  lemma {:induction false} RunKeepsCapacity(st: State, ls: seq<Label>)
    requires Runnable(st, ls)
    ensures Run(st, ls).world.pipes.out.cap == st.world.pipes.out.cap
    ensures Run(st, ls).world.pipes.err.cap == st.world.pipes.err.cap
    decreases |ls|
  {
    if ls != [] { RunKeepsCapacity(Apply(st, ls[0]), ls[1..]); }
  }
}
