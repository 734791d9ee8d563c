/**
 `jse_mkdir` (source/jse_common.c:342-451): makes a directory and all the directories above
 it by cutting a copy of the path at each slash, over an abstract file system without
 symbolic links and without other processes.
 */
module MakeDirectory {
  import opened Basics

  datatype Kind = Dir | File

  /** A directory or file, by the names that lead to it from the root. */
  datatype Location = Root | In(dir: Location, name: string)

  type Tree = map<Location, Kind>

  const EPERM := 1
  const ENOENT := 2
  const EEXIST := 17
  const ENOTDIR := 20
  const EINVAL := 22
  const EROFS := 30

  predicate IsDir(t: Tree, l: Location) { l in t && t[l] == Dir }

  function Above(l: Location): Location { if l.Root? then Root else l.dir }

  /** The root is a directory and everything else stands in a directory. */
  ghost predicate WellFounded(t: Tree) {
    IsDir(t, Root) && forall l {:trigger Above(l)} :: l in t ==> IsDir(t, Above(l))
  }

  // ----- paths

  /** The last slash among the first k characters of a path, or -1. */
  function SlashBefore(p: string, k: nat): (i: int)
    requires k <= |p|
    ensures -1 <= i < k && (i >= 0 ==> p[i] == '/')
    ensures forall j :: i < j < k ==> p[j] != '/'
  {
    if k == 0 then -1 else if p[k - 1] == '/' then k - 1 else SlashBefore(p, k - 1)
  }

  /** The component from one position to another is empty, or ".". */
  predicate IsHere(p: string, from: nat, to: nat)
    requires from <= to <= |p|
  {
    to == from || (to == from + 1 && p[from] == '.')
  }

  /** The component is "..". */
  predicate IsUp(p: string, from: nat, to: nat)
    requires from <= to <= |p|
  {
    to == from + 2 && p[from] == '.' && p[from + 1] == '.'
  }

  /** One component further: an empty one and "." stay, ".." goes up, but not above the root. */
  function Step(l: Location, p: string, from: nat, to: nat): Location
    requires from <= to <= |p|
  {
    if IsHere(p, from, to) then l
    else if IsUp(p, from, to) then Above(l)
    else In(l, p[from..to])
  }

  /** Where the first k characters of an absolute path lead. */
  function Loc(p: string, k: nat): Location
    requires k <= |p|
    decreases k
  {
    var i := SlashBefore(p, k);
    if i == -1 then Root else Step(Loc(p, i), p, i + 1, k)
  }

  /** Where the last component ends, before the slashes that may follow it; 0 for the root. */
  function BaseEnd(p: string, k: nat): (end: nat)
    requires k <= |p|
    ensures end <= k && forall j :: end <= j < k ==> p[j] == '/'
    ensures end > 0 ==> p[end - 1] != '/'
  {
    if k > 0 && p[k - 1] == '/' then BaseEnd(p, k - 1) else k
  }

  /** What the components mean, literally. */
  lemma ComponentMeans(p: string, prev: nat, k: nat)
    requires prev < k <= |p| && p[prev] == '/' && forall j :: prev < j < k ==> p[j] != '/'
    ensures var name := p[prev + 1..k];
            Loc(p, k) == if name == "" || name == "." then Loc(p, prev)
                         else if name == ".." then (if Loc(p, prev) == Root then Root else Loc(p, prev).dir)
                         else In(Loc(p, prev), name)
  {
    var name := p[prev + 1..k];
    SlashIs(p, k, prev);
    assert |name| > 0 ==> name[0] == p[prev + 1];
    assert |name| > 1 ==> name[1] == p[prev + 2];
  }

  /** The path may be cut after k characters: at a slash, or at its end. */
  predicate IsCut(p: string, k: int) {
    1 <= k <= |p| && (k == |p| || p[k] == '/')
  }

  // ----- the file system

  /** Why the first k characters of a path cannot be gone through as a directory; 0 when they can. */
  function EnterError(t: Tree, p: string, k: nat): int
    requires k <= |p|
    decreases k
  {
    var i := SlashBefore(p, k);
    if i == -1 then 0
    else if EnterError(t, p, i) != 0 then EnterError(t, p, i)
    else if IsDir(t, Loc(p, k)) then 0
    else if Loc(p, k) in t then ENOTDIR
    else ENOENT
  }

  /** Why the last component cannot be reached; 0 when it can. */
  function ReachError(t: Tree, p: string, k: nat): int
    requires k <= |p|
  {
    var i := SlashBefore(p, BaseEnd(p, k));
    if i == -1 then 0 else EnterError(t, p, i)
  }

  /** `stat` of an absolute path: a file does not answer to a name with a slash at its end. */
  function Stat(t: Tree, p: string): Option<Kind> {
    var l := Loc(p, BaseEnd(p, |p|));
    if ReachError(t, p, |p|) == 0 && l in t && (t[l] == Dir || BaseEnd(p, |p|) == |p|) then Some(t[l]) else None
  }

  /**
   The errno that `mkdir` gives for the first k characters of an absolute path.  As on Linux,
   whatever is there already gives EEXIST: the root, a directory reached by "." or "..", and a
   file even when its name has a slash at its end.
   */
  function MkdirError(t: Tree, refusing: map<Location, int>, p: string, k: nat): int
    requires k <= |p|
  {
    var l := Loc(p, BaseEnd(p, k));
    if BaseEnd(p, k) == 0 then EEXIST
    else if ReachError(t, p, k) != 0 then ReachError(t, p, k)
    else if l in t then EEXIST
    else if l in refusing then refusing[l]
    else 0
  }

  /** Refusals are errors, and not the one for a name that is there already. */
  ghost predicate Refusals(refusing: map<Location, int>) {
    forall l :: l in refusing ==> refusing[l] != 0 && refusing[l] != EEXIST
  }

  /**
   The file system.  `refusing` says where the system refuses to make a directory, and with
   which error: no permission, no space, a read-only mount and so on.
   */
  class FileSystem {
    var tree: Tree
    const refusing: map<Location, int>

    ghost predicate Valid()
      reads this
    {
      WellFounded(tree) && Refusals(refusing)
    }

    constructor (tree: Tree, refusing: map<Location, int>)
      requires WellFounded(tree) && Refusals(refusing)
      ensures Valid() && this.tree == tree && this.refusing == refusing
    {
      this.tree, this.refusing := tree, refusing;
    }

    method Mkdir(p: string) returns (errno: int)
      requires Valid() && p != "" && p[0] == '/'
      modifies this
      ensures Valid() && errno == MkdirError(old(tree), refusing, p, |p|)
      ensures tree == if errno == 0 then old(tree)[Loc(p, BaseEnd(p, |p|)) := Dir] else old(tree)
    {
      errno := MkdirError(tree, refusing, p, |p|);
      if errno == 0 {
        NewStandsInDir(tree, p, BaseEnd(p, |p|));
        tree := tree[Loc(p, BaseEnd(p, |p|)) := Dir];
      }
    }
  }

  lemma EntersDir(t: Tree, p: string, k: nat)
    requires k <= |p| && WellFounded(t) && EnterError(t, p, k) == 0
    ensures IsDir(t, Loc(p, k))
  {}

  /** What a path leads to and is not there yet stands in the directory before it. */
  lemma NewStandsInDir(t: Tree, p: string, end: nat)
    requires WellFounded(t) && p != "" && p[0] == '/' && 0 < end <= |p|
    requires EnterError(t, p, SlashBefore(p, end)) == 0 && Loc(p, end) !in t
    ensures Loc(p, end) != Root && IsDir(t, Above(Loc(p, end)))
  {
    var up := Loc(p, SlashBefore(p, end));
    EntersDir(t, p, SlashBefore(p, end));
    assert Above(up) in t && up in t;
  }

  // ----- two paths with the same first characters

  ghost predicate Agree(p: string, q: string, k: nat) {
    k <= |p| && k <= |q| && forall j :: 0 <= j < k ==> p[j] == q[j]
  }

  lemma {:induction false} SameSlash(p: string, q: string, k: nat)
    requires Agree(p, q, k)
    ensures SlashBefore(p, k) == SlashBefore(q, k)
    decreases k
  {
    if k > 0 { SameSlash(p, q, k - 1); }
  }

  lemma {:induction false} SameEnd(p: string, q: string, k: nat)
    requires Agree(p, q, k)
    ensures BaseEnd(p, k) == BaseEnd(q, k)
    decreases k
  {
    if k > 0 { SameEnd(p, q, k - 1); }
  }

  lemma SameStep(l: Location, p: string, q: string, from: nat, to: nat)
    requires Agree(p, q, to) && from <= to
    ensures Step(l, p, from, to) == Step(l, q, from, to)
  {
    assert p[from..to] == q[from..to];
  }

  lemma LocStep(p: string, k: nat)
    requires k <= |p|
    ensures var i := SlashBefore(p, k); Loc(p, k) == if i == -1 then Root else Step(Loc(p, i), p, i + 1, k)
  {}

  lemma {:induction false} SameLoc(p: string, q: string, k: nat)
    requires Agree(p, q, k)
    ensures Loc(p, k) == Loc(q, k)
    decreases k
  {
    SameSlash(p, q, k);
    LocStep(p, k);
    LocStep(q, k);
    var i := SlashBefore(p, k);
    if i >= 0 {
      SameLoc(p, q, i);
      SameStep(Loc(p, i), p, q, i + 1, k);
    }
  }

  lemma {:induction false} SameEnter(t: Tree, p: string, q: string, k: nat)
    requires Agree(p, q, k)
    ensures EnterError(t, p, k) == EnterError(t, q, k)
    decreases k
  {
    SameSlash(p, q, k);
    SameLoc(p, q, k);
    var i := SlashBefore(p, k);
    if i >= 0 { SameEnter(t, p, q, i); }
  }

  lemma SameMkdir(t: Tree, refusing: map<Location, int>, p: string, q: string, k: nat)
    requires Agree(p, q, k)
    ensures MkdirError(t, refusing, p, k) == MkdirError(t, refusing, q, k)
    ensures Loc(p, BaseEnd(p, k)) == Loc(q, BaseEnd(q, k))
  {
    SameEnd(p, q, k);
    var end := BaseEnd(p, k);
    SameLoc(p, q, end);
    SameSlash(p, q, end);
    var i := SlashBefore(p, end);
    if i >= 0 { SameEnter(t, p, q, i); }
  }

  // ----- the cuts of a path

  /** Every cut before position k, and k itself when it is one, leads to a directory. */
  ghost predicate DirsUpTo(t: Tree, p: string, k: int) {
    forall c :: IsCut(p, c) && c <= k ==> IsDir(t, Loc(p, c))
  }

  /** The path leads through directories to a directory. */
  ghost predicate IsDirPath(t: Tree, p: string) { DirsUpTo(t, p, |p|) }

  /** The place at a cut is a directory already, or can be made one. */
  predicate CutGood(t: Tree, refusing: map<Location, int>, p: string, c: int)
    requires IsCut(p, c)
  {
    var l := Loc(p, c);
    if l in t then t[l] == Dir else l !in refusing
  }

  /** Every directory on the way, and the last one, is there or can be made. */
  ghost predicate Possible(t: Tree, refusing: map<Location, int>, p: string) {
    forall c :: IsCut(p, c) ==> CutGood(t, refusing, p, c)
  }

  /** The way to the last component is possible, and that component is a file. */
  ghost predicate EndsAtFile(t: Tree, refusing: map<Location, int>, p: string) {
    && (forall c :: IsCut(p, c) && c < BaseEnd(p, |p|) ==> CutGood(t, refusing, p, c))
    && Loc(p, |p|) in t && t[Loc(p, |p|)] == File
  }

  /** Nothing but slashes follows. */
  predicate SlashesFrom(p: string, c: int)
    requires 0 <= c <= |p|
  {
    forall j :: c <= j < |p| ==> p[j] == '/'
  }

  /** The first cut that is neither a directory nor can be made one. */
  ghost predicate FirstBad(t: Tree, refusing: map<Location, int>, p: string, c: int) {
    && IsCut(p, c) && !CutGood(t, refusing, p, c)
    && forall d :: IsCut(p, d) && d < c ==> CutGood(t, refusing, p, d)
  }

  /**
   The errno that the first bad cut gives: that a file is no directory, the refusal there, or,
   when a read-only system did not make it and more components follow, that it is not there.
   */
  ghost predicate FailsAs(t: Tree, refusing: map<Location, int>, p: string, errno: int) {
    exists c :: FailsAt(t, refusing, p, c, errno)
  }

  ghost predicate FailsAt(t: Tree, refusing: map<Location, int>, p: string, c: int, errno: int) {
    && FirstBad(t, refusing, p, c)
    && var l := Loc(p, c);
       if l in t then errno == ENOTDIR
       else errno == if refusing[l] != EROFS || SlashesFrom(p, c) then refusing[l] else ENOENT
  }

  ghost predicate Hopeless(t: Tree, refusing: map<Location, int>, p: string, errno: int) {
    !Possible(t, refusing, p) && !EndsAtFile(t, refusing, p) && FailsAs(t, refusing, p, errno)
  }

  /** From `a` to `b` only directories at cuts of the path below `n` were added, nowhere against a refusal. */
  ghost predicate OnlyPrefixes(a: Tree, b: Tree, refusing: map<Location, int>, p: string, n: int) {
    && (forall l :: l in a ==> l in b && b[l] == a[l])
    && (forall l :: l in b && l !in a ==> b[l] == Dir && l !in refusing && AtCut(p, n, l))
  }

  ghost predicate AtCut(p: string, n: int, l: Location) {
    exists c :: IsCut(p, c) && c < n && l == Loc(p, c)
  }

  lemma SlashBeforeIs(p: string, k: nat, prev: int)
    requires 0 <= prev < k <= |p| && p[prev] == '/' && forall j :: prev < j < k ==> p[j] != '/'
    ensures SlashBefore(p, k) == prev
  {
    var i := SlashBefore(p, k);
    assert i == prev;
  }

  lemma SlashIs(p: string, k: nat, prev: int)
    requires 0 <= prev < k <= |p| && p[prev] == '/' && forall j :: prev < j < k ==> p[j] != '/'
    ensures SlashBefore(p, k) == prev && Loc(p, k) == Step(Loc(p, prev), p, prev + 1, k)
  {
    SlashBeforeIs(p, k, prev);
    LocStep(p, k);
  }

  lemma SlashStays(p: string, k: nat)
    requires 0 < k <= |p| && p[k - 1] == '/'
    ensures Loc(p, k) == Loc(p, k - 1)
  {
    SlashIs(p, k, k - 1);
  }

  /** Slashes after a component change neither the place nor where the component ends. */
  lemma SlashesStay(p: string, last: nat, k: nat)
    requires last <= k <= |p| && forall j :: last <= j < k ==> p[j] == '/'
    ensures Loc(p, k) == Loc(p, last)
  {
    var m := last;
    while m < k
      invariant last <= m <= k && Loc(p, m) == Loc(p, last)
    {
      SlashStays(p, m + 1);
      m := m + 1;
    }
  }

  lemma {:induction false} EndStays(p: string, last: nat, k: nat)
    requires last <= k <= |p| && forall j :: last <= j < k ==> p[j] == '/'
    ensures BaseEnd(p, k) == BaseEnd(p, last)
    decreases k
  {
    if k > last { EndStays(p, last, k - 1); }
  }

  lemma BaseLeads(p: string, k: nat)
    requires k <= |p|
    ensures Loc(p, BaseEnd(p, k)) == Loc(p, k)
  {
    SlashesStay(p, BaseEnd(p, k), k);
  }

  lemma NoCutBetween(p: string, at: int, prev: int)
    requires 0 <= prev < at <= |p| && forall j :: prev < j < at ==> p[j] != '/'
    ensures forall c :: IsCut(p, c) && c <= at - 1 ==> c <= prev
  {}

  /** A path can be gone through exactly when all its cuts lead to directories. */
  lemma {:induction false} EnterCuts(t: Tree, p: string, k: nat)
    requires p != "" && p[0] == '/' && (k == 0 || IsCut(p, k))
    ensures EnterError(t, p, k) == 0 <==> DirsUpTo(t, p, k)
    decreases k
  {
    if k > 0 {
      var i := SlashBefore(p, k);
      assert i >= 0 && (i > 0 ==> IsCut(p, i));
      EnterCuts(t, p, i);
      NoCutBetween(p, k, i);
    }
  }

  /** A directory made on the way does not stand where making one was not possible. */
  lemma DirsWerePossible(t: Tree, now: Tree, refusing: map<Location, int>, p: string)
    requires OnlyPrefixes(t, now, refusing, p, |p| + 1) && IsDirPath(now, p)
    ensures Possible(t, refusing, p)
  {
    forall c | IsCut(p, c) ensures CutGood(t, refusing, p, c) {
      assert IsDir(now, Loc(p, c));
    }
  }

  // ----- the walk

  /**
   What holds between two characters of the walk, when no error has stopped it: `prev` is the
   slash before `at`, and `last` is where the last component before it ends.
   */
  ghost predicate Walking(t: Tree, now: Tree, refusing: map<Location, int>, p: string, at: int, prev: int, last: int) {
    && 0 <= last <= prev < at <= |p|
    && (forall j :: last <= j <= prev ==> p[j] == '/')
    && (forall j :: prev < j < at ==> p[j] != '/')
    && (last > 0 ==> p[last - 1] != '/')
    && WellFounded(t) && WellFounded(now) && OnlyPrefixes(t, now, refusing, p, at)
    && DirsUpTo(now, p, last - 1)
    && (last > 0 ==> IsDir(now, Loc(p, last)) || Blocked(now, refusing, Loc(p, last)))
  }

  /** A file is in the way, or a directory that a read-only system did not make. */
  ghost predicate Blocked(now: Tree, refusing: map<Location, int>, l: Location) {
    if l in now then now[l] == File else l in refusing && refusing[l] == EROFS
  }

  /** The way to `prev` is open. */
  ghost predicate Open(now: Tree, p: string, last: int)
    requires last <= |p|
  {
    last > 0 ==> IsDir(now, Loc(p, last))
  }

  /** All cuts up to the slash lead to directories exactly when the last component does. */
  lemma OpenUpTo(t: Tree, now: Tree, refusing: map<Location, int>, p: string, at: int, prev: int, last: int)
    requires Walking(t, now, refusing, p, at, prev, last)
    ensures DirsUpTo(now, p, prev) <==> Open(now, p, last)
  {
    if Open(now, p, last) {
      forall c | IsCut(p, c) && c <= prev ensures IsDir(now, Loc(p, c)) {
        if c >= last { SlashesStay(p, last, c); }
      }
    } else {
      assert IsCut(p, last);
    }
  }

  /** What is not a directory after the walk came by could not be made one. */
  lemma NotDirNotGood(t: Tree, now: Tree, refusing: map<Location, int>, p: string, n: int, c: int)
    requires OnlyPrefixes(t, now, refusing, p, n) && IsCut(p, c) && Blocked(now, refusing, Loc(p, c))
    ensures !CutGood(t, refusing, p, c)
  {}

  /** A cut at a slash that follows a slash: `mkdir` changes nothing and gives an allowed error. */
  lemma MkdirAgain(t: Tree, now: Tree, refusing: map<Location, int>, p: string, at: int, prev: int, last: int)
    requires Walking(t, now, refusing, p, at, prev, last) && at == prev + 1 && p[0] == '/'
    ensures MkdirError(now, refusing, p, at) == if Loc(p, last) in now then EEXIST else EROFS
    ensures Loc(p, at) == Loc(p, last)
  {
    SlashesStay(p, last, at);
    EndStays(p, last, at);
    assert BaseEnd(p, last) == last;
    if last > 0 {
      var i := SlashBefore(p, last);
      assert i > 0 ==> IsCut(p, i);
      EnterCuts(now, p, i);
    }
  }

  /** A cut after a component. */
  lemma MkdirNext(t: Tree, now: Tree, refusing: map<Location, int>, p: string, at: int, prev: int, last: int)
    requires Walking(t, now, refusing, p, at, prev, last) && at > prev + 1
    requires IsCut(p, at) && p[0] == '/'
    ensures var errno, l := MkdirError(now, refusing, p, at), Loc(p, at);
            && BaseEnd(p, at) == at
            && (!Open(now, p, last) ==> errno == if Loc(p, last) in now then ENOTDIR else ENOENT)
            && (Open(now, p, last) ==>
                  errno == if l in now then EEXIST else if l in refusing then refusing[l] else 0)
  {
    SlashIs(p, at, prev);
    OpenUpTo(t, now, refusing, p, at, prev, last);
    if prev > 0 { assert IsCut(p, prev); }
    EnterCuts(now, p, prev);
    if !Open(now, p, last) { EnterBlocked(t, now, refusing, p, at, prev, last); }
  }

  lemma {:induction false} EnterSlashes(t: Tree, p: string, last: nat, k: nat)
    requires last <= k <= |p| && forall j :: last <= j < k ==> p[j] == '/'
    requires EnterError(t, p, last) != 0
    ensures EnterError(t, p, k) == EnterError(t, p, last)
    decreases k
  {
    if k > last {
      EnterSlashes(t, p, last, k - 1);
      SlashIs(p, k, k - 1);
    }
  }

  lemma EnterBad(t: Tree, p: string, last: nat)
    requires IsCut(p, last) && p[0] == '/' && DirsUpTo(t, p, last - 1) && !IsDir(t, Loc(p, last))
    ensures EnterError(t, p, last) == if Loc(p, last) in t then ENOTDIR else ENOENT
  {
    var i := SlashBefore(p, last);
    assert i > 0 ==> IsCut(p, i);
    EnterCuts(t, p, i);
  }

  /** Behind a blocked component nothing can be entered, however many slashes follow. */
  lemma EnterBlocked(t: Tree, now: Tree, refusing: map<Location, int>, p: string, at: int, prev: int, last: int)
    requires Walking(t, now, refusing, p, at, prev, last) && !Open(now, p, last) && p[0] == '/'
    ensures EnterError(now, p, prev) == if Loc(p, last) in now then ENOTDIR else ENOENT
  {
    EnterBad(now, p, last);
    EnterSlashes(now, p, last, prev);
  }

  predicate Allowed(errno: int) { errno == 0 || errno == EEXIST || errno == EROFS }

  lemma OneMorePrefix(t: Tree, now: Tree, after: Tree, refusing: map<Location, int>, p: string, at: int)
    requires OnlyPrefixes(t, now, refusing, p, at) && IsCut(p, at)
    requires after == now || (Loc(p, at) !in now && Loc(p, at) !in refusing && after == now[Loc(p, at) := Dir])
    ensures OnlyPrefixes(t, after, refusing, p, at + 1)
  {
    forall l | l in after && l !in t ensures after[l] == Dir && l !in refusing && AtCut(p, at + 1, l) {
      if l in now {
        var c :| IsCut(p, c) && c < at && l == Loc(p, c);
      } else {
        assert l == Loc(p, at);
      }
    }
  }

  lemma MorePrefixes(t: Tree, now: Tree, refusing: map<Location, int>, p: string, at: int, more: int)
    requires OnlyPrefixes(t, now, refusing, p, at) && at <= more
    ensures OnlyPrefixes(t, now, refusing, p, more)
  {
    forall l | l in now && l !in t ensures AtCut(p, more, l) {
      var c :| IsCut(p, c) && c < at && l == Loc(p, c);
    }
  }

  /** The walk goes past a slash that follows a slash. */
  lemma PastRepeated(t: Tree, now: Tree, refusing: map<Location, int>, p: string, at: int, prev: int, last: int)
    requires Walking(t, now, refusing, p, at, prev, last) && at == prev + 1 && at < |p| && p[at] == '/'
    ensures Walking(t, now, refusing, p, at + 1, at, last)
  {
    MorePrefixes(t, now, refusing, p, at, at + 1);
  }

  lemma StillDirs(now: Tree, after: Tree, p: string, k: int, more: int)
    requires DirsUpTo(now, p, k) && (forall l :: IsDir(now, l) ==> IsDir(after, l))
    requires forall c :: IsCut(p, c) && c <= more ==> c <= k
    ensures DirsUpTo(after, p, more)
  {}

  /** What an allowed errno after a component tells, and what the call has done. */
  ghost predicate Made(now: Tree, after: Tree, refusing: map<Location, int>, l: Location) {
    && (after == now || (l !in now && l !in refusing && after == now[l := Dir]))
    && (IsDir(after, l) || Blocked(after, refusing, l))
  }

  lemma MadeOrThere(now: Tree, after: Tree, refusing: map<Location, int>, l: Location, errno: int)
    requires Refusals(refusing)
    requires errno == if l in now then EEXIST else if l in refusing then refusing[l] else 0
    requires Allowed(errno) && after == if errno == 0 then now[l := Dir] else now
    ensures Made(now, after, refusing, l)
  {}

  lemma ComponentMade(t: Tree, now: Tree, after: Tree, refusing: map<Location, int>, p: string,
                      at: int, prev: int, last: int)
    requires Refusals(refusing)
    requires Walking(t, now, refusing, p, at, prev, last) && prev + 1 < at && IsCut(p, at) && p[0] == '/'
    requires var errno := MkdirError(now, refusing, p, at);
             Allowed(errno) && after == if errno == 0 then now[Loc(p, BaseEnd(p, at)) := Dir] else now
    ensures Open(now, p, last) && Made(now, after, refusing, Loc(p, at))
  {
    MkdirNext(t, now, refusing, p, at, prev, last);
    MadeOrThere(now, after, refusing, Loc(p, at), MkdirError(now, refusing, p, at));
  }

  /** The walk goes past a component whose `mkdir` gave no error, or one of the allowed ones. */
  lemma PastComponent(t: Tree, now: Tree, after: Tree, refusing: map<Location, int>, p: string,
                      at: int, prev: int, last: int)
    requires Walking(t, now, refusing, p, at, prev, last) && prev + 1 < at < |p| && p[at] == '/'
    requires Open(now, p, last) && WellFounded(after) && Made(now, after, refusing, Loc(p, at))
    ensures Walking(t, after, refusing, p, at + 1, at, at)
  {
    DirsBefore(t, now, after, refusing, p, at, prev, last);
    OneMorePrefix(t, now, after, refusing, p, at);
  }

  lemma DirsBefore(t: Tree, now: Tree, after: Tree, refusing: map<Location, int>, p: string,
                   at: int, prev: int, last: int)
    requires Walking(t, now, refusing, p, at, prev, last) && Open(now, p, last)
    requires Made(now, after, refusing, Loc(p, at))
    ensures DirsUpTo(after, p, at - 1)
  {
    OpenUpTo(t, now, refusing, p, at, prev, last);
    assert forall l :: IsDir(now, l) ==> IsDir(after, l);
    NoCutBetween(p, at, prev);
    StillDirs(now, after, p, prev, at - 1);
  }

  /** The walk goes past any other character. */
  lemma PastOther(t: Tree, now: Tree, refusing: map<Location, int>, p: string, at: int, prev: int, last: int)
    requires 0 <= at < |p| && p[at] != '/' && Walking(t, now, refusing, p, at, prev, last)
    ensures Walking(t, now, refusing, p, at + 1, prev, last)
  {
    MorePrefixes(t, now, refusing, p, at, at + 1);
  }

  /** A bad cut that comes after directories only is the first one. */
  lemma FirstBadIs(t: Tree, now: Tree, refusing: map<Location, int>, p: string, n: int, c: int)
    requires OnlyPrefixes(t, now, refusing, p, n) && IsCut(p, c) && DirsUpTo(now, p, c - 1)
    requires if Loc(p, c) in now then now[Loc(p, c)] == File else Loc(p, c) in refusing
    ensures FirstBad(t, refusing, p, c) && (Loc(p, c) in now <==> Loc(p, c) in t)
  {
    forall d | IsCut(p, d) && d < c ensures CutGood(t, refusing, p, d) {
      assert IsDir(now, Loc(p, d));
    }
  }

  /** An error that is not allowed fixes the outcome. */
  lemma StopMeansImpossible(t: Tree, now: Tree, refusing: map<Location, int>, p: string, at: int, prev: int, last: int)
    requires Walking(t, now, refusing, p, at, prev, last) && IsCut(p, at) && p[0] == '/' && Refusals(refusing)
    requires !Allowed(MkdirError(now, refusing, p, at))
    ensures Hopeless(t, refusing, p, MkdirError(now, refusing, p, at))
  {
    if at == prev + 1 {
      MkdirAgain(t, now, refusing, p, at, prev, last);
    } else {
      MkdirNext(t, now, refusing, p, at, prev, last);
      if Open(now, p, last) {
        OpenUpTo(t, now, refusing, p, at, prev, last);
        NoCutBetween(p, at, prev);
        StillDirs(now, now, p, prev, at - 1);
        Refused(t, now, refusing, p, at);
      } else {
        Behind(t, now, refusing, p, at, prev, last);
      }
    }
  }

  /** A component that is not there and whose making is refused. */
  lemma Refused(t: Tree, now: Tree, refusing: map<Location, int>, p: string, at: int)
    requires OnlyPrefixes(t, now, refusing, p, at) && IsCut(p, at) && p[at - 1] != '/' && DirsUpTo(now, p, at - 1)
    requires Loc(p, at) !in now && Loc(p, at) in refusing && refusing[Loc(p, at)] != EROFS
    ensures Hopeless(t, refusing, p, refusing[Loc(p, at)])
  {
    FirstBadIs(t, now, refusing, p, at, at);
    assert FailsAt(t, refusing, p, at, refusing[Loc(p, at)]);
    if at >= BaseEnd(p, |p|) { SlashesStay(p, at, |p|); }
  }

  /** A component behind a file, or behind a directory that a read-only system did not make. */
  lemma Behind(t: Tree, now: Tree, refusing: map<Location, int>, p: string, at: int, prev: int, last: int)
    requires Walking(t, now, refusing, p, at, prev, last) && IsCut(p, at) && at > prev + 1 && !Open(now, p, last)
    ensures Hopeless(t, refusing, p, if Loc(p, last) in now then ENOTDIR else ENOENT)
  {
    assert IsCut(p, last) && p[at - 1] != '/';
    FirstBadIs(t, now, refusing, p, at, last);
    assert !SlashesFrom(p, last);
    assert FailsAt(t, refusing, p, last, if Loc(p, last) in now then ENOTDIR else ENOENT);
    assert last < BaseEnd(p, |p|);
  }

  /** The state of the loop: walking on, or stopped by an error. */
  ghost predicate Walked(t: Tree, now: Tree, refusing: map<Location, int>, p: string,
                         at: int, prev: int, last: int, ret: int, err: bool) {
    if err then ret != 0 && Hopeless(t, refusing, p, ret) && OnlyPrefixes(t, now, refusing, p, at)
    else Walking(t, now, refusing, p, at, prev, last)
  }

  /** Where the walk is after a slash, or that it cannot succeed. */
  lemma AfterSlash(t: Tree, now: Tree, after: Tree, refusing: map<Location, int>, p: string,
                   at: int, prev: int, last: int)
    returns (next: int)
    requires Refusals(refusing) && WellFounded(after)
    requires Walking(t, now, refusing, p, at, prev, last) && 1 <= at < |p| && p[at] == '/' && p[0] == '/'
    requires after == if MkdirError(now, refusing, p, at) == 0 then now[Loc(p, BaseEnd(p, at)) := Dir] else now
    ensures var errno := MkdirError(now, refusing, p, at);
            Walked(t, after, refusing, p, at + 1, at, next, errno, !Allowed(errno))
  {
    next := if at == prev + 1 then last else at;
    if !Allowed(MkdirError(now, refusing, p, at)) {
      StopMeansImpossible(t, now, refusing, p, at, prev, last);
      MorePrefixes(t, now, refusing, p, at, at + 1);
    } else {
      PastSlash(t, now, after, refusing, p, at, prev, last);
    }
  }

  lemma PastSlash(t: Tree, now: Tree, after: Tree, refusing: map<Location, int>, p: string,
                  at: int, prev: int, last: int)
    requires Refusals(refusing) && WellFounded(after)
    requires Walking(t, now, refusing, p, at, prev, last) && 1 <= at < |p| && p[at] == '/' && p[0] == '/'
    requires Allowed(MkdirError(now, refusing, p, at))
    requires after == if MkdirError(now, refusing, p, at) == 0 then now[Loc(p, BaseEnd(p, at)) := Dir] else now
    ensures Walking(t, after, refusing, p, at + 1, at, if at == prev + 1 then last else at)
  {
    if at == prev + 1 {
      MkdirAgain(t, now, refusing, p, at, prev, last);
      PastRepeated(t, now, refusing, p, at, prev, last);
    } else {
      ComponentMade(t, now, after, refusing, p, at, prev, last);
      PastComponent(t, now, after, refusing, p, at, prev, last);
    }
  }

  // ----- the last call

  /** Directories all the way mean that the path was possible, and is one now. */
  lemma ThroughDirs(t: Tree, after: Tree, refusing: map<Location, int>, p: string, at: int, prev: int)
    requires OnlyPrefixes(t, after, refusing, p, |p| + 1) && DirsUpTo(after, p, prev) && IsDir(after, Loc(p, |p|))
    requires 0 <= prev < |p| && forall j :: prev < j < |p| ==> p[j] != '/'
    ensures Possible(t, refusing, p) && IsDirPath(after, p)
  {
    NoCutBetween(p, |p|, prev);
    forall c | IsCut(p, c) && c <= |p| ensures IsDir(after, Loc(p, c)) {
      assert c <= |p| - 1 || c == |p|;
    }
    DirsWerePossible(t, after, refusing, p);
  }

  /** A blocked end is not possible; it is a file exactly when something is there. */
  lemma BlockedEnd(t: Tree, now: Tree, refusing: map<Location, int>, p: string, upTo: int)
    requires OnlyPrefixes(t, now, refusing, p, |p| + 1) && p != ""
    requires DirsUpTo(now, p, upTo) && BaseEnd(p, |p|) <= upTo + 1
    requires if Loc(p, |p|) in now then now[Loc(p, |p|)] == File else Loc(p, |p|) in refusing
    ensures !Possible(t, refusing, p) && (EndsAtFile(t, refusing, p) <==> Loc(p, |p|) in now)
  {
    assert IsCut(p, |p|);
    assert !CutGood(t, refusing, p, |p|);
    forall c | IsCut(p, c) && c < BaseEnd(p, |p|) ensures CutGood(t, refusing, p, c) {
      assert IsDir(now, Loc(p, c));
    }
  }

  lemma FinalAgain(t: Tree, now: Tree, refusing: map<Location, int>, p: string, prev: int, last: int)
    requires Walking(t, now, refusing, p, |p|, prev, last) && |p| == prev + 1 && p[0] == '/'
    ensures var errno := MkdirError(now, refusing, p, |p|);
            && errno in {EEXIST, EROFS}
            && (errno == EEXIST <==> Possible(t, refusing, p) || EndsAtFile(t, refusing, p))
            && (Possible(t, refusing, p) ==> IsDirPath(now, p))
            && (errno == EROFS ==> FailsAs(t, refusing, p, errno))
  {
    MkdirAgain(t, now, refusing, p, |p|, prev, last);
    MorePrefixes(t, now, refusing, p, |p|, |p| + 1);
    OpenUpTo(t, now, refusing, p, |p|, prev, last);
    SlashesStay(p, last, |p|);
    EndStays(p, last, |p|);
    if Open(now, p, last) {
      ThroughDirs(t, now, refusing, p, |p|, prev);
    } else {
      BlockedEnd(t, now, refusing, p, last - 1);
      if Loc(p, last) !in now {
        FirstBadIs(t, now, refusing, p, |p|, last);
        assert FailsAt(t, refusing, p, last, EROFS);
      }
    }
  }

  /** The outcome of the last call, with the errno it gave and the tree it left. */
  ghost predicate Settled(t: Tree, after: Tree, refusing: map<Location, int>, p: string, errno: int) {
    && (errno in {0, EEXIST} <==> Possible(t, refusing, p) || EndsAtFile(t, refusing, p))
    && (errno !in {0, EEXIST} ==> FailsAs(t, refusing, p, errno))
    && (Possible(t, refusing, p) ==> IsDirPath(after, p))
    && OnlyPrefixes(t, after, refusing, p, |p| + 1)
  }

  /** The last component is a file, or its making is refused. */
  lemma FinalBlocked(t: Tree, after: Tree, refusing: map<Location, int>, p: string, errno: int)
    requires p != "" && OnlyPrefixes(t, after, refusing, p, |p| + 1) && DirsUpTo(after, p, |p| - 1)
    requires Refusals(refusing) && !IsDir(after, Loc(p, |p|))
    requires var l := Loc(p, |p|); if l in after then errno == EEXIST else l in refusing && errno == refusing[l]
    ensures Settled(t, after, refusing, p, errno)
  {
    BlockedEnd(t, after, refusing, p, |p| - 1);
    if Loc(p, |p|) !in after {
      FirstBadIs(t, after, refusing, p, |p| + 1, |p|);
      assert FailsAt(t, refusing, p, |p|, errno);
    }
  }

  /** The last component when the way to it is open. */
  lemma FinalOpen(t: Tree, now: Tree, after: Tree, refusing: map<Location, int>, p: string, prev: int, errno: int)
    requires p != "" && 0 <= prev < |p| && forall j :: prev < j < |p| ==> p[j] != '/'
    requires OnlyPrefixes(t, after, refusing, p, |p| + 1) && DirsUpTo(now, p, prev) && Refusals(refusing)
    requires var l := Loc(p, |p|);
             && errno == (if l in now then EEXIST else if l in refusing then refusing[l] else 0)
             && after == if errno == 0 then now[l := Dir] else now
    ensures Settled(t, after, refusing, p, errno)
  {
    StillDirs(now, after, p, prev, prev);
    if IsDir(after, Loc(p, |p|)) {
      ThroughDirs(t, after, refusing, p, |p|, prev);
    } else {
      NoCutBetween(p, |p|, prev);
      StillDirs(now, after, p, prev, |p| - 1);
      FinalBlocked(t, after, refusing, p, errno);
    }
  }

  lemma FinalOpenSettles(t: Tree, now: Tree, after: Tree, refusing: map<Location, int>, p: string,
                         prev: int, errno: int)
    requires p != "" && 0 <= prev < |p| && forall j :: prev < j < |p| ==> p[j] != '/'
    requires OnlyPrefixes(t, now, refusing, p, |p|) && DirsUpTo(now, p, prev) && Refusals(refusing)
    requires var l := Loc(p, |p|);
             && errno == (if l in now then EEXIST else if l in refusing then refusing[l] else 0)
             && after == if errno == 0 then now[l := Dir] else now
    ensures Settled(t, after, refusing, p, errno)
  {
    assert IsCut(p, |p|);
    OneMorePrefix(t, now, after, refusing, p, |p|);
    FinalOpen(t, now, after, refusing, p, prev, errno);
  }

  lemma FinalShutSettles(t: Tree, now: Tree, refusing: map<Location, int>, p: string, prev: int, last: int, errno: int)
    requires Walking(t, now, refusing, p, |p|, prev, last) && p[0] == '/' && Refusals(refusing)
    requires errno == MkdirError(now, refusing, p, |p|) && !Allowed(errno)
    ensures Settled(t, now, refusing, p, errno)
  {
    StopMeansImpossible(t, now, refusing, p, |p|, prev, last);
    MorePrefixes(t, now, refusing, p, |p|, |p| + 1);
  }

  lemma FinalNext(t: Tree, now: Tree, after: Tree, refusing: map<Location, int>, p: string,
                  prev: int, last: int, errno: int)
    requires Walking(t, now, refusing, p, |p|, prev, last) && |p| > prev + 1 && p[0] == '/' && Refusals(refusing)
    requires errno == MkdirError(now, refusing, p, |p|)
    requires after == if errno == 0 then now[Loc(p, BaseEnd(p, |p|)) := Dir] else now
    ensures Settled(t, after, refusing, p, errno)
  {
    MkdirNext(t, now, refusing, p, |p|, prev, last);
    if Open(now, p, last) {
      OpenUpTo(t, now, refusing, p, |p|, prev, last);
      FinalOpenSettles(t, now, after, refusing, p, prev, errno);
    } else {
      FinalShutSettles(t, now, refusing, p, prev, last, errno);
    }
  }

  // ----- the function

  /** The copy of the path as a C string. */
  ghost predicate IsCopy(tmp: array<char>, path: string)
    reads tmp
  {
    tmp[..] == path + [NUL]
  }

  /** An absolute path, as a C string. */
  predicate Absolute(p: string) { p != "" && p[0] == '/' && NUL !in p }

  /**
   One slash of the walk: the copy is cut there, the directory is made, and the slash is put
   back.
   */
  method MkdirAtSlash(fs: FileSystem, tmp: array<char>, path: string, p: nat,
                      ghost t: Tree, ghost prev: int, ghost last: int)
    returns (errno: int, ghost next: int)
    requires fs.Valid() && Absolute(path) && IsCopy(tmp, path)
    requires 1 <= p < |path| && path[p] == '/'
    requires Walking(t, fs.tree, fs.refusing, path, p, prev, last)
    modifies fs, tmp
    ensures fs.Valid() && IsCopy(tmp, path)
    ensures errno == MkdirError(old(fs.tree), fs.refusing, path, p)
    ensures fs.tree == if errno == 0 then old(fs.tree)[Loc(path, p) := Dir] else old(fs.tree)
    ensures Walked(t, fs.tree, fs.refusing, path, p + 1, p, next, errno, !Allowed(errno))
  {
    ghost var now := fs.tree;
    tmp[p] := NUL;
    assert tmp[..p] == path[..p];
    assert tmp[..][..p] == path[..p];
    StringBeforeNul(tmp[..], path[..p]);
    errno := fs.Mkdir(CString(tmp[..]));
    tmp[p] := '/';
    SameMkdir(now, fs.refusing, path[..p], path, p);
    BaseLeads(path, p);
    next := AfterSlash(t, now, fs.tree, fs.refusing, path, p, prev, last);
  }

  /** One pass of the loop: nothing to do between slashes, and a directory at a slash. */
  method Pass(fs: FileSystem, tmp: array<char>, path: string, p: nat, ghost t: Tree, ghost prev: int, ghost last: int)
    returns (ret: int, err: bool, ghost slash: int, ghost next: int)
    requires fs.Valid() && Absolute(path) && IsCopy(tmp, path) && 1 <= p < |path|
    requires Walking(t, fs.tree, fs.refusing, path, p, prev, last)
    modifies fs, tmp
    ensures fs.Valid() && IsCopy(tmp, path)
    ensures Walked(t, fs.tree, fs.refusing, path, p + 1, slash, next, ret, err)
    ensures !err ==> ret == EINVAL
  {
    ret, err, slash, next := EINVAL, false, prev, last;
    if tmp[p] != '/' {
      PastOther(t, fs.tree, fs.refusing, path, p, prev, last);
    } else {
      var errno;
      errno, next := MkdirAtSlash(fs, tmp, path, p, t, prev, last);
      if errno != 0 && errno != EROFS && errno != EEXIST {
        ret, err := errno, true;
      } else {
        slash := p;
      }
    }
  }

  /** The loop over the copy of the path: a directory for every slash, until an error. */
  method Walk(fs: FileSystem, tmp: array<char>, path: string)
    returns (ret: int, err: bool, ghost prev: int, ghost last: int)
    requires fs.Valid() && Absolute(path) && IsCopy(tmp, path)
    modifies fs, tmp
    ensures fs.Valid() && IsCopy(tmp, path)
    ensures Walked(old(fs.tree), fs.tree, fs.refusing, path, |path|, prev, last, ret, err)
  {
    ghost var t := fs.tree;
    ret, err, prev, last := EINVAL, false, 0, 0;
    var p := 1;
    while tmp[p] != NUL && !err
      invariant 1 <= p <= |path| && IsCopy(tmp, path) && fs.Valid()
      invariant Walked(t, fs.tree, fs.refusing, path, p, prev, last, ret, err)
      invariant !err ==> ret == EINVAL
      decreases |path| - p, !err
    {
      ret, err, prev, last := Pass(fs, tmp, path, p, t, prev, last);
      p := p + 1;
    }
  }

  /** The loop, and the final `mkdir`. */
  method MakeAll(fs: FileSystem, path: string) returns (ret: int)
    requires fs.Valid() && Absolute(path)
    modifies fs
    ensures fs.Valid()
    ensures ret == 0 <==> Possible(old(fs.tree), fs.refusing, path) || EndsAtFile(old(fs.tree), fs.refusing, path)
    ensures ret != 0 ==> FailsAs(old(fs.tree), fs.refusing, path, ret)
    ensures IsDirPath(fs.tree, path) <==> Possible(old(fs.tree), fs.refusing, path)
    ensures OnlyPrefixes(old(fs.tree), fs.tree, fs.refusing, path, |path| + 1)
  {
    ghost var t := fs.tree;
    var tmp := new char[|path| + 1](i requires 0 <= i <= |path| => if i < |path| then path[i] else NUL);
    var err;
    ghost var prev, last;
    ret, err, prev, last := Walk(fs, tmp, path);
    MorePrefixes(t, fs.tree, fs.refusing, path, |path|, |path| + 1);
    if !err {
      ret := MakeLast(fs, tmp, path, t, prev, last);
    }
    if IsDirPath(fs.tree, path) { DirsWerePossible(t, fs.tree, fs.refusing, path); }
  }

  /** The final `mkdir`, of the whole path; that it is there already is no error. */
  method MakeLast(fs: FileSystem, tmp: array<char>, path: string, ghost t: Tree, ghost prev: int, ghost last: int)
    returns (ret: int)
    requires fs.Valid() && Absolute(path) && IsCopy(tmp, path)
    requires Walking(t, fs.tree, fs.refusing, path, |path|, prev, last)
    modifies fs
    ensures fs.Valid() && Settled(t, fs.tree, fs.refusing, path, ret)
    ensures ret != EEXIST
  {
    ghost var now := fs.tree;
    assert path[..|path|] == path && tmp[..][..|path|] == path;
    StringBeforeNul(tmp[..], path);
    var errno := fs.Mkdir(CString(tmp[..]));
    if errno != 0 {
      if errno != EEXIST { ret := errno; } else { ret := 0; }
    } else {
      ret := 0;
    }
    if |path| == prev + 1 {
      FinalAgain(t, now, fs.refusing, path, prev, last);
      MorePrefixes(t, now, fs.refusing, path, |path|, |path| + 1);
    } else {
      FinalNext(t, now, fs.tree, fs.refusing, path, prev, last, errno);
    }
  }

  /** The cuts of a path, seen from the last slash before its last component. */
  lemma DirPathByBase(t: Tree, p: string)
    requires Absolute(p) && BaseEnd(p, |p|) > 0
    ensures IsDirPath(t, p) <==> ReachError(t, p, |p|) == 0 && IsDir(t, Loc(p, |p|))
  {
    var end := BaseEnd(p, |p|);
    var i := SlashBefore(p, end);
    assert i >= 0 && (i > 0 ==> IsCut(p, i));
    EnterCuts(t, p, i);
    BaseLeads(p, |p|);
    forall c | IsCut(p, c) && c > i ensures Loc(p, c) == Loc(p, |p|) {
      SlashesStay(p, end, c);
    }
    assert IsCut(p, |p|);
  }

  lemma DirPathOfSlashes(t: Tree, p: string)
    requires Absolute(p) && BaseEnd(p, |p|) == 0
    ensures IsDirPath(t, p) <==> IsDir(t, Loc(p, |p|))
  {
    forall c | IsCut(p, c) ensures Loc(p, c) == Loc(p, 0) { SlashesStay(p, 0, c); }
    assert IsCut(p, |p|);
  }

  /** `stat` tells a directory exactly when the path leads through directories to one. */
  lemma StatTellsDir(t: Tree, p: string)
    requires Absolute(p)
    ensures Stat(t, p) == Some(Dir) <==> IsDirPath(t, p)
  {
    BaseLeads(p, |p|);
    if BaseEnd(p, |p|) == 0 {
      DirPathOfSlashes(t, p);
    } else {
      DirPathByBase(t, p);
    }
  }

  /**
   `jse_mkdir`: NULL (None) and relative paths are errors that touch nothing.  For every absolute
   path `stat` tells a directory afterwards exactly when each directory on the way is one already
   or can be made; only directories that are prefixes of the path are added, nothing else changes,
   and everything stays below directories.  The result is 0 exactly in that case, or when
   `stat` failed and yet the last component is a file: its name has a slash at its end, or the
   way to it has just been made.  A file that `stat` tells gives ENOTDIR; otherwise the first cut
   that is not good fixes the errno.
   */
  method JseMkdir(fs: FileSystem, arg: Option<string>) returns (ret: int)
    requires fs.Valid()
    requires arg.Some? ==> NUL !in arg.value
    modifies fs
    ensures fs.Valid()
    ensures arg.None? ==> ret == EINVAL && fs.tree == old(fs.tree)
    ensures arg.Some? && (arg.value == "" || arg.value[0] != '/') ==> ret == EPERM && fs.tree == old(fs.tree)
    ensures arg.Some? && Absolute(arg.value) ==>
      && (Stat(fs.tree, arg.value) == Some(Dir) <==> Possible(old(fs.tree), fs.refusing, arg.value))
      && (ret == 0 <==>
            || Possible(old(fs.tree), fs.refusing, arg.value)
            || (Stat(old(fs.tree), arg.value).None? && EndsAtFile(old(fs.tree), fs.refusing, arg.value)))
      && (Stat(old(fs.tree), arg.value) == Some(File) ==> ret == ENOTDIR)
      && (Stat(old(fs.tree), arg.value).None? && ret != 0 ==> FailsAs(old(fs.tree), fs.refusing, arg.value, ret))
      && OnlyPrefixes(old(fs.tree), fs.tree, fs.refusing, arg.value, |arg.value| + 1)
  {
    ret := EINVAL;
    if arg.None? { return; }
    var path := arg.value;
    if path == "" || path[0] != '/' { return EPERM; }
    var kind := Stat(fs.tree, path);
    if kind.Some? {
      ret := if kind.value == Dir then 0 else ENOTDIR;
      ExistingPath(fs.tree, fs.refusing, path);
    } else {
      ret := MakeAll(fs, path);
    }
    StatTellsDir(fs.tree, path);
  }

  lemma ExistingPath(t: Tree, refusing: map<Location, int>, p: string)
    requires WellFounded(t) && Absolute(p) && Stat(t, p).Some?
    ensures Stat(t, p).value == Dir <==> Possible(t, refusing, p)
    ensures Stat(t, p).value == Dir <==> IsDirPath(t, p)
  {
    StatTellsDir(t, p);
    BaseLeads(p, |p|);
    assert IsCut(p, |p|);
    if Stat(t, p).value == Dir { DirsWerePossible(t, t, refusing, p); }
  }

  // ----- when 0 means a directory

  /** The characters from i up to j stand between two slashes, or a slash and the end. */
  ghost predicate IsComponent(p: string, i: int, j: int) {
    1 <= i <= j <= |p| && p[i - 1] == '/' && (j == |p| || p[j] == '/')
  }

  /** No component of the path is "..". */
  ghost predicate NeverUp(p: string) {
    forall i, j :: IsComponent(p, i, j) ==> !IsUp(p, i, j)
  }

  lemma {:induction false} CutsAboveExist(t: Tree, p: string, k: int, c: int)
    requires WellFounded(t) && Absolute(p) && NeverUp(p) && IsCut(p, k) && IsCut(p, c) && c <= k
    requires Loc(p, k) in t
    ensures Loc(p, c) in t
    decreases k
  {
    if c < k {
      var i := SlashBefore(p, k);
      assert IsComponent(p, i + 1, k);
      assert Loc(p, k) == Loc(p, i) || Above(Loc(p, k)) == Loc(p, i);
      CutsAboveExist(t, p, i, c);
    }
  }

  /**
   For a path without ".." and without a slash at its end, `stat` does not fail when the last
   component is a file, so that `jse_mkdir` gives 0 only for a directory.
   */
  lemma PlainPath(t: Tree, refusing: map<Location, int>, p: string)
    requires WellFounded(t) && Absolute(p) && NeverUp(p) && p[|p| - 1] != '/'
    ensures !(Stat(t, p).None? && EndsAtFile(t, refusing, p))
  {
    if EndsAtFile(t, refusing, p) {
      var i := SlashBefore(p, |p|);
      assert IsCut(p, |p|);
      forall c | IsCut(p, c) && c <= i ensures IsDir(t, Loc(p, c)) {
        CutsAboveExist(t, p, |p|, c);
        assert CutGood(t, refusing, p, c);
      }
      if i > 0 { assert IsCut(p, i); }
      EnterCuts(t, p, i);
    }
  }

  /** The name of any file with a slash at its end makes `jse_mkdir` give 0, and nothing is a directory. */
  lemma SlashOnFile(t: Tree, refusing: map<Location, int>, p: string)
    requires WellFounded(t) && Absolute(p) && p[|p| - 1] != '/' && Stat(t, p) == Some(File)
    ensures Stat(t, p + "/").None? && EndsAtFile(t, refusing, p + "/")
    ensures !Possible(t, refusing, p + "/")
  {
    var s := p + "/";
    assert s[..|p|] == p && BaseEnd(s, |p|) == |p|;
    SlashesStay(s, |p|, |s|);
    EndStays(s, |p|, |s|);
    SameLoc(p, s, |p|);
    SameSlash(p, s, |p|);
    var i := SlashBefore(p, |p|);
    SameEnter(t, p, s, i);
    assert i > 0 ==> IsCut(s, i);
    EnterCuts(t, s, i);
    NoCutBetween(s, |p|, i);
    forall c | IsCut(s, c) && c < |p| ensures CutGood(t, refusing, s, c) {
      assert IsDir(t, Loc(s, c));
    }
    assert IsCut(s, |s|) && !CutGood(t, refusing, s, |s|);
  }

  lemma UpFromNewPlaces(p: string)
    requires p == "/n/../f"
    ensures Loc(p, 2) == In(Root, "n") && Loc(p, 5) == Root && Loc(p, 7) == In(Root, "f")
  {
    SlashIs(p, 2, 0);
    SlashIs(p, 5, 2);
    SlashIs(p, 7, 5);
    assert p[1..2] == "n" && p[3..5] == ".." && p[6..7] == "f";
  }

  lemma UpFromNewCuts(p: string, c: int)
    requires p == "/n/../f" && IsCut(p, c)
    ensures c == 2 || c == 5 || c == 7
  {
    assert p[1] == 'n' && p[3] == '.' && p[4] == '.' && p[6] == 'f';
  }

  lemma UpFromNewEnd(p: string)
    requires p == "/n/../f"
    ensures Absolute(p) && BaseEnd(p, 7) == 7 && SlashBefore(p, 7) == 5
  {
    assert p[5] == '/' && p[6] == 'f';
    SlashIs(p, 7, 5);
  }

  /**
   A ".." out of a directory that is made on the way: with nothing but a file "f" at the root,
   `jse_mkdir` of "/n/../f" makes "/n" and gives 0, and "f" is the file it was.
   */
  lemma UpFromNew(t: Tree, p: string)
    requires t == map[Root := Dir, In(Root, "f") := File] && p == "/n/../f"
    ensures WellFounded(t) && Absolute(p)
    ensures Stat(t, p).None? && EndsAtFile(t, map[], p) && !Possible(t, map[], p)
  {
    UpFromNewPlaces(p);
    assert |p| == 7 && IsCut(p, 7) && IsCut(p, 5) && IsCut(p, 2);
    UpFromNewEnd(p);
    EnterCuts(t, p, 5);
    assert !IsDir(t, Loc(p, 2)) && !CutGood(t, map[], p, 7);
    forall c | IsCut(p, c) && c < 7 ensures CutGood(t, map[], p, c) {
      UpFromNewCuts(p, c);
    }
  }
}
