/**
 The template scanner (examples/templates/template.js): text is printed and what stands
 between the two tags is evaluated.  `eval` is an emitted action here; it does not touch
 the scanner's variables.
 */
module Template {
  import opened Basics

  datatype Action = Print(text: string) | Eval(code: string)

  predicate Occurs(s: string, a: char, b: char, j: int) {
    0 <= j && j + 1 < |s| && s[j] == a && s[j + 1] == b
  }

  /** JavaScript's `indexOf` of a two-character tag from a start position. */
  function IndexOf(s: string, a: char, b: char, from: nat): (p: int)
    ensures p == -1 || (from <= p && p + 2 <= |s|)
    decreases |s| - from
  {
    if from + 2 > |s| then -1
    else if s[from] == a && s[from + 1] == b then from
    else IndexOf(s, a, b, from + 1)
  }

  /** It is a place of the tag, no earlier one from the start is, and -1 means there is none. */
  lemma {:induction false} IndexOfIsFirst(s: string, a: char, b: char, from: nat)
    ensures var p := IndexOf(s, a, b, from);
            && (p != -1 ==> Occurs(s, a, b, p))
            && (forall j :: from <= j && (p == -1 || j < p) ==> !Occurs(s, a, b, j))
    decreases |s| - from
  {
    if from + 2 <= |s| && !(s[from] == a && s[from + 1] == b) {
      IndexOfIsFirst(s, a, b, from + 1);
    }
  }

  lemma IndexOfIs(s: string, a: char, b: char, from: nat, p: nat)
    requires from <= p && Occurs(s, a, b, p)
    requires forall j :: from <= j < p ==> !Occurs(s, a, b, j)
    ensures IndexOf(s, a, b, from) == p
  {
    IndexOfIsFirst(s, a, b, from);
  }

  /** JavaScript's `slice` to the end; a start past the end gives the empty string. */
  function Rest(s: string, from: nat): string { if from <= |s| then s[from..] else "" }

  // ----- one pass of the loop, as the code has it

  /** The last text, a text and a closed tag, or a text and a tag that is not closed. */
  datatype Pass =
    | Last(text: string)
    | Tag(text: string, code: string, idx1: nat)
    | OpenTag(text: string, code: string)
  {
    function Acts(): seq<Action> {
      if Last? then [Print(text)] else [Print(text), Eval(code)]
    }
  }

  /** Where the pass after an unclosed tag starts: `idx1` is -1 and the tag is skipped. */
  const RESTART := 1

  function OnePass(s: string, idx1: nat): (pass: Pass)
    ensures pass.Tag? ==> idx1 < pass.idx1 <= |s|
    ensures pass.OpenTag? ==> |s| >= 2
  {
    var p := IndexOf(s, '<', '?', idx1);
    if p == -1 then Last(Rest(s, idx1))
    else
      var q := IndexOf(s, '?', '>', p + 2);
      if q == -1 then OpenTag(s[idx1..p], Rest(s, p + 2))
      else Tag(s[idx1..p], s[p + 2..q], q + 2)
  }

  /** Every tag that a scan from a position opens is closed. */
  predicate Closed(s: string, from: nat)
    decreases |s| - from
  {
    match OnePass(s, from)
    case Last(_) => true
    case OpenTag(_, _) => false
    case Tag(_, _, next) => Closed(s, next)
  }

  /** The actions of a scan from a position up to its end or up to an unclosed tag. */
  function Scan(s: string, from: nat): seq<Action>
    decreases |s| - from
  {
    var pass := OnePass(s, from);
    if pass.Tag? then pass.Acts() + Scan(s, pass.idx1) else pass.Acts()
  }

  // ----- termination

  /** The loop, started at a position, ends after at most n passes. */
  predicate EndsWithin(s: string, from: nat, n: nat)
    decreases n
  {
    n > 0 &&
    match OnePass(s, from)
    case Last(_) => true
    case OpenTag(_, _) => EndsWithin(s, RESTART, n - 1)
    case Tag(_, _, next) => EndsWithin(s, next, n - 1)
  }

  ghost predicate Ends(s: string, from: nat) { exists n: nat :: EndsWithin(s, from, n) }

  lemma {:induction false} ClosedEnds(s: string, from: nat) returns (n: nat)
    requires Closed(s, from)
    ensures EndsWithin(s, from, n)
    decreases |s| - from
  {
    n := 1;
    if OnePass(s, from).Tag? {
      n := ClosedEnds(s, OnePass(s, from).idx1);
      n := n + 1;
    }
  }

  /** A scan that meets an unclosed tag goes on from position 1. */
  lemma {:induction false} UnclosedRestarts(s: string, from: nat, n: nat) returns (m: nat)
    requires !Closed(s, from) && EndsWithin(s, RESTART, n)
    ensures EndsWithin(s, from, m)
    decreases |s| - from
  {
    m := n + 1;
    if OnePass(s, from).Tag? {
      m := UnclosedRestarts(s, OnePass(s, from).idx1, n);
      m := m + 1;
    }
  }

  lemma {:induction false} UnclosedNeverEnds(s: string, from: nat, n: nat)
    requires !Closed(s, from) && !Closed(s, RESTART)
    ensures !EndsWithin(s, from, n)
    decreases n
  {
    if n > 0 {
      UnclosedNeverEnds(s, if OnePass(s, from).Tag? then OnePass(s, from).idx1 else RESTART, n - 1);
    }
  }

  /**
   Termination, exactly: the scanner ends if and only if every tag opened by a scan from the
   start of the source is closed, or every tag opened by a scan from its second character is.
   */
  lemma Termination(s: string)
    ensures Ends(s, 0) <==> Closed(s, 0) || Closed(s, RESTART)
  {
    if Closed(s, 0) {
      var n := ClosedEnds(s, 0);
    } else if Closed(s, RESTART) {
      var n := ClosedEnds(s, RESTART);
      var m := UnclosedRestarts(s, 0, n);
    } else {
      forall n: nat ensures !EndsWithin(s, 0, n) { UnclosedNeverEnds(s, 0, n); }
    }
  }

  /** An opened tag that is never closed: the loop evaluates the same text for ever. */
  lemma UnclosedTagExample()
    ensures !Ends(" <?x", 0)
  {
    assert OnePass(" <?x", RESTART).OpenTag? && OnePass(" <?x", 0).OpenTag? by {
      IndexOfIs(" <?x", '<', '?', 0, 1);
    }
    Termination(" <?x");
  }

  // ----- the loop

  /** Everything that the scanner emits for a source that it gets through. */
  function Emission(s: string): seq<Action> {
    if Closed(s, 0) then Scan(s, 0) else Scan(s, 0) + Scan(s, RESTART)
  }

  /** What is still to be emitted from a position, before or after the restart. */
  function Left(s: string, from: nat, restarted: bool): seq<Action> {
    Scan(s, from) + if restarted || Closed(s, 0) then [] else Scan(s, RESTART)
  }

  lemma LeftAfterPass(s: string, from: nat, restarted: bool)
    requires Closed(s, from) <==> restarted || Closed(s, 0)
    ensures var pass := OnePass(s, from);
            && (pass.OpenTag? ==> !restarted)
            && Left(s, from, restarted) == pass.Acts() +
                 match pass
                 case Last(_) => []
                 case OpenTag(_, _) => Left(s, RESTART, true)
                 case Tag(_, _, next) => Left(s, next, restarted)
  {
    var after := if restarted || Closed(s, 0) then [] else Scan(s, RESTART);
    var pass := OnePass(s, from);
    match pass
    case Last(_) => assert pass.Acts() + [] == pass.Acts();
    case OpenTag(_, _) => assert Scan(s, RESTART) + [] == Scan(s, RESTART);
    case Tag(_, _, next) => Regroup(pass.Acts(), Scan(s, next), after);
  }

  /**
   The scanner's loop.  On every source for which it ends it emits the actions of the scan,
   followed, when a tag was left open, by those of a second scan from position 1.
   */
  method RunTemplate(source: string) returns (out: seq<Action>)
    requires Closed(source, 0) || Closed(source, RESTART)
    ensures out == Emission(source)
  {
    out := [];
    var idx1: nat := 0;
    var idx2 := 0;
    ghost var restarted, left := false, Left(source, idx1, false);
    while idx2 != -1
      invariant Emission(source) == out + left
      invariant left == if idx2 == -1 then [] else Left(source, idx1, restarted)
      invariant Closed(source, idx1) <==> restarted || Closed(source, 0)
      decreases !restarted, |source| - idx1, idx2 != -1
    {
      LeftAfterPass(source, idx1, restarted);
      ghost var before, pass := out, OnePass(source, idx1);
      var acts;
      acts, idx1, idx2 := LoopBody(source, idx1);
      out := out + acts;
      restarted := restarted || pass.OpenTag?;
      left := if idx2 == -1 then [] else Left(source, idx1, restarted);
      Regroup(before, acts, left);
    }
  }

  /** The body of the loop: the prints and evaluations of one pass and the new indices. */
  method LoopBody(source: string, start: nat) returns (acts: seq<Action>, idx1: nat, idx2: int)
    ensures acts == OnePass(source, start).Acts()
    ensures idx2 == -1 <==> OnePass(source, start).Last?
    ensures idx1 == match OnePass(source, start)
                    case Last(_) => start
                    case OpenTag(_, _) => RESTART
                    case Tag(_, _, next) => next
  {
    acts, idx1 := [], start;
    idx2 := IndexOf(source, '<', '?', idx1);
    if idx2 != -1 {
      acts := acts + [Print(source[idx1..idx2])];
      idx2 := idx2 + 2;
      var close := IndexOf(source, '?', '>', idx2);
      if close != -1 {
        acts := acts + [Eval(source[idx2..close])];
      } else {
        acts := acts + [Eval(Rest(source, idx2))];
      }
      idx1 := close + 2;
    } else {
      acts := acts + [Print(Rest(source, idx1))];
    }
  }

  // ----- sources and segments

  /** A template: text segments, each but the last followed by a code segment. */
  datatype Segments = Final(text: string) | Segment(text: string, code: string, rest: Segments)

  function Render(t: Segments): string {
    match t
    case Final(text) => text
    case Segment(text, code, rest) => text + "<?" + code + "?>" + Render(rest)
  }

  function ActionsOf(t: Segments): seq<Action> {
    match t
    case Final(text) => [Print(text)]
    case Segment(text, code, rest) => [Print(text), Eval(code)] + ActionsOf(rest)
  }

  ghost predicate Free(s: string, a: char, b: char) { forall j :: !Occurs(s, a, b, j) }

  /** No text contains the opening tag and no code the closing tag. */
  ghost predicate Clean(t: Segments) {
    match t
    case Final(text) => Free(text, '<', '?')
    case Segment(text, code, rest) => Free(text, '<', '?') && Free(code, '?', '>') && Clean(rest)
  }

  /** Text without the tag, then the tag: a search from the start of the text finds that tag. */
  lemma FindsTagAfter(s: string, a: char, b: char, from: nat, text: string)
    requires a != b && Free(text, a, b)
    requires from + |text| + 2 <= |s| && s[from..from + |text|] == text
    requires s[from + |text|] == a && s[from + |text| + 1] == b
    ensures IndexOf(s, a, b, from) == from + |text|
  {
    forall j | from <= j < from + |text| ensures !Occurs(s, a, b, j) {
      assert s[j] == text[j - from];
      assert !Occurs(text, a, b, j - from);
      assert j + 1 < from + |text| ==> s[j + 1] == text[j + 1 - from];
    }
    IndexOfIs(s, a, b, from, from + |text|);
  }

  lemma FindsNoTag(s: string, a: char, b: char, from: nat)
    requires from <= |s| && Free(s[from..], a, b)
    ensures IndexOf(s, a, b, from) == -1
  {
    IndexOfIsFirst(s, a, b, from);
    forall j | from <= j ensures !Occurs(s, a, b, j) {
      assert !Occurs(s[from..], a, b, j - from);
    }
  }

  /** One clean segment, wherever it stands, is one pass of the scanner. */
  lemma PassOfSegment(s: string, at: nat, text: string, code: string)
    requires Free(text, '<', '?') && Free(code, '?', '>')
    requires at + |text| + 2 + |code| + 2 <= |s|
    requires s[at..at + |text|] == text && Occurs(s, '<', '?', at + |text|)
    requires s[at + |text| + 2..at + |text| + 2 + |code|] == code
    requires Occurs(s, '?', '>', at + |text| + 2 + |code|)
    ensures OnePass(s, at) == Tag(text, code, at + |text| + 2 + |code| + 2)
  {
    FindsTagAfter(s, '<', '?', at, text);
    FindsTagAfter(s, '?', '>', at + |text| + 2, code);
  }

  lemma SegmentStandsAt(s: string, at: nat, text: string, code: string, more: string)
    requires at <= |s| && s[at..] == text + "<?" + code + "?>" + more
    ensures var open := at + |text| + 2;
            && open + |code| + 2 <= |s|
            && s[at..at + |text|] == text && Occurs(s, '<', '?', at + |text|)
            && s[open..open + |code|] == code && Occurs(s, '?', '>', open + |code|)
            && s[open + |code| + 2..] == more
  {
    var tail := s[at..];
    assert forall i :: at <= i < |s| ==> s[i] == tail[i - at];
  }

  lemma PassOfRendered(s: string, at: nat, t: Segments)
    requires at <= |s| && s[at..] == Render(t) && Clean(t)
    ensures match t
            case Final(text) => OnePass(s, at) == Last(text)
            case Segment(text, code, rest) =>
              var next := at + |text| + 2 + |code| + 2;
              OnePass(s, at) == Tag(text, code, next) && next <= |s| && s[next..] == Render(rest)
  {
    match t
    case Final(text) => FindsNoTag(s, '<', '?', at);
    case Segment(text, code, rest) =>
      SegmentStandsAt(s, at, text, code, Render(rest));
      PassOfSegment(s, at, text, code);
  }

  /** The passes of a scan from a position are the segments, one after the other. */
  ghost predicate ScansAs(s: string, at: nat, t: Segments)
    decreases t
  {
    match t
    case Final(text) => OnePass(s, at) == Last(text)
    case Segment(text, code, rest) =>
      var next := at + |text| + 2 + |code| + 2;
      OnePass(s, at) == Tag(text, code, next) && ScansAs(s, next, rest)
  }

  lemma {:induction false} RenderedScansAs(s: string, at: nat, t: Segments)
    requires at <= |s| && s[at..] == Render(t) && Clean(t)
    ensures ScansAs(s, at, t)
    decreases t
  {
    PassOfRendered(s, at, t);
    if t.Segment? {
      RenderedScansAs(s, at + |t.text| + 2 + |t.code| + 2, t.rest);
    }
  }

  lemma {:induction false} ScanOfSegments(s: string, at: nat, t: Segments)
    requires ScansAs(s, at, t)
    ensures Closed(s, at) && Scan(s, at) == ActionsOf(t)
    decreases t
  {
    if t.Segment? {
      ScanOfSegments(s, at + |t.text| + 2 + |t.code| + 2, t.rest);
    }
  }

  /**
   Round trip from segments: rendering clean segments and scanning the source emits exactly
   those prints and evaluations, in order, and every tag is closed.
   */
  lemma RenderThenScan(t: Segments)
    requires Clean(t)
    ensures Closed(Render(t), 0) && Emission(Render(t)) == ActionsOf(t)
  {
    RenderedScansAs(Render(t), 0, t);
    ScanOfSegments(Render(t), 0, t);
  }

  function Parse(s: string, from: nat): Segments
    requires Closed(s, from)
    decreases |s| - from
  {
    match OnePass(s, from)
    case Last(text) => Final(text)
    case Tag(text, code, next) => Segment(text, code, Parse(s, next))
  }

  lemma PieceIsFree(s: string, a: char, b: char, from: nat, to: nat)
    requires from <= to <= |s| && forall j :: from <= j < to ==> !Occurs(s, a, b, j)
    ensures Free(s[from..to], a, b)
  {
    forall j ensures !Occurs(s[from..to], a, b, j) {
      assert Occurs(s[from..to], a, b, j) ==> Occurs(s, a, b, from + j);
    }
  }

  /** The pieces of one pass are clean and, with their tags, are the source up to the next start. */
  lemma PassIsExact(s: string, from: nat)
    requires from <= |s|
    ensures match OnePass(s, from)
            case Last(text) => s[from..] == text && Free(text, '<', '?')
            case OpenTag(text, code) =>
              && Free(text, '<', '?') && Free(code, '?', '>')
              && s[from..] == text + "<?" + code
            case Tag(text, code, next) =>
              && Free(text, '<', '?') && Free(code, '?', '>')
              && s[from..] == text + "<?" + code + "?>" + s[next..]
  {
    var p := IndexOf(s, '<', '?', from);
    PieceBefore(s, '<', '?', from);
    if p != -1 {
      PieceBefore(s, '?', '>', p + 2);
      var q := IndexOf(s, '?', '>', p + 2);
      IndexOfIsFirst(s, '<', '?', from);
      if q == -1 {
        OpenPiecesJoin(s, from, p);
      } else {
        IndexOfIsFirst(s, '?', '>', p + 2);
        PiecesJoin(s, from, p, q);
      }
    }
  }

  /** What lies before a tag that was found, or to the end, does not contain it. */
  lemma PieceBefore(s: string, a: char, b: char, from: nat)
    requires from <= |s|
    ensures var p := IndexOf(s, a, b, from);
            if p == -1 then Free(s[from..], a, b) else Free(s[from..p], a, b)
  {
    IndexOfIsFirst(s, a, b, from);
    var p := IndexOf(s, a, b, from);
    PieceIsFree(s, a, b, from, if p == -1 then |s| else p);
    assert s[from..|s|] == s[from..];
  }

  lemma OpenPiecesJoin(s: string, from: nat, p: nat)
    requires from <= p && Occurs(s, '<', '?', p)
    ensures s[from..] == s[from..p] + "<?" + s[p + 2..]
  {}

  lemma PiecesJoin(s: string, from: nat, p: nat, q: nat)
    requires from <= p && p + 2 <= q && Occurs(s, '<', '?', p) && Occurs(s, '?', '>', q)
    ensures s[from..] == s[from..p] + "<?" + s[p + 2..q] + "?>" + s[q + 2..]
  {}

  lemma {:induction false} ScanThenRenderFrom(s: string, from: nat)
    requires from <= |s| && Closed(s, from)
    ensures Render(Parse(s, from)) == s[from..] && Clean(Parse(s, from))
    ensures ActionsOf(Parse(s, from)) == Scan(s, from)
    decreases |s| - from
  {
    PassIsExact(s, from);
    if OnePass(s, from).Tag? { ScanThenRenderFrom(s, OnePass(s, from).idx1); }
  }

  /**
   Conservation: the segments emitted from a source whose tags are closed are clean, and
   with their tags put back they are the source.
   */
  lemma ScanThenRender(s: string)
    requires Closed(s, 0)
    ensures Render(Parse(s, 0)) == s && Clean(Parse(s, 0)) && ActionsOf(Parse(s, 0)) == Emission(s)
  {
    ScanThenRenderFrom(s, 0);
  }

  // ----- what is emitted, literally

  /** A source without a tag is printed. */
  lemma EmissionOfText(text: string)
    requires Free(text, '<', '?')
    ensures Emission(text) == [Print(text)]
  {
    RenderThenScan(Final(text));
  }

  /** A text, a closed tag, and any source whose tags are closed: print, evaluation, and the source's own. */
  lemma EmissionOfTag(text: string, code: string, s: string)
    requires Free(text, '<', '?') && Free(code, '?', '>') && Closed(s, 0)
    ensures Closed(text + "<?" + code + "?>" + s, 0)
    ensures Emission(text + "<?" + code + "?>" + s) == [Print(text), Eval(code)] + Emission(s)
  {
    ScanThenRender(s);
    RenderThenScan(Segment(text, code, Parse(s, 0)));
  }

  /**
   A tag at the start that is never closed: nothing is printed, the code is evaluated, and the
   second scan prints the source without its first character.
   */
  lemma EmissionOfOpenTag(code: string)
    requires Free(code, '?', '>') && Free(code, '<', '?')
    ensures !Closed("<?" + code, 0) && Closed("<?" + code, RESTART)
    ensures Emission("<?" + code) == [Print(""), Eval(code), Print("?" + code)]
  {
    var s := "<?" + code;
    assert Occurs(s, '<', '?', 0);
    IndexOfIs(s, '<', '?', 0, 0);
    assert s[2..] == code && s[1..] == "?" + code && s[0..0] == "";
    FindsNoTag(s, '?', '>', 2);
    forall j ensures !Occurs(s[1..], '<', '?', j) {
      assert j > 0 ==> (Occurs(s[1..], '<', '?', j) ==> Occurs(code, '<', '?', j - 1));
    }
    FindsNoTag(s, '<', '?', 1);
    assert OnePass(s, 0) == OpenTag("", code) && OnePass(s, RESTART) == Last("?" + code);
  }

  // ----- the condition for termination, as a property of the source text

  /** The text is clean segments with their tags. */
  ghost predicate WellTagged(s: string) { exists t :: Clean(t) && Render(t) == s }

  /** The tags that a scan opens are all closed if and only if what it scans is well tagged. */
  lemma ClosedIsWellTagged(s: string, from: nat)
    requires from <= |s|
    ensures Closed(s, from) <==> WellTagged(s[from..])
  {
    if Closed(s, from) {
      ScanThenRenderFrom(s, from);
      assert Clean(Parse(s, from));
    }
    if t :| Clean(t) && Render(t) == s[from..] {
      RenderedScansAs(s, from, t);
      ScanOfSegments(s, from, t);
    }
  }

  /**
   Termination, as a property of the source text alone: the loop ends if and only if the
   source, or the source without its first character, is well tagged.
   */
  lemma TerminationInText(s: string)
    ensures Ends(s, 0) <==> WellTagged(s) || WellTagged(Rest(s, RESTART))
  {
    Termination(s);
    ClosedIsWellTagged(s, 0);
    assert s[0..] == s;
    if s == "" {
      assert OnePass(s, RESTART).Last? && OnePass(s, 0).Last?;
    } else {
      ClosedIsWellTagged(s, RESTART);
    }
  }

  lemma {:induction false} ActionsDetermineSegments(a: Segments, b: Segments)
    requires ActionsOf(a) == ActionsOf(b)
    ensures a == b
  {
    assert ActionsOf(a)[0] == ActionsOf(b)[0];
    if a.Segment? && b.Segment? {
      assert ActionsOf(a)[1] == ActionsOf(b)[1];
      assert ActionsOf(a.rest) == ActionsOf(a)[2..] == ActionsOf(b)[2..] == ActionsOf(b.rest);
      ActionsDetermineSegments(a.rest, b.rest);
    }
  }

  /** Two sources with closed tags that emit the same actions are the same source. */
  lemma EmissionDeterminesSource(s: string, s': string)
    requires Closed(s, 0) && Closed(s', 0) && Emission(s) == Emission(s')
    ensures s == s'
  {
    ScanThenRender(s);
    ScanThenRender(s');
    ActionsDetermineSegments(Parse(s, 0), Parse(s', 0));
  }
}
