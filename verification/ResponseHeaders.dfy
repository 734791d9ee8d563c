/**
 The list of response headers (source/jse_main.c:218-298, 439-454, 954-1024): a linked list
 that is searched without regard to case, changed in place and emptied into the response.
 */
module ResponseHeaders {

  datatype Header = Header(name: string, value: string)

  function Lower(c: char): char {
    if 'A' <= c <= 'Z' then 'a' + (c - 'A') else c
  }

  /** What `strcasecmp` compares. */
  function Fold(s: string): string {
    seq(|s|, i requires 0 <= i < |s| => Lower(s[i]))
  }

  // ----- names but for case

  /** Equal, or the two cases of one of the 26 letters. */
  predicate SameLetter(c: char, d: char) {
    || c == d
    || ('A' <= c <= 'Z' && d as int == c as int + 32)
    || ('A' <= d <= 'Z' && c as int == d as int + 32)
  }

  predicate SameName(a: string, b: string) {
    |a| == |b| && forall i :: 0 <= i < |a| ==> SameLetter(a[i], b[i])
  }

  /** Folding is exactly forgetting the case. */
  lemma FoldTells(a: string, b: string)
    ensures Fold(a) == Fold(b) <==> SameName(a, b)
  {
    if SameName(a, b) {
      forall i | 0 <= i < |a| ensures Fold(a)[i] == Fold(b)[i] {
        assert SameLetter(a[i], b[i]);
      }
    } else if |a| == |b| {
      var i :| 0 <= i < |a| && !SameLetter(a[i], b[i]);
      assert Fold(a)[i] != Fold(b)[i];
    }
  }

  /** `header_validate`: the three names that the response assembly emits itself. */
  predicate Allowed(name: string) {
    Fold(name) != "status" && Fold(name) != "set-cookie" && Fold(name) != "content-type"
  }

  // ----- the list as a sequence

  /** `header_set`: replace in place the entry of that name, or append. */
  function SetHeader(hs: seq<Header>, h: Header): seq<Header> {
    if hs == [] then [h]
    else if Fold(hs[0].name) == Fold(h.name) then [h] + hs[1..]
    else [hs[0]] + SetHeader(hs[1..], h)
  }

  function SetAll(calls: seq<Header>): seq<Header> {
    if calls == [] then [] else SetHeader(SetAll(calls[..|calls| - 1]), calls[|calls| - 1])
  }

  /** The names set, folded, each where it was set first. */
  function Names(calls: seq<Header>): seq<string> {
    if calls == [] then []
    else
      var before, name := Names(calls[..|calls| - 1]), Fold(calls[|calls| - 1].name);
      if name in before then before else before + [name]
  }

  /** The last call with a folded name. */
  function LastCall(calls: seq<Header>, name: string): Header
    requires name in Names(calls)
  {
    var n := |calls| - 1;
    if Fold(calls[n].name) == name then calls[n] else LastCall(calls[..n], name)
  }

  ghost predicate DistinctNames(hs: seq<Header>) {
    forall i, j :: 0 <= i < j < |hs| ==> !SameName(hs[i].name, hs[j].name)
  }

  ghost predicate DistinctFolds(hs: seq<Header>) {
    forall i, j :: 0 <= i < j < |hs| ==> Fold(hs[i].name) != Fold(hs[j].name)
  }

  lemma DistinctEitherWay(hs: seq<Header>)
    ensures DistinctNames(hs) <==> DistinctFolds(hs)
  {
    forall i, j | 0 <= i < j < |hs|
      ensures SameName(hs[i].name, hs[j].name) <==> Fold(hs[i].name) == Fold(hs[j].name)
    {
      FoldTells(hs[i].name, hs[j].name);
    }
  }

  /** The three names, in any case, are the ones that are refused. */
  lemma AllowedIs(name: string)
    ensures Allowed(name) <==>
            !SameName(name, "Status") && !SameName(name, "Set-Cookie") && !SameName(name, "Content-Type")
  {
    FoldedNames();
    FoldTells(name, "Status");
    FoldTells(name, "Set-Cookie");
    FoldTells(name, "Content-Type");
  }

  lemma FoldedNames()
    ensures Fold("Status") == "status" && Fold("Set-Cookie") == "set-cookie"
    ensures Fold("Content-Type") == "content-type"
  {}

  lemma {:induction false} SetAt(hs: seq<Header>, h: Header, pos: nat)
    requires pos < |hs| && Fold(hs[pos].name) == Fold(h.name)
    requires forall i :: 0 <= i < pos ==> Fold(hs[i].name) != Fold(h.name)
    ensures SetHeader(hs, h) == hs[pos := h]
  {
    if pos > 0 {
      SetAt(hs[1..], h, pos - 1);
      assert hs == [hs[0]] + hs[1..];
    }
  }

  lemma {:induction false} SetNew(hs: seq<Header>, h: Header)
    requires forall i :: 0 <= i < |hs| ==> Fold(hs[i].name) != Fold(h.name)
    ensures SetHeader(hs, h) == hs + [h]
  {
    if hs != [] {
      SetNew(hs[1..], h);
      assert hs + [h] == [hs[0]] + (hs[1..] + [h]);
    }
  }

  /** The entries, one for each name, in the order of `Names`. */
  lemma {:induction false} EntryOfEachName(calls: seq<Header>)
    ensures |SetAll(calls)| == |Names(calls)|
    ensures forall i :: 0 <= i < |Names(calls)| ==> SetAll(calls)[i] == LastCall(calls, Names(calls)[i])
    ensures forall i :: 0 <= i < |Names(calls)| ==> Fold(SetAll(calls)[i].name) == Names(calls)[i]
    ensures DistinctFolds(SetAll(calls))
  {
    if calls != [] {
      var n := |calls| - 1;
      EntryOfEachName(calls[..n]);
      var before, hs, h := Names(calls[..n]), SetAll(calls[..n]), calls[n];
      if Fold(h.name) in before {
        var k :| 0 <= k < |before| && before[k] == Fold(h.name);
        assert Fold(hs[k].name) == before[k];
        SetAt(hs, h, k);
      } else {
        forall i | 0 <= i < |hs| ensures Fold(hs[i].name) != Fold(h.name) {
          assert Fold(hs[i].name) == before[i];
        }
        SetNew(hs, h);
      }
    }
  }

  lemma {:induction false} NameHasCall(calls: seq<Header>, name: string)
    ensures name in Names(calls) <==> exists k :: 0 <= k < |calls| && Fold(calls[k].name) == name
  {
    if calls != [] {
      var n := |calls| - 1;
      NameHasCall(calls[..n], name);
      assert forall k :: 0 <= k < n ==> calls[..n][k] == calls[k];
    }
  }

  /** The name that the last call adds has no earlier call. */
  lemma NewNameIsLast(calls: seq<Header>, j: nat, b: nat)
    requires b < |calls| && j < |Names(calls)| && Fold(calls[b].name) == Names(calls)[j]
    ensures j < |Names(calls[..|calls| - 1])| || b == |calls| - 1
  {
    var n := |calls| - 1;
    NameHasCall(calls[..n], Names(calls)[j]);
    assert forall k :: 0 <= k < n ==> calls[..n][k] == calls[k];
  }

  /** A name that stands earlier was called before any call of a name that stands later. */
  lemma {:induction false} NamesInOrder(calls: seq<Header>, i: nat, j: nat, b: nat)
    requires i < j < |Names(calls)| && b < |calls| && Fold(calls[b].name) == Names(calls)[j]
    ensures exists a :: 0 <= a < b && Fold(calls[a].name) == Names(calls)[i]
  {
    var n := |calls| - 1;
    var before := Names(calls[..n]);
    assert i < |before| && before[i] == Names(calls)[i];
    if b < n && j < |before| {
      NamesInOrder(calls[..n], i, j, b);
      var a :| 0 <= a < b && Fold(calls[..n][a].name) == before[i];
      assert calls[a] == calls[..n][a];
    } else {
      NewNameIsLast(calls, j, b);
      NameHasCall(calls[..n], before[i]);
      var a :| 0 <= a < n && Fold(calls[..n][a].name) == before[i];
      assert calls[a] == calls[..n][a];
    }
  }

  lemma {:induction false} LastCallIsLast(calls: seq<Header>, name: string) returns (k: nat)
    requires name in Names(calls)
    ensures IsCallFrom(calls, k, name, LastCall(calls, name))
  {
    k := |calls| - 1;
    if Fold(calls[k].name) != name {
      var n := k;
      k := LastCallIsLast(calls[..n], name);
      assert forall m :: 0 <= m < n ==> calls[..n][m] == calls[m];
    }
  }

  /** The k-th call has the folded name and makes the header, and no later call has the name. */
  ghost predicate IsCallFrom(calls: seq<Header>, k: int, name: string, h: Header) {
    && 0 <= k < |calls| && calls[k] == h && Fold(h.name) == name
    && forall m :: k < m < |calls| ==> Fold(calls[m].name) != name
  }

  // ----- the list as an ordered map

  ghost predicate Lists(hs: seq<Header>, name: string) {
    exists i :: 0 <= i < |hs| && SameName(hs[i].name, name)
  }

  /** One of the first b calls has the name. */
  ghost predicate CalledBefore(calls: seq<Header>, name: string, b: int) {
    exists a :: 0 <= a < b && a < |calls| && SameName(calls[a].name, name)
  }

  /** The header is the k-th call, and no later call has its name. */
  ghost predicate IsLastCall(calls: seq<Header>, k: int, h: Header) {
    && 0 <= k < |calls| && calls[k] == h
    && forall m :: k < m < |calls| ==> !SameName(calls[m].name, h.name)
  }

  ghost predicate IsALastCall(calls: seq<Header>, h: Header) { exists k :: IsLastCall(calls, k, h) }

  ghost predicate ListsAll(hs: seq<Header>, calls: seq<Header>) {
    forall k :: 0 <= k < |calls| ==> Lists(hs, calls[k].name)
  }

  ghost predicate HoldsLastCalls(hs: seq<Header>, calls: seq<Header>) {
    forall i :: 0 <= i < |hs| ==> IsALastCall(calls, hs[i])
  }

  /** Every call of a later entry's name has a call of an earlier entry's name before it. */
  ghost predicate InCallOrder(hs: seq<Header>, calls: seq<Header>) {
    forall i, j, b :: 0 <= i < j < |hs| && 0 <= b < |calls| && SameName(calls[b].name, hs[j].name) ==>
      CalledBefore(calls, hs[i].name, b)
  }

  lemma ListsEveryCall(calls: seq<Header>, k: nat)
    requires k < |calls|
    ensures Lists(SetAll(calls), calls[k].name)
  {
    EntryOfEachName(calls);
    NameHasCall(calls, Fold(calls[k].name));
    var i :| 0 <= i < |Names(calls)| && Names(calls)[i] == Fold(calls[k].name);
    FoldTells(SetAll(calls)[i].name, calls[k].name);
  }

  lemma HoldsLastCall(calls: seq<Header>, i: nat)
    requires i < |SetAll(calls)|
    ensures IsALastCall(calls, SetAll(calls)[i])
  {
    EntryOfEachName(calls);
    var h, name := SetAll(calls)[i], Names(calls)[i];
    var k := LastCallIsLast(calls, name);
    forall m | k < m < |calls| ensures !SameName(calls[m].name, h.name) { FoldTells(calls[m].name, h.name); }
    assert IsLastCall(calls, k, h);
  }

  lemma StandsInOrder(calls: seq<Header>, i: nat, j: nat, b: nat)
    requires i < j < |SetAll(calls)| && b < |calls| && SameName(calls[b].name, SetAll(calls)[j].name)
    ensures CalledBefore(calls, SetAll(calls)[i].name, b)
  {
    EntryOfEachName(calls);
    FoldTells(calls[b].name, SetAll(calls)[j].name);
    NamesInOrder(calls, i, j, b);
    var a :| 0 <= a < b && Fold(calls[a].name) == Names(calls)[i];
    FoldTells(calls[a].name, SetAll(calls)[i].name);
  }

  lemma SetAllInCallOrder(calls: seq<Header>)
    ensures InCallOrder(SetAll(calls), calls)
  {
    var hs := SetAll(calls);
    forall i, j, b | 0 <= i < j < |hs| && 0 <= b < |calls| && SameName(calls[b].name, hs[j].name)
      ensures CalledBefore(calls, hs[i].name, b)
    {
      StandsInOrder(calls, i, j, b);
    }
  }

  /**
   The list refines an insertion-ordered map without regard to case: after any calls no two
   entries have the same name but for case, every name called is there, each entry is the last
   call of its name, spelling and value, and the entries stand in the order in which their
   names were called first.
   */
  lemma OrderedMap(calls: seq<Header>)
    ensures var hs := SetAll(calls);
            DistinctNames(hs) && ListsAll(hs, calls) && HoldsLastCalls(hs, calls) && InCallOrder(hs, calls)
  {
    var hs := SetAll(calls);
    forall k | 0 <= k < |calls| ensures Lists(hs, calls[k].name) { ListsEveryCall(calls, k); }
    forall i | 0 <= i < |hs| ensures IsALastCall(calls, hs[i]) { HoldsLastCall(calls, i); }
    SetAllInCallOrder(calls);
    SetAllDistinct(calls);
  }

  lemma SetAllDistinct(calls: seq<Header>)
    ensures DistinctNames(SetAll(calls))
  {
    EntryOfEachName(calls);
    DistinctEitherWay(SetAll(calls));
  }

  /** Two calls whose names differ in case only leave one header, spelt as in the second. */
  lemma CaseExample()
    ensures SetAll([Header("X-A", "1"), Header("x-a", "2")]) == [Header("x-a", "2")]
  {
    var calls := [Header("X-A", "1"), Header("x-a", "2")];
    FoldTells("X-A", "x-a");
    assert calls[..1] == [Header("X-A", "1")] && calls[..1][..0] == [];
    assert SetAll(calls[..1]) == [Header("X-A", "1")];
  }

  // ----- the linked list

  class HeaderItem {
    var name: string
    var value: string
    var next: HeaderItem?

    constructor (name: string, value: string)
      ensures this.name == name && this.value == value && next == null
    {
      this.name, this.value, this.next := name, value, null;
    }
  }

  class HeaderList {
    var first: HeaderItem?
    ghost var items: seq<HeaderItem>

    ghost predicate Valid()
      reads this, items
    {
      && first == (if items == [] then null else items[0])
      && (forall i, j :: 0 <= i < j < |items| ==> items[i] != items[j])
      && (forall i {:trigger items[i].next} :: 0 <= i < |items| ==>
            items[i].next == if i + 1 < |items| then items[i + 1] else null)
    }

    ghost function View(): seq<Header>
      reads this, items
    {
      seq(|items|, i requires 0 <= i < |items| reads this, items => Header(items[i].name, items[i].value))
    }

    /** The nodes of the list. */
    ghost function Nodes(): set<HeaderItem>
      reads this
    {
      set n | n in items
    }

    constructor ()
      ensures Valid() && items == [] && View() == []
    {
      first, items := null, [];
    }

    /** `header_set`. */
    method Set(name: string, value: string)
      requires Valid()
      modifies this, Nodes()
      ensures Valid() && View() == SetHeader(old(View()), Header(name, value))
      ensures fresh(Nodes() - old(Nodes()))
    {
      var item, prev: HeaderItem? := first, null;
      ghost var pos, view := 0, View();
      while item != null
        invariant Valid() && View() == view && items == old(items)
        invariant pos <= |items| && item == (if pos < |items| then items[pos] else null)
        invariant prev == (if pos > 0 then items[pos - 1] else null)
        invariant forall i :: 0 <= i < pos ==> Fold(view[i].name) != Fold(name)
        decreases |items| - pos
      {
        if Fold(item.name) == Fold(name) {
          item.name := name;
          item.value := value;
          SetAt(view, Header(name, value), pos);
          assert View() == view[pos := Header(name, value)];
          return;
        }
        prev := item;
        item := item.next;
        pos := pos + 1;
      }
      SetNew(view, Header(name, value));
      item := new HeaderItem(name, value);
      if first == null {
        first := item;
      } else {
        prev.next := item;
      }
      items := items + [item];
      assert View() == view + [Header(name, value)];
    }

    /** The loop of `return_response` that prints and frees every header. */
    method Drain() returns (lines: seq<Header>)
      requires Valid()
      modifies this
      ensures Valid() && items == [] && View() == [] && lines == old(View())
    {
      lines := [];
      ghost var n := 0;
      while first != null
        invariant n <= |old(items)| && items == old(items)[n..] && Valid()
        invariant lines == old(View())[..n]
        decreases |items|
      {
        lines := lines + [Header(first.name, first.value)];
        first := first.next;
        items := items[1..];
        n := n + 1;
      }
    }
  }
}
