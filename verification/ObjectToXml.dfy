/**
 `child_to_xml`, `iterate_array` and `walk_object` (source/jse_xml.c:41-112): a value tree
 becomes a tree of XML nodes by mutual recursion over the value stack.
 */
module ObjectToXml {
  import opened Basics
  import opened ValueStack

  // ----- XML trees and documents

  datatype Xml = Node(name: string, content: string, kids: seq<Xml>)

  datatype XmlRec = XmlRec(name: string, content: string, kids: seq<nat>)

  /** A child is made after its parent, so it has a higher number. */
  ghost predicate Grounded(nodes: seq<XmlRec>) {
    forall i, j :: 0 <= i < |nodes| && 0 <= j < |nodes[i].kids| ==> i < nodes[i].kids[j] < |nodes|
  }

  ghost predicate Within(ks: seq<nat>, lo: nat, hi: nat) {
    forall j :: 0 <= j < |ks| ==> lo <= ks[j] < hi
  }

  ghost function Tree(nodes: seq<XmlRec>, i: nat): Xml
    requires Grounded(nodes) && i < |nodes|
    decreases |nodes| - i, 1, 0
  {
    Node(nodes[i].name, nodes[i].content, Trees(nodes, i + 1, nodes[i].kids))
  }

  ghost function Trees(nodes: seq<XmlRec>, lo: nat, ks: seq<nat>): seq<Xml>
    requires Grounded(nodes) && 0 < lo && Within(ks, lo, |nodes|)
    decreases |nodes| - (lo - 1), 0, |ks|
  {
    if ks == [] then [] else [Tree(nodes, ks[0])] + Trees(nodes, lo, ks[1..])
  }

  /** A document under construction; an `xmlNodePtr` is the number of a node. */
  class Document {
    var nodes: seq<XmlRec>

    ghost predicate Valid()
      reads this
    {
      Grounded(nodes)
    }

    constructor ()
      ensures Valid() && nodes == []
    {
      nodes := [];
    }

    /** `xmlNewNode`: a node without a parent. */
    method NewNode(name: string) returns (node: nat)
      requires Valid()
      modifies this
      ensures Valid() && node == |old(nodes)| && nodes == old(nodes) + [XmlRec(name, "", [])]
    {
      node := |nodes|;
      nodes := nodes + [XmlRec(name, "", [])];
    }

    /** `xmlNewChild`: a new last child. */
    method NewChild(parent: nat, name: string) returns (child: nat)
      requires Valid() && parent < |nodes|
      modifies this
      ensures Valid() && child == |old(nodes)|
      ensures nodes == old(nodes)[parent := WithKids(old(nodes)[parent], [child])] + [XmlRec(name, "", [])]
    {
      child := |nodes|;
      nodes := nodes[parent := WithKids(nodes[parent], [child])] + [XmlRec(name, "", [])];
    }

    /** `xmlNodeSetContent` of a node without children. */
    method SetContent(node: nat, content: string)
      requires Valid() && node < |nodes| && nodes[node].kids == []
      modifies this
      ensures Valid() && nodes == old(nodes)[node := old(nodes)[node].(content := content)]
    {
      nodes := nodes[node := nodes[node].(content := content)];
    }
  }

  function WithKids(r: XmlRec, ks: seq<nat>): XmlRec { r.(kids := r.kids + ks) }

  /** From `a` to `b` the node `parent` gained the children `ks` with the trees `forest`. */
  ghost predicate Grew(a: seq<XmlRec>, b: seq<XmlRec>, parent: nat, ks: seq<nat>, forest: seq<Xml>) {
    && parent < |a| <= |b| && Grounded(a) && Grounded(b)
    && (forall j :: 0 <= j < |a| && j != parent ==> b[j] == a[j])
    && b[parent] == WithKids(a[parent], ks)
    && Within(ks, |a|, |b|)
    && Trees(b, |a|, ks) == forest
  }

  // ----- the pure traversal

  /** What one value becomes under a name, when it is not an array. */
  function NodeFor(name: string, v: Value): Xml
    decreases Height(v), 0, 0
  {
    if v.Object? then Node(name, "", Walk(v.props)) else Node(name, ToText(v), [])
  }

  /**
   The children that an array's elements become from index i on.  `cur` is what the stack
   slot of the array holds: an element that is an array itself takes its name from that
   slot, which turns the slot into a string.
   */
  function Elements(name: string, cur: Value, i: nat, len: nat): seq<Xml>
    decreases Height(cur), 1, len - i
  {
    if i >= len then []
    else
      var e := Index(cur, i);
      IndexHeight(cur, i);
      if e.Array? then
        Elements(ToText(cur), e, 0, |e.elems|) + Elements(name, Text(ToText(cur)), i + 1, len)
      else [NodeFor(name, e)] + Elements(name, cur, i + 1, len)
  }

  /** The children that one property becomes. */
  function Child(name: string, v: Value): seq<Xml>
    decreases Height(v), 2, 0
  {
    if v.Array? then Elements(name, v, 0, |v.elems|) else [NodeFor(name, v)]
  }

  function Walk(props: seq<Prop>): seq<Xml>
    decreases 1 + PropsHeight(props), 0, |props|
  {
    if props == [] then [] else Child(props[0].key, props[0].value) + Walk(props[1..])
  }

  function Height(v: Value): nat {
    match v
    case Object(props) => 2 + PropsHeight(props)
    case Array(elems) => 1 + ElemsHeight(elems)
    case _ => 0
  }

  function PropsHeight(props: seq<Prop>): nat {
    if props == [] then 0 else Max(Height(props[0].value), PropsHeight(props[1..]))
  }

  function ElemsHeight(elems: seq<Value>): nat {
    if elems == [] then 0 else Max(Height(elems[0]), ElemsHeight(elems[1..]))
  }

  lemma {:induction false} ElemHeight(elems: seq<Value>, i: nat)
    requires i < |elems|
    ensures Height(elems[i]) <= ElemsHeight(elems)
  {
    if i > 0 { ElemHeight(elems[1..], i - 1); }
  }

  lemma IndexHeight(v: Value, i: nat)
    ensures Height(Index(v, i)) < Height(v) || Height(Index(v, i)) == 0
    ensures Index(v, i).Array? ==> Height(Index(v, i)) < Height(v)
  {
    if v.Array? && i < |v.elems| { ElemHeight(v.elems, i); }
  }

  lemma PropHeight(props: seq<Prop>)
    requires props != []
    ensures Height(props[0].value) <= PropsHeight(props) && PropsHeight(props[1..]) <= PropsHeight(props)
  {}

  /** The slot under the top after `child_to_xml`: coerced when the top is an array. */
  function SlotAfter(below: Value, v: Value): Value {
    if v.Array? then Text(ToText(below)) else below
  }

  // ----- how far the stack grows

  /** The slots that one value needs above itself. */
  function ChildSlots(v: Value): nat
    decreases Height(v), 2, 0
  {
    match v
    case Array(elems) => ElementSlots(v, 0, |elems|)
    case Object(props) => 1 + PropSlots(props)
    case _ => 0
  }

  /** The slots above an array's slot, which holds `cur`, from index i on. */
  function ElementSlots(cur: Value, i: nat, len: nat): nat
    decreases Height(cur), 1, len - i
  {
    if i >= len then 0
    else
      var e := Index(cur, i);
      IndexHeight(cur, i);
      Max(1 + (if e.Array? || e.Object? then ChildSlots(e) else 0), ElementSlots(SlotAfter(cur, e), i + 1, len))
  }

  /** The slots above the enumerator: a key, a value, and what the value needs. */
  function PropSlots(props: seq<Prop>): nat
    decreases 1 + PropsHeight(props), 0, |props|
  {
    if props == [] then 0 else Max(2 + ChildSlots(props[0].value), PropSlots(props[1..]))
  }

  /** The nesting depth: the number of objects and arrays inside each other. */
  function Depth(v: Value): nat {
    match v
    case Object(props) => 1 + PropsDepth(props)
    case Array(elems) => 1 + ElemsDepth(elems)
    case _ => 0
  }

  function PropsDepth(props: seq<Prop>): nat {
    if props == [] then 0 else Max(Depth(props[0].value), PropsDepth(props[1..]))
  }

  function ElemsDepth(elems: seq<Value>): nat {
    if elems == [] then 0 else Max(Depth(elems[0]), ElemsDepth(elems[1..]))
  }

  lemma {:induction false} ElemDepth(elems: seq<Value>, i: nat)
    requires i < |elems|
    ensures Depth(elems[i]) <= ElemsDepth(elems)
  {
    if i > 0 { ElemDepth(elems[1..], i - 1); }
  }

  /** A value needs at most three slots for each level of nesting. */
  lemma {:induction false} SlotsWithinDepth(v: Value)
    ensures ChildSlots(v) <= 3 * Depth(v)
    decreases Height(v), 2, 0
  {
    match v
    case Array(elems) => ElementsWithinDepth(v, 0, |elems|);
    case Object(props) => PropsWithinDepth(props);
    case _ =>
  }

  lemma {:induction false} ElementsWithinDepth(cur: Value, i: nat, len: nat)
    requires cur.Array? || cur.Text?
    ensures ElementSlots(cur, i, len) <= if Depth(cur) == 0 then 1 else 3 * Depth(cur) - 2
    decreases Height(cur), 1, len - i
  {
    if i < len {
      var e := Index(cur, i);
      IndexHeight(cur, i);
      if e.Array? || e.Object? {
        ElemDepth(cur.elems, i);
        SlotsWithinDepth(e);
      }
      ElementsWithinDepth(SlotAfter(cur, e), i + 1, len);
    }
  }

  lemma {:induction false} PropsWithinDepth(props: seq<Prop>)
    ensures PropSlots(props) <= 2 + 3 * PropsDepth(props)
    decreases 1 + PropsHeight(props), 0, |props|
  {
    if props != [] {
      SlotsWithinDepth(props[0].value);
      PropsWithinDepth(props[1..]);
    }
  }

  lemma OneProp(p: Prop)
    ensures PropSlots([p]) == 2 + ChildSlots(p.value) && PropsDepth([p]) == Depth(p.value)
  {
    assert [p][1..] == [];
  }

  /** Objects inside each other, around a text. */
  function Nested(n: nat): Value { if n == 0 then Text("") else Object([Prop("a", Nested(n - 1))]) }

  /** The bound is reached, so any number of slots is too few for some value. */
  lemma {:induction false} NestedSlots(n: nat)
    ensures Depth(Nested(n)) == n && ChildSlots(Nested(n)) == 3 * n
  {
    if n > 0 {
      NestedSlots(n - 1);
      OneProp(Prop("a", Nested(n - 1)));
    }
  }

  // ----- frames

  /** A tree depends only on the nodes from its own number on. */
  lemma {:induction false} SameTrees(a: seq<XmlRec>, lo: nat, b: seq<XmlRec>, lo': nat, ks: seq<nat>)
    requires Grounded(a) && Grounded(b) && |a| <= |b| && 0 < lo && 0 < lo'
    requires Within(ks, lo, |a|) && Within(ks, lo', |b|)
    requires forall j :: lo <= j < |a| ==> b[j] == a[j]
    ensures Trees(b, lo', ks) == Trees(a, lo, ks)
    decreases |a| - (lo - 1), |ks|
  {
    if ks != [] {
      var k := ks[0];
      assert b[k] == a[k];
      SameTrees(a, k + 1, b, k + 1, a[k].kids);
      SameTrees(a, lo, b, lo', ks[1..]);
    }
  }

  lemma {:induction false} TreesAppend(nodes: seq<XmlRec>, lo: nat, ks: seq<nat>, more: seq<nat>)
    requires Grounded(nodes) && 0 < lo && Within(ks, lo, |nodes|) && Within(more, lo, |nodes|)
    ensures Within(ks + more, lo, |nodes|)
    ensures Trees(nodes, lo, ks + more) == Trees(nodes, lo, ks) + Trees(nodes, lo, more)
    decreases |ks|
  {
    if ks == [] {
      assert ks + more == more;
    } else {
      var all := ks + more;
      assert all[0] == ks[0] && all[1..] == ks[1..] + more;
      TreesAppend(nodes, lo, ks[1..], more);
      assert Trees(nodes, lo, all) == [Tree(nodes, ks[0])] + Trees(nodes, lo, all[1..]);
      Regroup([Tree(nodes, ks[0])], Trees(nodes, lo, ks[1..]), Trees(nodes, lo, more));
    }
  }

  /** Two growths of the same node in a row. */
  lemma GrewTwice(a: seq<XmlRec>, b: seq<XmlRec>, c: seq<XmlRec>, parent: nat,
                  ks: seq<nat>, forest: seq<Xml>, more: seq<nat>, moreForest: seq<Xml>)
    requires Grew(a, b, parent, ks, forest) && Grew(b, c, parent, more, moreForest)
    ensures Grew(a, c, parent, ks + more, forest + moreForest)
  {
    SameTrees(b, |a|, c, |a|, ks);
    SameTrees(c, |b|, c, |a|, more);
    TreesAppend(c, |a|, ks, more);
  }

  /** A new leaf, or a new node that then grew children of its own. */
  lemma GrewNode(a: seq<XmlRec>, made: seq<XmlRec>, b: seq<XmlRec>, parent: nat, name: string,
                 ks: seq<nat>, forest: seq<Xml>)
    requires parent < |a| && Grounded(a)
    requires made == a[parent := WithKids(a[parent], [|a|])] + [XmlRec(name, "", [])]
    requires Grew(made, b, |a|, ks, forest)
    ensures Grew(a, b, parent, [|a|], [Node(name, "", forest)])
  {
    assert b[|a|].kids == ks;
    assert Trees(b, |a|, [|a|]) == [Tree(b, |a|)];
  }

  lemma GrewLeaf(a: seq<XmlRec>, made: seq<XmlRec>, b: seq<XmlRec>, parent: nat, name: string, content: string)
    requires parent < |a| && Grounded(a) && Grounded(b)
    requires made == a[parent := WithKids(a[parent], [|a|])] + [XmlRec(name, "", [])]
    requires b == made[|a| := XmlRec(name, content, [])]
    ensures Grew(a, b, parent, [|a|], [Node(name, content, [])])
  {
    assert Trees(b, |a|, [|a|]) == [Tree(b, |a|)];
  }

  lemma GrewNothing(a: seq<XmlRec>, parent: nat)
    requires parent < |a| && Grounded(a)
    ensures Grew(a, a, parent, [], [])
  {
    assert a[parent].kids + [] == a[parent].kids;
  }

  // ----- the traversal over the stack

  /** The children that `child_to_xml` makes: an array takes its name from the slot below. */
  function ChildOver(name: string, below: Value, v: Value): seq<Xml> {
    if v.Array? then Elements(ToText(below), v, 0, |v.elems|) else [NodeFor(name, v)]
  }

  /** `child_to_xml` for the value on top of the stack, for every value. */
  method ChildToXml(stack: Stack, doc: Document, parent: nat, name: string, ghost depth: nat)
    returns (ghost ks: seq<nat>)
    requires |stack.vals| >= 2 && Height(stack.Get(-1)) <= depth
    requires doc.Valid() && parent < |doc.nodes|
    modifies stack, doc
    ensures doc.Valid()
    ensures Grew(old(doc.nodes), doc.nodes, parent, ks,
                 ChildOver(name, old(stack.Get(-2)), old(stack.Get(-1))))
    ensures |stack.vals| == |old(stack.vals)|
    ensures stack.vals[..|stack.vals| - 1] ==
            old(stack.vals)[..|stack.vals| - 2] + [SlotAfter(old(stack.Get(-2)), old(stack.Get(-1)))]
    ensures Raised(old(stack.HighWater()), stack.HighWater(), |stack.vals| + ChildSlots(old(stack.Get(-1))))
    decreases depth, 2
  {
    ghost var nodes, n := doc.nodes, |stack.vals|;
    if stack.Get(-1).Array? {
      var inner := stack.SafeToString(-2);
      ks := IterateArray(stack, doc, parent, inner, depth);
    } else {
      var child := doc.NewChild(parent, name);
      ghost var made := doc.nodes;
      ks := [child];
      if stack.Get(-1).Object? {
        ghost var inner := WalkObject(stack, doc, child, depth);
        GrewNode(nodes, made, doc.nodes, parent, name, inner, Walk(stack.Get(-1).props));
      } else {
        ghost var below := stack.vals[n - 2];
        var content := stack.SafeToString(-1);
        doc.SetContent(child, content);
        GrewLeaf(nodes, made, doc.nodes, parent, name, content);
      }
    }
  }

  /** Moves one element's slots from what is left to what is done. */
  lemma ElementSlotsStep(done: nat, cur: Value, i: nat, len: nat)
    requires i < len
    ensures Max(Max(done, 1 + ChildSlots(Index(cur, i))), ElementSlots(SlotAfter(cur, Index(cur, i)), i + 1, len))
         == Max(done, ElementSlots(cur, i, len))
  {
    RegroupMax(done, 1 + ChildSlots(Index(cur, i)), ElementSlots(SlotAfter(cur, Index(cur, i)), i + 1, len));
  }

  /** `iterate_array` for the array on top of the stack. */
  method IterateArray(stack: Stack, doc: Document, parent: nat, name: string, ghost depth: nat)
    returns (ghost ks: seq<nat>)
    requires stack.vals != [] && stack.Get(-1).Array? && Height(stack.Get(-1)) <= depth
    requires doc.Valid() && parent < |doc.nodes|
    modifies stack, doc
    ensures doc.Valid()
    ensures Grew(old(doc.nodes), doc.nodes, parent, ks,
                 Elements(name, old(stack.Get(-1)), 0, |old(stack.Get(-1)).elems|))
    ensures |stack.vals| == |old(stack.vals)|
    ensures stack.vals[..|stack.vals| - 1] == old(stack.vals)[..|stack.vals| - 1]
    ensures Raised(old(stack.HighWater()), stack.HighWater(), |stack.vals| + ChildSlots(old(stack.Get(-1))))
    decreases depth, 1
  {
    ghost var base, nodes := stack.vals[..|stack.vals| - 1], doc.nodes;
    ghost var cur, forest := stack.Get(-1), [];
    ghost var whole := cur;
    var len := |stack.Get(-1).elems|;
    ghost var n := |stack.vals|;
    ghost var high: nat, done: nat := stack.HighWater(), 0;
    var idx := 0;
    ks := [];
    GrewNothing(nodes, parent);
    while idx < len
      invariant doc.Valid() && idx <= len
      invariant stack.vals == base + [cur]
      invariant Height(cur) <= depth && 0 < depth
      invariant Grew(nodes, doc.nodes, parent, ks, forest)
      invariant Elements(name, whole, 0, len) == forest + Elements(name, cur, idx, len)
      invariant Max(done, ElementSlots(cur, idx, len)) == ElementSlots(whole, 0, len)
      invariant Raised(high, stack.HighWater(), n + done)
    {
      ghost var before, e, reached := doc.nodes, Index(cur, idx), stack.HighWater();
      ghost var more := OneElement(stack, doc, parent, name, idx, depth);
      ElementDone(nodes, before, doc.nodes, parent, ks, forest, more, name, whole, cur, idx, len);
      RaisedTwice(high, reached, stack.HighWater(), n, done, 1 + ChildSlots(e));
      ElementSlotsStep(done, cur, idx, len);
      done := Max(done, 1 + ChildSlots(e));
      forest, ks, cur := forest + ChildOver(name, cur, e), ks + more, SlotAfter(cur, e);
      idx := idx + 1;
    }
    assert forest + [] == forest;
  }

  /** The body of the loop over an array: one element, whatever the array's slot holds now. */
  method OneElement(stack: Stack, doc: Document, parent: nat, name: string, idx: nat, ghost depth: nat)
    returns (ghost ks: seq<nat>)
    requires stack.vals != [] && Height(stack.Get(-1)) <= depth && 0 < depth
    requires doc.Valid() && parent < |doc.nodes|
    modifies stack, doc
    ensures doc.Valid()
    ensures Grew(old(doc.nodes), doc.nodes, parent, ks,
                 ChildOver(name, old(stack.Get(-1)), Index(old(stack.Get(-1)), idx)))
    ensures stack.vals == old(stack.vals)[..|old(stack.vals)| - 1]
                          + [SlotAfter(old(stack.Get(-1)), Index(old(stack.Get(-1)), idx))]
    ensures Raised(old(stack.HighWater()), stack.HighWater(),
                   |stack.vals| + (1 + ChildSlots(Index(old(stack.Get(-1)), idx))))
    decreases depth, 0
  {
    IndexHeight(stack.Get(-1), idx);
    ghost var base, cur, n := stack.vals[..|stack.vals| - 1], stack.Get(-1), |stack.vals|;
    ghost var e, high := Index(cur, idx), stack.HighWater();
    stack.GetPropIndex(-1, idx);
    assert stack.vals == base + [cur, e];
    assert stack.Get(-1) == e;
    ghost var reached := stack.HighWater();
    ks := ChildToXml(stack, doc, parent, name, depth - 1);
    RaisedTwice(high, reached, stack.HighWater(), n, 1, 1 + ChildSlots(e));
    stack.Pop();
  }

  /** One element more of the whole array, in the document and in what is left. */
  lemma ElementDone(nodes: seq<XmlRec>, before: seq<XmlRec>, now: seq<XmlRec>, parent: nat,
                    ks: seq<nat>, forest: seq<Xml>, more: seq<nat>,
                    name: string, whole: Value, cur: Value, i: nat, len: nat)
    requires i < len && Elements(name, whole, 0, len) == forest + Elements(name, cur, i, len)
    requires Grew(nodes, before, parent, ks, forest)
    requires Grew(before, now, parent, more, ChildOver(name, cur, Index(cur, i)))
    ensures Grew(nodes, now, parent, ks + more, forest + ChildOver(name, cur, Index(cur, i)))
    ensures Elements(name, whole, 0, len) ==
            (forest + ChildOver(name, cur, Index(cur, i))) + Elements(name, SlotAfter(cur, Index(cur, i)), i + 1, len)
  {
    GrewTwice(nodes, before, now, parent, ks, forest, more, ChildOver(name, cur, Index(cur, i)));
    ElementsStep(name, whole, forest, cur, i, len);
  }

  /** Moves one element's children from what is left to what is done. */
  lemma ElementsStep(name: string, whole: Value, forest: seq<Xml>, cur: Value, i: nat, len: nat)
    requires i < len && Elements(name, whole, 0, len) == forest + Elements(name, cur, i, len)
    ensures Elements(name, whole, 0, len) ==
            (forest + ChildOver(name, cur, Index(cur, i))) + Elements(name, SlotAfter(cur, Index(cur, i)), i + 1, len)
  {
    var e := Index(cur, i);
    Regroup(forest, ChildOver(name, cur, e), Elements(name, SlotAfter(cur, e), i + 1, len));
  }

  /** What `duk_next` leaves above the object when these properties were left before it. */
  function Iterating(left: seq<Prop>): seq<Value> {
    if left == [] then [Enumerator([])]
    else [Enumerator(left[1..]), Text(left[0].key), left[0].value]
  }

  /** The head of the loop over an object: `duk_next` on the enumerator. */
  method NextProperty(stack: Stack, ghost base: seq<Value>, ghost left: seq<Prop>, ghost high: nat, ghost done: nat)
    returns (more: bool, ghost now: nat)
    requires stack.vals == base + [Enumerator(left)]
    requires Raised(high, stack.HighWater(), |base| + 1 + done)
    modifies stack
    ensures more <==> left != []
    ensures stack.vals == base + Iterating(left)
    ensures Raised(high, stack.HighWater(), |base| + 1 + now)
    ensures Max(now, PropSlots(left)) == Max(done, PropSlots(left))
  {
    ghost var reached := stack.HighWater();
    more := stack.Next();
    now := Max(done, if left == [] then 0 else 2);
    RaisedTwice(high, reached, stack.HighWater(), |base| + 1, done, if left == [] then 0 else 2);
  }

  lemma PropSlotsCons(left: seq<Prop>)
    requires left != []
    ensures PropSlots(left) == Max(2 + ChildSlots(left[0].value), PropSlots(left[1..]))
  {}

  /** Moves one property's slots from what is left to what is done. */
  lemma PropSlotsStep(done: nat, left: seq<Prop>, first: nat, rest: nat)
    requires left != [] && first == 2 + ChildSlots(left[0].value) && rest == PropSlots(left[1..])
    ensures Max(Max(done, first), rest) == Max(done, PropSlots(left))
  {
    PropSlotsCons(left);
    RegroupMax(done, first, rest);
  }

  /** `walk_object` for the object (or array) on top of the stack. */
  method WalkObject(stack: Stack, doc: Document, parent: nat, ghost depth: nat)
    returns (ghost ks: seq<nat>)
    requires stack.vals != [] && (stack.Get(-1).Object? || stack.Get(-1).Array?)
    requires PropsHeight(Enumerated(stack.Get(-1))) < depth
    requires doc.Valid() && parent < |doc.nodes|
    modifies stack, doc
    ensures doc.Valid()
    ensures Grew(old(doc.nodes), doc.nodes, parent, ks, Walk(Enumerated(old(stack.Get(-1)))))
    ensures stack.vals == old(stack.vals)
    ensures Raised(old(stack.HighWater()), stack.HighWater(), |stack.vals| + (1 + PropSlots(Enumerated(stack.Get(-1)))))
    decreases depth, 1
  {
    ghost var base, nodes := stack.vals, doc.nodes;
    ghost var props := Enumerated(stack.Get(-1));
    ghost var left, forest := props, [];
    ghost var high: nat, done: nat := stack.HighWater(), 0;
    ks := [];
    GrewNothing(nodes, parent);
    stack.Enum(-1);
    var more;
    more, done := NextProperty(stack, base, left, high, done);
    while more
      invariant doc.Valid()
      invariant more <==> left != []
      invariant stack.vals == base + Iterating(left)
      invariant PropsHeight(left) < depth
      invariant Grew(nodes, doc.nodes, parent, ks, forest)
      invariant Walk(props) == forest + Walk(left)
      invariant Max(done, PropSlots(left)) == PropSlots(props)
      invariant Raised(high, stack.HighWater(), |base| + 1 + done)
      decreases |left|
    {
      ghost var before, p, reached := doc.nodes, left[0], stack.HighWater();
      PropHeight(left);
      ghost var added := OneProperty(stack, doc, parent, base, left, depth);
      GrewTwice(nodes, before, doc.nodes, parent, ks, forest, added, Child(p.key, p.value));
      Regroup(forest, Child(p.key, p.value), Walk(left[1..]));
      RaisedTwice(high, reached, stack.HighWater(), |base| + 1, done, 2 + ChildSlots(p.value));
      PropSlotsStep(done, left, 2 + ChildSlots(p.value), PropSlots(left[1..]));
      done := Max(done, 2 + ChildSlots(p.value));
      forest, ks, left := forest + Child(p.key, p.value), ks + added, left[1..];
      more, done := NextProperty(stack, base, left, high, done);
    }
    assert forest + [] == forest;
    stack.Pop();
    assert stack.vals == base;
  }

  /** The body of the loop over an object: one property. */
  method OneProperty(stack: Stack, doc: Document, parent: nat,
                     ghost base: seq<Value>, ghost left: seq<Prop>, ghost depth: nat)
    returns (ghost ks: seq<nat>)
    requires left != [] && stack.vals == base + Iterating(left)
    requires Height(left[0].value) < depth
    requires doc.Valid() && parent < |doc.nodes|
    modifies stack, doc
    ensures doc.Valid()
    ensures Grew(old(doc.nodes), doc.nodes, parent, ks, Child(left[0].key, left[0].value))
    ensures stack.vals == base + [Enumerator(left[1..])]
    ensures Raised(old(stack.HighWater()), stack.HighWater(), |base| + 1 + (2 + ChildSlots(left[0].value)))
    decreases depth, 0
  {
    var key := stack.SafeToString(-2);
    assert stack.vals == base + Iterating(left);
    ks := ChildToXml(stack, doc, parent, key, depth - 1);
    stack.Pop();
    stack.Pop();
  }

  /** The document of a root name and a value. */
  function DocumentOf(name: string, v: Value): Xml {
    if v.Object? || v.Array? then Node(name, "", Walk(Enumerated(v)))
    else Node(name, ToText(v), [])
  }

  /** The root's content: the properties of an object, or the text of anything else. */
  method FillRoot(stack: Stack, doc: Document, root: nat, name: string)
    requires stack.vals != [] && !stack.Get(-1).Enumerator?
    requires doc.Valid() && root < |doc.nodes| && doc.nodes[root] == XmlRec(name, "", [])
    modifies stack, doc
    ensures doc.Valid() && root < |doc.nodes| && |stack.vals| == |old(stack.vals)|
    ensures Tree(doc.nodes, root) == DocumentOf(name, old(stack.Get(-1)))
    ensures old(stack.Get(-1)).Object? || old(stack.Get(-1)).Array? ==>
              Raised(old(stack.HighWater()), stack.HighWater(),
                     |stack.vals| + (1 + PropSlots(Enumerated(old(stack.Get(-1))))))
  {
    if stack.Get(-1).Object? || stack.Get(-1).Array? {
      ghost var v, before := stack.Get(-1), doc.nodes;
      ghost var ks := WalkObject(stack, doc, root, PropsHeight(Enumerated(v)) + 1);
      RootGrew(before, doc.nodes, root, name, ks, Walk(Enumerated(v)));
    } else {
      var content := stack.SafeToString(-1);
      doc.SetContent(root, content);
    }
  }

  lemma RootGrew(a: seq<XmlRec>, b: seq<XmlRec>, root: nat, name: string, ks: seq<nat>, forest: seq<Xml>)
    requires Grew(a, b, root, ks, forest) && a[root] == XmlRec(name, "", [])
    ensures Tree(b, root) == Node(name, "", forest)
  {
    assert b[root].kids == ks;
    SameTrees(b, |a|, b, root + 1, ks);
  }

  /**
   `do_objectToXMLString` for any two arguments, up to the printing of the document: a name
   that is not a string is a type error; otherwise the tree at the root is the pure document
   of the two arguments, and the stack is as deep as it was.  On the way an object needs a slot
   for its enumerator and those of its properties.
   */
  method DoObjectToXMLString(stack: Stack, doc: Document) returns (ok: bool, root: nat)
    requires |stack.vals| >= 2 && doc.Valid() && doc.nodes == []
    requires !stack.Get(-1).Enumerator?
    modifies stack, doc
    ensures doc.Valid() && |stack.vals| == |old(stack.vals)|
    ensures ok == old(stack.Get(-2)).Text?
    ensures ok ==> root < |doc.nodes|
    ensures ok ==> Tree(doc.nodes, root) == DocumentOf(old(stack.Get(-2)).text, old(stack.Get(-1)))
    ensures ok && (old(stack.Get(-1)).Object? || old(stack.Get(-1)).Array?) ==>
              Raised(old(stack.HighWater()), stack.HighWater(),
                     |stack.vals| + (1 + PropSlots(Enumerated(old(stack.Get(-1))))))
  {
    ok, root := stack.Get(-2).Text?, 0;
    if !ok { return; }
    var name := stack.SafeToString(-2);
    root := doc.NewNode(name);
    FillRoot(stack, doc, root, name);
  }
}
