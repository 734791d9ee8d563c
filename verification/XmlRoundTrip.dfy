/** What `objectToXMLString` keeps of a value, and exactly for which values it keeps all of it. */
module XmlRoundTrip {
  import opened Basics
  import opened ValueStack
  import opened ObjectToXml

  // ----- arrays

  ghost predicate NoArrayIn(elems: seq<Value>) {
    forall i :: 0 <= i < |elems| ==> !elems[i].Array?
  }

  /** One node for each element, all with the array's own name. */
  ghost predicate OneEach(name: string, elems: seq<Value>, nodes: seq<Xml>) {
    |nodes| == |elems| && forall i :: 0 <= i < |nodes| ==> nodes[i].name == name
  }

  lemma FlatElement(name: string, elems: seq<Value>, i: nat)
    requires i < |elems| && !elems[i].Array?
    ensures Elements(name, Array(elems), i, |elems|)
         == [NodeFor(name, elems[i])] + Elements(name, Array(elems), i + 1, |elems|)
  {
    assert Index(Array(elems), i) == elems[i];
  }

  lemma {:induction false} FlatElements(name: string, elems: seq<Value>, i: nat)
    requires i <= |elems| && forall j :: i <= j < |elems| ==> !elems[j].Array?
    ensures Elements(name, Array(elems), i, |elems|)
         == seq(|elems| - i, k requires 0 <= k < |elems| - i => NodeFor(name, elems[i + k]))
    decreases |elems| - i
  {
    if i < |elems| {
      FlatElement(name, elems, i);
      FlatElements(name, elems, i + 1);
    }
  }

  /** The text of an element that is an array is part of the text of the whole array. */
  lemma {:induction false} PartOfText(elems: seq<Value>, i: nat)
    requires i < |elems| && elems[i].Array?
    ensures |ToText(elems[i])| <= |Join(elems)|
  {
    if i > 0 { PartOfText(elems[1..], i - 1); }
  }

  /** Names come from the array's own name or from the texts of arrays, so they stay short. */
  lemma {:induction false} ShortNames(name: string, cur: Value, i: nat, len: nat)
    requires cur.Array? || cur.Text?
    ensures forall k :: 0 <= k < |Elements(name, cur, i, len)| ==>
              |Elements(name, cur, i, len)[k].name| <= Max(|name|, |ToText(cur)|)
    decreases Height(cur), len - i
  {
    if i < len {
      var e := Index(cur, i);
      IndexHeight(cur, i);
      if e.Array? {
        PartOfText(cur.elems, i);
        ShortNames(ToText(cur), e, 0, |e.elems|);
        ShortNames(name, Text(ToText(cur)), i + 1, len);
      } else {
        ShortNames(name, cur, i + 1, len);
      }
    }
  }

  /** Once the slot is a string, every further element is one node under the name. */
  lemma {:induction false} AfterCoercion(name: string, text: string, i: nat, len: nat)
    requires i <= len
    ensures |Elements(name, Text(text), i, len)| == len - i
    decreases len - i
  {
    if i < len { AfterCoercion(name, text, i + 1, len); }
  }

  ghost predicate Stray(nodes: seq<Xml>, name: string, count: nat) {
    |nodes| != count || exists k :: 0 <= k < |nodes| && nodes[k].name != name
  }

  lemma ArrayHere(name: string, elems: seq<Value>, i: nat)
    requires i < |elems| && elems[i].Array? && |name| > |Join(elems)|
    ensures Stray(Elements(name, Array(elems), i, |elems|), name, |elems| - i)
  {
    var e, text := elems[i], Join(elems);
    var inner := Elements(text, e, 0, |e.elems|);
    AfterCoercion(name, text, i + 1, |elems|);
    PartOfText(elems, i);
    ShortNames(text, e, 0, |e.elems|);
    var nodes := Elements(name, Array(elems), i, |elems|);
    assert nodes == inner + Elements(name, Text(text), i + 1, |elems|);
    assert inner != [] ==> nodes[0] == inner[0] && nodes[0].name != name;
  }

  lemma StrayLater(first: Xml, rest: seq<Xml>, name: string, count: nat)
    requires Stray(rest, name, count)
    ensures Stray([first] + rest, name, count + 1)
  {
    if k :| 0 <= k < |rest| && rest[k].name != name {
      assert ([first] + rest)[k + 1].name != name;
    }
  }

  lemma {:induction false} ArrayInArray(name: string, elems: seq<Value>, i: nat, j: nat)
    requires i <= j < |elems| && elems[j].Array? && |name| > |Join(elems)|
    ensures Stray(Elements(name, Array(elems), i, |elems|), name, |elems| - i)
    decreases |elems| - i
  {
    if elems[i].Array? {
      ArrayHere(name, elems, i);
    } else {
      ArrayInArray(name, elems, i + 1, j);
      FlatElement(name, elems, i);
      StrayLater(NodeFor(name, elems[i]), Elements(name, Array(elems), i + 1, |elems|), name, |elems| - (i + 1));
    }
  }

  /**
   Arrays, exactly: an array gives one node per element under its own name, whatever that
   name is, if and only if none of its elements is itself an array.
   */
  lemma OneNodePerElement(elems: seq<Value>)
    ensures (forall name :: OneEach(name, elems, Child(name, Array(elems)))) <==> NoArrayIn(elems)
  {
    if NoArrayIn(elems) {
      forall name ensures OneEach(name, elems, Child(name, Array(elems))) {
        FlatElements(name, elems, 0);
        forall i | 0 <= i < |elems| ensures Child(name, Array(elems))[i].name == name {
          assert Child(name, Array(elems))[i] == NodeFor(name, elems[i]);
        }
      }
    } else {
      var j :| 0 <= j < |elems| && elems[j].Array?;
      var name := Join(elems) + "x";
      ArrayInArray(name, elems, 0, j);
      assert !OneEach(name, elems, Child(name, Array(elems)));
    }
  }

  /** Without arrays in arrays, an array's nodes are its elements' nodes in order. */
  lemma FlatArray(name: string, elems: seq<Value>)
    requires NoArrayIn(elems)
    ensures Child(name, Array(elems))
         == seq(|elems|, k requires 0 <= k < |elems| => NodeFor(name, elems[k]))
  {
    FlatElements(name, elems, 0);
  }

  /** An array in an array: the inner nodes are named after the text of the outer array. */
  lemma NestedArrayExample()
    ensures Child("row", Array([Array([Text("a"), Text("b")]), Text("c")])) ==
            [Node("a,b,c", "a", []), Node("a,b,c", "b", []), Node("row", ",", [])]
  {
    var inner := Array([Text("a"), Text("b")]);
    var outer := Array([inner, Text("c")]);
    assert Join([Text("b")]) == "b";
    assert ToText(inner) == "a,b";
    assert Join([Text("c")]) == "c";
    assert ToText(outer) == "a,b,c";
    assert Elements("a,b,c", inner, 2, 2) == [];
    assert Elements("a,b,c", inner, 1, 2) == [Node("a,b,c", "b", [])];
    assert Elements("a,b,c", inner, 0, 2) == [Node("a,b,c", "a", []), Node("a,b,c", "b", [])];
    assert Elements("row", Text("a,b,c"), 2, 2) == [];
    assert Elements("row", Text("a,b,c"), 1, 2) == [Node("row", ",", [])];
  }

  // ----- reading the document back

  /** The value of one node, without regard to its siblings. */
  function DecodeNode(n: Xml): Value {
    if n.kids == [] then Text(n.content) else Object(Decode(n.kids))
  }

  /** Siblings with the same name are gathered into one array. */
  function Decode(nodes: seq<Xml>): seq<Prop> {
    if nodes == [] then []
    else Gather(nodes[0].name, DecodeNode(nodes[0]), Decode(nodes[1..]))
  }

  function Gather(name: string, v: Value, props: seq<Prop>): seq<Prop> {
    if props == [] || props[0].key != name then [Prop(name, v)] + props
    else
      var more := props[0].value;
      [Prop(name, Array([v] + if more.Array? then more.elems else [more]))] + props[1..]
  }

  /** A value that keeps its identity as one node: a text, or an object with properties. */
  ghost predicate Faithful(v: Value) {
    v.Text? || (v.Object? && v.props != [] && FaithfulProps(v.props))
  }

  /** A property value: such a value, or an array of at least two of them. */
  ghost predicate FaithfulProps(props: seq<Prop>) {
    props == [] ||
    (&& (match props[0].value
         case Array(elems) => |elems| >= 2 && forall e :: e in elems ==> Faithful(e)
         case v => Faithful(v))
     && FaithfulProps(props[1..])
     && (|props| > 1 ==> props[1].key != props[0].key))
  }

  /** Reading back always gives a faithful tree. */
  lemma {:induction false} DecodeFaithful(nodes: seq<Xml>)
    ensures FaithfulProps(Decode(nodes))
    ensures nodes != [] ==> Decode(nodes) != []
  {
    if nodes != [] {
      DecodeNodeFaithful(nodes[0]);
      DecodeFaithful(nodes[1..]);
    }
  }

  lemma {:induction false} DecodeNodeFaithful(n: Xml)
    ensures Faithful(DecodeNode(n))
  {
    if n.kids != [] { DecodeFaithful(n.kids); }
  }

  lemma {:induction false} NodeRoundTrip(name: string, v: Value)
    requires Faithful(v)
    ensures DecodeNode(NodeFor(name, v)) == v && NodeFor(name, v).name == name
    decreases Height(v), 0, 0
  {
    if v.Object? { WalkRoundTrip(v.props); }
  }

  /** A run of equal-named nodes, followed by anything under another name, is one property. */
  lemma {:induction false} DecodeRun(name: string, nodes: seq<Xml>, vs: seq<Value>, rest: seq<Xml>)
    requires |nodes| == |vs| > 0
    requires forall k :: 0 <= k < |nodes| ==> nodes[k].name == name
    requires forall k :: 0 <= k < |nodes| ==> DecodeNode(nodes[k]) == vs[k] && !vs[k].Array?
    requires Decode(rest) == [] || Decode(rest)[0].key != name
    ensures Decode(nodes + rest) ==
            [Prop(name, if |vs| == 1 then vs[0] else Array(vs))] + Decode(rest)
    decreases |nodes|
  {
    var all := nodes + rest;
    assert all[1..] == nodes[1..] + rest;
    if |nodes| > 1 {
      DecodeRun(name, nodes[1..], vs[1..], rest);
      var x := if |vs| == 2 then vs[1] else Array(vs[1..]);
      GatherOnto(name, vs[0], x, Decode(rest));
      assert vs == [vs[0]] + if x.Array? then x.elems else [x];
    } else {
      assert all[1..] == rest;
    }
  }

  lemma GatherOnto(name: string, v: Value, x: Value, rest: seq<Prop>)
    ensures Gather(name, v, [Prop(name, x)] + rest) ==
            [Prop(name, Array([v] + if x.Array? then x.elems else [x]))] + rest
  {}

  /** The values whose nodes a property becomes. */
  function Listed(v: Value): seq<Value> { if v.Array? then v.elems else [v] }

  lemma ChildIsRun(name: string, v: Value)
    requires forall e :: e in Listed(v) ==> !e.Array?
    ensures Child(name, v) == seq(|Listed(v)|, k requires 0 <= k < |Listed(v)| => NodeFor(name, Listed(v)[k]))
  {
    if v.Array? { FlatElements(name, v.elems, 0); }
  }

  lemma ListedHeight(v: Value, k: nat)
    requires k < |Listed(v)|
    ensures Height(Listed(v)[k]) <= Height(v)
  {
    if v.Array? { ElemHeight(v.elems, k); }
  }

  lemma {:induction false} ListedRoundTrip(name: string, v: Value)
    requires forall e :: e in Listed(v) ==> Faithful(e)
    ensures forall k :: 0 <= k < |Listed(v)| ==> DecodeNode(NodeFor(name, Listed(v)[k])) == Listed(v)[k]
    decreases Height(v), 1, 0
  {
    var vs := Listed(v);
    forall k | 0 <= k < |vs| ensures DecodeNode(NodeFor(name, vs[k])) == vs[k] {
      assert vs[k] in vs;
      ListedHeight(v, k);
      NodeRoundTrip(name, vs[k]);
    }
  }

  lemma {:induction false} WalkRoundTrip(props: seq<Prop>)
    requires FaithfulProps(props)
    ensures Decode(Walk(props)) == props
    decreases 1 + PropsHeight(props), 2, |props|
  {
    if props != [] {
      var key, v := props[0].key, props[0].value;
      var vs := Listed(v);
      PropHeight(props);
      WalkRoundTrip(props[1..]);
      ListedRoundTrip(key, v);
      ChildIsRun(key, v);
      DecodeRun(key, Child(key, v), vs, Walk(props[1..]));
      assert Decode(Walk(props)) == [props[0]] + props[1..];
    }
  }

  /**
   Round trip, exactly: gathering equal-named siblings recovers the properties of an object
   if and only if the object is faithful, that is, has texts, non-empty objects and arrays
   of at least two of those, and no key twice in a row.
   */
  lemma RoundTrip(props: seq<Prop>)
    ensures Decode(Walk(props)) == props <==> FaithfulProps(props)
  {
    if FaithfulProps(props) {
      WalkRoundTrip(props);
    } else {
      DecodeFaithful(Walk(props));
    }
  }

  /** An array of one element, and an empty object, are not told from a single text. */
  lemma LossExamples()
    ensures Decode(Walk([Prop("a", Array([Text("1")]))])) == [Prop("a", Text("1"))]
    ensures Decode(Walk([Prop("a", Object([]))])) == [Prop("a", Text(""))]
  {
    FlatArray("a", [Text("1")]);
    var one, empty := Prop("a", Array([Text("1")])), Prop("a", Object([]));
    assert Child("a", one.value) == [Node("a", "1", [])];
    assert [one][1..] == [] && [empty][1..] == [];
    assert Walk([one]) == [Node("a", "1", [])] && Walk([empty]) == [Node("a", "", [])];
    assert [Node("a", "1", [])][1..] == [] && [Node("a", "", [])][1..] == [];
  }

  /** Number or boolean, or its text: the document is the same wherever one stands for the other. */
  lemma {:induction false} ScalarAsText(before: seq<Prop>, key: string, shown: string, after: seq<Prop>)
    ensures Walk(before + [Prop(key, Scalar(shown))] + after) == Walk(before + [Prop(key, Text(shown))] + after)
  {
    var scalars, texts := before + [Prop(key, Scalar(shown))] + after, before + [Prop(key, Text(shown))] + after;
    if before == [] {
      assert scalars[0] == Prop(key, Scalar(shown)) && texts[0] == Prop(key, Text(shown));
      assert scalars[1..] == after && texts[1..] == after;
      assert Child(key, Scalar(shown)) == Child(key, Text(shown));
    } else {
      ScalarAsText(before[1..], key, shown, after);
      assert scalars[1..] == before[1..] + [Prop(key, Scalar(shown))] + after;
      assert texts[1..] == before[1..] + [Prop(key, Text(shown))] + after;
    }
  }

  /** `{a: 1}` and `{a: "1"}` are two values with one document, which reads back as the second. */
  lemma NumberExample()
    ensures Walk([Prop("a", Scalar("1"))]) == Walk([Prop("a", Text("1"))])
    ensures Decode(Walk([Prop("a", Scalar("1"))])) == [Prop("a", Text("1"))]
  {
    ScalarAsText([], "a", "1", []);
    assert [] + [Prop("a", Scalar("1"))] + [] == [Prop("a", Scalar("1"))];
    assert [] + [Prop("a", Text("1"))] + [] == [Prop("a", Text("1"))];
    RoundTrip([Prop("a", Text("1"))]);
  }

  /** Two faithful objects with the same document under the same root are the same object. */
  lemma Injective(name: string, a: Value, b: Value)
    requires Faithful(a) && Faithful(b) && DocumentOf(name, a) == DocumentOf(name, b)
    ensures a == b
  {
    NodeRoundTrip(name, a);
    NodeRoundTrip(name, b);
    assert NodeFor(name, a) == DocumentOf(name, a) && NodeFor(name, b) == DocumentOf(name, b);
  }
}
