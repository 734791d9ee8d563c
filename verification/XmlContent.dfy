/** What the nodes of a document hold, with the literal content of every kind of value. */
module XmlContent {
  import opened Basics
  import opened Decimal
  import opened ValueStack
  import opened ObjectToXml
  import opened XmlRoundTrip

  // ----- single values

  /** Null, undefined, numbers, booleans and texts: one node with the text that the value has. */
  lemma LeafNodes(name: string, shown: string)
    ensures NodeFor(name, Null) == Node(name, "null", [])
    ensures NodeFor(name, Undefined) == Node(name, "undefined", [])
    ensures NodeFor(name, Scalar(shown)) == Node(name, shown, [])
    ensures NodeFor(name, Text(shown)) == Node(name, shown, [])
  {}

  // ----- properties

  lemma {:induction false} WalkAppend(a: seq<Prop>, b: seq<Prop>)
    ensures Walk(a + b) == Walk(a) + Walk(b)
    decreases |a|
  {
    if a == [] {
      assert a + b == b;
    } else {
      WalkAppend(a[1..], b);
      assert (a + b)[1..] == a[1..] + b;
      Regroup(Child(a[0].key, a[0].value), Walk(a[1..]), Walk(b));
    }
  }

  lemma WalkOne(p: Prop)
    ensures Walk([p]) == Child(p.key, p.value)
  {
    assert [p][1..] == [];
    assert Child(p.key, p.value) + [] == Child(p.key, p.value);
  }

  lemma WalkAround(before: seq<Prop>, p: Prop, after: seq<Prop>)
    ensures Walk(before + [p] + after) == Walk(before) + Child(p.key, p.value) + Walk(after)
  {
    WalkAppend(before + [p], after);
    WalkAppend(before, [p]);
    WalkOne(p);
  }

  /** In every position among the properties, under every name: the node of each kind of leaf. */
  lemma LeafProperties(before: seq<Prop>, key: string, shown: string, after: seq<Prop>)
    ensures Walk(before + [Prop(key, Null)] + after) == Walk(before) + [Node(key, "null", [])] + Walk(after)
    ensures Walk(before + [Prop(key, Undefined)] + after) == Walk(before) + [Node(key, "undefined", [])] + Walk(after)
    ensures Walk(before + [Prop(key, Scalar(shown))] + after) == Walk(before) + [Node(key, shown, [])] + Walk(after)
    ensures Walk(before + [Prop(key, Text(shown))] + after) == Walk(before) + [Node(key, shown, [])] + Walk(after)
  {
    WalkAround(before, Prop(key, Null), after);
    WalkAround(before, Prop(key, Undefined), after);
    WalkAround(before, Prop(key, Scalar(shown)), after);
    WalkAround(before, Prop(key, Text(shown)), after);
  }

  /** An object among the properties: one node without text around the nodes of its own properties. */
  lemma ObjectProperty(before: seq<Prop>, key: string, props: seq<Prop>, after: seq<Prop>)
    ensures Walk(before + [Prop(key, Object(props))] + after) ==
            Walk(before) + [Node(key, "", Walk(props))] + Walk(after)
  {
    WalkAround(before, Prop(key, Object(props)), after);
  }

  // ----- the root

  /** The document of a value that is no object holds its text; that of an object, its properties. */
  lemma RootContent(name: string, shown: string, props: seq<Prop>)
    ensures DocumentOf(name, Null) == Node(name, "null", [])
    ensures DocumentOf(name, Undefined) == Node(name, "undefined", [])
    ensures DocumentOf(name, Scalar(shown)) == Node(name, shown, [])
    ensures DocumentOf(name, Text(shown)) == Node(name, shown, [])
    ensures DocumentOf(name, Object(props)) == Node(name, "", Walk(props))
  {}

  /** The document of an array has its elements as children, named by their indices. */
  lemma RootArray(name: string, elems: seq<Value>, i: nat)
    requires i < |elems|
    ensures Enumerated(Array(elems))[i].value == elems[i]
    ensures NumeralValue(Enumerated(Array(elems))[i].key) == i && |Enumerated(Array(elems))| == |elems|
    ensures DocumentOf(name, Array(elems)) == Node(name, "", Walk(Enumerated(Array(elems))))
  {
    DigitsMeanNumber(i);
  }

  // ----- the text of an array

  /** An element in the text of an array: nothing for null and undefined. */
  lemma ArrayTextOne(shown: string, props: seq<Prop>, elems: seq<Value>)
    ensures ToText(Array([])) == ""
    ensures ToText(Array([Null])) == "" && ToText(Array([Undefined])) == ""
    ensures ToText(Array([Scalar(shown)])) == shown && ToText(Array([Text(shown)])) == shown
    ensures ToText(Array([Object(props)])) == "[object Object]"
    ensures ToText(Array([Array(elems)])) == ToText(Array(elems))
  {
    JoinOne(Null);
    JoinOne(Undefined);
    JoinOne(Scalar(shown));
    JoinOne(Text(shown));
    JoinOne(Object(props));
    JoinOne(Array(elems));
  }

  lemma JoinOne(v: Value)
    ensures Join([v]) == if v.Undefined? || v.Null? then "" else ToText(v)
  {}

  /** The elements' texts are joined by commas. */
  lemma {:induction false} ArrayTextAppend(a: seq<Value>, b: seq<Value>)
    requires a != [] && b != []
    ensures ToText(Array(a + b)) == ToText(Array(a)) + "," + ToText(Array(b))
    decreases |a|
  {
    JoinOne(a[0]);
    assert (a + b)[1..] == a[1..] + b;
    if |a| == 1 {
      assert a == [a[0]] && a[1..] + b == b;
    } else {
      ArrayTextAppend(a[1..], b);
      JoinOfMore(a);
      JoinOfMore(a + b);
      RegroupJoin(Join([a[0]]), Join(a[1..]), Join(b));
    }
  }

  lemma JoinOfMore(elems: seq<Value>)
    requires |elems| > 1
    ensures Join(elems) == Join([elems[0]]) + ("," + Join(elems[1..]))
  {
    JoinOne(elems[0]);
  }

  lemma RegroupJoin(a: string, b: string, c: string)
    ensures a + ("," + (b + "," + c)) == (a + ("," + b)) + "," + c
  {}

  // ----- an array in an array

  /** One node for each character of the text from a place on; past its end "undefined". */
  function CharNodes(name: string, text: string, from: nat, count: nat): seq<Xml> {
    seq(count, k requires 0 <= k < count =>
      Node(name, if from + k < |text| then [text[from + k]] else "undefined", []))
  }

  lemma {:induction false} AfterCoercionNodes(name: string, text: string, i: nat, len: nat)
    requires i <= len
    ensures Elements(name, Text(text), i, len) == CharNodes(name, text, i, len - i)
    decreases len - i
  {
    if i < len {
      AfterCoercionNodes(name, text, i + 1, len);
      var e := Index(Text(text), i);
      assert NodeFor(name, e) == CharNodes(name, text, i, len - i)[0];
      assert CharNodes(name, text, i, len - i) == [NodeFor(name, e)] + CharNodes(name, text, i + 1, len - (i + 1));
    }
  }

  lemma {:induction false} ElementsFrom(name: string, before: seq<Value>, inner: seq<Value>, after: seq<Value>, i: nat)
    requires i <= |before| && forall j :: 0 <= j < |before| ==> !before[j].Array?
    ensures var elems := before + [Array(inner)] + after;
            var text := ToText(Array(elems));
            Elements(name, Array(elems), i, |elems|) ==
            seq(|before| - i, k requires 0 <= k < |before| - i => NodeFor(name, before[i + k]))
            + (Child(text, Array(inner)) + CharNodes(name, text, |before| + 1, |after|))
    decreases |before| - i
  {
    var elems := before + [Array(inner)] + after;
    if i < |before| {
      ElementsFrom(name, before, inner, after, i + 1);
      FlatElement(name, elems, i);
      NodesOneMore(name, before, i);
      Regroup([NodeFor(name, before[i])],
              seq(|before| - (i + 1), k requires 0 <= k < |before| - (i + 1) => NodeFor(name, before[i + 1 + k])),
              Child(ToText(Array(elems)), Array(inner)) + CharNodes(name, ToText(Array(elems)), |before| + 1, |after|));
    } else {
      assert Index(Array(elems), i) == Array(inner);
      AfterCoercionNodes(name, ToText(Array(elems)), i + 1, |elems|);
    }
  }

  lemma NodesOneMore(name: string, before: seq<Value>, i: nat)
    requires i < |before|
    ensures seq(|before| - i, k requires 0 <= k < |before| - i => NodeFor(name, before[i + k])) ==
            [NodeFor(name, before[i])]
            + seq(|before| - (i + 1), k requires 0 <= k < |before| - (i + 1) => NodeFor(name, before[i + 1 + k]))
  {}

  /**
   An array whose first element that is an array stands between `before` and `after`, whatever
   those are: the nodes of the elements before it, then the inner array's nodes under the text
   of the outer array as their name, and then, for each element after it, one character of
   that text.
   */
  lemma NestedArray(name: string, before: seq<Value>, inner: seq<Value>, after: seq<Value>)
    requires forall j :: 0 <= j < |before| ==> !before[j].Array?
    ensures var elems := before + [Array(inner)] + after;
            var text := ToText(Array(elems));
            Child(name, Array(elems)) ==
            seq(|before|, k requires 0 <= k < |before| => NodeFor(name, before[k]))
            + (Child(text, Array(inner)) + CharNodes(name, text, |before| + 1, |after|))
  {
    ElementsFrom(name, before, inner, after, 0);
  }
}
