/**
 The part of the Duktape value stack that the tree builders use.  Values are trees: every
 object that the builders change is referred to from one stack slot only.
 */
module ValueStack {
  import opened Basics
  import opened Decimal

  /**
   The properties of an object are listed in enumeration order; a number or boolean is given
   by its conversion to a string.
   */
  datatype Value =
    | Undefined
    | Null
    | Scalar(shown: string)
    | Text(text: string)
    | Object(props: seq<Prop>)
    | Array(elems: seq<Value>)
    | Enumerator(left: seq<Prop>)

  datatype Prop = Prop(key: string, value: Value)

  ghost predicate UniqueKeys(props: seq<Prop>) {
    forall i, j :: 0 <= i < j < |props| ==> props[i].key != props[j].key
  }

  function Lookup(props: seq<Prop>, key: string): Option<Value> {
    if props == [] then None
    else if props[0].key == key then Some(props[0].value)
    else Lookup(props[1..], key)
  }

  /** Assigning a property: in place when the key is there, at the end when it is new. */
  function PutProp(props: seq<Prop>, key: string, value: Value): seq<Prop> {
    if props == [] then [Prop(key, value)]
    else if props[0].key == key then [Prop(key, value)] + props[1..]
    else [props[0]] + PutProp(props[1..], key, value)
  }

  lemma {:induction false} PutThenLookup(props: seq<Prop>, key: string, value: Value, other: string)
    ensures Lookup(PutProp(props, key, value), other) ==
            if other == key then Some(value) else Lookup(props, other)
  {
    if props != [] && props[0].key != key {
      PutThenLookup(props[1..], key, value, other);
    }
  }

  lemma {:induction false} LookupFinds(props: seq<Prop>, key: string)
    ensures Lookup(props, key).Some? <==> exists i :: 0 <= i < |props| && props[i].key == key
  {
    if props != [] {
      LookupFinds(props[1..], key);
      if Lookup(props, key).Some? && props[0].key != key {
        var i :| 0 <= i < |props[1..]| && props[1..][i].key == key;
        assert props[i + 1].key == key;
      } else if Lookup(props, key).None? {
        forall i | 0 <= i < |props| ensures props[i].key != key {
          assert i > 0 ==> props[i] == props[1..][i - 1];
        }
      }
    }
  }

  lemma {:induction false} PutKeepsUnique(props: seq<Prop>, key: string, value: Value)
    requires UniqueKeys(props)
    ensures UniqueKeys(PutProp(props, key, value))
  {
    if props != [] && props[0].key != key {
      var rest := PutProp(props[1..], key, value);
      PutKeepsUnique(props[1..], key, value);
      forall i | 0 <= i < |rest| ensures rest[i].key != props[0].key {
        PutThenLookup(props[1..], key, value, rest[i].key);
        LookupFinds(rest, rest[i].key);
        LookupFinds(props[1..], rest[i].key);
      }
    }
  }

  /** The mark has come up to a height, if it was not there already. */
  predicate Raised(before: nat, after: nat, height: nat): (raised: bool)
    ensures raised <==> after >= before && after >= height && (after == before || after == height)
  {
    after == if before < height then height else before
  }

  lemma RaisedTwice(a: nat, b: nat, c: nat, base: nat, first: nat, second: nat)
    requires Raised(a, b, base + first) && Raised(b, c, base + second)
    ensures Raised(a, c, base + Max(first, second))
  {}

  class Stack {
    var vals: seq<Value>
    /** The most slots that were in use before the last slot was given back. */
    ghost var peak: nat

    /** The most slots that have been in use so far. */
    ghost function HighWater(): nat
      reads this
    {
      Max(peak, |vals|)
    }

    /** Duktape indices count from the base, or from the top when negative. */
    predicate InRange(idx: int)
      reads this
    {
      -|vals| <= idx < |vals|
    }

    function Absolute(idx: int): nat
      reads this
      requires InRange(idx)
    {
      if idx < 0 then |vals| + idx else idx
    }

    function Get(idx: int): Value
      reads this
      requires InRange(idx)
    {
      vals[Absolute(idx)]
    }

    constructor ()
      ensures vals == [] && HighWater() == 0
    {
      vals, peak := [], 0;
    }

    /** `duk_push_object`, and the other pushes: the new top's absolute index. */
    method Push(v: Value) returns (idx: nat)
      modifies this
      ensures vals == old(vals) + [v] && idx == |old(vals)|
      ensures Raised(old(HighWater()), HighWater(), |vals|)
    {
      idx := |vals|;
      vals := vals + [v];
    }

    /** `duk_pop`. */
    method Pop()
      requires vals != []
      modifies this
      ensures vals == old(vals)[..|old(vals)| - 1] && HighWater() == old(HighWater())
    {
      peak := HighWater();
      vals := vals[..|vals| - 1];
    }

    /** `duk_put_prop_string`: pops the value and makes it a property of the object at idx. */
    method PutPropString(idx: int, key: string)
      requires InRange(idx) && Absolute(idx) < |vals| - 1 && Get(idx).Object?
      modifies this
      ensures vals == old(vals)[..|old(vals)| - 1]
                [old(Absolute(idx)) := Object(PutProp(old(Get(idx)).props, key, old(vals)[|old(vals)| - 1]))]
      ensures HighWater() == old(HighWater())
    {
      peak := HighWater();
      var at, top := Absolute(idx), |vals| - 1;
      vals := vals[..top][at := Object(PutProp(vals[at].props, key, vals[top]))];
    }

    /** `duk_safe_to_string`: coerces the slot in place and returns the string. */
    method SafeToString(idx: int) returns (s: string)
      requires InRange(idx)
      modifies this
      ensures s == ToText(old(Get(idx)))
      ensures vals == old(vals)[old(Absolute(idx)) := Text(s)] && HighWater() == old(HighWater())
    {
      s := ToText(Get(idx));
      vals := vals[Absolute(idx) := Text(s)];
    }

    /** `duk_get_prop_index`. */
    method GetPropIndex(idx: int, i: nat)
      requires InRange(idx)
      modifies this
      ensures vals == old(vals) + [Index(old(Get(idx)), i)]
      ensures Raised(old(HighWater()), HighWater(), |vals|)
    {
      vals := vals + [Index(Get(idx), i)];
    }

    /** `duk_enum` pushes an enumerator for the value at idx. */
    method Enum(idx: int)
      requires InRange(idx)
      modifies this
      ensures vals == old(vals) + [Enumerator(Enumerated(old(Get(idx))))]
      ensures Raised(old(HighWater()), HighWater(), |vals|)
    {
      vals := vals + [Enumerator(Enumerated(Get(idx)))];
    }

    /** `duk_next` on an enumerator on top of the stack: pushes the next key and value. */
    method Next() returns (more: bool)
      requires vals != [] && vals[|vals| - 1].Enumerator?
      modifies this
      ensures var top, left := |old(vals)| - 1, old(vals)[|old(vals)| - 1].left;
              && more == (left != [])
              && vals == if left == [] then old(vals)
                         else old(vals)[..top] + [Enumerator(left[1..]), Text(left[0].key), left[0].value]
      ensures Raised(old(HighWater()), HighWater(), |vals|)
    {
      var top := |vals| - 1;
      var left := vals[top].left;
      more := left != [];
      if more {
        vals := vals[..top] + [Enumerator(left[1..]), Text(left[0].key), left[0].value];
      }
    }
  }

  // ----- coercions

  /** JavaScript's conversion to a string; an object has no `toString` of its own here. */
  function ToText(v: Value): string
    decreases v, 1
  {
    match v
    case Undefined => "undefined"
    case Null => "null"
    case Scalar(shown) => shown
    case Text(s) => s
    case Array(elems) => Join(elems)
    case Object(_) => "[object Object]"
    case Enumerator(_) => "[object Object]"
  }

  function Join(elems: seq<Value>): string
    decreases elems, 0
  {
    if elems == [] then ""
    else
      (if elems[0].Undefined? || elems[0].Null? then "" else ToText(elems[0])) +
      (if |elems| == 1 then "" else "," + Join(elems[1..]))
  }

  /** The property with an index: an element, or a character of a string. */
  function Index(v: Value, i: nat): Value {
    match v
    case Array(elems) => if i < |elems| then elems[i] else Undefined
    case Text(s) => if i < |s| then Text([s[i]]) else Undefined
    case _ => Undefined
  }

  /** The enumerable properties in order; an array's keys are its indices. */
  function Enumerated(v: Value): seq<Prop> {
    match v
    case Object(props) => props
    case Array(elems) => seq(|elems|, i requires 0 <= i < |elems| => Prop(Digits(i), elems[i]))
    case _ => []
  }
}
