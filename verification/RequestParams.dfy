/**
 `create_request_object_params` (source/jse_main.c:1147-1265): query parameters become the
 properties of one object, and parameters with a dotted name become the properties of one
 nested object per name.
 */
module RequestParams {
  import opened Basics
  import opened ValueStack

  datatype Param = Param(name: string, data: string)

  /** The parsed request; the entries are handed out without copying. */
  class Request {
    var entries: seq<Param>
  }

  /**
   A node of the list of objects that are still on the stack.  A node is filled in before
   it is linked and does not change after that.
   */
  class FileObject {
    const name: string
    const idx: nat
    const next: FileObject?

    constructor (name: string, idx: nat, next: FileObject?)
      ensures this.name == name && this.idx == idx && this.next == next
    {
      this.name, this.idx, this.next := name, idx, next;
    }
  }

  // ----- names

  datatype Name = Plain(name: string) | Dotted(prefix: string, prop: string)

  /** `strchr(name, '.')` and the split at it. */
  function Split(name: string): Name {
    if name == "" then Plain("")
    else if name[0] == '.' then Dotted("", name[1..])
    else match Split(name[1..])
      case Plain(rest) => Plain([name[0]] + rest)
      case Dotted(prefix, prop) => Dotted([name[0]] + prefix, prop)
  }

  /** The split is at the first dot and loses nothing; without a dot there is none. */
  lemma {:induction false} SplitAtFirstDot(name: string)
    ensures match Split(name)
            case Plain(n) => n == name && '.' !in name
            case Dotted(prefix, prop) => '.' !in prefix && name == prefix + "." + prop
  {
    if name != "" && name[0] != '.' {
      SplitAtFirstDot(name[1..]);
      assert name == [name[0]] + name[1..];
    }
  }

  // ----- the specification by cases

  /** The value of the last parameter with exactly this undotted name. */
  function LastPlain(ps: seq<Param>, name: string): Option<Value> {
    if ps == [] then None
    else
      var last := ps[|ps| - 1];
      if Split(last.name) == Plain(name) then Some(Text(last.data))
      else LastPlain(ps[..|ps| - 1], name)
  }

  /** The value of the last parameter called "prefix.prop". */
  function LastDotted(ps: seq<Param>, prefix: string, prop: string): Option<Value> {
    if ps == [] then None
    else
      var last := ps[|ps| - 1];
      if Split(last.name) == Dotted(prefix, prop) then Some(Text(last.data))
      else LastDotted(ps[..|ps| - 1], prefix, prop)
  }

  ghost predicate HasPrefix(ps: seq<Param>, prefix: string) {
    exists i :: 0 <= i < |ps| && Split(ps[i].name).Dotted? && Split(ps[i].name).prefix == prefix
  }

  // ----- what the loop builds

  /** The object at `idx2`, and the objects above it with the names of their list nodes. */
  datatype Groups = Groups(plain: seq<Prop>, files: seq<Prop>)

  function PropsOf(files: seq<Prop>, prefix: string): seq<Prop> {
    match Lookup(files, prefix)
    case Some(Object(props)) => props
    case _ => []
  }

  /** What the files become when one property is set on the object of a prefix. */
  function SetProperty(files: seq<Prop>, prefix: string, prop: string, data: string): seq<Prop> {
    PutProp(files, prefix, Object(PutProp(PropsOf(files, prefix), prop, Text(data))))
  }

  function Add(g: Groups, p: Param): Groups {
    match Split(p.name)
    case Plain(name) => g.(plain := PutProp(g.plain, name, Text(p.data)))
    case Dotted(prefix, prop) =>
      g.(files := SetProperty(g.files, prefix, prop, p.data))
  }

  function Collect(ps: seq<Param>): Groups {
    if ps == [] then Groups([], []) else Add(Collect(ps[..|ps| - 1]), ps[|ps| - 1])
  }

  /** The clean-up: the object on top of the stack goes first. */
  function Attach(plain: seq<Prop>, files: seq<Prop>): seq<Prop>
    decreases |files|
  {
    if files == [] then plain
    else
      var top := files[|files| - 1];
      Attach(PutProp(plain, top.key, top.value), files[..|files| - 1])
  }

  function QueryParameters(ps: seq<Param>): seq<Prop> {
    Attach(Collect(ps).plain, Collect(ps).files)
  }

  ghost predicate AllObjects(files: seq<Prop>) {
    forall i :: 0 <= i < |files| ==> files[i].value.Object?
  }

  lemma {:induction false} PutKeepsObjects(files: seq<Prop>, key: string, props: seq<Prop>)
    requires AllObjects(files)
    ensures AllObjects(PutProp(files, key, Object(props)))
  {
    if files != [] { PutKeepsObjects(files[1..], key, props); }
  }

  lemma {:induction false} LookupObject(files: seq<Prop>, key: string)
    requires AllObjects(files)
    ensures Lookup(files, key).Some? ==> Lookup(files, key).value.Object?
  {
    if files != [] { LookupObject(files[1..], key); }
  }

  ghost predicate WellFormed(g: Groups) {
    UniqueKeys(g.plain) && UniqueKeys(g.files) && AllObjects(g.files)
  }

  lemma AddKeepsWellFormed(g: Groups, p: Param)
    requires WellFormed(g)
    ensures WellFormed(Add(g, p))
  {
    match Split(p.name)
    case Plain(name) => PutKeepsUnique(g.plain, name, Text(p.data));
    case Dotted(prefix, prop) =>
      var props := PutProp(PropsOf(g.files, prefix), prop, Text(p.data));
      PutKeepsUnique(g.files, prefix, Object(props));
      PutKeepsObjects(g.files, prefix, props);
  }

  lemma {:induction false} CollectWellFormed(ps: seq<Param>)
    ensures WellFormed(Collect(ps))
  {
    if ps != [] {
      CollectWellFormed(ps[..|ps| - 1]);
      AddKeepsWellFormed(Collect(ps[..|ps| - 1]), ps[|ps| - 1]);
    }
  }

  lemma {:induction false} AttachLookup(plain: seq<Prop>, files: seq<Prop>, name: string)
    requires UniqueKeys(plain) && UniqueKeys(files)
    ensures UniqueKeys(Attach(plain, files))
    ensures Lookup(Attach(plain, files), name) ==
            if Lookup(files, name).Some? then Lookup(files, name) else Lookup(plain, name)
    decreases |files|
  {
    if files != [] {
      var n := |files| - 1;
      PutKeepsUnique(plain, files[n].key, files[n].value);
      PutThenLookup(plain, files[n].key, files[n].value, name);
      AttachLookup(PutProp(plain, files[n].key, files[n].value), files[..n], name);
      LookupAppend(files[..n], files[n], name);
      LookupFinds(files[..n], files[n].key);
      assert files == files[..n] + [files[n]];
    }
  }

  lemma {:induction false} LookupAppend(props: seq<Prop>, p: Prop, key: string)
    ensures Lookup(props + [p], key) ==
            if Lookup(props, key).Some? then Lookup(props, key)
            else if p.key == key then Some(p.value) else None
  {
    if props == [] {
      assert props + [p] == [p];
    } else {
      LookupAppend(props[1..], p, key);
      assert (props + [p])[1..] == props[1..] + [p];
    }
  }

  lemma {:induction false} CollectPlain(ps: seq<Param>, name: string)
    ensures Lookup(Collect(ps).plain, name) == LastPlain(ps, name)
  {
    if ps != [] {
      var before, last := ps[..|ps| - 1], ps[|ps| - 1];
      CollectPlain(before, name);
      if Split(last.name).Plain? {
        PutThenLookup(Collect(before).plain, Split(last.name).name, Text(last.data), name);
      }
    }
  }

  lemma HasPrefixOneMore(ps: seq<Param>, prefix: string)
    requires ps != []
    ensures HasPrefix(ps, prefix) <==>
            HasPrefix(ps[..|ps| - 1], prefix) ||
            (Split(ps[|ps| - 1].name).Dotted? && Split(ps[|ps| - 1].name).prefix == prefix)
  {
    var before := ps[..|ps| - 1];
    if HasPrefix(before, prefix) {
      var i :| 0 <= i < |before| && Split(before[i].name).Dotted? && Split(before[i].name).prefix == prefix;
      assert ps[i] == before[i];
    }
    if HasPrefix(ps, prefix) {
      var i :| 0 <= i < |ps| && Split(ps[i].name).Dotted? && Split(ps[i].name).prefix == prefix;
      assert i < |before| ==> before[i] == ps[i];
    }
  }

  lemma {:induction false} CollectDotted(ps: seq<Param>, prefix: string, prop: string)
    ensures Lookup(Collect(ps).files, prefix).Some? <==> HasPrefix(ps, prefix)
    ensures Lookup(PropsOf(Collect(ps).files, prefix), prop) == LastDotted(ps, prefix, prop)
  {
    if ps != [] {
      var before, last := ps[..|ps| - 1], ps[|ps| - 1];
      CollectDotted(before, prefix, prop);
      HasPrefixOneMore(ps, prefix);
      if Split(last.name).Dotted? {
        var files, pre, pr := Collect(before).files, Split(last.name).prefix, Split(last.name).prop;
        PutThenLookup(files, pre, Object(PutProp(PropsOf(files, pre), pr, Text(last.data))), prefix);
        PutThenLookup(PropsOf(files, pre), pr, Text(last.data), prop);
      }
    }
  }

  /**
   What QueryParameters is, for every parameter list and every name: an object if some
   dotted parameter has that prefix, even if a plain parameter has the name too, and its
   properties are the last values of the dotted parameters; otherwise the last value of the
   plain parameter; otherwise absent.  No name occurs twice.
   */
  lemma Grouping(ps: seq<Param>, name: string)
    ensures UniqueKeys(QueryParameters(ps))
    ensures HasPrefix(ps, name) ==>
              match Lookup(QueryParameters(ps), name)
              case Some(Object(props)) => forall prop :: Lookup(props, prop) == LastDotted(ps, name, prop)
              case _ => false
    ensures !HasPrefix(ps, name) ==> Lookup(QueryParameters(ps), name) == LastPlain(ps, name)
  {
    var g := Collect(ps);
    CollectWellFormed(ps);
    AttachLookup(g.plain, g.files, name);
    CollectPlain(ps, name);
    CollectDotted(ps, name, "");
    LookupObject(g.files, name);
    forall prop ensures Lookup(PropsOf(g.files, name), prop) == LastDotted(ps, name, prop) {
      CollectDotted(ps, name, prop);
    }
  }

  // ----- the grouping by the parameters' own names

  lemma {:induction false} SplitPlain(name: string)
    requires '.' !in name
    ensures Split(name) == Plain(name)
  {
    if name != "" {
      assert name[0] in name;
      SplitPlain(name[1..]);
    }
  }

  lemma {:induction false} SplitDotted(prefix: string, prop: string)
    requires '.' !in prefix
    ensures Split(prefix + "." + prop) == Dotted(prefix, prop)
  {
    var name := prefix + "." + prop;
    if prefix == "" {
      assert name[1..] == prop;
    } else {
      assert prefix[0] in prefix;
      assert name[1..] == prefix[1..] + "." + prop;
      SplitDotted(prefix[1..], prop);
    }
  }

  /** The i-th parameter is the last one that is called so. */
  ghost predicate IsLastCalled(ps: seq<Param>, i: int, name: string) {
    0 <= i < |ps| && ps[i].name == name && forall j :: i < j < |ps| ==> ps[j].name != name
  }

  ghost predicate NoneCalled(ps: seq<Param>, name: string) {
    forall j :: 0 <= j < |ps| ==> ps[j].name != name
  }

  lemma {:induction false} PlainByName(ps: seq<Param>, name: string, i: int)
    requires '.' !in name
    ensures IsLastCalled(ps, i, name) ==> LastPlain(ps, name) == Some(Text(ps[i].data))
    ensures NoneCalled(ps, name) ==> LastPlain(ps, name) == None
  {
    if ps != [] {
      var n := |ps| - 1;
      PlainByName(ps[..n], name, i);
      SplitPlain(name);
      SplitAtFirstDot(ps[n].name);
      assert Split(ps[n].name) == Plain(name) <==> ps[n].name == name;
    }
  }

  lemma {:induction false} DottedByName(ps: seq<Param>, prefix: string, prop: string, i: int)
    requires '.' !in prefix
    ensures IsLastCalled(ps, i, prefix + "." + prop) ==> LastDotted(ps, prefix, prop) == Some(Text(ps[i].data))
    ensures NoneCalled(ps, prefix + "." + prop) ==> LastDotted(ps, prefix, prop) == None
  {
    if ps != [] {
      var n := |ps| - 1;
      DottedByName(ps[..n], prefix, prop, i);
      SplitDotted(prefix, prop);
      SplitAtFirstDot(ps[n].name);
      assert Split(ps[n].name) == Dotted(prefix, prop) <==> ps[n].name == prefix + "." + prop;
    }
  }

  /** Some parameter's name starts with the prefix and a dot. */
  ghost predicate SomeStartsWith(ps: seq<Param>, prefix: string) {
    exists i :: 0 <= i < |ps| && prefix + "." <= ps[i].name
  }

  lemma PrefixByName(ps: seq<Param>, prefix: string)
    requires '.' !in prefix
    ensures HasPrefix(ps, prefix) <==> SomeStartsWith(ps, prefix)
  {
    forall i | 0 <= i < |ps|
      ensures prefix + "." <= ps[i].name <==> Split(ps[i].name).Dotted? && Split(ps[i].name).prefix == prefix
    {
      var name, head := ps[i].name, prefix + ".";
      SplitAtFirstDot(name);
      if head <= name {
        assert name == prefix + "." + name[|head|..];
        SplitDotted(prefix, name[|head|..]);
      }
    }
  }

  lemma DottedHasNoPlace(ps: seq<Param>, name: string)
    requires '.' in name
    ensures Lookup(QueryParameters(ps), name) == None
  {
    forall i | 0 <= i < |ps| ensures !(Split(ps[i].name).Dotted? && Split(ps[i].name).prefix == name) {
      SplitAtFirstDot(ps[i].name);
    }
    Grouping(ps, name);
    PlainIsUndotted(ps, name);
  }

  lemma {:induction false} PlainIsUndotted(ps: seq<Param>, name: string)
    requires '.' in name
    ensures LastPlain(ps, name) == None
  {
    if ps != [] {
      PlainIsUndotted(ps[..|ps| - 1], name);
      SplitAtFirstDot(ps[|ps| - 1].name);
    }
  }

  /**
   QueryParameters by the parameters' own names: under a name without a dot stands the object of
   the parameters called "name.prop", each property with the data of the last one called so,
   when some parameter's name starts with the name and a dot; else the data of the last parameter
   called so; and under a name with a dot stands nothing.
   */
  lemma GroupingByName(ps: seq<Param>, name: string, prop: string, i: int)
    ensures var found := Lookup(QueryParameters(ps), name);
            if '.' in name then found == None
            else if SomeStartsWith(ps, name) then
              && found.Some? && found.value.Object?
              && (IsLastCalled(ps, i, name + "." + prop) ==>
                    Lookup(found.value.props, prop) == Some(Text(ps[i].data)))
              && (NoneCalled(ps, name + "." + prop) ==> Lookup(found.value.props, prop) == None)
            else
              && (IsLastCalled(ps, i, name) ==> found == Some(Text(ps[i].data)))
              && (NoneCalled(ps, name) ==> found == None)
  {
    Grouping(ps, name);
    if '.' in name {
      DottedHasNoPlace(ps, name);
    } else {
      PrefixByName(ps, name);
      PlainByName(ps, name, i);
      DottedByName(ps, name, prop, i);
    }
  }

  // ----- the size of the groups

  /** The distinct prefixes of the dotted parameters. */
  function Prefixes(ps: seq<Param>): set<string> {
    if ps == [] then {}
    else
      Prefixes(ps[..|ps| - 1]) +
      match Split(ps[|ps| - 1].name)
      case Plain(_) => {}
      case Dotted(prefix, _) => {prefix}
  }

  /** The stack slots that the parameters need above the request object. */
  function Slots(ps: seq<Param>): nat { if ps == [] then 1 else 2 + |Prefixes(ps)| }

  ghost function Keys(files: seq<Prop>): set<string> { set p | p in files :: p.key }

  lemma {:induction false} PutKeys(files: seq<Prop>, key: string, value: Value)
    ensures Keys(PutProp(files, key, value)) == Keys(files) + {key}
    ensures |PutProp(files, key, value)| == |files| + (if key in Keys(files) then 0 else 1)
  {
    if files != [] {
      assert files == [files[0]] + files[1..];
      assert Keys(files) == {files[0].key} + Keys(files[1..]);
      if files[0].key == key {
        assert Keys([Prop(key, value)] + files[1..]) == {key} + Keys(files[1..]);
      } else {
        PutKeys(files[1..], key, value);
        var rest := PutProp(files[1..], key, value);
        assert Keys([files[0]] + rest) == {files[0].key} + Keys(rest);
      }
    }
  }

  /** There is one object for each distinct prefix. */
  lemma {:induction false} PrefixCount(ps: seq<Param>)
    ensures Keys(Collect(ps).files) == Prefixes(ps) && |Collect(ps).files| == |Prefixes(ps)|
  {
    if ps != [] {
      var before, last := ps[..|ps| - 1], ps[|ps| - 1];
      PrefixCount(before);
      match Split(last.name)
      case Plain(_) =>
      case Dotted(prefix, prop) =>
        var files := Collect(before).files;
        PutKeys(files, prefix, Object(PutProp(PropsOf(files, prefix), prop, Text(last.data))));
    }
  }

  // ----- the method

  /**
   The list from `node` is the reverse of the objects stacked above `idx2`: the head node
   has the name and the absolute index of the topmost object, the next node those of the
   object below it, and the list ends where the objects do.
   */
  ghost predicate Mirrors(node: FileObject?, files: seq<Prop>, idx2: nat)
    decreases |files|
  {
    if files == [] then node == null
    else
      var top := |files| - 1;
      && node != null
      && node.name == files[top].key
      && node.idx == idx2 + 1 + top
      && Mirrors(node.next, files[..top], idx2)
  }

  function ValuesOf(files: seq<Prop>): seq<Value> {
    seq(|files|, i requires 0 <= i < |files| => files[i].value)
  }

  /** What the in-place NUL at the first dot leaves of a parameter's name. */
  function Cut(p: Param): Param {
    match Split(p.name)
    case Plain(_) => p
    case Dotted(prefix, _) => p.(name := prefix)
  }

  function CutAll(ps: seq<Param>): seq<Param> {
    seq(|ps|, i requires 0 <= i < |ps| => Cut(ps[i]))
  }

  /** The data stays, and of the name what stands before its first dot; all of it without one. */
  ghost predicate IsCut(before: Param, after: Param) {
    && after.data == before.data && '.' !in after.name
    && (after.name == before.name || exists rest :: before.name == after.name + "." + rest)
  }

  lemma CutAllIsCut(ps: seq<Param>)
    ensures |CutAll(ps)| == |ps| && forall i :: 0 <= i < |ps| ==> IsCut(ps[i], CutAll(ps)[i])
  {
    forall i | 0 <= i < |ps| ensures IsCut(ps[i], CutAll(ps)[i]) {
      SplitAtFirstDot(ps[i].name);
      if Split(ps[i].name).Dotted? {
        assert ps[i].name == Split(ps[i].name).prefix + "." + Split(ps[i].name).prop;
      }
    }
  }

  /** The position of a key among the file objects. */
  lemma {:induction false} PutAt(files: seq<Prop>, k: nat, value: Value)
    requires UniqueKeys(files) && k < |files|
    ensures PutProp(files, files[k].key, value) == files[k := Prop(files[k].key, value)]
    ensures Lookup(files, files[k].key) == Some(files[k].value)
  {
    if k > 0 {
      PutAt(files[1..], k - 1, value);
      assert files == [files[0]] + files[1..];
    }
  }

  lemma {:induction false} PutNew(files: seq<Prop>, key: string, value: Value)
    requires forall i :: 0 <= i < |files| ==> files[i].key != key
    ensures PutProp(files, key, value) == files + [Prop(key, value)]
    ensures Lookup(files, key) == None
  {
    if files != [] {
      PutNew(files[1..], key, value);
      assert files + [Prop(key, value)] == [files[0]] + (files[1..] + [Prop(key, value)]);
    }
  }

  /** The search through the list: the node of the name, or null when there is none. */
  method FindFileObject(head: FileObject?, name: string, ghost files: seq<Prop>, ghost idx2: nat)
    returns (node: FileObject?, ghost pos: nat)
    requires Mirrors(head, files, idx2)
    ensures node != null ==> pos < |files| && files[pos].key == name && node.idx == idx2 + 1 + pos
    ensures node == null ==> forall i :: 0 <= i < |files| ==> files[i].key != name
  {
    node, pos := head, |files|;
    assert files[..pos] == files;
    while node != null
      invariant pos <= |files| && Mirrors(node, files[..pos], idx2)
      invariant forall i :: pos <= i < |files| ==> files[i].key != name
      decreases pos
    {
      pos := pos - 1;
      assert files[..pos + 1][..pos] == files[..pos];
      if node.name == name { return; }
      node := node.next;
    }
  }

  /**
   The clean-up loop, for every list: each put pops the object that the head node names, so
   every object is attached under its own name and the stack comes back to the object at
   `idx2`.
   */
  method AttachFileObjects(stack: Stack, head: FileObject?, idx2: nat,
                           ghost plain: seq<Prop>, ghost files: seq<Prop>)
    requires Mirrors(head, files, idx2) && idx2 < |stack.vals|
    requires stack.vals == stack.vals[..idx2] + [Object(plain)] + ValuesOf(files)
    modifies stack
    ensures stack.vals == old(stack.vals)[..idx2] + [Object(Attach(plain, files))]
    ensures stack.HighWater() == old(stack.HighWater())
  {
    ghost var base := stack.vals[..idx2];
    ghost var left, p := files, plain;
    var node := head;
    while node != null
      invariant Mirrors(node, left, idx2)
      invariant stack.vals == base + [Object(p)] + ValuesOf(left)
      invariant Attach(p, left) == Attach(plain, files)
      invariant stack.HighWater() == old(stack.HighWater())
      decreases |left|
    {
      ghost var top := |left| - 1;
      assert stack.vals[|stack.vals| - 1] == left[top].value;
      stack.PutPropString(idx2, node.name);
      p := PutProp(p, left[top].key, left[top].value);
      left := left[..top];
      assert stack.vals == base + [Object(p)] + ValuesOf(left);
      node := node.next;
    }
  }

  /** A name without a dot: a string property of the object at `idx2`. */
  method AddPlain(stack: Stack, name: string, data: string, idx2: nat,
                  ghost base: seq<Value>, ghost plain: seq<Prop>, ghost above: seq<Value>)
    requires idx2 == |base| && stack.vals == base + [Object(plain)] + above
    modifies stack
    ensures stack.vals == base + [Object(PutProp(plain, name, Text(data)))] + above
    ensures Raised(old(stack.HighWater()), stack.HighWater(), |stack.vals| + 1)
  {
    var _ := stack.Push(Text(data));
    stack.PutPropString(idx2, name);
  }

  /** A dotted name: a string property of the object at an index above `idx2`. */
  method AddDotted(stack: Stack, prop: string, data: string, idx: nat,
                   ghost below: seq<Value>, ghost files: seq<Prop>, ghost pos: nat)
    requires pos < |files| && files[pos].value.Object? && idx == |below| + pos
    requires stack.vals == below + ValuesOf(files)
    modifies stack
    ensures stack.vals == below + ValuesOf(files[pos :=
              Prop(files[pos].key, Object(PutProp(files[pos].value.props, prop, Text(data))))])
    ensures Raised(old(stack.HighWater()), stack.HighWater(), |stack.vals| + 1)
  {
    var _ := stack.Push(Text(data));
    stack.PutPropString(idx, prop);
  }

  /** Changing the value of an object leaves the list as it is. */
  lemma {:induction false} MirrorsKeys(node: FileObject?, files: seq<Prop>, idx2: nat, pos: nat, value: Value)
    requires pos < |files| && Mirrors(node, files, idx2)
    ensures Mirrors(node, files[pos := Prop(files[pos].key, value)], idx2)
    decreases |files|
  {
    var top, changed := |files| - 1, files[pos := Prop(files[pos].key, value)];
    if pos < top {
      MirrorsKeys(node.next, files[..top], idx2, pos, value);
      assert changed[..top] == files[..top][pos := Prop(files[pos].key, value)];
    } else {
      assert changed[..top] == files[..top];
    }
  }

  /** The prefix has an object: its property is set where it is on the stack. */
  method SetOnExisting(stack: Stack, node: FileObject, prop: string, data: string,
                       ghost head: FileObject, ghost below: seq<Value>, ghost files: seq<Prop>, ghost pos: nat)
    requires UniqueKeys(files) && below != [] && Mirrors(head, files, |below| - 1)
    requires pos < |files| && files[pos].value.Object? && node.idx == |below| + pos
    requires stack.vals == below + ValuesOf(files)
    modifies stack
    ensures Mirrors(head, SetProperty(files, files[pos].key, prop, data), |below| - 1)
    ensures stack.vals == below + ValuesOf(SetProperty(files, files[pos].key, prop, data))
    ensures Raised(old(stack.HighWater()), stack.HighWater(), |stack.vals| + 1)
  {
    ghost var value := Object(PutProp(files[pos].value.props, prop, Text(data)));
    PutAt(files, pos, value);
    MirrorsKeys(head, files, |below| - 1, pos, value);
    AddDotted(stack, prop, data, node.idx, below, files, pos);
  }

  /** The prefix has no object yet: one is pushed and its node becomes the head. */
  method SetOnNew(stack: Stack, head: FileObject?, prefix: string, prop: string, data: string,
                  ghost below: seq<Value>, ghost files: seq<Prop>)
    returns (node: FileObject)
    requires below != [] && Mirrors(head, files, |below| - 1)
    requires forall i :: 0 <= i < |files| ==> files[i].key != prefix
    requires stack.vals == below + ValuesOf(files)
    modifies stack
    ensures Mirrors(node, SetProperty(files, prefix, prop, data), |below| - 1)
    ensures stack.vals == below + ValuesOf(SetProperty(files, prefix, prop, data))
    ensures Raised(old(stack.HighWater()), stack.HighWater(), |stack.vals| + 1)
  {
    var idx := stack.Push(Object([]));
    ghost var more := files + [Prop(prefix, Object([]))];
    assert stack.vals == below + ValuesOf(more);
    node := new FileObject(prefix, idx, head);
    AddDotted(stack, prop, data, idx, below, more, |files|);
    ghost var value := Object([Prop(prop, Text(data))]);
    PutNew(files, prefix, value);
    assert more[|files| := Prop(prefix, value)] == files + [Prop(prefix, value)];
    assert (files + [Prop(prefix, value)])[..|files|] == files;
  }

  /** A dotted name: to the object of its prefix, which is made when there is none. */
  method AddFileProperty(stack: Stack, head: FileObject?, prefix: string, prop: string, data: string,
                         ghost below: seq<Value>, ghost files: seq<Prop>)
    returns (newHead: FileObject?)
    requires UniqueKeys(files) && AllObjects(files) && below != []
    requires Mirrors(head, files, |below| - 1) && stack.vals == below + ValuesOf(files)
    modifies stack
    ensures Mirrors(newHead, SetProperty(files, prefix, prop, data), |below| - 1)
    ensures stack.vals == below + ValuesOf(SetProperty(files, prefix, prop, data))
    ensures Raised(old(stack.HighWater()), stack.HighWater(), |stack.vals| + 1)
  {
    newHead := head;
    var node, pos := FindFileObject(head, prefix, files, |below| - 1);
    if node == null {
      newHead := SetOnNew(stack, head, prefix, prop, data, below, files);
    } else {
      SetOnExisting(stack, node, prop, data, head, below, files, pos);
    }
  }

  /** The loop state between two parameters. */
  ghost predicate Building(stack: Stack, head: FileObject?, base: seq<Value>, g: Groups)
    reads stack
  {
    && Mirrors(head, g.files, |base|)
    && stack.vals == base + [Object(g.plain)] + ValuesOf(g.files)
  }

  lemma FilesGrow(g: Groups, p: Param)
    ensures |g.files| <= |Add(g, p).files|
  {
    match Split(p.name)
    case Plain(_) =>
    case Dotted(prefix, prop) =>
      PutKeys(g.files, prefix, Object(PutProp(PropsOf(g.files, prefix), prop, Text(p.data))));
  }

  /** One pass of the first loop. */
  method AddParam(stack: Stack, head: FileObject?, p: Param, idx2: nat,
                  ghost base: seq<Value>, ghost g: Groups)
    returns (newHead: FileObject?)
    requires WellFormed(g) && Building(stack, head, base, g) && idx2 == |base|
    modifies stack
    ensures Building(stack, newHead, base, Add(g, p))
    ensures Raised(old(stack.HighWater()), stack.HighWater(), |stack.vals| + 1)
    ensures |old(stack.vals)| <= |stack.vals|
  {
    newHead := head;
    FilesGrow(g, p);
    match Split(p.name) {
      case Plain(name) =>
        AddPlain(stack, name, p.data, idx2, base, g.plain, ValuesOf(g.files));
      case Dotted(prefix, prop) =>
        newHead := AddFileProperty(stack, head, prefix, prop, p.data, base + [Object(g.plain)], g.files);
    }
  }

  /**
   `create_request_object_params`: on any stack with the request object at `idx` and any
   parameters, the object gains one property QueryParameters, whose value is the pure
   grouping of the parameters, and the stack is otherwise as it was.  The names of the
   request's entries are left cut at their first dot.  On the way the stack grows by one slot
   for QueryParameters and, when there are parameters at all, one for the value at hand and one
   for each distinct prefix.
   */
  method CreateRequestObjectParams(stack: Stack, req: Request, idx: nat)
    requires idx < |stack.vals| && stack.vals[idx].Object?
    modifies stack, req
    ensures stack.vals == old(stack.vals)[idx :=
              Object(PutProp(old(stack.vals)[idx].props, "QueryParameters",
                             Object(QueryParameters(old(req.entries)))))]
    ensures |req.entries| == |old(req.entries)|
    ensures forall i :: 0 <= i < |req.entries| ==> IsCut(old(req.entries)[i], req.entries[i])
    ensures Raised(old(stack.HighWater()), stack.HighWater(), |old(stack.vals)| + Slots(old(req.entries)))
  {
    ghost var base, ps := stack.vals, req.entries;
    PrefixCount(ps);
    CutAllIsCut(ps);
    var idx2 := stack.Push(Object([]));
    var head := GroupParams(stack, req, idx2, base);
    AttachFileObjects(stack, head, idx2, Collect(ps).plain, Collect(ps).files);
    assert stack.vals == base + [Object(QueryParameters(ps))];
    stack.PutPropString(idx, "QueryParameters");
  }

  /** The first loop: over the entries, cutting each dotted name in place. */
  method GroupParams(stack: Stack, req: Request, idx2: nat, ghost base: seq<Value>)
    returns (head: FileObject?)
    requires idx2 == |base| && stack.vals == base + [Object([])]
    modifies stack, req
    ensures Building(stack, head, base, Collect(old(req.entries)))
    ensures stack.vals[..idx2] == base
    ensures req.entries == CutAll(old(req.entries))
    ensures Raised(old(stack.HighWater()), stack.HighWater(), |stack.vals| + (if old(req.entries) == [] then 0 else 1))
  {
    ghost var ps := req.entries;
    head := null;
    var next := 0;
    while next < |req.entries|
      invariant next <= |req.entries| == |ps|
      invariant forall i :: 0 <= i < next ==> req.entries[i] == Cut(ps[i])
      invariant forall i :: next <= i < |ps| ==> req.entries[i] == ps[i]
      invariant Building(stack, head, base, Collect(ps[..next]))
      invariant Raised(old(stack.HighWater()), stack.HighWater(), |stack.vals| + (if next == 0 then 0 else 1))
    {
      var p := req.entries[next];
      CollectOneMore(ps, next);
      head := AddParam(stack, head, p, idx2, base, Collect(ps[..next]));
      req.entries := req.entries[next := Cut(p)];
      next := next + 1;
    }
    assert ps[..next] == ps;
    assert req.entries == CutAll(ps);
  }

  lemma CollectOneMore(ps: seq<Param>, n: nat)
    requires n < |ps|
    ensures WellFormed(Collect(ps[..n]))
    ensures Collect(ps[..n + 1]) == Add(Collect(ps[..n]), ps[n])
  {
    assert ps[..n + 1][..n] == ps[..n];
    CollectWellFormed(ps[..n]);
  }
}
