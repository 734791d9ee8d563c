/**
 The reference counts that decide which global functions a new JavaScript heap gets
 (source/jse_main.c:1032-1104, 1535-1667 and the bind functions of each module).
 */
module Bindings {

  /** The globals that are put together, under one reference count; the first has none. */
  datatype Group = BuiltIns | JsError | JsCommon | JsProcess | Xml | CosaError | Cosa | Crypt

  /** The build options. */
  datatype Options = Options(xml: bool, cosa: bool, crypt: bool)

  function PutIf(puts: seq<Group>, b: bool, g: Group): seq<Group> { if b then puts + [g] else puts }

  /** Every group of the build, in the order of binding. */
  function AllGroups(o: Options): seq<Group> {
    PutIf(PutIf(PutIf(PutIf([BuiltIns, JsError, JsCommon, JsProcess],
      o.xml, Xml), o.cosa, CosaError), o.cosa, Cosa), o.crypt, Crypt)
  }

  /** The values of all the counters. */
  datatype Counts = Counts(jserror: nat, jscommon: nat, jsprocess: nat, xml: nat, cosaError: nat, cosa: nat, crypt: nat)

  const ZERO := Counts(0, 0, 0, 0, 0, 0, 0)

  /** The shared counts are the sums of the counts of the modules that share them. */
  ghost predicate Balanced(o: Options, c: Counts) {
    && c.jserror == c.jscommon + c.jsprocess + c.crypt
    && c.cosaError == c.cosa
    && (!o.xml ==> c.xml == 0) && (!o.cosa ==> c.cosa == 0) && (!o.crypt ==> c.crypt == 0)
  }

  /** What `bind_functions` adds to a heap: each group whose count is zero at that moment. */
  function Bound(puts: seq<Group>, o: Options, c: Counts): seq<Group> {
    PutIf(PutIf(PutIf(PutIf(PutIf(PutIf(PutIf(puts + [BuiltIns],
      c.jserror == 0, JsError), c.jscommon == 0, JsCommon), c.jsprocess == 0, JsProcess),
      o.xml && c.xml == 0, Xml), o.cosa && c.cosaError == 0, CosaError), o.cosa && c.cosa == 0, Cosa),
      o.crypt && c.crypt == 0, Crypt)
  }

  /** A new heap gets every group of the build if and only if every count is zero. */
  lemma CompleteWhenZero(o: Options, c: Counts)
    requires Balanced(o, c)
    ensures Bound([], o, c) == AllGroups(o) <==> c == ZERO
  {
    assert [] + [BuiltIns] == [BuiltIns];
    assert [BuiltIns] + [JsError] + [JsCommon] + [JsProcess] == [BuiltIns, JsError, JsCommon, JsProcess];
    if c != ZERO {
      assert |Bound([], o, c)| < |AllGroups(o)|;
    }
  }

  /** The groups of a build: four always, the others by its options, none twice. */
  lemma GroupsOfBuild(o: Options)
    ensures forall g :: g in AllGroups(o) <==>
              || g in {BuiltIns, JsError, JsCommon, JsProcess}
              || (o.xml && g == Xml) || (o.cosa && g in {CosaError, Cosa}) || (o.crypt && g == Crypt)
    ensures forall i, j :: 0 <= i < j < |AllGroups(o)| ==> AllGroups(o)[i] != AllGroups(o)[j]
  {
    assert AllGroups(o)[..4] == [BuiltIns, JsError, JsCommon, JsProcess];
  }

  /** A heap remembers every put into its global object, in order. */
  class Heap {
    var puts: seq<Group>

    constructor ()
      ensures puts == []
    {
      puts := [];
    }
  }

  /** The static counters of the modules. */
  class Counters {
    const options: Options
    var jserror: nat
    var jscommon: nat
    var jsprocess: nat
    var xml: nat
    var cosaError: nat
    var cosa: nat
    var crypt: nat

    ghost function Values(): Counts
      reads this
    {
      Counts(jserror, jscommon, jsprocess, xml, cosaError, cosa, crypt)
    }

    ghost predicate Valid()
      reads this
    {
      Balanced(options, Values())
    }

    constructor (options: Options)
      ensures Valid() && Values() == ZERO && this.options == options
    {
      this.options := options;
      jserror, jscommon, jsprocess, xml, cosaError, cosa, crypt := 0, 0, 0, 0, 0, 0, 0;
    }

    method BindJsError(heap: Heap)
      modifies this`jserror, heap
      ensures jserror == old(jserror) + 1
      ensures heap.puts == PutIf(old(heap.puts), old(jserror) == 0, JsError)
    {
      if jserror == 0 { heap.puts := heap.puts + [JsError]; }
      jserror := jserror + 1;
    }

    method BindJsCommon(heap: Heap)
      modifies this`jserror, this`jscommon, heap
      ensures jserror == old(jserror) + 1 && jscommon == old(jscommon) + 1
      ensures heap.puts == PutIf(PutIf(old(heap.puts), old(jserror) == 0, JsError), old(jscommon) == 0, JsCommon)
    {
      BindJsError(heap);
      if jscommon == 0 { heap.puts := heap.puts + [JsCommon]; }
      jscommon := jscommon + 1;
    }

    method BindJsProcess(heap: Heap)
      modifies this`jserror, this`jsprocess, heap
      ensures jserror == old(jserror) + 1 && jsprocess == old(jsprocess) + 1
      ensures heap.puts == PutIf(PutIf(old(heap.puts), old(jserror) == 0, JsError), old(jsprocess) == 0, JsProcess)
    {
      BindJsError(heap);
      if jsprocess == 0 { heap.puts := heap.puts + [JsProcess]; }
      jsprocess := jsprocess + 1;
    }

    method BindCosa(heap: Heap)
      modifies this`cosaError, this`cosa, heap
      ensures cosaError == old(cosaError) + 1 && cosa == old(cosa) + 1
      ensures heap.puts == PutIf(PutIf(old(heap.puts), old(cosaError) == 0, CosaError), old(cosa) == 0, Cosa)
    {
      if cosaError == 0 { heap.puts := heap.puts + [CosaError]; }
      cosaError := cosaError + 1;
      if cosa == 0 { heap.puts := heap.puts + [Cosa]; }
      cosa := cosa + 1;
    }

    method BindCrypt(heap: Heap)
      modifies this`jserror, this`crypt, heap
      ensures jserror == old(jserror) + 1 && crypt == old(crypt) + 1
      ensures heap.puts == PutIf(PutIf(old(heap.puts), old(jserror) == 0, JsError), old(crypt) == 0, Crypt)
    {
      BindJsError(heap);
      if crypt == 0 { heap.puts := heap.puts + [Crypt]; }
      crypt := crypt + 1;
    }

    /**
     `bind_functions`: every count of the build goes up, the sums are kept, and the heap gets
     the groups whose counts were zero, so that a new heap gets every group of the build if
     and only if all counts were zero.
     */
    method BindFunctions(heap: Heap)
      requires Valid()
      modifies this, heap
      ensures Valid()
      ensures jscommon == old(jscommon) + 1 && jsprocess == old(jsprocess) + 1
      ensures xml == old(xml) + (if options.xml then 1 else 0)
      ensures cosa == old(cosa) + (if options.cosa then 1 else 0)
      ensures crypt == old(crypt) + (if options.crypt then 1 else 0)
      ensures heap.puts == Bound(old(heap.puts), options, old(Values()))
      ensures old(heap.puts) == [] ==> (heap.puts == AllGroups(options) <==> old(Values()) == ZERO)
    {
      CompleteWhenZero(options, Values());
      heap.puts := heap.puts + [BuiltIns];
      BindJsCommon(heap);
      BindJsProcess(heap);
      if options.xml {
        if xml == 0 { heap.puts := heap.puts + [Xml]; }
        xml := xml + 1;
      }
      if options.cosa { BindCosa(heap); }
      if options.crypt { BindCrypt(heap); }
    }

    /** `unbind_functions`: every count of the build goes down; no group is taken away. */
    method UnbindFunctions()
      requires Valid() && jscommon > 0 && jsprocess > 0
      requires (options.xml ==> xml > 0) && (options.cosa ==> cosa > 0) && (options.crypt ==> crypt > 0)
      modifies this
      ensures Valid()
      ensures jscommon == old(jscommon) - 1 && jsprocess == old(jsprocess) - 1
      ensures xml == old(xml) - (if options.xml then 1 else 0)
      ensures cosa == old(cosa) - (if options.cosa then 1 else 0)
      ensures crypt == old(crypt) - (if options.crypt then 1 else 0)
    {
      if options.crypt { crypt, jserror := crypt - 1, jserror - 1; }
      if options.cosa { cosa, cosaError := cosa - 1, cosaError - 1; }
      if options.xml { xml := xml - 1; }
      jsprocess, jserror := jsprocess - 1, jserror - 1;
      jscommon, jserror := jscommon - 1, jserror - 1;
    }

    /** The FastCGI loop: a new heap for each request, bound, used and unbound. */
    method Serve(requests: nat) returns (heaps: seq<Heap>)
      requires Valid() && Values() == ZERO
      modifies this
      ensures Valid() && Values() == ZERO
      ensures |heaps| == requests && forall i :: 0 <= i < requests ==> heaps[i].puts == AllGroups(options)
    {
      heaps := [];
      for n := 0 to requests
        invariant Valid() && Values() == ZERO && |heaps| == n
        invariant forall i :: 0 <= i < n ==> fresh(heaps[i]) && heaps[i].puts == AllGroups(options)
      {
        var heap := new Heap();
        BindFunctions(heap);
        heaps := heaps + [heap];
        UnbindFunctions();
      }
    }
  }
}
