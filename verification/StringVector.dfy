/**
 The growing, NULL-terminated vector of C strings that carries the arguments and the
 environment of a process (source/jse_jsprocess.c:511-738), over an explicit allocator
 so that every block is freed exactly once.
 */
module StringVector {
  import opened Basics

  /** A heap block that `strdup` returned. */
  class HeapString {
    const text: string

    constructor (text: string)
      ensures this.text == text
    {
      this.text := text;
    }
  }

  type Block = array<HeapString?>

  /** `malloc` and `free`: only a live block may be freed, and it is then no longer live. */
  class Allocator {
    ghost var strings: set<HeapString>
    ghost var arrays: set<Block>

    method Strdup(text: string) returns (copy: HeapString)
      modifies this`strings
      ensures fresh(copy) && copy.text == text
      ensures copy !in old(strings) && strings == old(strings) + {copy}
    {
      copy := new HeapString(text);
      strings := strings + {copy};
    }

    method Calloc(size: nat) returns (block: Block)
      modifies this`arrays
      ensures fresh(block) && block.Length == size && forall i :: 0 <= i < size ==> block[i] == null
      ensures block !in old(arrays) && arrays == old(arrays) + {block}
    {
      block := new HeapString?[size](_ => null);
      arrays := arrays + {block};
    }

    /** The old block goes, the new one keeps its elements; the rest is unspecified. */
    method Realloc(block: Block, size: nat) returns (moved: Block)
      requires block in arrays && block.Length <= size
      modifies this`arrays
      ensures fresh(moved) && moved.Length == size
      ensures forall i :: 0 <= i < block.Length ==> moved[i] == block[i]
      ensures moved !in old(arrays) && arrays == old(arrays) - {block} + {moved}
    {
      moved := new HeapString?[size];
      forall i | 0 <= i < block.Length { moved[i] := block[i]; }
      arrays := arrays - {block} + {moved};
    }

    method FreeString(s: HeapString)
      requires s in strings
      modifies this`strings
      ensures strings == old(strings) - {s}
    {
      strings := strings - {s};
    }

    method FreeArray(block: Block)
      requires block in arrays
      modifies this`arrays
      ensures arrays == old(arrays) - {block}
    {
      arrays := arrays - {block};
    }
  }

  function Texts(s: seq<HeapString>): seq<string> {
    seq(|s|, i requires 0 <= i < |s| => s[i].text)
  }

  ghost predicate Distinct(s: seq<HeapString>) {
    forall i, j :: 0 <= i < j < |s| ==> s[i] != s[j]
  }

  ghost function Elements(s: seq<HeapString>): set<HeapString> { set c | c in s }

  /** The first doubling of `size` that leaves room for one more string and its NULL. */
  function Grown(size: nat, length: nat): (s: nat)
    requires 0 < size
    ensures length + 2 < s && size <= s
    ensures length + 2 < size ==> s == size
    ensures length + 2 >= size ==> s <= 2 * (length + 2)
    decreases length + 3 - size
  {
    if length + 2 >= size then Grown(2 * size, length) else size
  }

  /** The variables `array`, `length` and `size` that the C functions pass by pointer. */
  class Vector {
    var block: Block
    var length: nat
    var size: nat
    ghost var copies: seq<HeapString>

    ghost predicate Valid(heap: Allocator)
      reads this, block, heap
    {
      && size == block.Length && length + 1 < size
      && length == |copies| && Distinct(copies)
      && (forall i :: 0 <= i < length ==> block[i] == copies[i])
      && block[length] == null
      && Elements(copies) <= heap.strings && block in heap.arrays
    }

    /** The strings held, in order. */
    ghost function View(): seq<string>
      reads this
    {
      Texts(copies)
    }

    constructor (heap: Allocator)
      modifies heap`arrays
      ensures Valid(heap) && fresh(block) && View() == [] && copies == []
      ensures heap.arrays == old(heap.arrays) + {block} && block !in old(heap.arrays)
      ensures size == 16
    {
      new;
      block := heap.Calloc(16);
      length, size, copies := 0, 16, [];
    }

    /** Doubles the size until one more string and its NULL fit, and moves the block if it grew. */
    method EnsureRoom(heap: Allocator)
      requires Valid(heap)
      modifies this`block, this`size, heap
      ensures Valid(heap) && length + 2 < size
      ensures block == old(block) || fresh(block)
      ensures heap.strings == old(heap.strings) && heap.arrays == old(heap.arrays) - {old(block)} + {block}
      ensures size == Grown(old(size), length)
    {
      if length + 2 >= size {
        var newsize := size;
        while length + 2 >= newsize
          invariant 0 < newsize && size <= newsize
          invariant Grown(newsize, length) == Grown(size, length)
          decreases length + 3 - newsize
        {
          newsize := 2 * newsize;
        }
        block := heap.Realloc(block, newsize);
        size := newsize;
      }
    }

    /**
     `add_string_to_string_array` when allocation succeeds: the vector gains a fresh copy of
     the string at its end, is NULL-terminated with room to spare and has doubled only as
     far as needed; the allocator gains that copy and nothing else, apart from the array
     block that may have moved.
     */
    method Add(heap: Allocator, str: string)
      requires Valid(heap)
      modifies this, block, heap
      ensures Valid(heap) && View() == old(View()) + [str]
      ensures block == old(block) || fresh(block)
      ensures |copies| == |old(copies)| + 1 && copies[..|old(copies)|] == old(copies)
      ensures fresh(copies[|old(copies)|])
      ensures heap.strings == old(heap.strings) + {copies[|old(copies)|]}
      ensures copies[|old(copies)|] !in old(heap.strings)
      ensures heap.arrays == old(heap.arrays) - {old(block)} + {block}
      ensures size == Grown(old(size), old(length))
    {
      var dup := heap.Strdup(str);
      EnsureRoom(heap);
      block[length] := dup;
      length := length + 1;
      block[length] := null;
      assert View() + [str] == Texts(copies + [dup]);
      copies := copies + [dup];
    }
  }

  /**
   `free_string_array`: walks to the NULL, freeing each copy, then frees the array.  Only a
   live block can be freed, so nothing is freed twice; nothing else is freed.
   */
  method FreeStringArray(heap: Allocator, v: Vector)
    requires v.Valid(heap)
    modifies heap
    ensures heap.strings == old(heap.strings) - Elements(v.copies)
    ensures heap.arrays == old(heap.arrays) - {v.block}
  {
    var idx := 0;
    while v.block[idx] != null
      invariant idx <= v.length
      invariant heap.arrays == old(heap.arrays)
      invariant heap.strings == old(heap.strings) - Elements(v.copies[..idx])
      decreases v.length - idx
    {
      assert v.copies[..idx + 1] == v.copies[..idx] + [v.copies[idx]];
      assert v.copies[idx] in Elements(v.copies);
      heap.FreeString(v.block[idx]);
      idx := idx + 1;
    }
    assert v.copies[..idx] == v.copies;
    heap.FreeArray(v.block);
  }

  /** The owned blocks of a vector made since the allocator held `strings` and `arrays`. */
  ghost predicate OwnsOnly(v: Vector, heap: Allocator, strings: set<HeapString>, arrays: set<Block>)
    reads v, v.block, heap
  {
    && v.Valid(heap)
    && heap.strings == strings + Elements(v.copies) && Elements(v.copies) !! strings
    && heap.arrays == arrays + {v.block} && v.block !in arrays
  }

  /** Adds every string of a list; the loop of both builders. */
  method AddAll(heap: Allocator, v: Vector, strs: seq<string>, ghost strings: set<HeapString>, ghost arrays: set<Block>)
    requires OwnsOnly(v, heap, strings, arrays)
    modifies v, v.block, heap
    ensures OwnsOnly(v, heap, strings, arrays)
    ensures v.block == old(v.block) || fresh(v.block)
    ensures v.View() == old(v.View()) + strs
  {
    for idx := 0 to |strs|
      invariant OwnsOnly(v, heap, strings, arrays)
      invariant v.block == old(v.block) || fresh(v.block)
      invariant v.View() == old(v.View()) + strs[..idx]
    {
      ghost var before := v.copies;
      v.Add(heap, strs[idx]);
      assert v.copies == before + [v.copies[|before|]];
      assert strs[..idx + 1] == strs[..idx] + [strs[idx]];
    }
    assert strs[..|strs|] == strs;
  }

  /**
   `duk_array_to_string_array`: the first string unless it is NULL, then the array's
   elements, for `execve`'s argument vector.
   */
  method ArrayToStringArray(heap: Allocator, elements: seq<string>, first: Option<string>) returns (v: Vector)
    modifies heap
    ensures fresh(v) && fresh(v.block)
    ensures OwnsOnly(v, heap, old(heap.strings), old(heap.arrays))
    ensures v.View() == (if first.Some? then [first.value] else []) + elements
  {
    v := new Vector(heap);
    if first.Some? {
      AddAll(heap, v, [first.value], old(heap.strings), old(heap.arrays));
    }
    AddAll(heap, v, elements, old(heap.strings), old(heap.arrays));
  }

  /** An enumerable property, its value already coerced to a string. */
  datatype Entry = Entry(name: string, value: string)

  function Assignments(props: seq<Entry>): seq<string> {
    seq(|props|, i requires 0 <= i < |props| => props[i].name + "=" + props[i].value)
  }

  /** `duk_object_to_string_array`: "name=value" for each property, for the environment. */
  method ObjectToStringArray(heap: Allocator, props: seq<Entry>) returns (v: Vector)
    modifies heap
    ensures fresh(v) && fresh(v.block)
    ensures OwnsOnly(v, heap, old(heap.strings), old(heap.arrays))
    ensures |v.View()| == |props|
    ensures forall i :: 0 <= i < |props| ==> v.View()[i] == props[i].name + "=" + props[i].value
  {
    v := new Vector(heap);
    AddAll(heap, v, Assignments(props), old(heap.strings), old(heap.arrays));
  }

  /**
   The life of both vectors around `fork_exec_read_and_wait` in `do_exec_process`: after the
   two frees the allocator holds exactly what it held before.
   */
  method BuildAndFree(heap: Allocator, filename: string, elements: seq<string>, props: seq<Entry>)
    modifies heap
    ensures heap.strings == old(heap.strings) && heap.arrays == old(heap.arrays)
  {
    var args := ArrayToStringArray(heap, elements, Some(filename));
    var env := ObjectToStringArray(heap, props);
    FreeStringArray(heap, env);
    FreeStringArray(heap, args);
  }

  // ----- reading the vector back, as execve does

  /** The strings before the first NULL. */
  function UpToNull(cells: seq<HeapString?>): seq<string>
    decreases |cells|
  {
    if cells == [] || cells[0] == null then [] else [cells[0].text] + UpToNull(cells[1..])
  }

  lemma {:induction false} StopsAtNull(cells: seq<HeapString?>, copies: seq<HeapString>)
    requires |copies| < |cells| && cells[|copies|] == null
    requires forall i :: 0 <= i < |copies| ==> cells[i] == copies[i]
    ensures UpToNull(cells) == Texts(copies)
    decreases |copies|
  {
    if copies != [] {
      StopsAtNull(cells[1..], copies[1..]);
      assert Texts(copies) == [copies[0].text] + Texts(copies[1..]);
    }
  }

  /** A reader that stops at NULL sees exactly the strings added, whatever lies beyond it. */
  lemma NullTerminated(v: Vector, heap: Allocator)
    requires v.Valid(heap)
    ensures UpToNull(v.block[..]) == v.View()
  {
    StopsAtNull(v.block[..], v.copies);
  }
}
