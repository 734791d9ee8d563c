/**
 The two forms of a list of instance numbers (source/jse_cosa.c): `getInstanceIds` formats
 it into a 512-byte buffer, `DmExtGetInstanceIds` returns it as an array.
 */
module InstanceIds {
  import opened Basics
  import opened Decimal

  /** An instance number as the bus delivers it: an unsigned int. */
  newtype uint32 = x: int | 0 <= x < 0x1_0000_0000

  /** What `%d` makes of an unsigned int: the upper half of the range is printed negative. */
  function Number(id: uint32): int {
    if id < 0x8000_0000 then id as int else id as int - 0x1_0000_0000
  }

  function Shown(id: uint32): string { Signed(Number(id)) }

  /** The numeral shown means a number of the signed range that is the unsigned one modulo 2 to the power of 32. */
  lemma ShownMeansNumber(id: uint32)
    ensures var v := SignedValue(Shown(id));
            -0x8000_0000 <= v < 0x8000_0000 && (id as int - v) % 0x1_0000_0000 == 0
  {
    SignedMeansNumber(Number(id));
  }

  /** The unbounded rendering: every number followed by a comma. */
  function Render(ids: seq<uint32>): string {
    if ids == [] then "" else Render(ids[..|ids| - 1]) + Shown(ids[|ids| - 1]) + ","
  }

  const SIZE := 512

  predicate Printable(s: string) { NUL !in s }

  /** What fits in front of the terminating NUL of the buffer. */
  function Fitting(s: string): string { if |s| < SIZE then s else s[..SIZE - 1] }

  /**
   `snprintf(&buf[at], size - at, ...)`: writes what fits and a NUL, and returns the length
   of the whole text.
   */
  method Snprintf(buf: array<char>, at: nat, text: string) returns (len: nat)
    requires at < buf.Length
    modifies buf
    ensures len == |text|
    ensures var n := if |text| < buf.Length - at then |text| else buf.Length - at - 1;
            && buf[..at] == old(buf[..at])
            && buf[at..at + n] == text[..n] && buf[at + n] == NUL
  {
    len := |text|;
    var n := if len < buf.Length - at then len else buf.Length - at - 1;
    forall i | 0 <= i < n { buf[at + i] := text[i]; }
    buf[at + n] := NUL;
  }

  lemma {:induction false} RenderPrintable(ids: seq<uint32>)
    ensures Printable(Render(ids))
  {
    if ids != [] {
      RenderPrintable(ids[..|ids| - 1]);
      SignedPrintable(Number(ids[|ids| - 1]));
    }
  }

  lemma SignedPrintable(n: int)
    ensures Printable(Signed(n))
  {
    var digits := Digits(if n < 0 then -n else n);
    forall i | 0 <= i < |Signed(n)| ensures Signed(n)[i] != NUL {
      assert Signed(n)[i] == '-' || Signed(n)[i] in digits;
    }
  }

  lemma {:induction false} RenderGrows(ids: seq<uint32>, k: nat)
    requires k <= |ids|
    ensures Render(ids[..k]) <= Render(ids)
    decreases |ids|
  {
    if k < |ids| {
      var n := |ids| - 1;
      RenderGrows(ids[..n], k);
      assert ids[..n][..k] == ids[..k];
    } else {
      assert ids[..k] == ids;
    }
  }

  /** The buffer while it is being filled: what was rendered so far, as far as it fits. */
  ghost predicate Holds(cells: seq<char>, s: string) {
    |cells| == SIZE && cells[..|Fitting(s)|] == Fitting(s) && cells[|Fitting(s)|] == NUL
  }

  /** One number more in the buffer. */
  method AppendId(buf: array<char>, at: nat, id: uint32, ghost s: string) returns (len: nat)
    requires buf.Length == SIZE && at == |s| < SIZE && Holds(buf[..], s)
    modifies buf
    ensures len == |Shown(id) + ","|
    ensures Holds(buf[..], s + Shown(id) + ",")
  {
    var text := Shown(id) + ",";
    len := Snprintf(buf, at, text);
    var n := if |text| < SIZE - at then |text| else SIZE - at - 1;
    assert s + Shown(id) + "," == s + text;
    assert Fitting(s + text) == s + text[..n];
    assert buf[..][..at + n] == buf[..at] + buf[at..at + n];
  }

  /**
   The formatting loop of `getInstanceIds`: for every list the string that is returned is
   the first 511 characters of the unbounded rendering, and no write leaves the buffer.
   */
  method GetInstanceIds(ids: seq<uint32>) returns (result: string)
    ensures |Render(ids)| <= 511 ==> result == Render(ids)
    ensures |Render(ids)| > 511 ==> result == Render(ids)[..511]
  {
    var format := new char[SIZE](_ => NUL);
    var loop1, loop2 := 0, 0;
    assert ids[..0] == [];
    while loop1 < |ids| && loop2 < SIZE
      invariant loop1 <= |ids| && loop2 == |Render(ids[..loop1])|
      invariant Holds(format[..], Render(ids[..loop1]))
    {
      assert ids[..loop1 + 1][..loop1] == ids[..loop1];
      var len := AppendId(format, loop2, ids[loop1], Render(ids[..loop1]));
      loop1, loop2 := loop1 + 1, loop2 + len;
    }
    RenderGrows(ids, loop1);
    assert ids[..|ids|] == ids;
    RenderPrintable(ids);
    assert Fitting(Render(ids)) == Fitting(Render(ids[..loop1]));
    StringBeforeNul(format[..], Fitting(Render(ids)));
    result := CString(format[..]);
  }

  // ----- the array form

  /** An element of the returned JavaScript array. */
  datatype Element = Status(code: int) | Id(text: string)

  function Ids(ids: seq<uint32>): seq<string> {
    seq(|ids|, i requires 0 <= i < |ids| => Shown(ids[i]))
  }

  function Pow10(k: nat): nat { if k == 0 then 1 else 10 * Pow10(k - 1) }

  lemma {:induction false} DigitsBound(n: nat, k: nat)
    requires 0 < k && n < Pow10(k)
    ensures |Digits(n)| <= k
    decreases k
  {
    if n >= 10 { DigitsBound(n / 10, k - 1); }
  }

  /** A 32-bit number fits the 24-byte buffer that `DmExtGetInstanceIds` prints it into. */
  lemma ShownIsShort(id: uint32)
    ensures |Shown(id)| <= 11
  {
    assert Pow10(5) == 100000;
    assert Pow10(10) == 10000000000;
    DigitsBound(if Number(id) < 0 then -Number(id) else Number(id), 10);
  }

  /** `DmExtGetInstanceIds`: a zero status and then every number, none of them cut. */
  method DmExtGetInstanceIds(ids: seq<uint32>) returns (elements: seq<Element>)
    ensures |elements| == 1 + |ids| && elements[0] == Status(0)
    ensures forall i :: 0 <= i < |ids| ==> elements[i + 1] == Id(Shown(ids[i]))
  {
    elements := [Status(0)];
    var index := 0;
    while index < |ids|
      invariant index <= |ids| && |elements| == 1 + index && elements[0] == Status(0)
      invariant forall i :: 0 <= i < index ==> elements[i + 1] == Id(Shown(ids[i]))
    {
      var str := new char[24];
      var text := Shown(ids[index]);
      ShownIsShort(ids[index]);
      var _ := Snprintf(str, 0, text);
      SignedPrintable(Number(ids[index]));
      assert str[..][..|text|] == str[0..|text|] == text[..|text|] == text;
      StringBeforeNul(str[..], text);
      elements := elements + [Id(CString(str[..]))];
      index := index + 1;
    }
  }

  // ----- reading the string back

  /** JavaScript's `split(",")`. */
  function Split(s: string): seq<string> {
    if s == "" then [""]
    else
      var rest := Split(s[1..]);
      if s[0] == ',' then [""] + rest else [[s[0]] + rest[0]] + rest[1..]
  }

  lemma {:induction false} SplitAfterItem(item: string, rest: string)
    requires ',' !in item
    ensures Split(item + "," + rest) == [item] + Split(rest)
  {
    var s := item + "," + rest;
    if item == "" {
      assert s[1..] == rest;
    } else {
      assert item[0] in item && s[0] == item[0];
      assert item == [item[0]] + item[1..];
      assert s[1..] == item[1..] + "," + rest;
      SplitAfterItem(item[1..], rest);
    }
  }

  /** The rendering, seen from its front: a number, a comma, and the rest. */
  lemma {:induction false} RenderFront(id: uint32, ids: seq<uint32>)
    ensures Render([id] + ids) == (Shown(id) + ",") + Render(ids)
    ensures Render([]) == ""
    decreases |ids|
  {
    var all, n := [id] + ids, |ids| - 1;
    if ids == [] {
      assert all[..0] == [];
    } else {
      RenderFront(id, ids[..n]);
      assert all[..|ids|] == [id] + ids[..n];
      RegroupItem(Shown(id) + ",", Render(ids[..n]), Shown(ids[n]), ",");
    }
  }

  lemma RegroupItem(a: string, b: string, c: string, d: string)
    ensures (a + b) + c + d == a + (b + c + d)
  {}

  lemma {:induction false} SplitRender(ids: seq<uint32>)
    ensures Split(Render(ids)) == Ids(ids) + [""]
  {
    if ids != [] {
      var id, rest := ids[0], ids[1..];
      assert ids == [id] + rest;
      RenderFront(id, rest);
      SplitAfterItem(Shown(id), Render(rest));
      SplitRender(rest);
      IdsFront(ids);
      assert [Shown(id)] + (Ids(rest) + [""]) == ([Shown(id)] + Ids(rest)) + [""];
    }
  }

  lemma IdsFront(ids: seq<uint32>)
    requires ids != []
    ensures Ids(ids) == [Shown(ids[0])] + Ids(ids[1..])
  {}

  function Commas(s: string): nat {
    if s == "" then 0 else (if s[0] == ',' then 1 else 0) + Commas(s[1..])
  }

  lemma {:induction false} SplitCount(s: string)
    ensures |Split(s)| == Commas(s) + 1
  {
    if s != "" { SplitCount(s[1..]); }
  }

  lemma {:induction false} CommasAppend(a: string, b: string)
    ensures Commas(a + b) == Commas(a) + Commas(b)
  {
    if a == "" {
      assert a + b == b;
    } else {
      CommasAppend(a[1..], b);
      assert (a + b)[1..] == a[1..] + b;
    }
  }

  /** A proper prefix of a rendering has lost its last comma. */
  lemma CutLosesComma(ids: seq<uint32>, k: nat)
    requires k < |Render(ids)|
    ensures Commas(Render(ids)[..k]) < |ids|
  {
    var s := Render(ids);
    SplitRender(ids);
    SplitCount(s);
    CommasAppend(s[..k], s[k..]);
    assert s == s[..k] + s[k..];
    var last := |s| - 1;
    CommasAppend(s[k..][..last - k], [',']);
    assert s[k..] == s[k..][..last - k] + [','];
    assert Commas([',']) == 1;
  }

  /**
   The string form gives back the array form, exactly: splitting the returned string at its
   commas yields every number, each as the array form has it, and a final empty string, if
   and only if the whole rendering has at most 511 characters.
   */
  lemma StringFormAgrees(ids: seq<uint32>)
    ensures Split(Fitting(Render(ids))) == Ids(ids) + [""] <==> |Render(ids)| <= 511
  {
    if |Render(ids)| < SIZE {
      SplitRender(ids);
    } else {
      CutLosesComma(ids, SIZE - 1);
      SplitCount(Fitting(Render(ids)));
    }
  }

  lemma {:induction false} TwoCharactersEach(ids: seq<uint32>)
    ensures |Render(ids)| >= 2 * |ids|
  {
    if ids != [] { TwoCharactersEach(ids[..|ids| - 1]); }
  }

  /** Every list of 256 or more instances is too long for the string form, for example 1 to 300. */
  lemma LongListIsCut(ids: seq<uint32>)
    requires |ids| >= 256
    ensures Split(Fitting(Render(ids))) != Ids(ids) + [""]
  {
    TwoCharactersEach(ids);
    StringFormAgrees(ids);
  }

  lemma CutExample()
    ensures var ids := seq(300, i requires 0 <= i < 300 => (i + 1) as uint32);
            Split(Fitting(Render(ids))) != Ids(ids) + [""]
  {
    LongListIsCut(seq(300, i requires 0 <= i < 300 => (i + 1) as uint32));
  }
}
