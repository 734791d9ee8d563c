/** What several modules share: optional values, C strings in character cells, and small definitions. */
module Basics {

  datatype Option<+T> = None | Some(value: T)

  const NUL := '\0'

  /** The C string in a buffer. */
  function CString(cells: seq<char>): string {
    if cells == [] || cells[0] == NUL then "" else [cells[0]] + CString(cells[1..])
  }

  lemma {:induction false} StringBeforeNul(cells: seq<char>, s: string)
    requires |s| < |cells| && cells[..|s|] == s && cells[|s|] == NUL && NUL !in s
    ensures CString(cells) == s
    decreases |s|
  {
    if s != "" {
      assert cells[0] == s[0] && s[0] in s;
      assert cells[1..][..|s| - 1] == cells[..|s|][1..];
      StringBeforeNul(cells[1..], s[1..]);
    }
  }

  function Max(a: nat, b: nat): (m: nat)
    ensures m >= a && m >= b && (m == a || m == b)
  {
    if a < b then b else a
  }

  lemma RegroupMax(a: nat, b: nat, c: nat)
    ensures Max(Max(a, b), c) == Max(a, Max(b, c))
  {}

  lemma Regroup<T>(a: seq<T>, b: seq<T>, c: seq<T>)
    ensures a + (b + c) == (a + b) + c
  {}
}
