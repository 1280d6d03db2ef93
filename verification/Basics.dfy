/** What the other modules share: options, distinct sequences and 64-bit integers. */
module Basics {

  datatype Option<+T> = None | Some(value: T)

  ghost predicate Distinct(s: seq<int>) {
    forall i, j :: 0 <= i < j < |s| ==> s[i] != s[j]
  }

  lemma SomeKey(keys: set<int>)
    ensures keys != {} ==> exists k :: k in keys
  {
    if forall k :: k !in keys {
      assert keys == {};
    }
  }

  const MAX_INT: int := 0x7fff_ffff_ffff_ffff
  const MIN_INT: int := -0x8000_0000_0000_0000

  predicate IsInt(i: int) { MIN_INT <= i <= MAX_INT }

  /** The 64-bit value of an integer. */
  function Wrap(x: int): (r: int)
    ensures IsInt(r) && (IsInt(x) ==> r == x)
  {
    (x - MIN_INT) % 0x1_0000_0000_0000_0000 + MIN_INT
  }
}
