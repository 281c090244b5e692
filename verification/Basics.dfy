/** What every module counts with. */
module Basics {

  type u8 = x: int | 0 <= x <= 255
  type u16 = x: int | 0 <= x <= 65_535
  type u32 = x: int | 0 <= x < 0x1_0000_0000
  type u64 = x: int | 0 <= x <= 0xFFFF_FFFF_FFFF_FFFF

  /** The most bytes a sealed payload may have. */
  const MAX_BLOB_BYTES: nat := 256 * 1024

  /** The most entries one manifest lists. */
  const MAX_MANIFEST_ENTRIES: nat := 7_000

  datatype Option<+T> = None | Some(value: T)

  datatype Result<+T, +E> = Ok(value: T) | Err(error: E)

  function Max(a: int, b: int): int {
    if a > b then a else b
  }

  function Min(a: int, b: int): int {
    if a < b then a else b
  }

  lemma Regroup<T>(a: seq<T>, b: seq<T>, c: seq<T>)
    ensures (a + b) + c == a + (b + c)
  {
  }

  lemma SmallerSet<T>(a: set<T>, b: set<T>)
    requires a <= b
    ensures |a| <= |b|
    ensures a != b ==> |a| < |b|
  {
    assert b == a + (b - a);
  }

  /** A sequence without repetitions has as many elements as it has different ones. */
  lemma {:induction false} EachOnce<T>(s: seq<T>)
    requires forall i, j :: 0 <= i < j < |s| ==> s[i] != s[j]
    ensures |set x | x in s| == |s|
    decreases |s|
  {
    if s == [] {
      assert (set x | x in s) == {};
    } else {
      var front, last := s[..|s| - 1], s[|s| - 1];
      EachOnce(front);
      assert s == front + [last] && last !in front;
      assert (set x | x in s) == (set x | x in front) + {last};
    }
  }
}
