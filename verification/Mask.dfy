/** File masks of drive redirection, on names already in lower case. */
module Mask {

  /** What a mask means: `*` is any run, `?` exactly one character. */
  predicate Means(mask: string, m: nat, name: string, n: nat)
    requires m <= |mask| && n <= |name|
    decreases |mask| - m, |name| - n
  {
    if m == |mask| then n == |name|
    else if mask[m] == '*' then Means(mask, m + 1, name, n) || (n < |name| && Means(mask, m, name, n + 1))
    else n < |name| && (mask[m] == '?' || mask[m] == name[n]) && Means(mask, m + 1, name, n + 1)
  }

  lemma {:induction false} StarTakesMore(mask: string, m: nat, name: string, n: nat, k: nat)
    requires m < |mask| && mask[m] == '*' && n <= k <= |name|
    requires Means(mask, m, name, k)
    ensures Means(mask, m, name, n)
    decreases k - n
  {
    if n < k {
      StarTakesMore(mask, m, name, n + 1, k);
    }
  }

  /** A star that could have taken anything from `from` on, with the mask going on
      at `rest`. */
  ghost predicate Open(mask: string, rest: nat, name: string, from: nat)
    requires rest <= |mask|
  {
    exists k :: from <= k <= |name| && Means(mask, rest, name, k)
  }

  /** The name from `n` on is cut into consecutive pieces, one for each character of
      the mask: piece `i` goes from `cuts[i]` to `cuts[i + 1]`. A star takes any piece,
      `?` one of exactly one character, and anything else itself. */
  ghost predicate Cuts(mask: string, name: string, n: nat, cuts: seq<nat>) {
    && |cuts| == |mask| + 1 && cuts[0] == n && cuts[|mask|] == |name|
    && forall i :: 0 <= i < |mask| ==> Piece(mask[i], name, cuts[i], cuts[i + 1])
  }

  ghost predicate Piece(c: char, name: string, from: nat, to: nat) {
    && from <= to <= |name|
    && (c != '*' ==> to == from + 1 && (c == '?' || name[from] == c))
  }

  ghost predicate CanBeCut(mask: string, name: string, n: nat) {
    exists cuts :: Cuts(mask, name, n, cuts)
  }

  lemma CutMore(c: char, mask: string, name: string, n: nat, cuts: seq<nat>)
    requires cuts != [] && Cuts(mask, name, cuts[0], cuts) && Piece(c, name, n, cuts[0])
    ensures Cuts([c] + mask, name, n, [n] + cuts)
  {
    var all, more := [n] + cuts, [c] + mask;
    forall i | 0 <= i < |more|
      ensures Piece(more[i], name, all[i], all[i + 1])
    {
      if i > 0 { assert more[i] == mask[i - 1] && all[i] == cuts[i - 1] && all[i + 1] == cuts[i - 1 + 1]; }
    }
  }

  lemma CutLess(mask: string, name: string, n: nat, cuts: seq<nat>)
    requires mask != "" && Cuts(mask, name, n, cuts)
    ensures Piece(mask[0], name, n, cuts[1]) && Cuts(mask[1..], name, cuts[1], cuts[1..])
  {
    var rest, fewer := cuts[1..], mask[1..];
    assert Piece(mask[0], name, cuts[0], cuts[0 + 1]);
    forall i | 0 <= i < |fewer|
      ensures Piece(fewer[i], name, rest[i], rest[i + 1])
    {
      assert Piece(mask[i + 1], name, cuts[i + 1], cuts[i + 1 + 1]);
    }
  }

  /** What a mask means, without recursion: the name can be cut that way. */
  lemma {:induction false} MeansCutting(mask: string, m: nat, name: string, n: nat)
    requires m <= |mask| && n <= |name|
    ensures Means(mask, m, name, n) <==> CanBeCut(mask[m..], name, n)
    decreases |mask| - m
  {
    if m == |mask| {
      assert n == |name| ==> Cuts(mask[m..], name, n, [n]);
    } else {
      assert mask[m..] == [mask[m]] + mask[m + 1..];
      if Means(mask, m, name, n) {
        var end := n + 1;
        if mask[m] == '*' {
          StarMeansAnyRun(mask, m, name, n);
          end :| n <= end <= |name| && Means(mask, m + 1, name, end);
        }
        MeansCutting(mask, m + 1, name, end);
        var cuts :| Cuts(mask[m + 1..], name, end, cuts);
        CutMore(mask[m], mask[m + 1..], name, n, cuts);
      }
      if CanBeCut(mask[m..], name, n) {
        var cuts :| Cuts(mask[m..], name, n, cuts);
        CutLess(mask[m..], name, n, cuts);
        MeansCutting(mask, m + 1, name, cuts[1]);
        if mask[m] == '*' { StarTakesMore(mask, m, name, n, cuts[1]); }
      }
    }
  }

  /** Without a star, every character of the mask stands for one of the name: `?` for
      any, anything else for itself. */
  lemma StarFreeMeans(mask: string, name: string)
    requires StarFree(mask, 0, |mask|)
    ensures Means(mask, 0, name, 0) <==>
              |mask| == |name| && forall i :: 0 <= i < |mask| ==> mask[i] == '?' || mask[i] == name[i]
  {
    MeansCutting(mask, 0, name, 0);
    assert mask[0..] == mask;
    if CanBeCut(mask, name, 0) {
      var cuts :| Cuts(mask, name, 0, cuts);
      OneEach(mask, name, cuts, |mask|);
    }
    if |mask| == |name| && forall i :: 0 <= i < |mask| ==> mask[i] == '?' || mask[i] == name[i] {
      assert Cuts(mask, name, 0, seq(|mask| + 1, i => i));
    }
  }

  lemma {:induction false} OneEach(mask: string, name: string, cuts: seq<nat>, k: nat)
    requires k <= |mask| && StarFree(mask, 0, |mask|) && Cuts(mask, name, 0, cuts)
    ensures cuts[k] == k
    ensures forall i :: 0 <= i < k ==> i < |name| && (mask[i] == '?' || mask[i] == name[i])
  {
    if k > 0 {
      OneEach(mask, name, cuts, k - 1);
      assert Piece(mask[k - 1], name, cuts[k - 1], cuts[k - 1 + 1]);
    }
  }

  /** A star stands for any run. */
  lemma {:induction false} StarMeansAnyRun(mask: string, m: nat, name: string, n: nat)
    requires m < |mask| && mask[m] == '*' && n <= |name|
    ensures Means(mask, m, name, n) <==> Open(mask, m + 1, name, n)
    decreases |name| - n
  {
    if n < |name| {
      StarMeansAnyRun(mask, m, name, n + 1);
    }
  }

  /** No star between `from` and `m`. */
  predicate StarFree(mask: string, from: nat, m: nat)
    requires from <= m <= |mask|
  {
    forall i :: from <= i < m ==> mask[i] != '*'
  }

  /** Without a star in between, what matches takes exactly as many characters. */
  lemma {:induction false} StarFreeTakesItsLength(mask: string, from: nat, m: nat, name: string, n: nat)
    requires from <= m <= |mask| && StarFree(mask, from, m) && n <= |name|
    requires Means(mask, from, name, n)
    ensures n + (m - from) <= |name| && Means(mask, m, name, n + (m - from))
    decreases m - from
  {
    if from < m {
      StarFreeTakesItsLength(mask, from + 1, m, name, n + 1);
    }
  }

  lemma {:induction false} OnlyStarsAreLeft(mask: string, m: nat, name: string)
    requires m <= |mask|
    ensures Means(mask, m, name, |name|) <==> forall i :: m <= i < |mask| ==> mask[i] == '*'
    decreases |mask| - m
  {
    if m < |mask| {
      OnlyStarsAreLeft(mask, m + 1, name);
    }
  }

  /** Where a match stands: what is still to decide decides the whole. */
  ghost predicate Decides(mask: string, name: string, m: nat, n: nat, star: int, mark: nat)
    requires m <= |mask| && n <= |name| && -1 <= star < |mask|
  {
    if star < 0 then Means(mask, 0, name, 0) <==> Means(mask, m, name, n)
    else
      && star + 1 <= m && mark + (m - (star + 1)) == n
      && StarFree(mask, star + 1, m)
      && (Means(mask, star + 1, name, mark) <==> Means(mask, m, name, n))
      && (Means(mask, 0, name, 0) <==> Open(mask, star + 1, name, mark))
  }

  /** Meeting the next star, the alternatives of the last one are no longer needed:
      whatever it would have taken, this one can take as well. */
  lemma NextStar(mask: string, name: string, m: nat, n: nat, star: int, mark: nat)
    requires m < |mask| && n <= |name| && -1 <= star < |mask| && mask[m] == '*'
    requires Decides(mask, name, m, n, star, mark)
    ensures Decides(mask, name, m + 1, n, m, n)
  {
    StarMeansAnyRun(mask, m, name, n);
    if star >= 0 && Open(mask, star + 1, name, mark) {
      var k :| mark <= k <= |name| && Means(mask, star + 1, name, k);
      StarFreeTakesItsLength(mask, star + 1, m, name, k);
      StarTakesMore(mask, m, name, n, k + (m - (star + 1)));
    }
  }

  /** At the end of the name only the current alternative is left. */
  lemma AtTheEnd(mask: string, name: string, m: nat, star: int, mark: nat)
    requires m <= |mask| && -1 <= star < |mask|
    requires Decides(mask, name, m, |name|, star, mark)
    ensures Means(mask, 0, name, 0) <==> Means(mask, m, name, |name|)
  {
    if star >= 0 && Open(mask, star + 1, name, mark) {
      var k :| mark <= k <= |name| && Means(mask, star + 1, name, k);
      StarFreeTakesItsLength(mask, star + 1, m, name, k);
    }
  }

  /** The matcher goes back to the last star only, and yet decides whether the name
      can be cut as the mask says. */
  method MatchesMask(mask: string, name: string) returns (matches: bool)
    ensures matches <==> mask == "*.*" || Means(mask, 0, name, 0)
    ensures matches <==> mask == "*.*" || CanBeCut(mask, name, 0)
  {
    MeansCutting(mask, 0, name, 0);
    assert mask[0..] == mask;
    if mask == "*" || mask == "*.*" {
      if mask == "*" { StarMeansAnyRun(mask, 0, name, 0); }
      assert mask == "*" ==> Means(mask, 1, name, |name|) && Open(mask, 1, name, 0);
      return true;
    }
    var m, n := 0, 0;
    var star, mark := -1, 0;
    while n < |name|
      invariant m <= |mask| && mark <= n <= |name| && -1 <= star < |mask|
      invariant Decides(mask, name, m, n, star, mark)
      decreases |name| - mark, |name| - n, |mask| - m
    {
      if m < |mask| && mask[m] == '?' {
        m, n := m + 1, n + 1;
      } else if m < |mask| && mask[m] == '*' {
        NextStar(mask, name, m, n, star, mark);
        star := m;
        m := m + 1;
        mark := n;
      } else if m < |mask| && mask[m] == name[n] {
        m, n := m + 1, n + 1;
      } else if star >= 0 {
        m := star + 1;
        mark := mark + 1;
        n := mark;
      } else {
        return false;
      }
    }
    AtTheEnd(mask, name, m, star, mark);
    OnlyStarsAreLeft(mask, m, name);
    return forall i :: m <= i < |mask| ==> mask[i] == '*';
  }
}
