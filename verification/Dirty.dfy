/** The dirty region: a short list of rectangles that covers all that changed. */
module Dirty {
  import opened Basics

  const U16_MAX: nat := 65_535

  const MAX_RECTS: nat := 32
  const MERGE_GAP: nat := 8

  /** An edge that is known to fit, saturating should it not. */
  function Span(start: u16, end: nat): u16 {
    Min(Max(end - start, 0), U16_MAX)
  }

  datatype Rect = Rect(x: u16, y: u16, w: u16, h: u16) {

    predicate IsEmpty() {
      w == 0 || h == 0
    }

    function Area(): nat {
      w * h
    }

    function Right(): nat {
      x + w
    }

    function Bottom(): nat {
      y + h
    }

    /** The smallest rectangle covering both. */
    function Union(other: Rect): Rect {
      if IsEmpty() then other
      else if other.IsEmpty() then this
      else
        var left: u16, top: u16 := Min(x, other.x), Min(y, other.y);
        Rect(left, top, Span(left, Max(Right(), other.Right())), Span(top, Max(Bottom(), other.Bottom())))
    }

    predicate Contains(other: Rect) {
      other.x >= x && other.y >= y && other.Right() <= Right() && other.Bottom() <= Bottom()
    }

    predicate Near(other: Rect, gap: nat) {
      && x <= other.Right() + gap
      && other.x <= Right() + gap
      && y <= other.Bottom() + gap
      && other.y <= Bottom() + gap
    }

    function Clip(width: u16, height: u16): Rect {
      var left: u16, top: u16 := Min(x, width), Min(y, height);
      Rect(left, top, Span(left, Min(Right(), width)), Span(top, Min(Bottom(), height)))
    }

    // ----- What a rectangle is: the pixels it covers -----

    predicate Covers(px: nat, py: nat) {
      x <= px < Right() && y <= py < Bottom()
    }

    /** Its edges fit in 16 bits. */
    predicate InRange() {
      Right() <= U16_MAX && Bottom() <= U16_MAX
    }
  }

  /** A rectangle is inside another exactly if its pixels are. */
  lemma ContainsIsCovering(a: Rect, b: Rect)
    requires !b.IsEmpty()
    ensures a.Contains(b) <==> forall px: nat, py: nat :: b.Covers(px, py) ==> a.Covers(px, py)
  {
    assert b.Covers(b.x, b.y) && b.Covers(b.Right() - 1, b.Bottom() - 1);
  }

  /** Where the edges fit, nothing saturates, and the union is the least rectangle
      over both. */
  lemma UnionIsLeast(a: Rect, b: Rect)
    requires a.InRange() && b.InRange() && !a.IsEmpty() && !b.IsEmpty()
    ensures var u := a.Union(b);
            && u.InRange() && !u.IsEmpty()
            && u.Contains(a) && u.Contains(b)
            && (forall c: Rect :: c.Contains(a) && c.Contains(b) ==> c.Contains(u))
            && u.Right() == Max(a.Right(), b.Right()) && u.Bottom() == Max(a.Bottom(), b.Bottom())
  {
  }

  /** Without that, the union covers both exactly if the two together are no wider
      and no higher than 16 bits can say. */
  lemma UnionCoversUnlessSaturated(a: Rect, b: Rect)
    requires !a.IsEmpty() && !b.IsEmpty()
    ensures (forall px: nat, py: nat :: a.Covers(px, py) || b.Covers(px, py) ==> a.Union(b).Covers(px, py))
       <==> && Max(a.Right(), b.Right()) - Min(a.x, b.x) <= U16_MAX
            && Max(a.Bottom(), b.Bottom()) - Min(a.y, b.y) <= U16_MAX
  {
    assert a.Covers(a.x, a.y) && a.Covers(a.Right() - 1, a.Bottom() - 1);
    assert b.Covers(b.x, b.y) && b.Covers(b.Right() - 1, b.Bottom() - 1);
  }

  /** Clipping keeps exactly the pixels of the desktop. */
  lemma ClipIsIntersection(r: Rect, width: u16, height: u16, px: nat, py: nat)
    ensures r.Clip(width, height).Covers(px, py) <==> r.Covers(px, py) && px < width && py < height
    ensures r.Clip(width, height).InRange()
    ensures r.Clip(width, height).Right() <= width && r.Clip(width, height).Bottom() <= height
  {
  }

  predicate ShouldMerge(a: Rect, b: Rect) {
    || a.Contains(b) || b.Contains(a)
    || (&& a.Near(b, MERGE_GAP)
        && a.Union(b).Area() <= a.Area() + b.Area() + Max(a.Area(), b.Area()) / 2)
  }

  /** Two pixels no more than the gap apart. */
  predicate Close(px: nat, py: nat, qx: nat, qy: nat) {
    -9 <= px - qx <= 9 && -9 <= py - qy <= 9
  }

  /** Two rectangles are worth merging if one has all pixels of the other, or if they come
      close and the least rectangle over both has at most half as many pixels more, of the
      larger, than the two together. */
  lemma MergingMeans(a: Rect, b: Rect)
    requires !a.IsEmpty() && !b.IsEmpty() && a.InRange() && b.InRange()
    ensures ShouldMerge(a, b) <==>
              || (forall px: nat, py: nat :: b.Covers(px, py) ==> a.Covers(px, py))
              || (forall px: nat, py: nat :: a.Covers(px, py) ==> b.Covers(px, py))
              || (&& (exists px: nat, py: nat, qx: nat, qy: nat ::
                        a.Covers(px, py) && b.Covers(qx, qy) && Close(px, py, qx, qy))
                  && (Max(a.x + a.w, b.x + b.w) - Min(a.x, b.x)) * (Max(a.y + a.h, b.y + b.h) - Min(a.y, b.y))
                     <= a.w * a.h + b.w * b.h + Max(a.w * a.h, b.w * b.h) / 2)
  {
    ContainsIsCovering(a, b);
    ContainsIsCovering(b, a);
    UnionIsLeast(a, b);
    if a.Near(b, MERGE_GAP) {
      var px, qx := Nearest(a.x, a.w, b.x, b.w);
      var py, qy := Nearest(a.y, a.h, b.y, b.h);
      assert a.Covers(px, py) && b.Covers(qx, qy) && Close(px, py, qx, qy);
    }
  }

  /** The nearest of two runs of numbers. */
  lemma Nearest(a: nat, m: nat, b: nat, n: nat) returns (p: nat, q: nat)
    requires m > 0 && n > 0 && a <= b + n + 8 && b <= a + m + 8
    ensures a <= p < a + m && b <= q < b + n && -9 <= p - q <= 9
  {
    p := if a + m <= b then a + m - 1 else if b <= a then a else b;
    q := if b + n <= a then b + n - 1 else if a <= b then b else a;
  }

  lemma MergingIsMutual(a: Rect, b: Rect)
    requires !a.IsEmpty() && !b.IsEmpty()
    ensures ShouldMerge(a, b) == ShouldMerge(b, a)
  {
    assert a.Union(b) == b.Union(a);
  }

  predicate Covered(rects: seq<Rect>, px: nat, py: nat) {
    exists i :: 0 <= i < |rects| && rects[i].Covers(px, py)
  }

  /** Nothing empty, nothing past 16 bits. */
  predicate Proper(rects: seq<Rect>) {
    forall r :: r in rects ==> !r.IsEmpty() && r.InRange()
  }

  /** No two of them are worth merging. */
  predicate Apart(rects: seq<Rect>) {
    forall i, j :: 0 <= i < j < |rects| ==> !ShouldMerge(rects[i], rects[j])
  }

  predicate InBox(rects: seq<Rect>, box: Rect) {
    forall r :: r in rects ==> box.Contains(r)
  }

  function SwapRemove(rects: seq<Rect>, i: nat): (r: seq<Rect>)
    requires i < |rects|
  {
    rects[i := rects[|rects| - 1]][..|rects| - 1]
  }

  lemma SwapRemoveKeepsRest(rects: seq<Rect>, i: nat)
    requires i < |rects| && Proper(rects) && Apart(rects)
    ensures var rest := SwapRemove(rects, i);
            && |rest| == |rects| - 1 && Proper(rest) && Apart(rest)
            && (forall r :: r in rest ==> r in rects && r != rects[i])
            && (forall r :: r in rects && r != rects[i] ==> r in rest)
            && (forall px: nat, py: nat :: Covered(rects, px, py) ==> Covered(rest, px, py) || rects[i].Covers(px, py))
  {
    var rest, last := SwapRemove(rects, i), |rects| - 1;
    forall k | 0 <= k < |rest|
      ensures rest[k] == if k == i then rects[last] else rects[k]
    {
    }
    forall a, b | 0 <= a < b < |rest|
      ensures !ShouldMerge(rest[a], rest[b])
    {
      if a == i {
        MergingIsMutual(rects[b], rects[last]);
      }
    }
    forall r | r in rects && r != rects[i]
      ensures r in rest
    {
      var k :| 0 <= k < |rects| && rects[k] == r;
      assert rest[if k == last then i else k] == r;
    }
    forall k | 0 <= k < |rects| && k != i
      ensures rects[k] != rects[i]
    {
      assert !ShouldMerge(rects[if k < i then k else i], rects[if k < i then i else k]);
      assert ShouldMerge(rects[i], rects[i]);
    }
    forall px: nat, py: nat | Covered(rects, px, py)
      ensures Covered(rest, px, py) || rects[i].Covers(px, py)
    {
      var k :| 0 <= k < |rects| && rects[k].Covers(px, py);
      if k != i {
        assert rest[if k == last then i else k] == rects[k];
      }
    }
  }

  lemma AppendApart(rects: seq<Rect>, r: Rect)
    requires Apart(rects) && forall k :: 0 <= k < |rects| ==> !ShouldMerge(rects[k], r)
    ensures Apart(rects + [r])
  {
  }

  /** What adding a rectangle makes of the list. Where nothing is worth merging with it,
      it goes to the end, or if the list was full everything becomes one rectangle.
      Otherwise it grows to the least rectangle over itself and those that went, and the
      others stay as they are. */
  ghost predicate Adds(was: seq<Rect>, rect: Rect, now: seq<Rect>) {
    if forall r :: r in was ==> !ShouldMerge(r, rect) then
      if |was| < 32 then now == was + [rect]
      else |now| == 1 && forall c: Rect :: c.Contains(now[0]) <==> InBox(was, c) && c.Contains(rect)
    else
      && now != []
      && (forall r :: r in now[..|now| - 1] ==> r in was)
      && forall c: Rect :: c.Contains(now[|now| - 1]) <==> c.Contains(rect) && InBox(Gone(was, now[..|now| - 1]), c)
  }

  /** Those of a list that are not in another one. */
  function Gone(was: seq<Rect>, kept: seq<Rect>): seq<Rect> {
    if was == [] then []
    else Gone(was[..|was| - 1], kept) + if was[|was| - 1] in kept then [] else [was[|was| - 1]]
  }

  lemma {:induction false} GoneMeans(was: seq<Rect>, kept: seq<Rect>)
    ensures forall r :: r in Gone(was, kept) <==> r in was && r !in kept
    decreases |was|
  {
    if was != [] {
      GoneMeans(was[..|was| - 1], kept);
      assert was == was[..|was| - 1] + [was[|was| - 1]];
    }
  }

  lemma InBoxOneMore(rects: seq<Rect>, r: Rect)
    ensures forall box: Rect :: InBox(rects + [r], box) <==> InBox(rects, box) && box.Contains(r)
  {
    assert forall other :: other in rects + [r] <==> other in rects || other == r;
  }

  lemma CollapsedAdds(was: seq<Rect>, rect: Rect, now: seq<Rect>)
    requires |was| == 32 && |now| == 1 && forall r :: r in was ==> !ShouldMerge(r, rect)
    requires forall box: Rect :: InBox(was + [rect], box) <==> InBox(now, box)
    ensures Adds(was, rect, now)
  {
    hide ShouldMerge;
    InBoxOneMore(was, rect);
    assert forall c: Rect :: InBox(now, c) <==> c.Contains(now[0]);
  }

  /** While a rectangle grows: the others are as they were, what went is in it, and it is
      no larger than that takes. */
  ghost predicate Merging(was: seq<Rect>, rect: Rect, rects: seq<Rect>, current: Rect) {
    && Proper(rects) && Apart(rects) && !current.IsEmpty() && current.InRange()
    && |rects| <= |was| && (|rects| == |was| ==> rects == was && current == rect)
    && (|rects| < |was| ==> exists r :: r in was && ShouldMerge(r, rect))
    && (forall r :: r in rects ==> r in was)
    && current.Contains(rect) && (forall r :: r in was && r !in rects ==> current.Contains(r))
    && forall c: Rect :: c.Contains(rect) && (forall r :: r in was && r !in rects ==> c.Contains(r)) ==>
         c.Contains(current)
  }

  lemma MergingStarts(was: seq<Rect>, rect: Rect)
    requires Proper(was) && Apart(was) && !rect.IsEmpty() && rect.InRange()
    ensures Merging(was, rect, was, rect)
  {
  }

  lemma MergingGoesOn(was: seq<Rect>, rect: Rect, rects: seq<Rect>, current: Rect, at: nat)
    requires Merging(was, rect, rects, current) && at < |rects| && ShouldMerge(rects[at], current)
    ensures Merging(was, rect, SwapRemove(rects, at), current.Union(rects[at]))
  {
    hide ShouldMerge;
    var other, rest := rects[at], SwapRemove(rects, at);
    SwapRemoveKeepsRest(rects, at);
    UnionIsLeast(current, other);
    var grown := current.Union(other);
    assert other in was && other !in rest;
    forall r | r in was && r !in rest
      ensures grown.Contains(r)
    {
      if r in rects { assert r == other; }
    }
    forall c: Rect | c.Contains(rect) && (forall r :: r in was && r !in rest ==> c.Contains(r))
      ensures c.Contains(grown)
    {
      assert forall r :: r in was && r !in rects ==> r !in rest;
      assert c.Contains(current) && c.Contains(other);
    }
  }

  /** What a rectangle that has grown covers. */
  lemma MergingCovers(was: seq<Rect>, rect: Rect, rects: seq<Rect>, current: Rect)
    requires Merging(was, rect, rects, current)
    requires forall k :: 0 <= k < |rects| ==> !ShouldMerge(rects[k], current)
    ensures forall px: nat, py: nat :: Covered(was, px, py) || rect.Covers(px, py) ==>
              Covered(rects + [current], px, py)
    ensures forall box: Rect :: InBox(was, box) && box.Contains(rect) ==> InBox(rects + [current], box)
    ensures |rects| < 32 ==> Adds(was, rect, rects + [current])
    ensures |rects| >= 32 && |was| <= 32 ==>
              rects == was && current == rect && forall r :: r in was ==> !ShouldMerge(r, rect)
  {
    hide ShouldMerge;
    CoveredByOneMore(rects, current);
    GoneMeans(was, rects);
    var now := rects + [current];
    assert now[..|now| - 1] == rects;
    forall px: nat, py: nat | Covered(was, px, py)
      ensures Covered(now, px, py)
    {
      var k :| 0 <= k < |was| && was[k].Covers(px, py);
      if was[k] in rects {
        var j :| 0 <= j < |rects| && rects[j] == was[k];
        assert Covered(rects, px, py);
      } else {
        assert was[k] in was;
      }
    }
  }

  class DirtyRegion {
    var rects: seq<Rect>

    ghost predicate Valid()
      reads this
    {
      Proper(rects) && Apart(rects) && |rects| <= MAX_RECTS
    }

    constructor ()
      ensures Valid() && rects == []
    {
      rects := [];
    }

    predicate IsEmpty()
      reads this
    {
      rects == []
    }

    method Clear()
      modifies this
      ensures Valid() && rects == []
    {
      rects := [];
    }

    method Take() returns (all: seq<Rect>)
      modifies this
      ensures all == old(rects) && rects == [] && Valid()
    {
      all, rects := rects, [];
    }

    /** Adds a changed rectangle. No pixel is lost, and none is added that every
        rectangle around all of this does not have anyway; there are at most 32,
        none of them empty, and no two worth merging. */
    method Add(rect: Rect)
      requires Valid() && (rect.IsEmpty() || rect.InRange())
      modifies this
      ensures Valid()
      ensures forall px: nat, py: nat :: Covered(old(rects), px, py) || rect.Covers(px, py) ==> Covered(rects, px, py)
      ensures forall box: Rect :: InBox(old(rects), box) && box.Contains(rect) ==> InBox(rects, box)
      ensures if rect.IsEmpty() then rects == old(rects) else Adds(old(rects), rect, rects)
      ensures |rects| <= 32
    {
      if rect.IsEmpty() {
        return;
      }
      var current := rect;
      hide Merging, ShouldMerge, Adds;
      MergingStarts(rects, rect);
      var at: nat := FirstToMerge(current);
      while at < |rects|
        invariant Merging(old(rects), rect, rects, current) && at <= |rects| <= MAX_RECTS
        invariant at < |rects| ==> ShouldMerge(rects[at], current)
        invariant at == |rects| ==> forall k :: 0 <= k < |rects| ==> !ShouldMerge(rects[k], current)
        decreases |rects|
      {
        var other := rects[at];
        MergingGoesOn(old(rects), rect, rects, current, at);
        rects := SwapRemove(rects, at);
        current := current.Union(other);
        at := FirstToMerge(current);
      }
      AppendApart(rects, current);
      MergingCovers(old(rects), rect, rects, current);
      rects := rects + [current];
      if |rects| > MAX_RECTS {
        Collapse();
        CollapsedAdds(old(rects), rect, rects);
      }
    }

    /** The first rectangle to merge with, or how many there are. */
    method FirstToMerge(current: Rect) returns (at: nat)
      ensures at <= |rects|
      ensures at < |rects| ==> ShouldMerge(rects[at], current)
      ensures forall k :: 0 <= k < at ==> !ShouldMerge(rects[k], current)
    {
      at := 0;
      while at < |rects| && !ShouldMerge(rects[at], current)
        invariant at <= |rects| && forall k :: 0 <= k < at ==> !ShouldMerge(rects[k], current)
      {
        at := at + 1;
      }
    }

    method Collapse()
      requires Proper(rects) && rects != []
      modifies this
      ensures |rects| == 1 && Proper(rects) && Apart(rects)
      ensures forall px: nat, py: nat :: Covered(old(rects), px, py) ==> Covered(rects, px, py)
      ensures forall box: Rect :: InBox(old(rects), box) <==> InBox(rects, box)
    {
      var box := Rect(0, 0, 0, 0);
      for i := 0 to |rects|
        invariant rects == old(rects) && (i == 0 ==> box.IsEmpty())
        invariant i > 0 ==> !box.IsEmpty() && box.InRange()
        invariant i > 0 ==> forall k :: 0 <= k < i ==> box.Contains(rects[k])
        invariant i > 0 ==> forall c: Rect :: InBox(rects, c) ==> c.Contains(box)
      {
        if i > 0 { UnionIsLeast(box, rects[i]); }
        box := box.Union(rects[i]);
      }
      forall px: nat, py: nat | Covered(rects, px, py)
        ensures box.Covers(px, py)
      {
        var k :| 0 <= k < |rects| && rects[k].Covers(px, py);
      }
      forall c: Rect | c.Contains(box)
        ensures InBox(rects, c)
      {
      }
      rects := [box];
      assert forall c: Rect :: InBox(rects, c) <==> c.Contains(rects[0]);
      assert forall px: nat, py: nat :: box.Covers(px, py) ==> rects[0].Covers(px, py);
    }
  }

  lemma CoveredByOneMore(rects: seq<Rect>, r: Rect)
    ensures forall px: nat, py: nat :: Covered(rects + [r], px, py) <==> Covered(rects, px, py) || r.Covers(px, py)
  {
    forall px: nat, py: nat
      ensures Covered(rects + [r], px, py) <==> Covered(rects, px, py) || r.Covers(px, py)
    {
      var all := rects + [r];
      assert all[|rects|] == r;
      if Covered(rects, px, py) {
        var k :| 0 <= k < |rects| && rects[k].Covers(px, py);
        assert all[k] == rects[k];
      }
    }
  }
}
