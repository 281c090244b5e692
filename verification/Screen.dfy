/** The desktop image and what the page has not seen of it yet, over a whole
    session: decode, mark, flush, acknowledge, resize. */
module Screen {
  import opened Basics
  import opened Dirty
  import opened Frame
  import opened Page

  const ACK_WINDOW: nat := 2

  /** What the decoder reports: inclusive edges. */
  datatype Region = Region(left: u16, top: u16, right: u16, bottom: u16) {

    predicate Has(px: nat, py: nat) {
      left <= px <= right && top <= py <= bottom
    }

    function ToRect(): Rect {
      Rect(left, top, Min(Max(right - left, 0) + 1, U16_MAX), Min(Max(bottom - top, 0) + 1, U16_MAX))
    }
  }

  /** Saturating costs nothing: what the desktop has of the region is covered. */
  lemma ClippedRegionCovers(region: Region, width: u16, height: u16, px: nat, py: nat)
    requires region.Has(px, py) && px < width && py < height
    ensures region.ToRect().Clip(width, height).Covers(px, py)
  {
  }

  /** The page shows this pixel as the framebuffer has it, opaque. */
  predicate OnPage(image: seq<u8>, page: seq<u8>, width: nat, px: nat, py: nat) {
    var i := (py * width + px) * 4;
    && i + 3 < |image| && i + 3 < |page|
    && page[i] == image[i] && page[i + 1] == image[i + 1] && page[i + 2] == image[i + 2] && page[i + 3] == 255
  }

  predicate ShowsByte(image: seq<u8>, page: seq<u8>, j: nat) {
    j < |image| && j < |page| && page[j] == Solid(j, image[j])
  }

  lemma OnPageBytes(image: seq<u8>, page: seq<u8>, width: nat, px: nat, py: nat)
    ensures OnPage(image, page, width, px, py) <==>
              && ShowsByte(image, page, At(width, px, py, 0)) && ShowsByte(image, page, At(width, px, py, 1))
              && ShowsByte(image, page, At(width, px, py, 2)) && ShowsByte(image, page, At(width, px, py, 3))
  {
    FourBytes(image, page, py * width + px);
  }

  lemma FourBytes(image: seq<u8>, page: seq<u8>, k: nat)
    ensures (&& k * 4 + 3 < |image| && k * 4 + 3 < |page|
             && page[k * 4] == image[k * 4] && page[k * 4 + 1] == image[k * 4 + 1]
             && page[k * 4 + 2] == image[k * 4 + 2] && page[k * 4 + 3] == 255)
       <==> && ShowsByte(image, page, k * 4) && ShowsByte(image, page, k * 4 + 1)
            && ShowsByte(image, page, k * 4 + 2) && ShowsByte(image, page, k * 4 + 3)
  {
    assert (k * 4) % 4 == 0 && (k * 4 + 1) % 4 == 1 && (k * 4 + 2) % 4 == 2 && (k * 4 + 3) % 4 == 3;
  }

  /** Every pixel of the desktop is dirty, or the page shows it. */
  ghost predicate Agree(rects: seq<Rect>, width: nat, height: nat, image: seq<u8>, page: seq<u8>) {
    forall px: nat, py: nat :: px < width && py < height && !Covered(rects, px, py) ==>
      OnPage(image, page, width, px, py)
  }

  /** What drawing some rectangles does to the page. */
  ghost predicate Draws(before: seq<u8>, after: seq<u8>, image: seq<u8>, rects: seq<Rect>, width: nat) {
    && |before| == |after| == |image|
    && forall i :: 0 <= i < |after| ==>
         after[i] == if ByteInAny(rects, width, i) then Solid(i, image[i]) else before[i]
  }

  lemma DrawnIsOnPage(before: seq<u8>, after: seq<u8>, image: seq<u8>, rects: seq<Rect>,
                     width: u16, height: u16, px: nat, py: nat)
    requires Draws(before, after, image, rects, width) && |image| == width * height * 4
    requires InBox(rects, Rect(0, 0, width, height)) && px < width && py < height
    requires Covered(rects, px, py) || OnPage(image, before, width, px, py)
    ensures OnPage(image, after, width, px, py)
  {
    hide Draws, Covered, InBox, OnPage, ShowsByte;
    OnPageBytes(image, before, width, px, py);
    OnPageBytes(image, after, width, px, py);
    ByteIsDrawn(before, after, image, rects, width, height, px, py, 0);
    ByteIsDrawn(before, after, image, rects, width, height, px, py, 1);
    ByteIsDrawn(before, after, image, rects, width, height, px, py, 2);
    ByteIsDrawn(before, after, image, rects, width, height, px, py, 3);
  }

  lemma ByteIsDrawn(before: seq<u8>, after: seq<u8>, image: seq<u8>, rects: seq<Rect>,
                    width: u16, height: u16, px: nat, py: nat, channel: nat)
    requires Draws(before, after, image, rects, width) && |image| == width * height * 4
    requires InBox(rects, Rect(0, 0, width, height)) && px < width && py < height && channel < 4
    requires Covered(rects, px, py) || ShowsByte(image, before, At(width, px, py, channel))
    ensures ShowsByte(image, after, At(width, px, py, channel))
  {
    AtIsInside(width, height, px, py, channel);
    if Covered(rects, px, py) {
      var k :| 0 <= k < |rects| && rects[k].Covers(px, py);
      assert rects[k] in rects;
      BytesArePixels(rects[k], width, px, py, channel);
    }
  }

  /** The page shows the pixel as it did before. */
  predicate SameOnPage(before: seq<u8>, after: seq<u8>, width: nat, px: nat, py: nat) {
    var i := (py * width + px) * 4;
    i + 3 < |before| && i + 3 < |after| ==>
      && after[i] == before[i] && after[i + 1] == before[i + 1]
      && after[i + 2] == before[i + 2] && after[i + 3] == before[i + 3]
  }

  /** Nothing is drawn but what the rectangles cover. */
  lemma NothingElseIsDrawn(before: seq<u8>, after: seq<u8>, image: seq<u8>, rects: seq<Rect>,
                           width: u16, height: u16, px: nat, py: nat)
    requires Draws(before, after, image, rects, width) && |image| == width * height * 4
    requires InBox(rects, Rect(0, 0, width, height)) && px < width && py < height
    requires !Covered(rects, px, py)
    ensures SameOnPage(before, after, width, px, py)
  {
    hide Draws, Covered, InBox;
    ByteIsNotDrawn(before, after, image, rects, width, height, px, py, 0);
    ByteIsNotDrawn(before, after, image, rects, width, height, px, py, 1);
    ByteIsNotDrawn(before, after, image, rects, width, height, px, py, 2);
    ByteIsNotDrawn(before, after, image, rects, width, height, px, py, 3);
  }

  lemma ByteIsNotDrawn(before: seq<u8>, after: seq<u8>, image: seq<u8>, rects: seq<Rect>,
                       width: u16, height: u16, px: nat, py: nat, channel: nat)
    requires Draws(before, after, image, rects, width) && |image| == width * height * 4
    requires InBox(rects, Rect(0, 0, width, height)) && px < width && py < height && channel < 4
    requires !Covered(rects, px, py)
    ensures var i := (py * width + px) * 4 + channel;
            |before| == |after| && i < |after| && after[i] == before[i]
  {
    var i := At(width, px, py, channel);
    AtIsInside(width, height, px, py, channel);
    forall k | 0 <= k < |rects|
      ensures !ByteIn(rects[k], width, i)
    {
      assert rects[k] in rects;
      BytesArePixels(rects[k], width, px, py, channel);
    }
  }

  /** Some message of these covers the pixel. */
  predicate InSome(messages: seq<seq<Rect>>, from: nat, to: nat, px: nat, py: nat)
    requires to <= |messages|
  {
    exists k :: from <= k < to && Covered(messages[k], px, py)
  }

  lemma {:induction false} TimesInIsInSome(messages: seq<seq<Rect>>, px: nat, py: nat)
    ensures TimesIn(messages, px, py) > 0 ==> InSome(messages, 0, |messages|, px, py)
    decreases |messages|
  {
    if messages != [] {
      var n := |messages| - 1;
      TimesInIsInSome(messages[..n], px, py);
      TimesIsCovered(messages[n], px, py);
      if TimesIn(messages[..n], px, py) > 0 {
        var k :| 0 <= k < n && Covered(messages[..n][k], px, py);
        assert Covered(messages[k], px, py);
      }
    }
  }

  /** What no message covers as often as once is in none. */
  lemma {:induction false} NotInAny(messages: seq<seq<Rect>>, px: nat, py: nat)
    requires TimesIn(messages, px, py) == 0
    ensures forall k :: 0 <= k < |messages| ==> !Covered(messages[k], px, py)
    decreases |messages|
  {
    if messages != [] {
      var n := |messages| - 1;
      NotInAny(messages[..n], px, py);
      TimesIsCovered(messages[n], px, py);
      forall k | 0 <= k < |messages|
        ensures !Covered(messages[k], px, py)
      {
        assert k < n ==> messages[..n][k] == messages[k];
      }
    }
  }

  /** What was taken, clipped and without what is empty then. */
  method Visible(taken: seq<Rect>, width: u16, height: u16) returns (rects: seq<Rect>)
    ensures forall r :: r in rects ==> !r.IsEmpty() && r.InRange()
    ensures InBox(rects, Rect(0, 0, width, height))
    ensures forall px: nat, py: nat :: Covered(rects, px, py) <==> Covered(taken, px, py) && px < width && py < height
    ensures forall box: Rect :: InBox(taken, box) ==> InBox(rects, box)
  {
    rects := [];
    for k := 0 to |taken|
      invariant forall r :: r in rects ==> !r.IsEmpty() && r.InRange()
      invariant InBox(rects, Rect(0, 0, width, height))
      invariant forall box: Rect :: InBox(taken, box) ==> InBox(rects, box)
      invariant forall px: nat, py: nat :: Covered(rects, px, py) <==>
                  Covered(taken[..k], px, py) && px < width && py < height
    {
      var clipped := taken[k].Clip(width, height);
      assert taken[..k + 1] == taken[..k] + [taken[k]];
      CoveredByOneMore(taken[..k], taken[k]);
      CoveredByOneMore(rects, clipped);
      forall px: nat, py: nat
        ensures clipped.Covers(px, py) <==> taken[k].Covers(px, py) && px < width && py < height
      {
        ClipIsIntersection(taken[k], width, height, px, py);
      }
      ClipIsIntersection(taken[k], width, height, 0, 0);
      if !clipped.IsEmpty() {
        assert taken[k] in taken && taken[k].Contains(clipped);
        rects := rects + [clipped];
      }
    }
    assert taken[..|taken|] == taken;
  }

  /** What was taken, as messages: each pixel of it that is on the desktop in some of them,
      and no other. */
  method PlanVisible(taken: seq<Rect>, width: u16, height: u16) returns (messages: seq<seq<Rect>>)
    ensures forall m :: m in messages ==> WithinLimits(m) && InBox(m, Rect(0, 0, width, height))
    ensures forall box: Rect :: InBox(taken, box) ==> forall m :: m in messages ==> InBox(m, box)
    ensures forall px: nat, py: nat :: px < width && py < height ==>
              (Covered(taken, px, py) <==> InSome(messages, 0, |messages|, px, py))
  {
    hide Covered, InSome, InBox, Times, TimesIn, WithinLimits, Packed, Flatten, AreCuts;
    var rects := Visible(taken, width, height);
    messages := PlanBitmaps(rects);
    forall px: nat, py: nat
      ensures Covered(rects, px, py) <==> InSome(messages, 0, |messages|, px, py)
    {
      TimesIsCovered(rects, px, py);
      if TimesIn(messages, px, py) > 0 {
        TimesInIsInSome(messages, px, py);
      } else {
        NotInAny(messages, px, py);
        NotInSome(messages, px, py);
      }
    }
  }

  lemma NotInSome(messages: seq<seq<Rect>>, px: nat, py: nat)
    requires forall k :: 0 <= k < |messages| ==> !Covered(messages[k], px, py)
    ensures !InSome(messages, 0, |messages|, px, py)
  {
  }

  lemma NothingIn()
    ensures forall px: nat, py: nat :: !InSome([], 0, 0, px, py)
  {
  }

  /** A pixel of the messages is in one that was sent, or in one that was not. */
  lemma SentOrNot(messages: seq<seq<Rect>>, sent: nat, px: nat, py: nat)
    requires sent <= |messages|
    ensures InSome(messages, 0, |messages|, px, py) <==>
              InSome(messages, 0, sent, px, py) || InSome(messages, sent, |messages|, px, py)
  {
    if InSome(messages, 0, |messages|, px, py) {
      var k :| 0 <= k < |messages| && Covered(messages[k], px, py);
      assert if k < sent then InSome(messages, 0, sent, px, py) else InSome(messages, sent, |messages|, px, py);
    }
  }

  /** A framebuffer as a value. */
  datatype Canvas = Canvas(width: u16, height: u16, image: seq<u8>)

  function Blank(width: u16, height: u16): Canvas {
    Canvas(width, height, seq(width * height * 4, _ => 0))
  }

  datatype SessionEvent =
    | Decoded(pixels: seq<u8>, regions: seq<Region>)
    | FlushDue
    | Acked
    | Resized(width: u16, height: u16)

  /** An update that fits the image: of its size, and the same outside its regions. */
  predicate Plausible(image: seq<u8>, width: nat, height: nat, pixels: seq<u8>, regions: seq<Region>) {
    && |pixels| == |image|
    && forall px, py, channel | 0 <= px < width && 0 <= py < height && 0 <= channel < 4 ::
         (forall r :: r in regions ==> !r.Has(px, py)) && At(width, px, py, channel) < |pixels| ==>
           pixels[At(width, px, py, channel)] == image[At(width, px, py, channel)]
  }

  class Screen {
    var width: u16
    var height: u16
    var image: array<u8>
    var dirty: DirtyRegion
    var unacked: nat
    /** The page, which reads each message in the order they are sent. */
    var page: Picture

    function Desktop(): Rect
      reads this`width, this`height
    {
      Rect(0, 0, width, height)
    }

    ghost predicate Shape()
      reads this, dirty, page
    {
      && image.Length == width * height * 4
      && page.width == width && page.height == height && page.Valid()
      && page.rgba != image
      && dirty.Valid() && InBox(dirty.rects, Desktop())
      && unacked <= ACK_WINDOW
    }

    ghost predicate Valid()
      reads this, dirty, page, page.rgba, image
    {
      Shape() && Agree(dirty.rects, width, height, image[..], page.rgba[..])
    }

    ghost function Framebuffer(): Canvas
      reads this`width, this`height, this`image, image
    {
      Canvas(width, height, image[..])
    }

    /** A new session: the page learns the size, and everything is dirty. */
    constructor (width: u16, height: u16)
      ensures Valid() && Framebuffer() == Blank(width, height) && unacked == 0 && page.drawn == 0
      ensures fresh(image) && fresh(dirty) && fresh(page) && fresh(page.rgba)
    {
      this.width, this.height, unacked := width, height, 0;
      image := new u8[width * height * 4](_ => 0);
      dirty := new DirtyRegion();
      page := new Picture();
      new;
      assert Framebuffer() == Blank(width, height);
      page.Apply([KIND_DESKTOP_SIZE] + Le(width) + Le(height), DesktopSize(width, height));
      MarkAllDirty();
    }

    method MarkAllDirty()
      requires dirty.Valid()
      modifies dirty
      ensures dirty.Valid() && InBox(dirty.rects, Desktop())
      ensures forall px: nat, py: nat :: px < width && py < height ==> Covered(dirty.rects, px, py)
    {
      dirty.Clear();
      dirty.Add(Desktop());
      assert InBox([], Desktop()) && Desktop().Contains(Desktop());
      assert forall px: nat, py: nat :: px < width && py < height ==> Desktop().Covers(px, py);
    }

    /** A box that has all the desktop has of a region; of one that ends before it begins,
        its first row or column. */
    ghost predicate HasInDesktop(region: Region, box: Rect)
      reads this`width, this`height
    {
      forall px: nat, py: nat ::
        (&& region.left <= px <= Max(region.left, region.right) && px < width
         && region.top <= py <= Max(region.top, region.bottom) && py < height) ==> box.Covers(px, py)
    }

    lemma ClippedRegionIsIn(region: Region, box: Rect)
      requires HasInDesktop(region, box) && !region.ToRect().Clip(width, height).IsEmpty()
      ensures box.Contains(region.ToRect().Clip(width, height))
    {
      var rect := region.ToRect().Clip(width, height);
      assert box.Covers(rect.x, rect.y) && box.Covers(rect.Right() - 1, rect.Bottom() - 1);
    }

    method MarkDirty(region: Region)
      requires dirty.Valid() && InBox(dirty.rects, Desktop())
      modifies dirty
      ensures dirty.Valid() && InBox(dirty.rects, Desktop())
      ensures forall px: nat, py: nat ::
                px < width && py < height && (Covered(old(dirty.rects), px, py) || region.Has(px, py)) ==>
                  Covered(dirty.rects, px, py)
      ensures forall box: Rect :: InBox(old(dirty.rects), box) && HasInDesktop(region, box) ==> InBox(dirty.rects, box)
    {
      var rect := region.ToRect().Clip(width, height);
      ClipIsIntersection(region.ToRect(), width, height, 0, 0);
      forall px: nat, py: nat | region.Has(px, py) && px < width && py < height
        ensures rect.Covers(px, py)
      {
        ClippedRegionCovers(region, width, height, px, py);
      }
      forall box: Rect | HasInDesktop(region, box)
        ensures rect.IsEmpty() || box.Contains(rect)
      {
        if !rect.IsEmpty() { ClippedRegionIsIn(region, box); }
      }
      dirty.Add(rect);
    }

    /** An update from the server. The decoder changes pixels only inside the
        regions it reports. */
    method Decode(pixels: seq<u8>, regions: seq<Region>)
      requires Valid() && |pixels| == image.Length
      requires forall px: nat, py: nat, channel: nat | px < width && py < height && channel < 4 ::
                 (forall r :: r in regions ==> !r.Has(px, py)) && At(width, px, py, channel) < |pixels| ==>
                   pixels[At(width, px, py, channel)] == image[At(width, px, py, channel)]
      modifies image, dirty
      ensures Valid() && Framebuffer() == Canvas(width, height, pixels)
      ensures forall px: nat, py: nat :: px < width && py < height && Covered(old(dirty.rects), px, py) ==>
                Covered(dirty.rects, px, py)
      ensures forall box: Rect ::
                InBox(old(dirty.rects), box) && (forall r :: r in regions ==> HasInDesktop(r, box)) ==>
                  InBox(dirty.rects, box)
    {
      hide OnPage, Covered, InBox, HasInDesktop, DirtyRegion.Valid;
      ghost var before := image[..];
      ghost var start, shown := dirty.rects, page.rgba[..];
      assert Agree(start, width, height, before, shown);
      forall i | 0 <= i < image.Length {
        image[i] := pixels[i];
      }
      assert image[..] == pixels;
      for k := 0 to |regions|
        invariant Shape() && image[..] == pixels && page.rgba[..] == shown
        invariant forall px: nat, py: nat :: px < width && py < height && !Covered(dirty.rects, px, py) ==>
                    !Covered(start, px, py) && forall j :: 0 <= j < k ==> !regions[j].Has(px, py)
        invariant forall px: nat, py: nat :: px < width && py < height && Covered(start, px, py) ==>
                    Covered(dirty.rects, px, py)
        invariant forall box: Rect :: InBox(start, box) && (forall r :: r in regions ==> HasInDesktop(r, box)) ==>
                    InBox(dirty.rects, box)
      {
        MarkDirty(regions[k]);
      }
      forall px: nat, py: nat | px < width && py < height && !Covered(dirty.rects, px, py)
        ensures OnPage(pixels, shown, width, px, py)
      {
        StaysOnPage(before, pixels, shown, px, py, regions);
      }
    }

    lemma StaysOnPage(before: seq<u8>, after: seq<u8>, shown: seq<u8>, px: nat, py: nat, regions: seq<Region>)
      requires px < width && py < height && |before| == |after| == width * height * 4
      requires OnPage(before, shown, width, px, py)
      requires forall channel :: 0 <= channel < 4 && At(width, px, py, channel) < |after| ==>
                 after[At(width, px, py, channel)] == before[At(width, px, py, channel)]
      ensures OnPage(after, shown, width, px, py)
    {
      hide OnPage;
      OnPageBytes(before, shown, width, px, py);
      OnPageBytes(after, shown, width, px, py);
    }

    predicate CanFlush()
      reads this, dirty
    {
      dirty.rects != [] && unacked < ACK_WINDOW
    }

    /** Send as much of the dirty region as the window allows. What is sent the page
        shows; what is not stays dirty; and something stays only if the window is
        full. `messages` is what was dirty, of which the first `sent` were drawn, and
        only those, and only the others stay. */
    method Flush() returns (ghost messages: seq<seq<Rect>>, ghost sent: nat)
      requires Valid() && CanFlush()
      modifies this`unacked, dirty, page, page.rgba
      ensures Valid() && page.rgba == old(page.rgba)
      ensures page.drawn > old(page.drawn) && unacked == old(unacked) + (page.drawn - old(page.drawn))
      ensures unacked <= 2 && (dirty.rects == [] || unacked == 2)
      ensures forall px: nat, py: nat :: px < width && py < height && !Covered(old(dirty.rects), px, py) ==>
                SameOnPage(old(page.rgba[..]), page.rgba[..], width, px, py)
      ensures forall box: Rect :: InBox(old(dirty.rects), box) ==> InBox(dirty.rects, box)
      ensures sent == page.drawn - old(page.drawn) && sent <= |messages| && (sent == |messages| ==> dirty.rects == [])
      ensures forall px: nat, py: nat :: px < width && py < height ==>
                && (Covered(old(dirty.rects), px, py) <==> InSome(messages, 0, |messages|, px, py))
                && (!InSome(messages, 0, sent, px, py) ==>
                      SameOnPage(old(page.rgba[..]), page.rgba[..], width, px, py))
      ensures forall box: Rect :: (forall m :: m in messages[sent..] ==> InBox(m, box)) ==> InBox(dirty.rects, box)
    {
      ghost var start, shown := dirty.rects, page.rgba[..];
      hide Covered, InSome, InBox, OnPage, SameOnPage, WithinLimits, DirtyRegion.Valid;
      SomethingIsCovered(start, Desktop());
      var taken := dirty.Take();
      var plan := PlanVisible(taken, width, height);
      if plan == [] { NothingIn(); }
      var count := Send(plan, start);
      KeepRest(plan, count, start);
      messages, sent := plan, count;
      forall px: nat, py: nat | px < width && py < height
        ensures Covered(dirty.rects, px, py) || OnPage(image[..], page.rgba[..], width, px, py)
        ensures !Covered(start, px, py) ==> SameOnPage(shown, page.rgba[..], width, px, py)
      {
        SentOrNot(messages, sent, px, py);
      }
    }

    lemma SomethingIsCovered(rects: seq<Rect>, box: Rect)
      requires rects != [] && Proper(rects) && InBox(rects, box)
      ensures exists x: nat, y: nat :: x < box.Right() && y < box.Bottom() && Covered(rects, x, y)
    {
      assert rects[0] in rects && rects[0].Covers(rects[0].x, rects[0].y);
      assert Covered(rects, rects[0].x, rects[0].y);
    }

    /** The messages the window has room for. */
    method Send(messages: seq<seq<Rect>>, ghost start: seq<Rect>) returns (sent: nat)
      requires Shape() && unacked < ACK_WINDOW
      requires Agree(start, width, height, image[..], page.rgba[..])
      requires forall m :: m in messages ==> WithinLimits(m) && InBox(m, Desktop())
      modifies this`unacked, page, page.rgba
      ensures Shape() && page.rgba == old(page.rgba)
      ensures sent <= |messages| && (sent == |messages| || unacked == ACK_WINDOW)
      ensures page.drawn == old(page.drawn) + sent && unacked == old(unacked) + sent
      ensures forall px: nat, py: nat :: px < width && py < height && !InSome(messages, 0, sent, px, py) ==>
                SameOnPage(old(page.rgba[..]), page.rgba[..], width, px, py)
      ensures forall px: nat, py: nat :: px < width && py < height ==>
                (!Covered(start, px, py) || InSome(messages, 0, sent, px, py)) ==>
                  OnPage(image[..], page.rgba[..], width, px, py)
    {
      sent := 0;
      while sent < |messages| && unacked < ACK_WINDOW
        invariant Shape() && page.rgba == old(page.rgba) && sent <= |messages|
        invariant page.drawn == old(page.drawn) + sent && unacked == old(unacked) + sent
        invariant forall px: nat, py: nat :: px < width && py < height && !InSome(messages, 0, sent, px, py) ==>
                    SameOnPage(old(page.rgba[..]), page.rgba[..], width, px, py)
        invariant forall px: nat, py: nat :: px < width && py < height ==>
                    (!Covered(start, px, py) || InSome(messages, 0, sent, px, py)) ==>
                      OnPage(image[..], page.rgba[..], width, px, py)
        decreases |messages| - sent
      {
        ghost var before := page.rgba[..];
        SendOne(messages[sent]);
        forall px: nat, py: nat | px < width && py < height
                                  && (!Covered(start, px, py) || InSome(messages, 0, sent + 1, px, py))
          ensures OnPage(image[..], page.rgba[..], width, px, py)
        {
          assert Covered(messages[sent], px, py)
                 || !Covered(start, px, py) || InSome(messages, 0, sent, px, py);
          DrawnIsOnPage(before, page.rgba[..], image[..], messages[sent], width, height, px, py);
        }
        forall px: nat, py: nat | px < width && py < height && !InSome(messages, 0, sent + 1, px, py)
          ensures SameOnPage(old(page.rgba[..]), page.rgba[..], width, px, py)
        {
          assert !Covered(messages[sent], px, py) && !InSome(messages, 0, sent, px, py);
          NothingElseIsDrawn(before, page.rgba[..], image[..], messages[sent], width, height, px, py);
        }
        sent := sent + 1;
      }
    }

    method SendOne(message: seq<Rect>)
      requires Shape() && unacked < ACK_WINDOW
      requires WithinLimits(message) && InBox(message, Desktop())
      modifies this`unacked, page, page.rgba
      ensures Shape() && page.rgba == old(page.rgba)
      ensures unacked == old(unacked) + 1 && page.drawn == old(page.drawn) + 1
      ensures Draws(old(page.rgba[..]), page.rgba[..], image[..], message, width)
    {
      var bytes := EncodeBitmaps(image[..], width * 4, message);
      page.Apply(bytes, Bitmaps(image[..], width * 4, message));
      unacked := unacked + 1;
    }

    /** What was not sent is dirty again. */
    method KeepRest(messages: seq<seq<Rect>>, from: nat, ghost start: seq<Rect>)
      requires Shape() && from <= |messages| && dirty.rects == []
      requires forall m :: m in messages ==> WithinLimits(m) && InBox(m, Desktop())
      modifies dirty
      ensures Shape()
      ensures from == |messages| ==> dirty.rects == []
      ensures forall box: Rect :: (forall m :: m in messages[from..] ==> InBox(m, box)) ==> InBox(dirty.rects, box)
      ensures forall px: nat, py: nat :: InSome(messages, from, |messages|, px, py) ==> Covered(dirty.rects, px, py)
    {
      for k := from to |messages|
        invariant Shape() && (k == from ==> dirty.rects == [])
        invariant forall box: Rect :: (forall m :: m in messages[from..] ==> InBox(m, box)) ==> InBox(dirty.rects, box)
        invariant forall px: nat, py: nat :: InSome(messages, from, k, px, py) ==> Covered(dirty.rects, px, py)
      {
        var message := messages[k];
        assert message in messages && message == messages[from..][k - from];
        AddAll(message);
      }
    }

    method AddAll(message: seq<Rect>)
      requires Shape()
      requires WithinLimits(message) && InBox(message, Desktop())
      modifies dirty
      ensures Shape()
      ensures forall box: Rect :: InBox(old(dirty.rects), box) && InBox(message, box) ==> InBox(dirty.rects, box)
      ensures forall px: nat, py: nat :: Covered(old(dirty.rects), px, py) || Covered(message, px, py) ==>
                Covered(dirty.rects, px, py)
    {
      for j := 0 to |message|
        invariant Shape()
        invariant forall box: Rect :: InBox(old(dirty.rects), box) && InBox(message, box) ==> InBox(dirty.rects, box)
        invariant forall px: nat, py: nat :: Covered(old(dirty.rects), px, py) ==> Covered(dirty.rects, px, py)
        invariant forall px: nat, py: nat ::
                    (exists i :: 0 <= i < j && message[i].Covers(px, py)) ==> Covered(dirty.rects, px, py)
      {
        assert message[j] in message && Carries(message[j]);
        dirty.Add(message[j]);
      }
    }

    method Ack()
      requires Valid()
      modifies this`unacked
      ensures Valid() && unacked == Max(old(unacked) - 1, 0)
    {
      unacked := Max(unacked - 1, 0);
    }

    /** A new size: the page hears of it before any pixel, and everything old is
        void. Messages it has not acknowledged still count. */
    method Resize(width: u16, height: u16)
      requires Valid()
      modifies this`width, this`height, this`image, dirty, page, page.rgba
      ensures Valid() && Framebuffer() == Blank(width, height)
      ensures fresh(image) && fresh(page.rgba) && page == old(page) && dirty == old(dirty)
      ensures page.drawn == old(page.drawn)
    {
      this.width, this.height := width, height;
      image := new u8[width * height * 4](_ => 0);
      assert Framebuffer() == Blank(width, height);
      MarkAllDirty();
      page.Apply([KIND_DESKTOP_SIZE] + Le(width) + Le(height), DesktopSize(width, height));
    }

    /** With nothing dirty, the page is the framebuffer. */
    lemma CleanIsUpToDate(px: nat, py: nat)
      requires Valid() && dirty.rects == [] && px < width && py < height
      ensures OnPage(image[..], page.rgba[..], width, px, py)
    {
    }
  }

  /** What the framebuffer is after an event: an update that fits it replaces it,
      a new size starts it over, and nothing else touches it. */
  function AfterEvent(canvas: Canvas, event: SessionEvent): Canvas {
    match event
    case Decoded(pixels, regions) =>
      if Plausible(canvas.image, canvas.width, canvas.height, pixels, regions) then canvas.(image := pixels)
      else canvas
    case Resized(width, height) => Blank(width, height)
    case _ => canvas
  }

  function CanvasAfter(width: u16, height: u16, events: seq<SessionEvent>): Canvas
    decreases |events|
  {
    if events == [] then Blank(width, height)
    else AfterEvent(CanvasAfter(width, height, events[..|events| - 1]), events[|events| - 1])
  }

  /** What an event leaves behind: a flush something dirty only if the window is
      full, and an acknowledgement room in the window. */
  predicate LeavesRoom(event: SessionEvent, dirty: seq<Rect>, unacked: nat) {
    match event
    case FlushDue => dirty == [] || unacked == ACK_WINDOW
    case Acked => unacked < ACK_WINDOW
    case _ => true
  }

  function Sum(counts: seq<nat>): nat {
    if counts == [] then 0 else Sum(counts[..|counts| - 1]) + counts[|counts| - 1]
  }

  /** What is outstanding after an event that sent so many messages. */
  function StillOutstanding(event: SessionEvent, before: nat, sent: nat): nat {
    if event.Acked? then Max(before - 1, 0) else before + sent
  }

  /** What is outstanding when each event sent that many messages: those sent, less
      one for each acknowledgement that found something outstanding. */
  function Outstanding(events: seq<SessionEvent>, sent: seq<nat>): nat
    requires |sent| == |events|
    decreases |events|
  {
    if events == [] then 0
    else
      var last := |events| - 1;
      StillOutstanding(events[last], Outstanding(events[..last], sent[..last]), sent[last])
  }

  /** One event. Only a flush sends anything. */
  method Handle(screen: Screen, event: SessionEvent) returns (ghost sent: nat)
    requires screen.Valid()
    modifies screen, screen.image, screen.dirty, screen.page, screen.page.rgba
    ensures screen.Valid() && screen.Framebuffer() == AfterEvent(old(screen.Framebuffer()), event)
    ensures var was := old(screen.Framebuffer());
            event.Decoded? && |event.pixels| == |was.image|
            && (forall px: nat, py: nat, channel: nat :: px < was.width && py < was.height && channel < 4 ==>
                  var i := At(was.width, px, py, channel);
                  i < |was.image| && (forall r :: r in event.regions ==> !r.Has(px, py)) ==>
                    event.pixels[i] == was.image[i]) ==>
              screen.Framebuffer() == was.(image := event.pixels)
    ensures LeavesRoom(event, screen.dirty.rects, screen.unacked)
    ensures screen.page.drawn == old(screen.page.drawn) + sent
    ensures screen.unacked == StillOutstanding(event, old(screen.unacked), sent)
    ensures sent > 0 <==> event.FlushDue? && old(screen.CanFlush())
    ensures screen.dirty == old(screen.dirty) && screen.page == old(screen.page)
    ensures screen.image == old(screen.image) || fresh(screen.image)
    ensures screen.page.rgba == old(screen.page.rgba) || fresh(screen.page.rgba)
  {
    match event {
      case Decoded(pixels, regions) =>
        if Plausible(screen.image[..], screen.width, screen.height, pixels, regions) {
          screen.Decode(pixels, regions);
        }
      case FlushDue =>
        if screen.CanFlush() {
          var _, _ := screen.Flush();
        }
      case Acked =>
        screen.Ack();
      case Resized(width, height) =>
        screen.Resize(width, height);
    }
    sent := screen.page.drawn - old(screen.page.drawn);
  }

  /** The session's loop, over any events in any order: the framebuffer is what the
      updates and sizes make it, and at the end, as after every event, each pixel of
      it is dirty or shown. `sent` is how many messages each event had the page draw;
      only a flush sends any, and what is outstanding is what was sent and not
      acknowledged. */
  method Drive(width: u16, height: u16, events: seq<SessionEvent>) returns (screen: Screen, ghost sent: seq<nat>)
    ensures screen.Valid() && screen.Framebuffer() == CanvasAfter(width, height, events)
    ensures events != [] ==> LeavesRoom(events[|events| - 1], screen.dirty.rects, screen.unacked)
    ensures |sent| == |events| && screen.page.drawn == Sum(sent) && screen.unacked == Outstanding(events, sent)
    ensures forall k :: 0 <= k < |events| && sent[k] > 0 ==> events[k].FlushDue?
  {
    screen := new Screen(width, height);
    sent := [];
    for k := 0 to |events|
      invariant screen.Valid() && screen.Framebuffer() == CanvasAfter(width, height, events[..k])
      invariant k > 0 ==> LeavesRoom(events[k - 1], screen.dirty.rects, screen.unacked)
      invariant |sent| == k && screen.page.drawn == Sum(sent) && screen.unacked == Outstanding(events[..k], sent)
      invariant forall i :: 0 <= i < k && sent[i] > 0 ==> events[i].FlushDue?
      invariant fresh(screen) && fresh(screen.image) && fresh(screen.dirty)
                && fresh(screen.page) && fresh(screen.page.rgba)
    {
      assert events[..k + 1][..k] == events[..k];
      ghost var more := Handle(screen, events[k]);
      assert (sent + [more])[..k] == sent;
      sent := sent + [more];
    }
    assert events[..|events|] == events;
  }
}
