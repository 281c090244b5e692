/** How the dirty region is cut into messages to the page. */
module Frame {
  import opened Basics
  import opened Dirty

  const KIND_BITMAPS: u8 := 1
  const KIND_DESKTOP_SIZE: u8 := 2
  const BITMAPS_HEADER: nat := 3
  const RECT_HEADER: nat := 8
  const MAX_BITMAPS_BYTES: nat := 32 * 1024 * 1024
  const MAX_RECTS_PER_MESSAGE: nat := U16_MAX

  // ----- Cutting -----

  function PieceSize(r: Rect): nat {
    RECT_HEADER + r.w * r.h * 4
  }

  function PiecesSize(rects: seq<Rect>): nat {
    if rects == [] then 0 else PiecesSize(rects[..|rects| - 1]) + PieceSize(rects[|rects| - 1])
  }

  /** Bytes a message with these rectangles takes. */
  function BitmapsSize(rects: seq<Rect>): nat {
    BITMAPS_HEADER + PiecesSize(rects)
  }

  lemma SizeOfOneMore(rects: seq<Rect>, r: Rect)
    ensures PiecesSize(rects + [r]) == PiecesSize(rects) + PieceSize(r)
  {
    assert (rects + [r])[..|rects|] == rects;
  }

  /** How often a pixel is covered. */
  function Times(rects: seq<Rect>, px: nat, py: nat): nat {
    if rects == [] then 0
    else Times(rects[..|rects| - 1], px, py) + if rects[|rects| - 1].Covers(px, py) then 1 else 0
  }

  function TimesIn(messages: seq<seq<Rect>>, px: nat, py: nat): nat {
    if messages == [] then 0
    else TimesIn(messages[..|messages| - 1], px, py) + Times(messages[|messages| - 1], px, py)
  }

  lemma TimesOneMore(rects: seq<Rect>, r: Rect, px: nat, py: nat)
    ensures Times(rects + [r], px, py) == Times(rects, px, py) + if r.Covers(px, py) then 1 else 0
  {
    assert (rects + [r])[..|rects|] == rects;
  }

  lemma {:induction false} TimesAdd(a: seq<Rect>, b: seq<Rect>, px: nat, py: nat)
    ensures Times(a + b, px, py) == Times(a, px, py) + Times(b, px, py)
    decreases |b|
  {
    if b == [] {
      assert a + b == a;
    } else {
      TimesAdd(a, b[..|b| - 1], px, py);
      assert (a + b)[..|a + b| - 1] == a + b[..|b| - 1];
    }
  }

  lemma {:induction false} TimesIsCovered(rects: seq<Rect>, px: nat, py: nat)
    ensures Times(rects, px, py) > 0 <==> Covered(rects, px, py)
    decreases |rects|
  {
    if rects != [] {
      var front, last := rects[..|rects| - 1], rects[|rects| - 1];
      TimesIsCovered(front, px, py);
      CoveredByOneMore(front, last);
      assert front + [last] == rects;
    }
  }

  /** A piece one message can carry on its own. */
  predicate Carries(r: Rect) {
    !r.IsEmpty() && r.InRange() && BITMAPS_HEADER + PieceSize(r) <= MAX_BITMAPS_BYTES
  }

  predicate WithinLimits(message: seq<Rect>) {
    && 0 < |message| <= MAX_RECTS_PER_MESSAGE
    && BitmapsSize(message) <= MAX_BITMAPS_BYTES
    && forall r :: r in message ==> Carries(r)
  }

  /** Strips of a rectangle, from its top down to `to`, each but the last as high as a
      message of its own can be. */
  ghost predicate Strips(rect: Rect, pieces: seq<Rect>, to: nat) {
    && (if pieces == [] then to == rect.y else pieces[0].y == rect.y && pieces[|pieces| - 1].Bottom() == to)
    && (forall k :: 0 <= k < |pieces| ==> pieces[k].x == rect.x && pieces[k].w == rect.w && pieces[k].h > 0)
    && (forall k :: 0 <= k < |pieces| - 1 ==> Follows(pieces[k], pieces[k + 1]))
  }

  /** A strip below another that could not be a row higher. */
  predicate Follows(above: Rect, below: Rect) {
    && below.y == above.Bottom()
    && BITMAPS_HEADER + RECT_HEADER + above.w * (above.h + 1) * 4 > MAX_BITMAPS_BYTES
  }

  lemma OneMoreStrip(rect: Rect, pieces: seq<Rect>, to: nat, strip: Rect)
    requires Strips(rect, pieces, to) && strip.x == rect.x && strip.y == to && strip.w == rect.w && strip.h > 0
    requires pieces != [] ==> Follows(pieces[|pieces| - 1], strip)
    ensures Strips(rect, pieces + [strip], to + strip.h)
  {
    hide Follows;
    var all := pieces + [strip];
    forall k | 0 <= k < |all| - 1
      ensures Follows(all[k], all[k + 1])
    {
    }
  }

  /** A rectangle cut into strips; one that fits a message is not cut. */
  ghost predicate IsCut(rect: Rect, pieces: seq<Rect>) {
    if rect.IsEmpty() then pieces == [] else Strips(rect, pieces, rect.Bottom())
  }

  ghost predicate AreCuts(rects: seq<Rect>, cuts: seq<seq<Rect>>) {
    |cuts| == |rects| && forall i :: 0 <= i < |rects| ==> IsCut(rects[i], cuts[i])
  }

  lemma OneMoreCut(rects: seq<Rect>, cuts: seq<seq<Rect>>, rect: Rect, pieces: seq<Rect>)
    requires AreCuts(rects, cuts) && IsCut(rect, pieces)
    ensures AreCuts(rects + [rect], cuts + [pieces])
  {
    hide IsCut;
  }

  function Flatten(messages: seq<seq<Rect>>): seq<Rect> {
    if messages == [] then [] else Flatten(messages[..|messages| - 1]) + messages[|messages| - 1]
  }

  lemma FlattenOneMore(messages: seq<seq<Rect>>, m: seq<Rect>)
    ensures Flatten(messages + [m]) == Flatten(messages) + m
  {
    assert (messages + [m])[..|messages|] == messages;
  }

  /** Every message is as full as the next piece lets it be. */
  ghost predicate Packed(messages: seq<seq<Rect>>) {
    forall k :: 0 <= k < |messages| - 1 ==> NoRoomFor(messages[k], messages[k + 1])
  }

  predicate NoRoomFor(message: seq<Rect>, next: seq<Rect>) {
    && next != []
    && (|message| >= MAX_RECTS_PER_MESSAGE
        || BitmapsSize(message) + RECT_HEADER + next[0].w * next[0].h * 4 > MAX_BITMAPS_BYTES)
  }

  lemma OneMorePacked(messages: seq<seq<Rect>>, m: seq<Rect>)
    requires Packed(messages) && (messages != [] ==> NoRoomFor(messages[|messages| - 1], m))
    ensures Packed(messages + [m])
  {
    hide NoRoomFor;
    var all := messages + [m];
    forall k | 0 <= k < |all| - 1
      ensures NoRoomFor(all[k], all[k + 1])
    {
    }
  }

  predicate AllInside(pieces: seq<Rect>, rect: Rect) {
    forall r :: r in pieces ==> rect.Contains(r)
  }

  /** How many rows of that width one message can carry. */
  function MaxRows(w: u16): (rows: u16)
    requires w > 0
    ensures rows > 0
  {
    Min(Max((MAX_BITMAPS_BYTES - BITMAPS_HEADER - RECT_HEADER) / (w * 4), 1), U16_MAX)
  }

  lemma StripFits(r: Rect)
    requires !r.IsEmpty() && r.InRange() && r.h <= MaxRows(r.w)
    ensures Carries(r)
  {
    var room := MAX_BITMAPS_BYTES - BITMAPS_HEADER - RECT_HEADER;
    RowsFit(r.w, r.h, room, room / (r.w * 4));
  }

  lemma RowsFit(w: nat, h: nat, room: nat, rows: nat)
    requires 0 < w && w * 4 <= room && rows == room / (w * 4) && h <= Max(rows, 1)
    ensures rows >= 1 && w * h * 4 <= room
  {
    assert rows * (w * 4) <= room;
    assert h * (w * 4) <= rows * (w * 4);
  }

  /** A rectangle in horizontal strips, each small enough, covering each of its
      pixels once. */
  method Cut(rect: Rect) returns (pieces: seq<Rect>)
    requires !rect.IsEmpty() && rect.InRange()
    ensures forall r :: r in pieces ==> Carries(r)
    ensures AllInside(pieces, rect) && IsCut(rect, pieces)
    ensures forall px: nat, py: nat :: Times(pieces, px, py) == if rect.Covers(px, py) then 1 else 0
  {
    hide Follows, Strips, Times, Carries, MaxRows;
    var maxRows := MaxRows(rect.w);
    pieces := [];
    var y, remaining := rect.y, rect.h;
    NoStrips(rect);
    while remaining > 0
      invariant remaining >= 0 && y + remaining == rect.Bottom() && Strips(rect, pieces, y)
      invariant remaining > 0 ==> pieces == [] || LastIs(pieces, rect.w, maxRows, y)
      invariant forall r :: r in pieces ==> Carries(r)
      invariant AllInside(pieces, rect)
      decreases remaining
    {
      var h: u16 := Min(remaining, maxRows);
      var strip := Rect(rect.x, y, rect.w, h);
      StripFits(strip);
      if pieces != [] { FullIsFollowed(pieces[|pieces| - 1], strip); }
      OneMoreStrip(rect, pieces, y, strip);
      pieces := pieces + [strip];
      y := Min(y + h, U16_MAX);
      remaining := remaining - h;
    }
    forall px: nat, py: nat
      ensures Times(pieces, px, py) == if rect.Covers(px, py) then 1 else 0
    {
      StripsCover(rect, pieces, rect.Bottom(), px, py);
    }
  }

  /** Strips cover each pixel down to where they go once. */
  lemma {:induction false} StripsCover(rect: Rect, pieces: seq<Rect>, to: nat, px: nat, py: nat)
    requires Strips(rect, pieces, to)
    ensures rect.y <= to
    ensures Times(pieces, px, py) == if rect.x <= px < rect.Right() && rect.y <= py < to then 1 else 0
    decreases |pieces|
  {
    if pieces != [] {
      var front, last := pieces[..|pieces| - 1], pieces[|pieces| - 1];
      assert front != [] ==> Follows(pieces[|pieces| - 2], pieces[|pieces| - 2 + 1]);
      StripsCover(rect, front, last.y, px, py);
    }
  }

  /** What bundled pieces cover, their messages do. */
  lemma {:induction false} FlattenTimes(messages: seq<seq<Rect>>, px: nat, py: nat)
    ensures TimesIn(messages, px, py) == Times(Flatten(messages), px, py)
    decreases |messages|
  {
    if messages != [] {
      var front, last := messages[..|messages| - 1], messages[|messages| - 1];
      FlattenTimes(front, px, py);
      TimesAdd(Flatten(front), last, px, py);
    }
  }

  predicate LastIs(pieces: seq<Rect>, w: nat, h: nat, to: nat)
    requires pieces != []
  {
    var last := pieces[|pieces| - 1];
    last.w == w && last.h == h && last.Bottom() == to
  }

  lemma NoStrips(rect: Rect)
    ensures Strips(rect, [], rect.y)
  {
  }

  /** A strip of the greatest height that is not the last one could not be higher. */
  lemma FullIsFollowed(above: Rect, below: Rect)
    requires !above.IsEmpty() && below.y == above.Bottom() && below.y < U16_MAX && above.h == MaxRows(above.w)
    ensures Follows(above, below)
  {
    var room, row := MAX_BITMAPS_BYTES - BITMAPS_HEADER - RECT_HEADER, above.w * 4;
    assert row <= room;
    assert room < (room / row + 1) * row;
    assert above.w * (above.h + 1) * 4 == (above.h + 1) * row;
  }

  /** The plan covers every pixel exactly as often as the rectangles do, in
      messages that are never empty, never too long, and never carry more
      rectangles than their count can say. */
  method PlanBitmaps(rects: seq<Rect>) returns (messages: seq<seq<Rect>>)
    requires forall r :: r in rects ==> r.IsEmpty() || r.InRange()
    ensures forall m :: m in messages ==>
              WithinLimits(m) && |m| <= 65_535 && BitmapsSize(m) <= 32 * 1024 * 1024
    ensures exists cuts :: AreCuts(rects, cuts) && Flatten(messages) == Flatten(cuts)
    ensures Packed(messages)
    ensures forall px: nat, py: nat :: TimesIn(messages, px, py) == Times(rects, px, py)
    ensures forall box: Rect :: InBox(rects, box) ==> forall m :: m in messages ==> InBox(m, box)
  {
    var pieces;
    ghost var cuts;
    pieces, cuts := CutAll(rects);
    messages := Bundle(pieces);
  }

  method CutAll(rects: seq<Rect>) returns (pieces: seq<Rect>, ghost cuts: seq<seq<Rect>>)
    requires forall r :: r in rects ==> r.IsEmpty() || r.InRange()
    ensures forall r :: r in pieces ==> Carries(r)
    ensures AreCuts(rects, cuts) && pieces == Flatten(cuts)
    ensures forall px: nat, py: nat :: Times(pieces, px, py) == Times(rects, px, py)
    ensures forall box: Rect :: InBox(rects, box) ==> InBox(pieces, box)
  {
    hide AreCuts, IsCut, Flatten;
    pieces, cuts := [], [];
    NoCuts();
    for i := 0 to |rects|
      invariant forall r :: r in pieces ==> Carries(r)
      invariant AreCuts(rects[..i], cuts) && pieces == Flatten(cuts)
      invariant forall px: nat, py: nat :: Times(pieces, px, py) == Times(rects[..i], px, py)
      invariant forall box: Rect :: InBox(rects, box) ==> InBox(pieces, box)
    {
      assert rects[..i + 1] == rects[..i] + [rects[i]];
      var strips: seq<Rect> := [];
      if !rects[i].IsEmpty() {
        strips := Cut(rects[i]);
      }
      forall px: nat, py: nat
        ensures Times(pieces + strips, px, py) == Times(rects[..i + 1], px, py)
      {
        TimesAdd(pieces, strips, px, py);
        TimesOneMore(rects[..i], rects[i], px, py);
      }
      EmptyIsCut(rects[i]);
      OneMoreCut(rects[..i], cuts, rects[i], strips);
      FlattenOneMore(cuts, strips);
      pieces := pieces + strips;
      cuts := cuts + [strips];
    }
    assert rects[..|rects|] == rects;
  }

  lemma NoCuts()
    ensures AreCuts([], []) && Flatten([]) == []
  {
  }

  lemma EmptyIsCut(rect: Rect)
    ensures rect.IsEmpty() ==> IsCut(rect, [])
  {
  }

  method Bundle(pieces: seq<Rect>) returns (messages: seq<seq<Rect>>)
    requires forall r :: r in pieces ==> Carries(r)
    ensures forall m :: m in messages ==> WithinLimits(m)
    ensures Flatten(messages) == pieces && Packed(messages)
    ensures forall px: nat, py: nat :: TimesIn(messages, px, py) == Times(pieces, px, py)
    ensures forall m :: m in messages ==> forall r :: r in m ==> r in pieces
  {
    hide Flatten, Packed, NoRoomFor, Times, TimesIn, Carries, PiecesSize, PieceSize;
    messages := [];
    var current: seq<Rect> := [];
    var size := BITMAPS_HEADER;
    NoCuts();
    NothingPacked();
    NoPieces();
    for i := 0 to |pieces|
      invariant forall m :: m in messages ==> WithinLimits(m)
      invariant forall m :: m in messages ==> forall r :: r in m ==> r in pieces
      invariant current != [] ==> WithinLimits(current)
      invariant forall r :: r in current ==> r in pieces
      invariant size == BitmapsSize(current)
      invariant Flatten(messages) + current == pieces[..i] && Packed(messages)
      invariant messages != [] ==> current != [] && NoRoomFor(messages[|messages| - 1], current)
    {
      var piece := pieces[i];
      assert pieces[..i + 1] == pieces[..i] + [piece];
      OneFits(piece);
      if current != []
         && (size + PieceSize(piece) > MAX_BITMAPS_BYTES || |current| >= MAX_RECTS_PER_MESSAGE) {
        FlattenOneMore(messages, current);
        OneMorePacked(messages, current);
        NoRoomForPiece(current, piece);
        messages := messages + [current];
        current := [];
        size := BITMAPS_HEADER;
      }
      SizeOfOneMore(current, piece);
      if current == [] {
        assert current + [piece] == [piece];
      } else if messages != [] {
        SameFirst(messages[|messages| - 1], current, piece);
      }
      current := current + [piece];
      size := size + PieceSize(piece);
    }
    assert pieces[..|pieces|] == pieces;
    if current != [] {
      FlattenOneMore(messages, current);
      OneMorePacked(messages, current);
      messages := messages + [current];
    }
    forall px: nat, py: nat
      ensures TimesIn(messages, px, py) == Times(pieces, px, py)
    {
      FlattenTimes(messages, px, py);
    }
  }

  lemma OneFits(piece: Rect)
    requires Carries(piece)
    ensures BITMAPS_HEADER + PieceSize(piece) <= MAX_BITMAPS_BYTES
  {
  }

  lemma NoPieces()
    ensures PiecesSize([]) == 0
  {
  }

  lemma NothingPacked()
    ensures Packed([])
  {
  }

  lemma NoRoomForPiece(message: seq<Rect>, piece: Rect)
    requires BitmapsSize(message) + PieceSize(piece) > MAX_BITMAPS_BYTES || |message| >= MAX_RECTS_PER_MESSAGE
    ensures NoRoomFor(message, [piece])
  {
  }

  lemma SameFirst(message: seq<Rect>, next: seq<Rect>, piece: Rect)
    requires NoRoomFor(message, next)
    ensures NoRoomFor(message, next + [piece])
  {
    assert (next + [piece])[0] == next[0];
  }
}
