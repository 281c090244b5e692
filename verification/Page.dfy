/** The bytes of a frame message, and the page that reads them. */
module Page {
  import opened Basics
  import opened Dirty
  import opened Frame

  // ----- The bytes -----

  function Le(v: u16): seq<u8> {
    [v % 256, v / 256]
  }

  function FromLe(low: u8, high: u8): u16 {
    low + 256 * high
  }

  /** A byte of a picture without holes: every fourth one is the alpha. */
  function Solid(k: nat, byte: u8): u8 {
    if k % 4 == 3 then 255 else byte
  }

  function RowStart(r: Rect, row: nat, stride: nat): nat {
    (r.y + row) * stride + r.x * 4
  }

  /** A row past the framebuffer is black. */
  function RowBytes(framebuffer: seq<u8>, stride: nat, r: Rect, row: nat): (bytes: seq<u8>)
    ensures |bytes| == r.w * 4
  {
    var start := RowStart(r, row, stride);
    if start + r.w * 4 <= |framebuffer| then
      seq<u8>(r.w * 4, k requires 0 <= k < r.w * 4 => Solid(k, framebuffer[start + k]))
    else
      seq<u8>(r.w * 4, k requires 0 <= k < r.w * 4 => Solid(k, 0))
  }

  function RowsFrom(framebuffer: seq<u8>, stride: nat, r: Rect, row: nat): seq<u8>
    requires row <= r.h
    decreases r.h - row
  {
    if row == r.h then []
    else RowBytes(framebuffer, stride, r, row) + RowsFrom(framebuffer, stride, r, row + 1)
  }

  function RectHeader(r: Rect): (bytes: seq<u8>)
    ensures |bytes| == RECT_HEADER
  {
    Le(r.x) + Le(r.y) + Le(r.w) + Le(r.h)
  }

  function Body(framebuffer: seq<u8>, stride: nat, rects: seq<Rect>): seq<u8> {
    if rects == [] then []
    else RectHeader(rects[0]) + RowsFrom(framebuffer, stride, rects[0], 0) + Body(framebuffer, stride, rects[1..])
  }

  /** What the page is sent. */
  datatype Message =
    | Bitmaps(framebuffer: seq<u8>, stride: nat, rects: seq<Rect>)
    | DesktopSize(width: u16, height: u16)

  function Bytes(m: Message): (bytes: seq<u8>)
    requires m.Bitmaps? ==> |m.rects| <= U16_MAX
  {
    match m
    case Bitmaps(framebuffer, stride, rects) => [KIND_BITMAPS] + Le(|rects|) + Body(framebuffer, stride, rects)
    case DesktopSize(width, height) => [KIND_DESKTOP_SIZE] + Le(width) + Le(height)
  }

  lemma {:induction false} RowsLength(framebuffer: seq<u8>, stride: nat, r: Rect, row: nat)
    requires row <= r.h
    ensures |RowsFrom(framebuffer, stride, r, row)| == r.w * (r.h - row) * 4
    decreases r.h - row
  {
    if row < r.h {
      RowsLength(framebuffer, stride, r, row + 1);
      assert r.w * (r.h - row) == r.w + r.w * (r.h - (row + 1));
    }
  }

  lemma {:induction false} SizeAdds(r: Rect, rects: seq<Rect>)
    ensures PiecesSize([r] + rects) == PieceSize(r) + PiecesSize(rects)
    decreases |rects|
  {
    if rects == [] {
      assert [r] + rects == [r] && [r][..0] == [];
    } else {
      var front, last := rects[..|rects| - 1], rects[|rects| - 1];
      SizeAdds(r, front);
      assert ([r] + rects)[..|rects|] == [r] + front;
    }
  }

  /** A message is as long as planned. */
  lemma {:induction false} BodyLength(framebuffer: seq<u8>, stride: nat, rects: seq<Rect>)
    ensures |Body(framebuffer, stride, rects)| == PiecesSize(rects)
    decreases |rects|
  {
    if rects != [] {
      BodyLength(framebuffer, stride, rects[1..]);
      RowsLength(framebuffer, stride, rects[0], 0);
      SizeAdds(rects[0], rects[1..]);
      assert [rects[0]] + rects[1..] == rects;
    }
  }

  // ----- What is where in them -----

  /** Where a row begins after some rows of `n` bytes. */
  function Offset(rows: nat, n: nat): (at: nat)
    ensures at == rows * n
  {
    if rows == 0 then 0
    else
      assert rows * n == n + (rows - 1) * n;
      n + Offset(rows - 1, n)
  }

  lemma {:induction false} RowIsAt(framebuffer: seq<u8>, stride: nat, r: Rect, from: nat, row: nat)
    requires from <= row < r.h
    ensures var rows, line := RowsFrom(framebuffer, stride, r, from), RowBytes(framebuffer, stride, r, row);
            var at := Offset(row - from, |line|);
            at + |line| <= |rows| && rows[at..at + |line|] == line
    decreases row - from
  {
    hide RowBytes;
    var first, later := RowBytes(framebuffer, stride, r, from), RowsFrom(framebuffer, stride, r, from + 1);
    var n := |first|;
    assert |RowBytes(framebuffer, stride, r, row)| == n;
    if from < row {
      RowIsAt(framebuffer, stride, r, from + 1, row);
      var at := Offset(row - (from + 1), n);
      assert Offset(row - from, n) == n + at;
      SkipFirst(first, later, at, n);
    } else {
      assert (first + later)[..n] == first;
    }
  }

  lemma SkipFirst(first: seq<u8>, later: seq<u8>, at: nat, n: nat)
    requires |first| == n && at + n <= |later|
    ensures (first + later)[n + at..n + at + n] == later[at..at + n]
  {
  }

  lemma {:induction false} RectIsAt(framebuffer: seq<u8>, stride: nat, rects: seq<Rect>, k: nat)
    requires k < |rects|
    ensures var body, at := Body(framebuffer, stride, rects), PiecesSize(rects[..k]);
            && at <= |body|
            && body[at..] == Body(framebuffer, stride, rects[k..])
    decreases k
  {
    hide RectHeader, RowsFrom, PieceSize;
    BodyLength(framebuffer, stride, rects);
    if k > 0 {
      RectIsAt(framebuffer, stride, rects[1..], k - 1);
      SizeAdds(rects[0], rects[1..][..k - 1]);
      assert [rects[0]] + rects[1..][..k - 1] == rects[..k];
      assert rects[1..][k - 1..] == rects[k..];
      PieceLength(framebuffer, stride, rects[0]);
      AfterFirst(RectHeader(rects[0]) + RowsFrom(framebuffer, stride, rects[0], 0),
                 Body(framebuffer, stride, rects[1..]), PiecesSize(rects[1..][..k - 1]));
    } else {
      assert rects[..0] == [] && rects[0..] == rects;
    }
  }

  lemma PieceLength(framebuffer: seq<u8>, stride: nat, r: Rect)
    ensures |RectHeader(r) + RowsFrom(framebuffer, stride, r, 0)| == PieceSize(r)
  {
    RowsLength(framebuffer, stride, r, 0);
  }

  lemma AfterFirst(first: seq<u8>, later: seq<u8>, at: nat)
    requires at <= |later|
    ensures (first + later)[|first| + at..] == later[at..]
  {
  }

  lemma RectParts(framebuffer: seq<u8>, stride: nat, rects: seq<Rect>, k: nat)
    requires k < |rects| <= U16_MAX
    ensures var bytes, at := Bytes(Bitmaps(framebuffer, stride, rects)), 3 + PiecesSize(rects[..k]);
            var rows := RowsFrom(framebuffer, stride, rects[k], 0);
            && at + 8 + |rows| <= |bytes|
            && bytes[at..at + 8] == RectHeader(rects[k]) && bytes[at + 8..at + 8 + |rows|] == rows
  {
    hide PiecesSize, RowsFrom, RectHeader;
    var bytes, body, at := Bytes(Bitmaps(framebuffer, stride, rects)), Body(framebuffer, stride, rects),
                           PiecesSize(rects[..k]);
    var rows := RowsFrom(framebuffer, stride, rects[k], 0);
    RectIsAt(framebuffer, stride, rects, k);
    assert rects[k..][0] == rects[k];
    assert body[at..] == RectHeader(rects[k]) + rows + Body(framebuffer, stride, rects[k..][1..]);
    assert bytes[3..] == body;
    assert bytes[3 + at..] == body[at..];
    assert bytes[3 + at..3 + at + 8] == bytes[3 + at..][..8];
    assert bytes[3 + at + 8..3 + at + 8 + |rows|] == bytes[3 + at..][8..8 + |rows|];
  }

  /** A number of two bytes from `at` on, the lower one first. */
  predicate NumberAt(bytes: seq<u8>, at: nat, n: nat) {
    at + 1 < |bytes| && bytes[at] as int + 256 * bytes[at + 1] as int == n
  }

  /** A message of bitmaps, byte by byte: its kind, how many rectangles, and for each its
      place and size. */
  lemma HeadersLayout(framebuffer: seq<u8>, stride: nat, rects: seq<Rect>, k: nat)
    requires k < |rects| <= U16_MAX
    ensures var bytes, at := Bytes(Bitmaps(framebuffer, stride, rects)), 3 + PiecesSize(rects[..k]);
            && bytes[0] == 1 && NumberAt(bytes, 1, |rects|)
            && NumberAt(bytes, at, rects[k].x) && NumberAt(bytes, at + 2, rects[k].y)
            && NumberAt(bytes, at + 4, rects[k].w) && NumberAt(bytes, at + 6, rects[k].h)
  {
    hide PiecesSize, RowsFrom, Body;
    RectParts(framebuffer, stride, rects, k);
    var bytes, at := Bytes(Bitmaps(framebuffer, stride, rects)), 3 + PiecesSize(rects[..k]);
    var header := bytes[at..at + 8];
    assert header[0] == bytes[at] && header[1] == bytes[at + 1] && header[2] == bytes[at + 2];
    assert header[3] == bytes[at + 3] && header[4] == bytes[at + 4] && header[5] == bytes[at + 5];
    assert header[6] == bytes[at + 6] && header[7] == bytes[at + 7];
  }

  /** A byte of a row: three of a pixel's are the framebuffer's and one says opaque. A
      row past the framebuffer is black. */
  predicate IsPixelByte(byte: u8, framebuffer: seq<u8>, stride: nat, r: Rect, row: nat, j: nat)
    requires j < r.w * 4
  {
    var source := (r.y + row) * stride + r.x * 4;
    byte == if j % 4 == 3 then 255
            else if source + r.w * 4 <= |framebuffer| then framebuffer[source + j]
            else 0
  }

  /** Then its rows, four bytes a pixel. */
  lemma RowsLayout(framebuffer: seq<u8>, stride: nat, rects: seq<Rect>, k: nat, row: nat, j: nat)
    requires k < |rects| <= U16_MAX && row < rects[k].h && j < rects[k].w * 4
    ensures var bytes := Bytes(Bitmaps(framebuffer, stride, rects));
            var at := 3 + PiecesSize(rects[..k]) + 8 + Offset(row, rects[k].w * 4) + j;
            at < |bytes| && IsPixelByte(bytes[at], framebuffer, stride, rects[k], row, j)
  {
    hide PiecesSize, RowsFrom, RowBytes, Body, RectHeader, Bytes, Offset, IsPixelByte;
    var bytes, r := Bytes(Bitmaps(framebuffer, stride, rects)), rects[k];
    var line := RowBytes(framebuffer, stride, r, row);
    RectParts(framebuffer, stride, rects, k);
    RowIsAt(framebuffer, stride, r, 0, row);
    ByteOfPart(bytes, 3 + PiecesSize(rects[..k]) + 8, RowsFrom(framebuffer, stride, r, 0),
               Offset(row, |line|), line, j);
    LineIs(framebuffer, stride, r, row, j);
  }

  lemma LineIs(framebuffer: seq<u8>, stride: nat, r: Rect, row: nat, j: nat)
    requires j < r.w * 4
    ensures IsPixelByte(RowBytes(framebuffer, stride, r, row)[j], framebuffer, stride, r, row, j)
  {
    var start := RowStart(r, row, stride);
    assert start == (r.y + row) * stride + r.x * 4;
    if start + r.w * 4 <= |framebuffer| {
      assert RowBytes(framebuffer, stride, r, row)[j] == Solid(j, framebuffer[start + j]);
    } else {
      assert RowBytes(framebuffer, stride, r, row)[j] == Solid(j, 0);
    }
  }

  lemma ByteOfPart(bytes: seq<u8>, at: nat, rows: seq<u8>, from: nat, line: seq<u8>, j: nat)
    requires at + |rows| <= |bytes| && bytes[at..at + |rows|] == rows
    requires from + |line| <= |rows| && rows[from..from + |line|] == line && j < |line|
    ensures at + from + j < |bytes| && bytes[at + from + j] == line[j]
  {
    assert rows[from + j] == rows[from..from + |line|][j];
    assert bytes[at + (from + j)] == bytes[at..at + |rows|][from + j];
  }

  // ----- Writing them -----

  /** Every fourth byte from `begin` on is set to 255. */
  method MakeSolid(bytes: seq<u8>, begin: nat) returns (out: seq<u8>)
    requires begin <= |bytes|
    ensures |out| == |bytes| && out[..begin] == bytes[..begin]
    ensures forall i :: begin <= i < |bytes| ==> out[i] == Solid(i - begin, bytes[i])
  {
    out := bytes;
    var alpha := 3;
    while begin + alpha < |out|
      invariant |out| == |bytes| && out[..begin] == bytes[..begin] && alpha % 4 == 3
      invariant forall i :: begin <= i < |bytes| ==>
                  out[i] == if i < begin + alpha then Solid(i - begin, bytes[i]) else bytes[i]
      decreases |out| - alpha
    {
      out := out[begin + alpha := 255];
      alpha := alpha + 4;
    }
  }

  /** One row, copied and made opaque. */
  method AppendRow(bytes: seq<u8>, framebuffer: seq<u8>, stride: nat, r: Rect, row: nat) returns (out: seq<u8>)
    ensures out == bytes + RowBytes(framebuffer, stride, r, row)
  {
    hide RowStart;
    var start := RowStart(r, row, stride);
    var src := if start + r.w * 4 <= |framebuffer| then framebuffer[start..start + r.w * 4]
               else seq<u8>(r.w * 4, k => 0);
    out := MakeSolid(bytes + src, |bytes|);
    ghost var made := RowBytes(framebuffer, stride, r, row);
    forall k | 0 <= k < |made|
      ensures out[|bytes| + k] == made[k]
    {
    }
    assert out[..|bytes|] == bytes;
    assert out[|bytes|..] == made;
  }

  method AppendRect(bytes: seq<u8>, framebuffer: seq<u8>, stride: nat, r: Rect) returns (out: seq<u8>)
    ensures out == bytes + (RectHeader(r) + RowsFrom(framebuffer, stride, r, 0))
  {
    out := bytes + RectHeader(r);
    ghost var whole := bytes + (RectHeader(r) + RowsFrom(framebuffer, stride, r, 0));
    for row := 0 to r.h
      invariant out + RowsFrom(framebuffer, stride, r, row) == whole
    {
      ghost var before := out;
      out := AppendRow(out, framebuffer, stride, r, row);
      assert (before + RowBytes(framebuffer, stride, r, row)) + RowsFrom(framebuffer, stride, r, row + 1)
          == before + RowsFrom(framebuffer, stride, r, row);
    }
  }

  method EncodeBitmaps(framebuffer: seq<u8>, stride: nat, rects: seq<Rect>) returns (out: seq<u8>)
    requires |rects| <= U16_MAX
    ensures out == Bytes(Bitmaps(framebuffer, stride, rects))
    ensures |out| == BitmapsSize(rects)
  {
    out := [KIND_BITMAPS] + Le(|rects|);
    ghost var whole := Bytes(Bitmaps(framebuffer, stride, rects));
    assert rects[0..] == rects;
    for i := 0 to |rects|
      invariant out + Body(framebuffer, stride, rects[i..]) == whole
    {
      ghost var before := out;
      assert rects[i..][1..] == rects[i + 1..];
      out := AppendRect(out, framebuffer, stride, rects[i]);
      Regroup(before, RectHeader(rects[i]) + RowsFrom(framebuffer, stride, rects[i], 0),
              Body(framebuffer, stride, rects[i + 1..]));
    }
    assert rects[|rects|..] == [];
    BodyLength(framebuffer, stride, rects);
  }

  // ----- Reading them -----

  /** The byte of a picture `width` pixels wide that lies in the rectangle. */
  predicate ByteIn(r: Rect, width: nat, i: nat) {
    exists row :: 0 <= row < r.h && InRow(r, row, width, i)
  }

  predicate InRow(r: Rect, row: nat, width: nat, i: nat) {
    RowStart(r, row, width * 4) <= i < RowStart(r, row, width * 4) + r.w * 4
  }

  predicate ByteInAny(rects: seq<Rect>, width: nat, i: nat) {
    exists k :: 0 <= k < |rects| && ByteIn(rects[k], width, i)
  }

  /** The byte of a pixel's channel. */
  function At(width: nat, px: nat, py: nat, channel: nat): nat {
    (py * width + px) * 4 + channel
  }

  lemma RowOf(width: nat, a: nat, b: nat, x: nat, px: nat)
    requires x <= width && px < width && a != b
    ensures a < b ==> a * width + px < b * width + x
    ensures b < a ==> b * width + x <= a * width + px
  {
    if a < b { assert (a + 1) * width <= b * width; }
    if b < a { assert (b + 1) * width <= a * width; }
  }

  /** The bytes of a rectangle are those of its pixels. */
  lemma BytesArePixels(r: Rect, width: nat, px: nat, py: nat, channel: nat)
    requires r.Right() <= width && px < width && channel < 4
    ensures ByteIn(r, width, At(width, px, py, channel)) <==> r.Covers(px, py)
  {
    var i := At(width, px, py, channel);
    forall row: nat
      ensures InRow(r, row, width, i) <==> r.y + row == py && r.x <= px < r.x + r.w
    {
      assert RowStart(r, row, width * 4) == ((r.y + row) * width + r.x) * 4;
      if r.y + row != py {
        RowOf(width, py, r.y + row, r.x, px);
        RowOf(width, py, r.y + row, r.x + r.w, px);
      }
    }
    if r.Covers(px, py) {
      assert InRow(r, py - r.y, width, i);
    }
  }

  lemma AtIsInside(width: nat, height: nat, px: nat, py: nat, channel: nat)
    requires px < width && py < height && channel < 4
    ensures At(width, px, py, channel) < width * height * 4
    ensures At(width, px, py, channel) % 4 == channel
  {
    RowsUpTo(py + 1, height, width);
  }

  lemma RowsUpTo(a: nat, b: nat, width: nat)
    requires a <= b
    ensures a * width <= b * width
  {
  }

  class Picture {
    var width: nat
    var height: nat
    var rgba: array<u8>
    /** How many messages with bitmaps it has drawn. */
    ghost var drawn: nat

    ghost predicate Valid()
      reads this
    {
      rgba.Length == width * height * 4
    }

    constructor ()
      ensures Valid() && fresh(rgba) && width == 0 && height == 0 && drawn == 0
    {
      width, height, drawn := 0, 0, 0;
      rgba := new u8[0];
    }

    /** What a message leaves behind: a new size is a blank picture, and bitmaps
        of a framebuffer of this size put its bytes, opaque, where their rectangles
        are, and nowhere else. `sent` is what the bytes say. */
    method Apply(frame: seq<u8>, ghost sent: Message)
      requires Valid()
      requires sent.Bitmaps? ==>
                 && |sent.rects| <= U16_MAX && sent.stride == width * 4
                 && |sent.framebuffer| == rgba.Length
                 && forall r :: r in sent.rects ==> r.Right() <= width && r.Bottom() <= height
      requires frame == Bytes(sent)
      modifies this, rgba
      ensures Valid() && drawn == old(drawn) + if sent.Bitmaps? then 1 else 0
      ensures sent.DesktopSize? ==>
                width == sent.width && height == sent.height && fresh(rgba)
      ensures sent.Bitmaps? ==>
                && width == old(width) && height == old(height) && rgba == old(rgba)
                && forall i :: 0 <= i < rgba.Length ==>
                     rgba[i] == if ByteInAny(sent.rects, width, i) then Solid(i, sent.framebuffer[i])
                                else old(rgba[i])
    {
      if frame[0] == KIND_DESKTOP_SIZE {
        width, height := FromLe(frame[1], frame[2]), FromLe(frame[3], frame[4]);
        rgba := new u8[width * height * 4](_ => 0);
      } else if frame[0] == KIND_BITMAPS {
        Draw(frame, sent.framebuffer, sent.rects);
        drawn := drawn + 1;
      }
    }

    method Draw(frame: seq<u8>, ghost framebuffer: seq<u8>, ghost rects: seq<Rect>)
      requires Valid() && |framebuffer| == rgba.Length && |rects| <= U16_MAX
      requires forall r :: r in rects ==> r.Right() <= width && r.Bottom() <= height
      requires frame == Bytes(Bitmaps(framebuffer, width * 4, rects))
      modifies rgba
      ensures forall i :: 0 <= i < rgba.Length ==>
                rgba[i] == if ByteInAny(rects, width, i) then Solid(i, framebuffer[i]) else old(rgba[i])
    {
      var at := 3;
      var count := FromLe(frame[1], frame[2]);
      assert frame[3..] == Body(framebuffer, width * 4, rects);
      assert rects[0..] == rects;
      for k := 0 to count
        invariant count == |rects| && 3 <= at <= |frame|
        invariant frame[at..] == Body(framebuffer, width * 4, rects[k..])
        invariant forall i :: 0 <= i < rgba.Length ==>
                    rgba[i] == if ByteInAny(rects[..k], width, i) then Solid(i, framebuffer[i]) else old(rgba[i])
      {
        ghost var r := rects[k];
        assert rects[k..][0] == r && rects[k..][1..] == rects[k + 1..];
        ghost var before := rgba[..];
        at := DrawRect(frame, at, framebuffer, r, Body(framebuffer, width * 4, rects[k + 1..]));
        ByteInOneMore(rects, k, width);
      }
      assert rects[..|rects|] == rects;
    }

    static lemma ByteInOneMore(rects: seq<Rect>, k: nat, width: nat)
      requires k < |rects|
      ensures forall i: nat :: ByteInAny(rects[..k + 1], width, i) <==>
                ByteInAny(rects[..k], width, i) || ByteIn(rects[k], width, i)
    {
      forall i: nat
        ensures ByteInAny(rects[..k + 1], width, i) <==>
                ByteInAny(rects[..k], width, i) || ByteIn(rects[k], width, i)
      {
        assert forall j :: 0 <= j < k ==> rects[..k + 1][j] == rects[..k][j];
        assert rects[..k + 1][k] == rects[k];
      }
    }

    static lemma RectHeaderReads(frame: seq<u8>, from: nat, r: Rect, tail: seq<u8>)
      requires from <= |frame| && frame[from..] == RectHeader(r) + tail
      ensures from + 8 <= |frame| && frame[from + 8..] == tail
      ensures FromLe(frame[from], frame[from + 1]) == r.x && FromLe(frame[from + 2], frame[from + 3]) == r.y
      ensures FromLe(frame[from + 4], frame[from + 5]) == r.w && FromLe(frame[from + 6], frame[from + 7]) == r.h
    {
      assert frame[from + 8..] == frame[from..][8..];
      assert forall j :: 0 <= j < 8 ==> frame[from + j] == frame[from..][j];
    }

    /** One rectangle: its header, then its rows. */
    method DrawRect(frame: seq<u8>, from: nat, ghost framebuffer: seq<u8>, ghost r: Rect, ghost rest: seq<u8>)
      returns (at: nat)
      requires Valid() && |framebuffer| == rgba.Length && from <= |frame|
      requires r.Right() <= width && r.Bottom() <= height
      requires frame[from..] == RectHeader(r) + RowsFrom(framebuffer, width * 4, r, 0) + rest
      modifies rgba
      ensures at <= |frame| && frame[at..] == rest
      ensures forall i :: 0 <= i < rgba.Length ==>
                rgba[i] == if ByteIn(r, width, i) then Solid(i, framebuffer[i]) else old(rgba[i])
    {
      hide RowStart, RowBytes, InRow;
      assert frame[from..] == RectHeader(r) + (RowsFrom(framebuffer, width * 4, r, 0) + rest);
      RectHeaderReads(frame, from, r, RowsFrom(framebuffer, width * 4, r, 0) + rest);
      var x, y := FromLe(frame[from], frame[from + 1]), FromLe(frame[from + 2], frame[from + 3]);
      var w, h := FromLe(frame[from + 4], frame[from + 5]), FromLe(frame[from + 6], frame[from + 7]);
      assert Rect(x, y, w, h) == r;
      at := from + 8;
      for row := 0 to h
        invariant at <= |frame| && frame[at..] == RowsFrom(framebuffer, width * 4, r, row) + rest
        invariant forall i :: 0 <= i < rgba.Length ==>
                    rgba[i] == if InRows(r, row, width, i) then Solid(i, framebuffer[i]) else old(rgba[i])
      {
        ghost var more := RowsFrom(framebuffer, width * 4, r, row + 1) + rest;
        assert frame[at..] == RowBytes(framebuffer, width * 4, r, row) + more;
        at := DrawRow(frame, at, x, y, w, row, framebuffer, r, more);
        assert forall i :: InRows(r, row + 1, width, i) <==> InRows(r, row, width, i) || InRow(r, row, width, i);
      }
    }

    static lemma RowBytesAreInPlace(framebuffer: seq<u8>, r: Rect, row: nat, width: nat, to: nat)
      requires to == RowStart(r, row, width * 4) && to % 4 == 0 && to + r.w * 4 <= |framebuffer|
      ensures forall k :: 0 <= k < r.w * 4 ==>
                RowBytes(framebuffer, width * 4, r, row)[k] == Solid(to + k, framebuffer[to + k])
    {
      hide RowStart;
      var stride := width * 4;
      assert RowStart(r, row, stride) == to;
      forall k | 0 <= k < r.w * 4
        ensures RowBytes(framebuffer, stride, r, row)[k] == Solid(to + k, framebuffer[to + k])
      {
        assert RowBytes(framebuffer, stride, r, row)[k] == Solid(k, framebuffer[to + k]);
        SolidFrom(to, k, framebuffer[to + k]);
      }
    }

    static lemma SolidFrom(to: nat, k: nat, byte: u8)
      requires to % 4 == 0
      ensures Solid(to + k, byte) == Solid(k, byte)
    {
    }

    static predicate InRows(r: Rect, rows: nat, width: nat, i: nat) {
      exists j :: 0 <= j < rows && InRow(r, j, width, i)
    }

    method DrawRow(frame: seq<u8>, from: nat, x: nat, y: nat, w: nat, row: nat,
                   ghost framebuffer: seq<u8>, ghost r: Rect, ghost more: seq<u8>)
      returns (at: nat)
      requires Valid() && |framebuffer| == rgba.Length && from <= |frame|
      requires r.Right() <= width && r.Bottom() <= height && row < r.h
      requires x == r.x && y == r.y && w == r.w
      requires frame[from..] == RowBytes(framebuffer, width * 4, r, row) + more
      modifies rgba
      ensures at <= |frame| && frame[at..] == more
      ensures forall i :: 0 <= i < rgba.Length ==>
                rgba[i] == if InRow(r, row, width, i) then Solid(i, framebuffer[i]) else old(rgba[i])
    {
      hide RowStart, RowBytes;
      var to := ((y + row) * width + x) * 4;
      RowIsInside(r, row, width, height);
      RowBytesAreInPlace(framebuffer, r, row, width, to);
      at := from + w * 4;
      ghost var bytes := RowBytes(framebuffer, width * 4, r, row);
      assert frame[from..at] == frame[from..][..w * 4] == bytes;
      assert frame[at..] == frame[from..][w * 4..];
      if to + w * 4 <= rgba.Length {
        CopyInto(to, frame[from..at]);
      }
      forall i | to <= i < to + w * 4
        ensures bytes[i - to] == Solid(i, framebuffer[i])
      {
        assert to + (i - to) == i;
      }
    }

    static lemma RowIsInside(r: Rect, row: nat, width: nat, height: nat)
      requires r.Right() <= width && r.Bottom() <= height && row < r.h
      ensures ((r.y + row) * width + r.x) * 4 == RowStart(r, row, width * 4)
      ensures RowStart(r, row, width * 4) + r.w * 4 <= width * height * 4
      ensures RowStart(r, row, width * 4) % 4 == 0
    {
      var above := (r.y + row) * width;
      FourTimes(r.y + row, width);
      RowsBelow(r.y + row, height, width);
      assert RowStart(r, row, width * 4) == 4 * (above + r.x);
    }

    static lemma FourTimes(a: nat, b: nat)
      ensures a * (b * 4) == (a * b) * 4
    {
    }

    static lemma RowsBelow(row: nat, height: nat, width: nat)
      requires row < height
      ensures row * width + width <= width * height
    {
      assert (row + 1) * width <= height * width;
    }

    method CopyInto(to: nat, bytes: seq<u8>)
      requires to + |bytes| <= rgba.Length
      modifies rgba
      ensures forall i :: 0 <= i < rgba.Length ==>
                rgba[i] == if to <= i < to + |bytes| then bytes[i - to] else old(rgba[i])
    {
      for k := 0 to |bytes|
        invariant forall i :: 0 <= i < rgba.Length ==>
                    rgba[i] == if to <= i < to + k then bytes[i - to] else old(rgba[i])
      {
        rgba[to + k] := bytes[k];
      }
    }
  }
}
