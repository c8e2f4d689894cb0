/** The integer clipping of cSoftOsd::Flush (softhddevice-drm.cpp:207-408):
    which part of each dirty bitmap (palette OSDs) or rendered pixmap
    (true-colour OSDs) is handed to OsdDrawARGB, and where on the screen.
    Both coordinates are clipped the same way, so the clipping is written
    once per axis. The pixel copy and the colour lookup are not modelled. */
module OsdClip {
  import opened Common

  // ---------------------------------------------------------------------
  // Bitmaps (softhddevice-drm.cpp:233-329)

  /** One axis of a bitmap draw: `s` is the screen position of the
      bitmap's column (or row) 0, `a1`..`a2` the bitmap columns copied and
      `n` the width of the upload buffer. */
  datatype Span = Span(s: int, a1: int, a2: int, n: int)

  /** A span whose buffer width is the number of columns copied. */
  predicate Exact(p: Span)
  {
    p.n == p.a2 - p.a1 + 1
  }

  /** A non-empty range of bitmap columns, as a dirty box gives it. */
  predicate Proper(p: Span)
  {
    Exact(p) && 0 <= p.a1 <= p.a2
  }

  function Max(a: int, b: int): int { if a >= b then a else b }
  function Min(a: int, b: int): int { if a <= b then a else b }

  /** Clip at the screen's right (or bottom) edge `size`; None is the
      `continue` that skips the bitmap. */
  function ScreenClip(p: Span, size: int): (r: Option<Span>)
    ensures r.Some? ==> r.value.s == p.s && r.value.a1 == p.a1
  {
    if p.n > size - p.s - p.a1 then
      var n := size - p.s - p.a1;
      if n <= 0 then None else Some(p.(n := n, a2 := p.a1 + n - 1))
    else Some(p)
  }

  /** The left (or top) clip as written: the first line moves `x1` to the
      first visible column and the second line adds `xs + x1` with the
      already moved `x1`, which is 0; the origin is then set to 0 whether
      or not anything was clipped. */
  function LeftClipAsWritten(p: Span): Option<Span>
  {
    if p.s < 0 then
      if p.s + p.a1 < 0 then
        var a1 := p.a1 - (p.s + p.a1);
        var n := p.n + (p.s + a1);
        if n <= 0 then None else Some(Span(0, a1, p.a2, n))
      else Some(p.(s := 0))
    else Some(p)
  }

  function ClipAxisAsWritten(p: Span, size: int): Option<Span>
  {
    match LeftClipAsWritten(p)
    case None => None
    case Some(q) => ScreenClip(q, size)
  }

  /** The left clip as intended: the columns left of the screen are
      dropped from both the copied range and the buffer width, and the
      origin stays where the bitmap is. */
  function LeftClip(p: Span): (r: Option<Span>)
    requires Proper(p)
    ensures r.Some? ==> (Exact(r.value) && r.value.s == p.s && r.value.a2 == p.a2 &&
                         r.value.a1 == Max(p.a1, -p.s))
    ensures r.None? <==> p.a2 < -p.s
  {
    if p.s + p.a1 < 0 then
      var d := -(p.s + p.a1);
      var n := p.n - d;
      if n <= 0 then None else Some(Span(p.s, p.a1 + d, p.a2, n))
    else Some(p)
  }

  /** One axis of the corrected clip. It keeps exactly the part of the
      dirty range that lies on the screen, draws it where it belongs
      (column `a` of the bitmap at screen position `s + a`), fills a buffer
      as wide as that part, and skips the bitmap only when no dirty column
      is on the screen. */
  function ClipAxis(p: Span, size: int): (r: Option<Span>)
    requires Proper(p)
    ensures r.Some? ==>
      Exact(r.value) && r.value.s == p.s &&
      r.value.a1 == Max(p.a1, -p.s) && r.value.a2 == Min(p.a2, size - p.s - 1) &&
      0 <= r.value.s + r.value.a1 && r.value.s + r.value.a1 + r.value.n <= size
    ensures r.None? <==> Max(p.a1, -p.s) > Min(p.a2, size - p.s - 1)
  {
    match LeftClip(p)
    case None => None
    case Some(q) => ScreenClip(q, size)
  }

  /** As written, a bitmap that starts left of the screen and whose dirty
      range starts left of it too is uploaded with a buffer wider than the
      columns copied into it, and at a screen position shifted right by
      the part cut off. */
  lemma {:induction false} LeftClipAsWrittenWrong(p: Span, size: int)
    requires Proper(p) && p.s + p.a1 < 0 && ClipAxisAsWritten(p, size).Some?
    ensures var r := ClipAxisAsWritten(p, size).value;
      r.s + r.a1 == -p.s && p.s < 0 &&
      (r.n == p.n ==> !Exact(r))
  {
    assert p.s < 0;
    var q := LeftClipAsWritten(p).value;
    assert q.s == 0 && q.a1 == -p.s && q.n == p.n;
  }

  /** The bitmap at -10 with dirty columns 0..99 on a 1920-wide screen:
      as written, 100 columns are uploaded at screen x 10 from a buffer
      holding bitmap columns 10..99; corrected, columns 10..99 (90 of them)
      go to screen x 0. */
  lemma LeftClipExample()
    ensures ClipAxisAsWritten(Span(-10, 0, 99, 100), 1920) == Some(Span(0, 10, 99, 100))
    ensures ClipAxis(Span(-10, 0, 99, 100), 1920) == Some(Span(-10, 10, 99, 90))
  {
  }

  /** The dirty box of a bitmap, inclusive corners. */
  datatype Box = Box(x1: int, y1: int, x2: int, y2: int)

  /** A `cBitmap`: its position in the OSD, its size, and the dirty box
      `Dirty()` reports (None when clean). */
  datatype Bitmap = Bitmap(x0: int, y0: int, width: int, height: int, dirtyArea: Option<Box>)
  {
    predicate Valid()
    {
      width >= 1 && height >= 1 &&
      (dirtyArea.Some? ==>
        0 <= dirtyArea.value.x1 <= dirtyArea.value.x2 < width &&
        0 <= dirtyArea.value.y1 <= dirtyArea.value.y2 < height)
    }
  }

  /** What one bitmap upload copies and where it goes: bitmap columns
      `x.a1..x.a2` and rows `y.a1..y.a2`, a `x.n` by `y.n` buffer drawn at
      screen `(x.s + x.a1, y.s + y.a1)`. */
  datatype BitmapDraw = BitmapDraw(x: Span, y: Span)

  /** The box to upload: the whole bitmap on a forced update, else its
      dirty box, else nothing. */
  function BoxToDraw(b: Bitmap, forced: bool): (r: Option<Box>)
    requires b.Valid()
    ensures r.Some? ==> 0 <= r.value.x1 <= r.value.x2 < b.width && 0 <= r.value.y1 <= r.value.y2 < b.height
    ensures r.None? <==> !forced && b.dirtyArea.None?
  {
    if forced then Some(Box(0, 0, b.width - 1, b.height - 1)) else b.dirtyArea
  }

  /** The upload for one bitmap of an OSD at `(left, top)` on a
      `width` x `height` screen, with the corrected clip. */
  function BitmapUpload(b: Bitmap, forced: bool, left: int, top: int, width: int, height: int): (r: Option<BitmapDraw>)
    requires b.Valid()
    ensures r.Some? ==> (
      BoxToDraw(b, forced).Some? &&
      Exact(r.value.x) && Exact(r.value.y) &&
      0 <= r.value.x.s + r.value.x.a1 && r.value.x.s + r.value.x.a1 + r.value.x.n <= width &&
      0 <= r.value.y.s + r.value.y.a1 && r.value.y.s + r.value.y.a1 + r.value.y.n <= height &&
      r.value.x.s == b.x0 + left && r.value.y.s == b.y0 + top &&
      BoxToDraw(b, forced).value.x1 <= r.value.x.a1 && r.value.x.a2 <= BoxToDraw(b, forced).value.x2 &&
      BoxToDraw(b, forced).value.y1 <= r.value.y.a1 && r.value.y.a2 <= BoxToDraw(b, forced).value.y2)
  {
    match BoxToDraw(b, forced)
    case None => None
    case Some(box) =>
      var xs := b.x0 + left;
      var ys := b.y0 + top;
      var cx := ClipAxis(Span(xs, box.x1, box.x2, box.x2 - box.x1 + 1), width);
      var cy := ClipAxis(Span(ys, box.y1, box.y2, box.y2 - box.y1 + 1), height);
      if cx.None? || cy.None? then None else Some(BitmapDraw(cx.value, cy.value))
  }

  /** The bitmap after the flush: cleaned when it was uploaded, untouched
      when it was skipped. */
  function AfterFlush(b: Bitmap, forced: bool, left: int, top: int, width: int, height: int): (r: Bitmap)
    requires b.Valid()
    ensures r.Valid()
    ensures BitmapUpload(b, forced, left, top, width, height).Some? ==> r == b.(dirtyArea := None)
    ensures BitmapUpload(b, forced, left, top, width, height).None? ==> r == b
  {
    if BitmapUpload(b, forced, left, top, width, height).Some? then b.(dirtyArea := None) else b
  }

  predicate AllValid(bs: seq<Bitmap>)
  {
    forall k :: 0 <= k < |bs| ==> bs[k].Valid()
  }

  /** The uploads of a list of bitmaps, in list order. */
  function Uploads(bs: seq<Bitmap>, forced: bool, left: int, top: int, width: int, height: int): seq<BitmapDraw>
    requires AllValid(bs)
    decreases |bs|
  {
    if bs == [] then []
    else
      var init := bs[..|bs| - 1];
      assert AllValid(init) by {
        forall k | 0 <= k < |init| ensures init[k].Valid() {
          assert init[k] == bs[k];
        }
      }
      var last := BitmapUpload(bs[|bs| - 1], forced, left, top, width, height);
      Uploads(init, forced, left, top, width, height) + (if last.Some? then [last.value] else [])
  }

  /** The uploads of one more bitmap: those of the shorter prefix, then
      that bitmap's own, if any. */
  lemma UploadsPrefix(bs: seq<Bitmap>, i: nat, forced: bool, left: int, top: int, width: int, height: int)
    requires AllValid(bs) && i < |bs|
    ensures AllValid(bs[..i]) && AllValid(bs[..i + 1])
    ensures var u := BitmapUpload(bs[i], forced, left, top, width, height);
      Uploads(bs[..i + 1], forced, left, top, width, height) ==
        Uploads(bs[..i], forced, left, top, width, height) + (if u.Some? then [u.value] else [])
  {
    assert bs[..i + 1][..i] == bs[..i];
  }

  /** The bitmaps after the first `i` of `bs` have been flushed: those
      cleaned or kept as `AfterFlush` says, the rest untouched. */
  predicate FlushedUpTo(bs: seq<Bitmap>, t: seq<Bitmap>, i: nat, forced: bool, left: int, top: int, width: int, height: int)
    requires AllValid(bs)
  {
    i <= |t| == |bs| &&
    (forall k :: 0 <= k < i ==> t[k] == AfterFlush(bs[k], forced, left, top, width, height)) &&
    (forall k :: i <= k < |bs| ==> t[k] == bs[k])
  }

  /** Flushing bitmap `i` extends the flushed prefix by one. */
  lemma FlushedStep(bs: seq<Bitmap>, t: seq<Bitmap>, t': seq<Bitmap>, i: nat, forced: bool, left: int, top: int, width: int, height: int)
    requires AllValid(bs) && i < |bs| && FlushedUpTo(bs, t, i, forced, left, top, width, height)
    requires BitmapUpload(bs[i], forced, left, top, width, height).Some? ==> t' == t[i := bs[i].(dirtyArea := None)]
    requires BitmapUpload(bs[i], forced, left, top, width, height).None? ==> t' == t
    ensures FlushedUpTo(bs, t', i + 1, forced, left, top, width, height)
  {
    assert t'[i] == AfterFlush(bs[i], forced, left, top, width, height);
    forall k | 0 <= k < i
      ensures t'[k] == AfterFlush(bs[k], forced, left, top, width, height)
    {
      assert t'[k] == t[k];
    }
  }

  /** The palette path's loop over the bitmaps `bs` of an OSD at
      `(left, top)`: uploads each bitmap that has something on screen, in
      order, and cleans it; the others are kept as they are. */
  method UploadEach(bs: seq<Bitmap>, forced: bool, left: int, top: int, width: int, height: int)
    returns (draws: seq<BitmapDraw>, cleaned: seq<Bitmap>)
    requires AllValid(bs)
    ensures draws == Uploads(bs, forced, left, top, width, height)
    ensures FlushedUpTo(bs, cleaned, |bs|, forced, left, top, width, height)
  {
    cleaned := bs;
    draws := [];
    var i := 0;
    while i < |bs|
      invariant 0 <= i <= |bs|
      invariant AllValid(bs[..i])
      invariant FlushedUpTo(bs, cleaned, i, forced, left, top, width, height)
      invariant draws == Uploads(bs[..i], forced, left, top, width, height)
    {
      UploadsPrefix(bs, i, forced, left, top, width, height);
      var b := cleaned[i];
      var upload := BitmapUpload(b, forced, left, top, width, height);
      var next := cleaned;
      if upload.Some? {
        draws := draws + [upload.value];
        next := cleaned[i := b.(dirtyArea := None)];
      }
      FlushedStep(bs, cleaned, next, i, forced, left, top, width, height);
      cleaned := next;
      i := i + 1;
    }
    assert bs[..|bs|] == bs;
  }

  /** Every upload of a flush lies on the screen and copies as many
      columns and rows as its buffer holds. */
  lemma {:induction false} UploadsOnScreen(bs: seq<Bitmap>, forced: bool, left: int, top: int, width: int, height: int)
    requires AllValid(bs)
    ensures forall d :: d in Uploads(bs, forced, left, top, width, height) ==>
      Exact(d.x) && Exact(d.y) &&
      0 <= d.x.s + d.x.a1 && d.x.s + d.x.a1 + d.x.n <= width &&
      0 <= d.y.s + d.y.a1 && d.y.s + d.y.a1 + d.y.n <= height
    decreases |bs|
  {
    if bs != [] {
      var init := bs[..|bs| - 1];
      assert AllValid(init) by {
        forall k | 0 <= k < |init| ensures init[k].Valid() {
          assert init[k] == bs[k];
        }
      }
      UploadsOnScreen(init, forced, left, top, width, height);
    }
  }

  // ---------------------------------------------------------------------
  // Pixmaps (softhddevice-drm.cpp:331-405)

  /** One axis of a pixmap draw: the first pixmap column `src` shown, the
      screen position `pos` it goes to, and the count `len`. */
  datatype PixSpan = PixSpan(src: int, pos: int, len: int)

  /** Clip a viewport `[v, v + len)` to the OSD's `osdSize`, move it by the
      OSD origin, and clip it to the screen's `size`. The pixels keep
      their place: pixmap column `src` is shown at `pos`, exactly where
      the unclipped pixmap would put it; the columns shown lie inside the
      pixmap, inside the OSD and on the screen. */
  function ClipPixAxis(v: int, len: int, osdSize: int, origin: int, size: int): (r: PixSpan)
    ensures r.pos >= 0 && r.src >= 0
    ensures r.len <= size - r.pos
    ensures r.pos - r.src == v + origin
    ensures r.src + r.len <= len
    ensures r.pos + r.len <= origin + osdSize
  {
    // clip to the OSD
    var src := if v < 0 then -v else 0;
    var n := if v < 0 then len - src else len;
    var p := if v < 0 then 0 else v;
    var n1 := if n > osdSize - p then osdSize - p else n;
    // move by the OSD origin and clip to the screen
    var q := p + origin;
    var n2 := if q < 0 then n1 + q else n1;
    var src2 := if q < 0 then src - q else src;
    var q2 := if q < 0 then 0 else q;
    var n3 := if n2 > size - q2 then size - q2 else n2;
    PixSpan(src2, q2, n3)
  }

  /** A pixmap's viewport: position and size within the OSD. */
  datatype Rect = Rect(x: int, y: int, w: int, h: int)

  /** The arguments of `OsdDrawARGB(xp, yp, w, h, stride, data, x, y)`. */
  datatype DrawCall = DrawCall(xp: int, yp: int, w: int, h: int, x: int, y: int)

  function PixmapDraw(vp: Rect, osdW: int, osdH: int, left: int, top: int, width: int, height: int): (d: DrawCall)
    ensures d.x >= 0 && d.y >= 0 && d.xp >= 0 && d.yp >= 0
    ensures d.w <= width - d.x && d.h <= height - d.y
    ensures d.x - d.xp == vp.x + left && d.y - d.yp == vp.y + top
    ensures d.xp + d.w <= vp.w && d.yp + d.h <= vp.h
  {
    var cx := ClipPixAxis(vp.x, vp.w, osdW, left, width);
    var cy := ClipPixAxis(vp.y, vp.h, osdH, top, height);
    DrawCall(cx.src, cy.src, cx.len, cy.len, cx.pos, cy.pos)
  }

  // ---------------------------------------------------------------------
  // The flush

  /** Every bitmap cleaned, as `bitmap->Clean()` on each in turn. */
  function CleanAll(bs: seq<Bitmap>): (r: seq<Bitmap>)
    ensures |r| == |bs| && forall k :: 0 <= k < |bs| ==> r[k] == bs[k].(dirtyArea := None)
    ensures forall k :: 0 <= k < |r| ==> r[k].dirtyArea.None?
  {
    seq(|bs|, k requires 0 <= k < |bs| => bs[k].(dirtyArea := None))
  }

  /** `cSoftOsd`: the forced-update flag `Dirty`, the OSD's bitmaps, its
      origin `Left()`/`Top()` and its size `Width()`/`Height()`. In the
      source `Dirty` is one static flag shared by every OSD; here each
      object holds it, starting from the value earlier OSDs left. */
  class SoftOsd {
    var dirty: bool
    var bitmaps: seq<Bitmap>
    const left: int
    const top: int
    const osdWidth: int
    const osdHeight: int

    /** The constructor (softhddevice-drm.cpp:151-162) only records the
        level: the shared flag keeps `dirty0`, whatever an earlier OSD's
        SetActive or SetAreas left in it. */
    constructor (left: int, top: int, osdWidth: int, osdHeight: int, bitmaps: seq<Bitmap>, dirty0: bool)
      ensures this.left == left && this.top == top && this.osdWidth == osdWidth && this.osdHeight == osdHeight
      ensures this.bitmaps == bitmaps && dirty == dirty0
    {
      this.left, this.top, this.osdWidth, this.osdHeight := left, top, osdWidth, osdHeight;
      this.bitmaps := bitmaps;
      dirty := dirty0;
    }

    /** SetActive (softhddevice-drm.cpp:120-140) with `active` the OSD's
        current state: no change makes no call; switching on forces a full
        redraw and flushes at once when there is a bitmap; switching off
        closes the OSD (`closed`, OsdClose is not part of this model). */
    method SetActive(active: bool, on: bool, trueColor: bool, rendered: seq<Rect>, width: int, height: int)
      returns (bitmapDraws: seq<BitmapDraw>, pixmapDraws: seq<DrawCall>, closed: bool)
      requires AllValid(bitmaps)
      modifies this`dirty, this`bitmaps
      ensures closed <==> active && !on
      ensures active == on || !on || |bitmaps| == 0 ==>
        bitmapDraws == [] && pixmapDraws == [] && bitmaps == old(bitmaps)
      ensures active == on ==> dirty == old(dirty)
      ensures !active && on && |old(bitmaps)| == 0 ==> dirty
      ensures active && !on ==> dirty == old(dirty)
      ensures !active && on && |old(bitmaps)| > 0 && !trueColor ==>
        !dirty && pixmapDraws == [] && bitmapDraws == Uploads(old(bitmaps), true, left, top, width, height) &&
        |bitmaps| == |old(bitmaps)| &&
        forall k :: 0 <= k < |bitmaps| ==> bitmaps[k] == AfterFlush(old(bitmaps)[k], true, left, top, width, height)
      ensures !active && on && |old(bitmaps)| > 0 && trueColor ==>
        !dirty && bitmapDraws == [] && bitmaps == old(bitmaps) && |pixmapDraws| == |rendered| &&
        forall k :: 0 <= k < |rendered| ==>
          pixmapDraws[k] == PixmapDraw(rendered[k], osdWidth, osdHeight, left, top, width, height)
    {
      bitmapDraws, pixmapDraws, closed := [], [], false;
      if active == on {
        return;
      }
      if on {
        dirty := true;
        if |bitmaps| > 0 {
          bitmapDraws, pixmapDraws := Flush(true, trueColor, rendered, width, height);
        }
      } else {
        closed := true;
      }
    }

    /** The part of SetAreas (softhddevice-drm.cpp:182-201) before VDR's
        cOsd::SetAreas: a palette OSD's bitmaps are cleaned, and an active
        OSD is cleared on screen (`cleared`) and forces a full redraw. */
    method SetAreas(active: bool, trueColor: bool) returns (cleared: bool)
      modifies this`dirty, this`bitmaps
      ensures cleared == active
      ensures dirty == (old(dirty) || active)
      ensures trueColor ==> bitmaps == old(bitmaps)
      ensures !trueColor ==>
        |bitmaps| == |old(bitmaps)| &&
        forall k :: 0 <= k < |bitmaps| ==> bitmaps[k] == old(bitmaps)[k].(dirtyArea := None)
    {
      if !trueColor {
        bitmaps := CleanAll(bitmaps);
      }
      cleared := active;
      if active {
        dirty := true;
      }
    }

    /** Flush: nothing when the OSD is not active; otherwise the palette
        path for a palette OSD and the pixmap path for a true-colour one. */
    method Flush(active: bool, trueColor: bool, rendered: seq<Rect>, width: int, height: int)
      returns (bitmapDraws: seq<BitmapDraw>, pixmapDraws: seq<DrawCall>)
      requires AllValid(bitmaps)
      modifies this`dirty, this`bitmaps
      ensures !active ==> bitmapDraws == [] && pixmapDraws == [] && dirty == old(dirty) && bitmaps == old(bitmaps)
      ensures active && !trueColor ==>
        !dirty && pixmapDraws == [] && bitmapDraws == Uploads(old(bitmaps), old(dirty), left, top, width, height) &&
        |bitmaps| == |old(bitmaps)| &&
        forall k :: 0 <= k < |bitmaps| ==> bitmaps[k] == AfterFlush(old(bitmaps)[k], old(dirty), left, top, width, height)
      ensures active && trueColor ==>
        !dirty && bitmapDraws == [] && bitmaps == old(bitmaps) && |pixmapDraws| == |rendered| &&
        forall k :: 0 <= k < |rendered| ==>
          pixmapDraws[k] == PixmapDraw(rendered[k], osdWidth, osdHeight, left, top, width, height)
    {
      bitmapDraws, pixmapDraws := [], [];
      if !active {
        return;
      }
      if !trueColor {
        bitmapDraws := FlushBitmaps(width, height);
        return;
      }
      pixmapDraws := FlushPixmaps(rendered, width, height);
    }

    /** The palette path: every bitmap with something to upload is
        uploaded (clipped) and cleaned, in order; a bitmap clipped away
        entirely is skipped and stays dirty; the forced-update flag is
        cleared at the end. */
    method FlushBitmaps(width: int, height: int) returns (draws: seq<BitmapDraw>)
      requires AllValid(bitmaps)
      modifies this`dirty, this`bitmaps
      ensures !dirty
      ensures draws == Uploads(old(bitmaps), old(dirty), left, top, width, height)
      ensures |bitmaps| == |old(bitmaps)|
      ensures forall k :: 0 <= k < |bitmaps| ==>
        bitmaps[k] == AfterFlush(old(bitmaps)[k], old(dirty), left, top, width, height)
    {
      var cleaned;
      draws, cleaned := UploadEach(bitmaps, dirty, left, top, width, height);
      bitmaps := cleaned;
      dirty := false;
    }

    /** The true-colour path: each pixmap VDR renders, given by its
        viewport, is drawn clipped to the OSD and the screen, in order;
        the forced-update flag is cleared at the end. */
    method FlushPixmaps(rendered: seq<Rect>, width: int, height: int) returns (draws: seq<DrawCall>)
      modifies this`dirty
      ensures !dirty
      ensures |draws| == |rendered|
      ensures forall k :: 0 <= k < |rendered| ==>
        draws[k] == PixmapDraw(rendered[k], osdWidth, osdHeight, left, top, width, height)
    {
      draws := [];
      var i := 0;
      while i < |rendered|
        invariant 0 <= i <= |rendered| && |draws| == i
        invariant forall k :: 0 <= k < i ==>
          draws[k] == PixmapDraw(rendered[k], osdWidth, osdHeight, left, top, width, height)
      {
        draws := draws + [PixmapDraw(rendered[i], osdWidth, osdHeight, left, top, width, height)];
        i := i + 1;
      }
      dirty := false;
    }
  }
}
