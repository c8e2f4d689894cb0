/** Framebuffer set-up and tear-down of video_drm.c: SetupFB builds a DRM
    framebuffer either around an imported dmabuf (hardware-decoded frames)
    or around a freshly created dumb buffer (software frames, OSD, black);
    DestroyFB releases it again. The kernel is not modelled: every DRM reply
    is an input, and every DRM call made is returned, in order, as a
    `DrmCall`, so that what a set-up acquires can be compared with what a
    tear-down releases. */
module DrmBuffers {
  import opened Common
  import opened VideoTypes

  /** The arguments of one drmModeAddFB2[WithModifiers] call. */
  datatype AddFbRequest = AddFbRequest(width: int, height: int, format: int,
                                       handles: seq<int>, pitches: seq<int>, offsets: seq<int>,
                                       modifiers: seq<int>, flags: int)

  /** The DRM and memory-mapping calls the buffer code makes. */
  datatype DrmCall =
    | PrimeFdToHandle(fd: int)
    | CreateDumb(width: int, height: int, bpp: int)
    | AddFb2(req: AddFbRequest)
    | MapDumb(handle: int)
    | Mmap(length: int)
    | Munmap(addr: int, length: int)
    | RmFb(fbId: int)
    | DestroyDumb(handle: int)
    | ClosePrime(fd: int)
    | GemClose(handle: int)

  /** What the kernel answers during one SetupFB: the GEM handle of the
      imported dmabuf, the dumb-buffer creation reply, the framebuffer id,
      and whether the map ioctl and the mmap succeed. */
  datatype DrmReplies = DrmReplies(primeHandle: int,
                                   dumbOk: bool, dumbHandle: int, dumbPitch: int, dumbSize: int,
                                   addOk: bool, fbId: int,
                                   mapOk: bool, mmapOk: bool, mapAddr: int)

  /** `(void *) -1`, what a failed mmap stores into plane[0]. */
  const MapFailed: int := -1

  /** 0, `-errno`, or the process-ending Fatal() on a failed AddFB2. */
  datatype SetupStatus = SetupDone | SetupFailed | SetupFatal

  datatype SetupResult = SetupResult(status: SetupStatus, buf: DrmBuf, calls: seq<DrmCall>)

  datatype Layout = Layout(handles: seq<int>, pitches: seq<int>, offsets: seq<int>)

  // ---------------------------------------------------------------------
  // Specification of SetupFB

  /** Bits per pixel asked of the dumb buffer: 32 for ARGB, 12 otherwise. */
  function DumbBpp(fmt: int): int
  {
    if fmt == FormatArgb8888 then 32 else 12
  }

  /** Planes of an imported dmabuf: each plane of the first layer gets the
      one GEM handle and its own pitch and offset; unused planes stay 0. */
  function PrimeLayout(d: PrimeDesc, gem: int): Layout
    requires d.Valid()
  {
    Layout(seq(4, p requires 0 <= p < 4 => if p < |d.planes| then gem else 0),
           seq(4, p requires 0 <= p < 4 => if p < |d.planes| then d.planes[p].pitch else 0),
           seq(4, p requires 0 <= p < 4 => if p < |d.planes| then d.planes[p].offset else 0))
  }

  /** Per-plane modifiers: taken from each plane's object, but only when
      object 0 carries a modifier at all. */
  function PrimeModifiers(d: PrimeDesc): seq<int>
    requires d.Valid()
  {
    seq(4, p requires 0 <= p < 4 =>
      if p < |d.planes| && d.objects[0].modifier != 0
      then d.objects[d.planes[p].objectIndex].modifier else 0)
  }

  function PrimeFlags(d: PrimeDesc): int
    requires d.Valid()
  {
    if |d.planes| > 0 && d.objects[0].modifier != 0 then FbModifiersFlag else 0
  }

  /** Plane layout of a dumb buffer of the given format: YUV420 is three
      planes (Y, then U and V at half pitch), NV12 is Y then interleaved
      CbCr at full pitch, ARGB is one plane at the kernel's pitch. */
  function DumbLayout(fmt: int, w: int, h: int, gem: int, argbPitch: int): Layout
  {
    if fmt == FormatYuv420 then
      var p0 := w;
      var p1 := p0 / 2;
      var o1 := p0 * h;
      Layout([gem, gem, gem, 0], [p0, p1, p1, 0], [0, o1, o1 + p1 * h / 2, 0])
    else if fmt == FormatNv12 then
      Layout([gem, gem, 0, 0], [w, w, 0, 0], [0, w * h, 0, 0])
    else if fmt == FormatArgb8888 then
      Layout([gem, 0, 0, 0], [argbPitch, 0, 0, 0], Zero4)
    else
      Layout(Zero4, Zero4, Zero4)
  }

  function WithLayout(b: DrmBuf, l: Layout): DrmBuf
  {
    b.(handle := l.handles, pitch := l.pitches, offset := l.offsets)
  }

  /** SetupFB's prime path (video_drm.c:815-829): import the dmabuf, copy
      the planes of layer 0, add the framebuffer with modifiers. */
  function SetupPrimeSpec(buf: DrmBuf, d: PrimeDesc, dev: DrmReplies): SetupResult
    requires buf.Valid() && d.Valid()
  {
    var l := PrimeLayout(d, dev.primeHandle);
    var add := AddFbRequest(buf.width, buf.height, d.layerFormat, l.handles, l.pitches, l.offsets,
                            PrimeModifiers(d), PrimeFlags(d));
    var b := WithLayout(buf, l).(pixFmt := d.layerFormat,
                                 fbId := if dev.addOk then dev.fbId else buf.fbId);
    SetupResult(if dev.addOk then SetupDone else SetupFatal, b,
                [PrimeFdToHandle(d.objects[0].fd), AddFb2(add)])
  }

  /** SetupFB's dumb path (video_drm.c:830-907): create the dumb buffer,
      lay out its planes, add the framebuffer, map it. */
  function SetupDumbSpec(buf: DrmBuf, dev: DrmReplies): SetupResult
    requires buf.Valid()
  {
    var create := CreateDumb(buf.width, buf.height, DumbBpp(buf.pixFmt));
    if !dev.dumbOk then
      SetupResult(SetupFailed, WithLayout(buf, Layout(Zero4, Zero4, Zero4)), [create])
    else
      var l := DumbLayout(buf.pixFmt, buf.width, buf.height, dev.dumbHandle, dev.dumbPitch);
      var add := AddFbRequest(buf.width, buf.height, buf.pixFmt, l.handles, l.pitches, l.offsets, Zero4, 0);
      var b1 := WithLayout(buf, l).(size := dev.dumbSize);
      if !dev.addOk then SetupResult(SetupFatal, b1, [create, AddFb2(add)])
      else
        var b2 := b1.(fbId := dev.fbId);
        var mapCall := MapDumb(l.handles[0]);
        if !dev.mapOk then SetupResult(SetupFailed, b2, [create, AddFb2(add), mapCall])
        else if !dev.mmapOk then
          SetupResult(SetupFailed, b2.(plane := b2.plane[0 := MapFailed]),
                      [create, AddFb2(add), mapCall, Mmap(dev.dumbSize)])
        else
          SetupResult(SetupDone,
                      b2.(plane := [dev.mapAddr, dev.mapAddr + l.offsets[1], dev.mapAddr + l.offsets[2], buf.plane[3]]),
                      [create, AddFb2(add), mapCall, Mmap(dev.dumbSize)])
  }

  /** Outcome of SetupFB (video_drm.c:790-908) for a buffer whose width,
      height, format (dumb path) and prime fd the caller has filled in. */
  function SetupSpec(buf: DrmBuf, prime: Option<PrimeDesc>, dev: DrmReplies): SetupResult
    requires buf.Valid()
    requires prime.Some? ==> prime.value.Valid()
  {
    match prime
    case Some(d) => SetupPrimeSpec(buf, d, dev)
    case None => SetupDumbSpec(buf, dev)
  }

  /** SetupFB: handles, pitches and offsets start out zero, then one of the
      two paths fills them in. */
  method SetupFB(buf: DrmBuf, prime: Option<PrimeDesc>, dev: DrmReplies)
    returns (status: SetupStatus, out: DrmBuf, calls: seq<DrmCall>)
    requires buf.Valid()
    requires prime.Some? ==> prime.value.Valid()
    ensures SetupResult(status, out, calls) == SetupSpec(buf, prime, dev)
    ensures out.Valid()
  {
    if prime.Some? {
      status, out, calls := SetupPrime(buf, prime.value, dev);
    } else {
      status, out, calls := SetupDumb(buf, dev);
    }
  }

  method SetupPrime(buf: DrmBuf, d: PrimeDesc, dev: DrmReplies)
    returns (status: SetupStatus, out: DrmBuf, calls: seq<DrmCall>)
    requires buf.Valid() && d.Valid()
    ensures SetupResult(status, out, calls) == SetupPrimeSpec(buf, d, dev)
    ensures out.Valid()
  {
    var handle, pitch, offset, modifier := Zero4, Zero4, Zero4, Zero4;
    var modFlags := 0;
    out := buf.(pixFmt := d.layerFormat);
    calls := [PrimeFdToHandle(d.objects[0].fd)];
    var p := 0;
    while p < |d.planes|
      invariant 0 <= p <= |d.planes|
      invariant |handle| == 4 && |pitch| == 4 && |offset| == 4 && |modifier| == 4
      invariant forall i :: 0 <= i < 4 ==> handle[i] == (if i < p then dev.primeHandle else 0)
      invariant forall i :: 0 <= i < 4 ==> pitch[i] == (if i < p then d.planes[i].pitch else 0)
      invariant forall i :: 0 <= i < 4 ==> offset[i] == (if i < p then d.planes[i].offset else 0)
      invariant forall i :: 0 <= i < 4 ==>
        modifier[i] == (if i < p && d.objects[0].modifier != 0
                        then d.objects[d.planes[i].objectIndex].modifier else 0)
      invariant modFlags == (if p > 0 && d.objects[0].modifier != 0 then FbModifiersFlag else 0)
    {
      handle := handle[p := dev.primeHandle];
      pitch := pitch[p := d.planes[p].pitch];
      offset := offset[p := d.planes[p].offset];
      if d.objects[0].modifier != 0 {
        modifier := modifier[p := d.objects[d.planes[p].objectIndex].modifier];
        modFlags := FbModifiersFlag;
      }
      p := p + 1;
    }
    var l := PrimeLayout(d, dev.primeHandle);
    assert handle == l.handles && pitch == l.pitches && offset == l.offsets;
    assert modifier == PrimeModifiers(d);
    out := out.(handle := handle, pitch := pitch, offset := offset);
    calls := calls + [AddFb2(AddFbRequest(out.width, out.height, out.pixFmt, handle, pitch, offset, modifier, modFlags))];
    if dev.addOk {
      out := out.(fbId := dev.fbId);
      status := SetupDone;
    } else {
      status := SetupFatal;
    }
  }

  /** The per-format plane assignments of the dumb path. */
  method DumbPlanes(fmt: int, w: int, h: int, gem: int, argbPitch: int)
    returns (handle: seq<int>, pitch: seq<int>, offset: seq<int>)
    ensures Layout(handle, pitch, offset) == DumbLayout(fmt, w, h, gem, argbPitch)
  {
    handle, pitch, offset := Zero4, Zero4, Zero4;
    if fmt == FormatYuv420 {
      pitch := pitch[0 := w];
      pitch := pitch[1 := pitch[0] / 2][2 := pitch[0] / 2];
      offset := offset[0 := 0][1 := pitch[0] * h];
      offset := offset[2 := offset[1] + pitch[1] * h / 2];
      handle := handle[0 := gem][1 := gem][2 := gem];
    } else if fmt == FormatNv12 {
      pitch := pitch[0 := w][1 := w];
      offset := offset[0 := 0][1 := pitch[0] * h];
      handle := handle[0 := gem][1 := gem];
    } else if fmt == FormatArgb8888 {
      pitch := pitch[0 := argbPitch];
      offset := offset[0 := 0];
      handle := handle[0 := gem];
    }
  }

  method SetupDumb(buf: DrmBuf, dev: DrmReplies)
    returns (status: SetupStatus, out: DrmBuf, calls: seq<DrmCall>)
    requires buf.Valid()
    ensures SetupResult(status, out, calls) == SetupDumbSpec(buf, dev)
    ensures out.Valid()
  {
    var handle, pitch, offset := Zero4, Zero4, Zero4;
    out := buf;
    var bpp := if out.pixFmt == FormatArgb8888 then 32 else 12;
    calls := [CreateDumb(out.width, out.height, bpp)];
    if !dev.dumbOk {
      out := out.(handle := handle, pitch := pitch, offset := offset);
      status := SetupFailed;
      return;
    }
    out := out.(size := dev.dumbSize);
    handle, pitch, offset := DumbPlanes(out.pixFmt, out.width, out.height, dev.dumbHandle, dev.dumbPitch);
    out := out.(handle := handle, pitch := pitch, offset := offset);
    calls := calls + [AddFb2(AddFbRequest(out.width, out.height, out.pixFmt, handle, pitch, offset, Zero4, 0))];
    if !dev.addOk {
      status := SetupFatal;
      return;
    }
    out := out.(fbId := dev.fbId);
    calls := calls + [MapDumb(handle[0])];
    if !dev.mapOk {
      status := SetupFailed;
      return;
    }
    calls := calls + [Mmap(dev.dumbSize)];
    if !dev.mmapOk {
      out := out.(plane := out.plane[0 := MapFailed]);
      status := SetupFailed;
      return;
    }
    out := out.(plane := [dev.mapAddr, dev.mapAddr + offset[1], dev.mapAddr + offset[2], out.plane[3]]);
    status := SetupDone;
  }

  // ---------------------------------------------------------------------
  // Specification of DestroyFB

  /** The calls DestroyFB (video_drm.c:918-957) makes: a mapped (dumb)
      buffer is unmapped, its framebuffer removed, the dumb object destroyed
      and its exported fd closed; an unmapped (imported) buffer has its
      framebuffer removed and its GEM handle closed. */
  function DestroyCalls(b: DrmBuf): seq<DrmCall>
    requires b.Valid()
  {
    if b.plane[0] != 0 then
      [Munmap(b.plane[0], b.size), RmFb(b.fbId), DestroyDumb(b.handle[0])]
      + (if b.fdPrime != 0 then [ClosePrime(b.fdPrime)] else [])
    else
      [RmFb(b.fbId)] + (if b.handle[0] != 0 then [GemClose(b.handle[0])] else [])
  }

  /** The record after DestroyFB: geometry, framebuffer id, mapping, size
      and prime fd cleared; handle 0 cleared only on the dumb path. */
  function AfterDestroy(b: DrmBuf): DrmBuf
    requires b.Valid()
  {
    b.(width := 0, height := 0, fbId := 0, plane := b.plane[0 := 0], size := 0, fdPrime := 0,
       handle := if b.plane[0] != 0 then b.handle[0 := 0] else b.handle)
  }

  method DestroyFB(buf: DrmBuf) returns (out: DrmBuf, calls: seq<DrmCall>)
    requires buf.Valid()
    ensures out == AfterDestroy(buf) && calls == DestroyCalls(buf)
    ensures out.Valid()
  {
    out := buf;
    calls := [];
    if out.plane[0] != 0 {
      calls := calls + [Munmap(out.plane[0], out.size)];
    }
    calls := calls + [RmFb(out.fbId)];
    if out.plane[0] != 0 {
      calls := calls + [DestroyDumb(out.handle[0])];
      out := out.(handle := out.handle[0 := 0]);
      if out.fdPrime != 0 {
        calls := calls + [ClosePrime(out.fdPrime)];
      }
    }
    if out.handle[0] != 0 {
      calls := calls + [GemClose(out.handle[0])];
    }
    out := out.(width := 0, height := 0, fbId := 0, plane := out.plane[0 := 0], size := 0, fdPrime := 0);
  }

  // ---------------------------------------------------------------------
  // Properties

  /** A dumb YUV420 or NV12 buffer of even size is laid out as the format
      requires: the chroma planes follow the luma plane without gap or
      overlap and the last plane ends exactly at width*height*12/8 bytes,
      the size asked of the kernel with 12 bits per pixel. */
  lemma {:induction false} DumbLayoutFitsRequest(fmt: int, w: nat, h: nat, gem: int)
    requires fmt == FormatYuv420 || fmt == FormatNv12
    requires w % 2 == 0 && h % 2 == 0
    ensures var l := DumbLayout(fmt, w, h, gem, 0);
      l.offsets[0] == 0 && l.offsets[1] == l.pitches[0] * h &&
      (fmt == FormatNv12 ==> l.offsets[1] + l.pitches[1] * (h / 2) == w * h * DumbBpp(fmt) / 8) &&
      (fmt == FormatYuv420 ==>
         l.offsets[2] == l.offsets[1] + l.pitches[1] * (h / 2) &&
         l.offsets[2] + l.pitches[2] * (h / 2) == w * h * DumbBpp(fmt) / 8)
  {
    var a, c := w / 2, h / 2;
    assert w == 2 * a && h == 2 * c;
    assert DumbBpp(fmt) == 12;
    assert w * h * 12 / 8 == 6 * a * c by {
      assert w * h * 12 == 8 * (6 * a * c);
    }
    if fmt == FormatYuv420 {
      assert (w / 2) * h / 2 == a * c by {
        assert (w / 2) * h == 2 * (a * c);
      }
    } else {
      assert w * (h / 2) == 2 * a * c;
    }
  }

  /** Whatever a successful dumb-buffer SetupFB acquired (mapping, dumb
      object, framebuffer), DestroyFB releases, with the same address,
      length, handle and id, and it closes the prime fd exported for it. */
  lemma {:induction false} SetupThenDestroyDumb(buf: DrmBuf, dev: DrmReplies)
    requires buf.Valid() && dev.mapAddr > 0
    requires buf.pixFmt == FormatYuv420 || buf.pixFmt == FormatNv12 || buf.pixFmt == FormatArgb8888
    requires SetupSpec(buf, None, dev).status == SetupDone
    ensures var r := SetupSpec(buf, None, dev);
      r.calls == [CreateDumb(buf.width, buf.height, DumbBpp(buf.pixFmt)), r.calls[1],
                  MapDumb(dev.dumbHandle), Mmap(dev.dumbSize)] &&
      r.calls[1].AddFb2? &&
      DestroyCalls(r.buf) == [Munmap(dev.mapAddr, dev.dumbSize), RmFb(dev.fbId), DestroyDumb(dev.dumbHandle)]
                             + (if buf.fdPrime != 0 then [ClosePrime(buf.fdPrime)] else [])
  {
    var l := DumbLayout(buf.pixFmt, buf.width, buf.height, dev.dumbHandle, dev.dumbPitch);
    assert l.handles[0] == dev.dumbHandle;
  }

  /** For an imported dmabuf, DestroyFB removes the framebuffer SetupFB
      added and closes the GEM handle SetupFB obtained; the dmabuf fd itself
      belongs to the decoder and is left open. */
  lemma {:induction false} SetupThenDestroyPrime(buf: DrmBuf, d: PrimeDesc, dev: DrmReplies)
    requires buf.Valid() && d.Valid() && buf.plane[0] == 0 && |d.planes| > 0
    requires dev.addOk
    ensures var r := SetupSpec(buf, Some(d), dev);
      r.status == SetupDone &&
      DestroyCalls(r.buf) == [RmFb(dev.fbId)] + (if dev.primeHandle != 0 then [GemClose(dev.primeHandle)] else [])
  {
    var l := PrimeLayout(d, dev.primeHandle);
    assert l.handles[0] == dev.primeHandle;
  }

  /** DestroyFB is harmless when repeated on a dumb buffer (only RmFB(0)),
      but not on an imported one: handle 0 survives, so a second call closes
      the same GEM handle again. */
  lemma DestroyTwice(b: DrmBuf)
    requires b.Valid()
    ensures b.plane[0] != 0 ==> DestroyCalls(AfterDestroy(b)) == [RmFb(0)]
    ensures b.plane[0] == 0 && b.handle[0] != 0 ==>
      DestroyCalls(AfterDestroy(b)) == [RmFb(0), GemClose(b.handle[0])]
  {
  }

  // ---------------------------------------------------------------------
  // Framebuffers for GBM buffer objects (EGL OSD, video_drm.c:733-780)

  /** The parts of a gbm_bo the code queries: per-plane handles, strides and
      offsets, the modifier, and the single-plane handle and stride. */
  datatype GbmBo = GbmBo(width: int, height: int, format: int, modifier: int,
                         planeHandles: seq<int>, planeStrides: seq<int>, planeOffsets: seq<int>,
                         handle: int, stride: int)
  {
    predicate Valid()
    {
      |planeHandles| == |planeStrides| == |planeOffsets| <= 4
    }
  }

  /** Adds a framebuffer for `bo`: first with per-plane data and modifiers
      when the plane-aware gbm API is present (`planeApi`), and, if that is
      absent or fails, again with the single-plane handle and stride and no
      modifiers. The outcome is the fb id of whichever attempt succeeded. */
  method AddFbForBo(bo: GbmBo, planeApi: bool, modifiersOk: bool, plainOk: bool, fbId: int)
    returns (r: Option<int>, attempts: seq<AddFbRequest>)
    requires bo.Valid()
    ensures r.Some? <==> (planeApi && modifiersOk) || plainOk
    ensures r.Some? ==> r.value == fbId
    ensures forall k :: 0 <= k < |attempts| ==>
      |attempts[k].handles| == 4 && |attempts[k].pitches| == 4 &&
      |attempts[k].offsets| == 4 && |attempts[k].modifiers| == 4
    ensures |attempts| == (if planeApi then 1 else 0) + (if planeApi && modifiersOk then 0 else 1)
    ensures planeApi ==>
      var n := |bo.planeHandles|;
      attempts[0].handles[..n] == bo.planeHandles && attempts[0].pitches[..n] == bo.planeStrides &&
      attempts[0].offsets[..n] == bo.planeOffsets &&
      attempts[0].modifiers[0] == bo.modifier &&
      (forall i :: 0 <= i < n ==> attempts[0].modifiers[i] == bo.modifier) &&
      attempts[0].flags == (if bo.modifier != 0 then FbModifiersFlag else 0)
    ensures planeApi ==>
      var n := |bo.planeHandles|;
      attempts[0].width == bo.width && attempts[0].height == bo.height && attempts[0].format == bo.format &&
      (forall i :: n <= i < 4 ==>
         attempts[0].handles[i] == 0 && attempts[0].pitches[i] == 0 && attempts[0].offsets[i] == 0) &&
      (forall i :: n <= i < 4 && i != 0 ==> attempts[0].modifiers[i] == 0)
    ensures !(planeApi && modifiersOk) ==>
      attempts[|attempts| - 1] == AddFbRequest(bo.width, bo.height, bo.format,
                                               [bo.handle, 0, 0, 0], [bo.stride, 0, 0, 0], Zero4, Zero4, 0)
  {
    var handle, pitch, offset := Zero4, Zero4, Zero4;
    var failed := true;
    attempts := [];
    var modFlags := 0;
    if planeApi {
      var modifiers := Zero4[0 := bo.modifier];
      var n := |bo.planeHandles|;
      var i := 0;
      while i < n
        invariant 0 <= i <= n
        invariant |handle| == 4 && |pitch| == 4 && |offset| == 4 && |modifiers| == 4
        invariant handle[..i] == bo.planeHandles[..i] && pitch[..i] == bo.planeStrides[..i]
        invariant offset[..i] == bo.planeOffsets[..i]
        invariant modifiers[0] == bo.modifier
        invariant forall k :: 0 <= k < i ==> modifiers[k] == bo.modifier
        invariant forall k :: i <= k < 4 ==> handle[k] == 0 && pitch[k] == 0 && offset[k] == 0
        invariant forall k :: i <= k < 4 && k != 0 ==> modifiers[k] == 0
      {
        handle := handle[i := bo.planeHandles[i]];
        pitch := pitch[i := bo.planeStrides[i]];
        offset := offset[i := bo.planeOffsets[i]];
        modifiers := modifiers[i := modifiers[0]];
        i := i + 1;
      }
      assert bo.planeHandles[..n] == bo.planeHandles;
      assert bo.planeStrides[..n] == bo.planeStrides;
      assert bo.planeOffsets[..n] == bo.planeOffsets;
      if modifiers[0] != 0 {
        modFlags := FbModifiersFlag;
      }
      attempts := [AddFbRequest(bo.width, bo.height, bo.format, handle, pitch, offset, modifiers, modFlags)];
      failed := !modifiersOk;
    }
    if failed {
      handle := [bo.handle, 0, 0, 0];
      pitch := [bo.stride, 0, 0, 0];
      offset := Zero4;
      attempts := attempts + [AddFbRequest(bo.width, bo.height, bo.format, handle, pitch, offset, Zero4, 0)];
      failed := !plainOk;
    }
    if failed {
      r := None;
    } else {
      r := Some(fbId);
    }
  }
}
