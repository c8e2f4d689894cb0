/** The render state of video.h:80-145 and the code of video_drm.c that
    changes it step by step: frame routing into the two rings, the
    software-frame copy into dumb buffers, one pass of the display loop
    (find-or-create the framebuffer, A/V sync, page flip), the clean-up at
    stream end, and the pause / play / trick-speed / closing controls.
    Threads are not modelled: each method is one sequential step of the
    thread that runs it, and the clocks and DRM replies are parameters. */
module Render {
  import opened Common
  import opened VideoTypes
  import opened FrameRings
  import opened DrmBuffers
  import opened AvSync
  import opened PlaneProps
  import opened VideoHelpers

  /** What `act_buf` points at: a pool entry or the black buffer. */
  datatype BufRef = PoolBuf(index: nat) | BlackBuf

  /** The labels of Frame2Display a step starts from: the function entry,
      and the three places its goto loops come back to. */
  datatype Label = Entry | Dequeue | AvReady | AudioClock

  /** How one step of Frame2Display ends. */
  datatype StepOutcome =
    | ShowBlack                    // goto page_flip with buf_black
    | Shown(index: nat)            // page flip to bufs[index], frame attached
    | Dropped                      // frame freed, goto dequeue
    | Duplicated(index: nat)       // frame held, goto audioclock
    | Wait(at: Label, index: nat)  // usleep, then try the label again
    | Fatal                        // SetupFB's Fatal(), or a full pool: the process ends

  /** The dmabuf fd a displayable frame is identified by. */
  function FdOf(f: Frame): int
    requires f.prime.Valid()
  {
    f.prime.objects[0].fd
  }

  /** The prime fds of a run of pool entries. */
  function Fds(bs: seq<DrmBuf>): (fds: seq<int>)
    ensures |fds| == |bs| && forall i :: 0 <= i < |bs| ==> fds[i] == bs[i].fdPrime
  {
    seq(|bs|, i requires 0 <= i < |bs| => bs[i].fdPrime)
  }

  /** The pool entry of a frame: the first entry holding its fd, or none. */
  function Locate(fds: seq<int>, fd: int): (r: Option<nat>)
    ensures r.Some? ==> r.value < |fds| && fds[r.value] == fd &&
                        forall j :: 0 <= j < r.value ==> fds[j] != fd
    ensures r.None? <==> fd !in fds
    decreases |fds|
  {
    if fds == [] then None
    else if fds[0] == fd then Some(0)
    else
      var r := Locate(fds[1..], fd);
      assert fd in fds[1..] ==> fd in fds;
      assert fd in fds ==> fd in fds[1..] by {
        if fd in fds {
          var k :| 0 <= k < |fds| && fds[k] == fd;
          assert k > 0 && fds[1..][k - 1] == fd;
        }
      }
      if r.Some? then Some(r.value + 1) else None
  }

  /** The first index holding `fd` is what Locate returns. */
  lemma {:induction false} LocateFirst(fds: seq<int>, fd: int, i: nat)
    requires i < |fds| && fds[i] == fd && forall j :: 0 <= j < i ==> fds[j] != fd
    ensures Locate(fds, fd) == Some(i)
    decreases i
  {
    if i > 0 {
      LocateFirst(fds[1..], fd, i - 1);
    }
  }

  /** The search as written (video_drm.c:1036-1050 reached again through
      `goto dequeue` at 1094): `buf` is only assigned on a match and is
      not reset when the loop comes back after a drop, so a miss keeps the
      dropped frame's buffer (`prev`) and no new framebuffer is made. */
  function LocateAsWritten(fds: seq<int>, fd: int, prev: Option<nat>): (r: Option<nat>)
    ensures Locate(fds, fd).Some? ==> r == Locate(fds, fd)
    ensures Locate(fds, fd).None? ==> r == prev
  {
    var found := Locate(fds, fd);
    if found.Some? then found else prev
  }

  /** The stale buffer: after the frame on pool entry 0 (fd 7) is dropped,
      the next frame, on fd 9 which is not pooled yet, would be flipped
      onto entry 0, whose framebuffer shows fd 7's picture. */
  lemma StaleBufferAfterDrop()
    ensures LocateAsWritten([7], 9, Some(0)) == Some(0)
    ensures [7][0] != 9
    ensures Locate([7], 9) == None
  {
  }

  /** Whenever the search as written returns an entry whose fd differs
      from the frame's, the frame was not pooled and a stale entry was
      carried over; the corrected search never does this. */
  lemma {:induction false} StaleOnlyOnMiss(fds: seq<int>, fd: int, prev: Option<nat>)
    ensures var r := LocateAsWritten(fds, fd, prev);
      r.Some? && (r.value >= |fds| || fds[r.value] != fd) ==> fd !in fds && r == prev
    ensures var r := Locate(fds, fd); r.Some? ==> fds[r.value] == fd
  {
  }

  /** The entry the search at the function entry (where `buf` is still 0)
      writes to, as written at video_drm.c:1036-1050: the first entry
      holding `fd`, otherwise entry `buffers`, with no check against the
      36 entries of bufs[] (video.h:118). */
  function SlotAsWritten(fds: seq<int>, fd: int): (i: nat)
    ensures i <= |fds|
    ensures i == |fds| <==> fd !in fds
    ensures i < |fds| ==> fds[i] == fd
  {
    var found := Locate(fds, fd);
    if found.Some? then found.value else |fds|
  }

  /** The pool's fds after frames on the dmabufs `incoming` have been
      displayed, as written: an fd that is not pooled yet is appended
      whatever the number of entries already in use. */
  function GrowAsWritten(fds: seq<int>, incoming: seq<int>): (r: seq<int>)
    ensures |fds| <= |r| <= |fds| + |incoming|
    ensures r[..|fds|] == fds
    decreases |incoming|
  {
    if incoming == [] then fds
    else
      var next := if SlotAsWritten(fds, incoming[0]) < |fds| then fds else fds + [incoming[0]];
      var r := GrowAsWritten(next, incoming[1..]);
      assert r[..|next|][..|fds|] == r[..|fds|];
      r
  }

  /** Frames on pairwise distinct dmabufs, none pooled yet, each get a new
      entry, in order. */
  lemma {:induction false} GrowDistinct(fds: seq<int>, incoming: seq<int>)
    requires forall i, j :: 0 <= i < j < |incoming| ==> incoming[i] != incoming[j]
    requires forall i :: 0 <= i < |incoming| ==> incoming[i] !in fds
    ensures GrowAsWritten(fds, incoming) == fds + incoming
    decreases |incoming|
  {
    if incoming != [] {
      var next := fds + [incoming[0]];
      assert SlotAsWritten(fds, incoming[0]) == |fds|;
      forall i | 0 <= i < |incoming[1..]|
        ensures incoming[1..][i] !in next
      {
        assert incoming[1..][i] == incoming[i + 1] != incoming[0];
      }
      GrowDistinct(next, incoming[1..]);
      assert next + incoming[1..] == fds + incoming;
    }
  }

  /** The pool overflow as written: after 36 frames on distinct dmabufs
      have filled the pool, a 37th distinct dmabuf is given entry 36, one
      past the end of bufs[]. */
  lemma PoolOverflowAsWritten(incoming: seq<int>)
    requires |incoming| == PoolSize + 1
    requires forall i, j :: 0 <= i < j < |incoming| ==> incoming[i] != incoming[j]
    ensures GrowAsWritten([], incoming[..PoolSize]) == incoming[..PoolSize]
    ensures SlotAsWritten(GrowAsWritten([], incoming[..PoolSize]), incoming[PoolSize]) == PoolSize
  {
    GrowDistinct([], incoming[..PoolSize]);
    assert incoming[PoolSize] !in incoming[..PoolSize];
  }

  /** The width the video is scaled to: the aspect-corrected width, or the
      full display width when that is 0 or too wide (video_drm.c:1135-1141). */
  function PicWidth(raw: nat, m: Mode): (w: int)
    ensures m.hdisplay >= 0 ==> 0 <= w <= m.hdisplay
    ensures 0 < raw <= m.hdisplay ==> w == raw
  {
    if raw == 0 || raw > m.hdisplay then m.hdisplay else raw
  }

  /** The DRM_PRIME frame EnqueueFB makes for a copied software frame: same
      pts and size, one object holding the dumb buffer's exported fd. */
  function SoftwareFrame(inframe: Frame, fd: int): (f: Frame)
    requires inframe.width >= 0 && inframe.height >= 0
    ensures Displayable(f) && FdOf(f) == fd && f.format == DrmPrime && !f.interlaced
    ensures f.pts == inframe.pts && f.width == inframe.width && f.height == inframe.height
  {
    Frame(inframe.pts, inframe.width, inframe.height, DrmPrime, false, PrimeDesc([DrmObject(fd, 0, 0)], 0, []))
  }

  /** Whether VideoRenderFrame sends a frame through the filter thread
      (video_drm.c:1852-1853). */
  predicate NeedsFilter(f: Frame, noHwDeint: bool)
  {
    f.format == Yuv420p || (f.interlaced && f.format == DrmPrime && !noHwDeint)
  }

  /** A software buffer as EnqueueFB prepares it before SetupFB. */
  function SoftwareTemplate(b: DrmBuf, w: nat, h: nat): (r: DrmBuf)
    requires b.Valid()
    ensures r.Valid() && r.width == w && r.height == h && r.pixFmt == FormatNv12
  {
    b.(width := w, height := h, pixFmt := FormatNv12)
  }

  /** The buffer after drmPrimeHandleToFD: the exported fd when the call
      succeeds, the old value otherwise. */
  function WithExport(b: DrmBuf, exported: Option<int>): DrmBuf
  {
    if exported.Some? then b.(fdPrime := exported.value) else b
  }

  /** A software buffer after EnqueueFB's set-up loop (1576-1595): sized
      to the frame as NV12, set up as a dumb buffer, and given the prime
      fd exported for it. */
  function SoftwareBuf(b: DrmBuf, w: nat, h: nat, d: DrmReplies, exported: Option<int>): DrmBuf
    requires b.Valid()
  {
    WithExport(SetupSpec(SoftwareTemplate(b, w, h), None, d).buf, exported)
  }

  /** The first `n` software buffers of `pool` after the set-up loop. */
  function SoftwareBufs(pool: seq<DrmBuf>, w: nat, h: nat, dev: seq<DrmReplies>, exported: seq<Option<int>>, n: nat): seq<DrmBuf>
    requires n <= |pool| && |dev| == |pool| && |exported| == |pool|
    requires forall j :: 0 <= j < |pool| ==> pool[j].Valid()
  {
    if n == 0 then []
    else SoftwareBufs(pool, w, h, dev, exported, n - 1) + [SoftwareBuf(pool[n - 1], w, h, dev[n - 1], exported[n - 1])]
  }

  /** Buffer `j` after the set-up loop is buffer `j` of the pool sized,
      set up and exported with the `j`-th replies. */
  lemma {:induction false} SoftwareBufsAt(pool: seq<DrmBuf>, w: nat, h: nat, dev: seq<DrmReplies>, exported: seq<Option<int>>, n: nat, j: nat)
    requires n <= |pool| && |dev| == |pool| && |exported| == |pool|
    requires forall k :: 0 <= k < |pool| ==> pool[k].Valid()
    requires j < n
    ensures |SoftwareBufs(pool, w, h, dev, exported, n)| == n
    ensures SoftwareBufs(pool, w, h, dev, exported, n)[j] == SoftwareBuf(pool[j], w, h, dev[j], exported[j])
  {
    SoftwareBufsLength(pool, w, h, dev, exported, n - 1);
    if j < n - 1 {
      SoftwareBufsAt(pool, w, h, dev, exported, n - 1, j);
    }
  }

  lemma {:induction false} SoftwareBufsLength(pool: seq<DrmBuf>, w: nat, h: nat, dev: seq<DrmReplies>, exported: seq<Option<int>>, n: nat)
    requires n <= |pool| && |dev| == |pool| && |exported| == |pool|
    requires forall k :: 0 <= k < |pool| ==> pool[k].Valid()
    ensures |SoftwareBufs(pool, w, h, dev, exported, n)| == n
  {
    if n > 0 {
      SoftwareBufsLength(pool, w, h, dev, exported, n - 1);
    }
  }

  /** One more buffer through the set-up loop extends the finished prefix
      by one and leaves the rest of the pool as it was. */
  lemma SoftwareBufsStep(pool: seq<DrmBuf>, w: nat, h: nat, dev: seq<DrmReplies>, exported: seq<Option<int>>,
                         out: seq<DrmBuf>, i: nat, nb: DrmBuf)
    requires i < |pool| && |dev| == |pool| && |exported| == |pool| && |out| == |pool|
    requires forall j :: 0 <= j < |pool| ==> pool[j].Valid()
    requires out[..i] == SoftwareBufs(pool, w, h, dev, exported, i) && out[i..] == pool[i..]
    requires nb == SoftwareBuf(pool[i], w, h, dev[i], exported[i])
    ensures out[i := nb][..i + 1] == SoftwareBufs(pool, w, h, dev, exported, i + 1)
    ensures out[i := nb][i + 1..] == pool[i + 1..]
  {
    assert out[i := nb][..i + 1] == out[..i] + [nb];
    assert out[i := nb][i + 1..] == out[i..][1..];
  }

  /** The round-robin successor of a software buffer index (1628-1630). */
  function NextSoftware(e: nat): (n: nat)
    requires e < SoftwareBuffers
    ensures n < SoftwareBuffers && n == (e + 1) % SoftwareBuffers
  {
    if e == VideoSurfacesMax + 1 then 0 else e + 1
  }

  /** How the filter thread's `fillframe` step ends. */
  datatype FillOutcome = FillFreed | FillCopied | FillQueued | FillRetry

  /** Where VideoRenderFrame (1846-1874) sends a decoded frame. */
  datatype Destination = Freed | ToDeint | ToDisplay | ToCopy

  /** `filterRunning` is whether the filter thread exists, `graphOk` what
      VideoFilterInit would answer if it had to be started. */
  function RouteFrame(closing: bool, f: Frame, noHwDeint: bool, filterRunning: bool, graphOk: bool): (d: Destination)
    ensures d == Freed <==> closing || (NeedsFilter(f, noHwDeint) && !filterRunning && !graphOk)
    ensures d == ToDeint <==> !closing && NeedsFilter(f, noHwDeint) && (filterRunning || graphOk)
    ensures d == ToDisplay <==> !closing && !NeedsFilter(f, noHwDeint) && f.format == DrmPrime
  {
    if closing then Freed
    else if NeedsFilter(f, noHwDeint) then (if filterRunning || graphOk then ToDeint else Freed)
    else if f.format == DrmPrime then ToDisplay
    else ToCopy
  }

  /** A YUV420P frame never reaches a ring unfiltered: it is filtered or
      freed, so the display only ever sees DRM_PRIME or copied frames. */
  lemma SoftwareFramesFiltered(closing: bool, f: Frame, noHwDeint: bool, filterRunning: bool, graphOk: bool)
    requires f.format == Yuv420p
    ensures RouteFrame(closing, f, noHwDeint, filterRunning, graphOk) in {Freed, ToDeint}
  {
  }

  /** Only non-DRM_PRIME, non-YUV420P frames are copied into dumb buffers. */
  lemma CopiedFormats(closing: bool, f: Frame, noHwDeint: bool, filterRunning: bool, graphOk: bool)
    requires RouteFrame(closing, f, noHwDeint, filterRunning, graphOk) == ToCopy
    ensures !closing && f.format != DrmPrime && f.format != Yuv420p
  {
  }

  /** Every frame sent to the filter has a filter description, so the
      graph is never parsed from a null description. */
  lemma FilterAlwaysDescribed(f: Frame, noHwDeint: bool)
    requires NeedsFilter(f, noHwDeint)
    ensures ChooseFilter(f.interlaced, f.format).description.Some?
  {
  }

  /** Once VideoFilterInit has failed on an interlaced hardware frame (the
      frame is freed and NoHwDeint latched), every later interlaced
      hardware frame goes straight to the display. */
  lemma FailedInitBypasses(f: Frame, g: Frame, graphOk: bool, filterRunning: bool)
    requires f.interlaced && f.format == DrmPrime && g.interlaced && g.format == DrmPrime
    requires RouteFrame(false, f, false, false, false) == Freed
    ensures RouteFrame(false, g, true, filterRunning, graphOk) == ToDisplay
  {
  }

  /** The filter-bug correction (1692-1693): bwdif doubles the timestamps,
      and C's truncating halving restores every doubled pts, negative ones
      included. */
  function FilterPts(pts: int, filterBug: bool): (p: int)
    ensures !filterBug ==> p == pts
    ensures filterBug ==> p == CDiv(pts, 2)
  {
    if filterBug then CDiv(pts, 2) else pts
  }

  lemma {:induction false} FilterPtsUndoesDoubling(p: int)
    ensures FilterPts(2 * p, true) == p
  {
    if p < 0 {
      assert -(2 * p) / 2 == -p;
    }
  }

  /** With distinct prime fds, the frame EnqueueFB makes from software
      buffer `e` is found by Frame2Display's pool search on entry `e`
      itself. */
  lemma SoftwareFrameFound(pool: seq<DrmBuf>, e: nat, inframe: Frame)
    requires e < |pool| && inframe.width >= 0 && inframe.height >= 0
    requires forall i, j :: 0 <= i < j < |pool| ==> pool[i].fdPrime != pool[j].fdPrime
    ensures Locate(Fds(pool), FdOf(SoftwareFrame(inframe, pool[e].fdPrime))) == Some(e)
  {
    LocateFirst(Fds(pool), pool[e].fdPrime, e);
  }

  /** `after` is `before` with its first `n` entries torn down by DestroyFB. */
  ghost predicate Destroyed(after: seq<DrmBuf>, before: seq<DrmBuf>, n: int)
  {
    |after| == |before| &&
    forall i :: 0 <= i < |before| ==>
      if i < n then before[i].Valid() && after[i] == AfterDestroy(before[i]) else after[i] == before[i]
  }

  /** Whether the replies make the dumb path of SetupFB end in Fatal(). */
  predicate DumbFatal(d: DrmReplies)
  {
    d.dumbOk && !d.addOk
  }

  /** Number of software buffers whose set-up succeeds. */
  function DoneCount(dev: seq<DrmReplies>): (n: nat)
    ensures n <= |dev|
  {
    if dev == [] then 0
    else DoneCount(dev[..|dev| - 1]) + (if Ready(dev[|dev| - 1]) then 1 else 0)
  }

  /** Replies under which the dumb path of SetupFB completes. */
  predicate Ready(d: DrmReplies)
  {
    d.dumbOk && d.addOk && d.mapOk && d.mmapOk
  }

  /** The dumb path's status is decided by the replies alone. */
  lemma DumbStatus(b: DrmBuf, d: DrmReplies)
    requires b.Valid()
    ensures SetupDumbSpec(b, d).status == SetupDone <==> Ready(d)
    ensures SetupDumbSpec(b, d).status == SetupFatal <==> DumbFatal(d)
  {
  }

  /** One turn of EnqueueFB's set-up loop (1576-1595) on the software
      buffer `b`: sized to the frame as NV12, set up as a dumb buffer, and
      given the prime fd `exported` when the export succeeds. */
  method SetupSoftwareBuffer(b: DrmBuf, w: nat, h: nat, d: DrmReplies, exported: Option<int>)
    returns (status: SetupStatus, nb: DrmBuf)
    requires b.Valid()
    ensures nb.Valid()
    ensures status == SetupFatal <==> DumbFatal(d)
    ensures status == SetupDone <==> Ready(d)
    ensures status != SetupFatal ==> nb == SoftwareBuf(b, w, h, d, exported)
  {
    var t := SoftwareTemplate(b, w, h);
    var out, calls;
    status, out, calls := SetupFB(t, None, d);
    DumbStatus(t, d);
    nb := WithExport(out, exported);
  }

  /** The set-up loop itself over the software buffers `pool`: `out` holds
      the buffers after it and `done` the number set up completely. The
      loop stops at the first fatal failure. */
  method SetupSoftware(pool: seq<DrmBuf>, w: nat, h: nat, dev: seq<DrmReplies>, exported: seq<Option<int>>)
    returns (fatal: bool, out: seq<DrmBuf>, done: nat)
    requires |dev| == |pool| && |exported| == |pool|
    requires forall j :: 0 <= j < |pool| ==> pool[j].Valid()
    ensures |out| == |pool| && done <= |pool|
    ensures forall j :: 0 <= j < |out| ==> out[j].Valid()
    ensures fatal <==> exists i :: 0 <= i < |pool| && DumbFatal(dev[i])
    ensures !fatal ==> done == DoneCount(dev) && out == SoftwareBufs(pool, w, h, dev, exported, |pool|)
  {
    out := pool;
    done := 0;
    var i := 0;
    while i < |pool|
      invariant 0 <= i <= |pool| == |out|
      invariant done == DoneCount(dev[..i]) <= i
      invariant forall j :: 0 <= j < i ==> !DumbFatal(dev[j])
      invariant forall j :: 0 <= j < |out| ==> out[j].Valid()
      invariant out[..i] == SoftwareBufs(pool, w, h, dev, exported, i)
      invariant out[i..] == pool[i..]
    {
      var status, nb := SetupSoftwareBuffer(pool[i], w, h, dev[i], exported[i]);
      if status == SetupFatal {
        return true, out, done;
      }
      if status == SetupDone {
        done := done + 1;
      }
      SoftwareBufsStep(pool, w, h, dev, exported, out, i, nb);
      out := out[i := nb];
      assert dev[..i + 1][..i] == dev[..i];
      i := i + 1;
    }
    assert dev[..|pool|] == dev;
    assert out[..|pool|] == out;
    fatal := false;
  }

  /** `struct _Drm_Render_` (video.h:80-145), the fields the core reads
      and writes. */
  class VideoRender {
    /** Pre-filter ring `FramesDeintRb` and display ring `FramesRb`. */
    const deint: FrameRing
    const display: FrameRing
    /** The scan-out pool `bufs[36]` and its fill count `buffers`. */
    const bufs: array<DrmBuf>
    var buffers: int
    /** Next software buffer EnqueueFB copies into. */
    var enqueueBuffer: int
    var bufOsd: DrmBuf
    var bufBlack: DrmBuf
    var actBuf: Option<BufRef>
    var lastFrame: Option<Frame>
    var mode: Mode
    var crtcId: int
    /** Plane ids of `planes[VIDEO_PLANE]` and `planes[OSD_PLANE]`. */
    var planeIds: seq<int>
    var useZpos: bool
    var zposOverlay: int
    var zposPrimary: int
    var osdShown: bool
    var trickSpeed: int
    var videoPaused: bool
    var closing: bool
    var filterClose: bool
    var filterBug: bool
    var noHwDeint: bool
    var codecMode: int
    var startCounter: int
    var framesDuped: int
    var framesDropped: int
    var pts: int
    /** The file-level `VideoAudioDelay`, in ms. */
    var audioDelay: int
    /** Whether the filter thread has been started (`FilterThread != 0`). */
    var filterThread: bool
    /** Every frame handed to av_frame_free, in order. */
    ghost var released: seq<Frame>

    ghost predicate Valid()
      reads this`buffers, this`enqueueBuffer, this`bufOsd, this`bufBlack, this`actBuf, this`planeIds
      reads this`useZpos, this`zposOverlay, this`zposPrimary, deint, deint.rb, display, display.rb, bufs
    {
      RingsValid() && PoolValid() && PlanesValid()
    }

    /** Both rings are well formed and distinct, and every slot of the
        display ring holds a frame that names a dmabuf. */
    ghost predicate RingsValid()
      reads deint, deint.rb, display, display.rb
    {
      deint.Valid() && display.Valid() && deint != display && deint.rb != display.rb &&
      (forall k :: 0 <= k < display.rb.Length ==> Displayable(display.rb[k]))
    }

    /** The pool has 36 well-formed entries, `buffers` of them in use, and
        the round-robin index stays below the number of software buffers. */
    ghost predicate PoolValid()
      reads this`buffers, this`enqueueBuffer, bufs
    {
      bufs.Length == PoolSize && 0 <= buffers <= PoolSize &&
      0 <= enqueueBuffer < SoftwareBuffers &&
      (forall i :: 0 <= i < PoolSize ==> bufs[i].Valid())
    }

    /** Two distinct planes, well-formed OSD and black buffers, and (with
        zpos in use) the overlay zpos above the primary one. */
    ghost predicate PlanesValid()
      reads this`bufOsd, this`bufBlack, this`actBuf, this`planeIds, this`useZpos, this`zposOverlay, this`zposPrimary
    {
      bufOsd.Valid() && bufBlack.Valid() &&
      (actBuf.Some? && actBuf.value.PoolBuf? ==> actBuf.value.index < PoolSize) &&
      |planeIds| == MaxPlanes && planeIds[VideoPlane] != planeIds[OsdPlane] &&
      (useZpos ==> zposOverlay > zposPrimary)
    }

    /** The prime fds of the pooled entries. */
    ghost function PoolFds(): (fds: seq<int>)
      reads this, bufs
      requires 0 <= buffers <= bufs.Length
      ensures |fds| == buffers
    {
      Fds(bufs[..buffers])
    }

    /** A frame can be looked up in the pool without writing past its end:
        it is pooled already, or an entry is left for it. */
    ghost predicate PoolHasRoomFor(f: Frame)
      reads this, bufs
      requires 0 <= buffers <= bufs.Length && f.prime.Valid()
    {
      Locate(PoolFds(), FdOf(f)).Some? || buffers < PoolSize
    }

    function BufOf(r: BufRef): (b: DrmBuf)
      reads this, bufs
      requires bufs.Length == PoolSize && (r.PoolBuf? ==> r.index < PoolSize)
      ensures r.BlackBuf? ==> b == bufBlack
      ensures r.PoolBuf? ==> b == bufs[r.index]
    {
      match r
      case PoolBuf(i) => bufs[i]
      case BlackBuf => bufBlack
    }

    /** The allocated render structure once FindDevice has chosen the mode,
        the CRTC and the two planes; zpos values are normalised as at
        video_drm.c:607-626. */
    constructor (mode: Mode, crtcId: int, planeIds: seq<int>, useZpos: bool, zpos: ZposPair,
                 osd: DrmBuf, black: DrmBuf)
      requires |planeIds| == MaxPlanes && planeIds[VideoPlane] != planeIds[OsdPlane]
      requires osd.Valid() && black.Valid()
      ensures Valid() && fresh(deint) && fresh(deint.rb) && fresh(display) && fresh(display.rb) && fresh(bufs)
      ensures deint.Contents() == [] && display.Contents() == [] && buffers == 0 && released == []
      ensures var n := NormalizeZpos(useZpos, zpos); zposOverlay == n.overlay && zposPrimary == n.primary
      ensures this.useZpos == useZpos && this.planeIds == planeIds && this.mode == mode
      ensures !closing && !videoPaused && trickSpeed == 0 && startCounter == 0
    {
      deint := new FrameRing();
      display := new FrameRing();
      bufs := new DrmBuf[PoolSize](_ => EmptyBuf);
      buffers := 0;
      enqueueBuffer := 0;
      bufOsd := osd;
      bufBlack := black;
      actBuf := None;
      lastFrame := None;
      this.mode := mode;
      this.crtcId := crtcId;
      this.planeIds := planeIds;
      this.useZpos := useZpos;
      osdShown := false;
      trickSpeed := 0;
      videoPaused := false;
      closing := false;
      filterClose := false;
      filterBug := false;
      noHwDeint := false;
      codecMode := 0;
      startCounter := 0;
      framesDuped := 0;
      framesDropped := 0;
      pts := 0;
      audioDelay := 0;
      filterThread := false;
      released := [];
      var overlay, primary := zpos.overlay, zpos.primary;
      if useZpos && overlay <= primary {
        if overlay == primary {
          primary := 0;
          overlay := 1;
        } else {
          overlay, primary := primary, overlay;
        }
      }
      zposOverlay := overlay;
      zposPrimary := primary;
    }

    // -------------------------------------------------------------------
    // Controls (video_drm.c:1899-2073)

    /** StartVideo (1899-1908). */
    method StartVideo()
      modifies this`videoPaused, this`startCounter
      ensures !videoPaused && startCounter == 0
    {
      videoPaused := false;
      startCounter := 0;
    }

    /** VideoPause (1949-1955). */
    method VideoPause()
      modifies this`videoPaused
      ensures videoPaused
    {
      videoPaused := true;
    }

    /** VideoSetTrickSpeed (1963-1976): a non-zero speed also clears
        Closing; a paused display is restarted. */
    method VideoSetTrickSpeed(speed: int)
      modifies this`trickSpeed, this`closing, this`videoPaused, this`startCounter
      ensures trickSpeed == speed
      ensures closing == (old(closing) && speed == 0)
      ensures !videoPaused
      ensures startCounter == (if old(videoPaused) then 0 else old(startCounter))
    {
      trickSpeed := speed;
      if speed != 0 {
        closing := false;
      }
      if videoPaused {
        StartVideo();
      }
    }

    /** VideoPlay (1981-1991): leave trick speed and restart. */
    method VideoPlay()
      modifies this`trickSpeed, this`videoPaused, this`startCounter
      ensures trickSpeed == 0 && !videoPaused && startCounter == 0
    {
      if trickSpeed != 0 {
        trickSpeed := 0;
      }
      StartVideo();
    }

    /** VideoGetStats (2037-2043). */
    method VideoGetStats() returns (duped: int, dropped: int, counter: int)
      ensures duped == framesDuped && dropped == framesDropped && counter == startCounter
    {
      duped := framesDuped;
      dropped := framesDropped;
      counter := startCounter;
    }

    /** VideoSetAudioDelay (2070-2073). */
    method VideoSetAudioDelay(ms: int)
      modifies this`audioDelay
      ensures audioDelay == ms
    {
      audioDelay := ms;
    }

    /** ReadHWPlatform (301-335) over the bytes of the device-tree
        `compatible` file, a list of NUL-terminated strings: the Raspberry
        Pi 4 (a string containing "bcm2711") selects codec mode 3 and turns
        the hardware deinterlacer off. */
    method ReadHWPlatform(content: seq<char>)
      requires content == [] || content[|content| - 1] == '\0'
      modifies this`codecMode, this`noHwDeint
      ensures codecMode == 3 <==> HasSubstring(content, Bcm2711)
      ensures codecMode == 0 <==> !HasSubstring(content, Bcm2711)
      ensures noHwDeint <==> HasSubstring(content, Bcm2711)
    {
      codecMode := 0;
      noHwDeint := false;
      var readSize := |content|;
      if readSize == 0 {
        return;
      }
      var pos := 0;
      while readSize > 0
        invariant 0 <= pos <= |content| && readSize == |content| - pos
        invariant pos == 0 || content[pos - 1] == '\0'
        invariant forall i :: 0 <= i < pos ==> !OccursAt(content, i, Bcm2711)
        invariant codecMode == 0 && !noHwDeint
        decreases readSize
      {
        var len := StrLen(content, pos);
        if HasSubstring(content[pos..pos + len], Bcm2711) {
          SegmentMatch(content, pos, len, Bcm2711);
          codecMode := 3;
          noHwDeint := true;
          return;
        }
        SegmentMatch(content, pos, len, Bcm2711);
        readSize := readSize - (len + 1);
        pos := pos + len + 1;
      }
      NoOccurrence(content, Bcm2711);
    }

    // -------------------------------------------------------------------
    // Frame routing and the software copy (video_drm.c:1569-1875)

    /** VideoFilterInit (1724-1825): the filter description and the
        filter-bug flag are chosen from the frame; `graphOk` is whether
        ffmpeg accepts and configures the graph. A failure latches
        NoHwDeint. */
    method VideoFilterInit(f: Frame, graphOk: bool) returns (ok: bool, descr: Option<string>)
      modifies this`filterBug, this`noHwDeint
      ensures FilterChoice(descr, filterBug) == ChooseFilter(f.interlaced, f.format)
      ensures ok == graphOk
      ensures noHwDeint == (old(noHwDeint) || !graphOk)
    {
      descr := None;
      filterBug := false;
      if f.interlaced {
        if f.format == DrmPrime {
          descr := Some("deinterlace_v4l2m2m");
        } else if f.format == Yuv420p {
          descr := Some("bwdif=1:-1:0");
          filterBug := true;
        }
      } else if f.format == Yuv420p {
        descr := Some("scale");
      }
      if !graphOk {
        noHwDeint := true;
        return false, descr;
      }
      ok := true;
    }

    /** VideoRenderFrame (1834-1875) for a decoded frame. The decoder
        thread only decodes while both rings have room (1406-1407).
        `graphOk` is VideoFilterInit's answer if the filter must be
        started; `dev` and `exported` are the DRM replies for the software
        buffers' set-up, used when the pool is empty. */
    method VideoRenderFrame(frame: Frame, graphOk: bool, dev: seq<DrmReplies>, exported: seq<Option<int>>)
      returns (d: Destination, fatal: bool)
      requires Valid() && deint.filled < VideoSurfacesMax && display.filled < VideoSurfacesMax
      requires frame.width >= 0 && frame.height >= 0
      requires frame.format == DrmPrime ==> Displayable(frame)
      requires |dev| == SoftwareBuffers && |exported| == SoftwareBuffers
      modifies this`filterBug, this`noHwDeint, this`filterThread, this`released, this`buffers, this`enqueueBuffer
      modifies bufs, deint, deint.rb, display, display.rb
      ensures Valid()
      ensures d == RouteFrame(closing, frame, old(noHwDeint), old(filterThread), graphOk)
      ensures d != ToCopy ==> !fatal && buffers == old(buffers) && bufs[..] == old(bufs[..])
      ensures d != ToDeint ==> deint.Contents() == old(deint.Contents())
      ensures d != ToDisplay && d != ToCopy ==> display.Contents() == old(display.Contents())
      ensures d == Freed ==> released == old(released) + [frame]
      ensures d == ToDeint ==>
        filterThread && deint.Contents() == old(deint.Contents()) + [frame] && released == old(released)
      ensures d == ToDisplay ==> display.Contents() == old(display.Contents()) + [frame] && released == old(released)
      ensures d == ToCopy && !fatal ==>
        display.Contents() == old(display.Contents()) + [SoftwareFrame(frame, bufs[old(enqueueBuffer)].fdPrime)] &&
        released == old(released) + [frame]
      ensures noHwDeint == (old(noHwDeint) || (!closing && NeedsFilter(frame, old(noHwDeint)) &&
                                                !old(filterThread) && !graphOk))
    {
      fatal := false;
      if closing {
        released := released + [frame];
        return Freed, false;
      }
      if NeedsFilter(frame, noHwDeint) {
        d := RouteToFilter(frame, graphOk);
        return d, false;
      }
      if frame.format == DrmPrime {
        display.Push(frame);
        return ToDisplay, false;
      }
      fatal := EnqueueFB(frame, dev, exported);
      d := ToCopy;
    }

    /** The filter branch of VideoRenderFrame (1852-1865): the filter is
        started if it is not running; a frame it cannot be started for is
        freed, any other joins the pre-filter ring. */
    method RouteToFilter(frame: Frame, graphOk: bool) returns (d: Destination)
      requires Valid() && deint.filled < VideoSurfacesMax
      modifies this`filterBug, this`noHwDeint, this`filterThread, this`released, deint, deint.rb
      ensures Valid()
      ensures d == (if old(filterThread) || graphOk then ToDeint else Freed)
      ensures d == Freed ==>
        released == old(released) + [frame] && deint.Contents() == old(deint.Contents()) && noHwDeint
      ensures d == ToDeint ==>
        filterThread && released == old(released) && deint.Contents() == old(deint.Contents()) + [frame] &&
        noHwDeint == old(noHwDeint)
    {
      if !filterThread {
        var ok, descr := VideoFilterInit(frame, graphOk);
        if !ok {
          released := released + [frame];
          return Freed;
        }
        filterThread := true;
      }
      deint.Push(frame);
      d := ToDeint;
    }

    /** EnqueueFB (1569-1631): on first use, set up the software buffers
        (a failed set-up is skipped, a Fatal one ends the process); then
        copy the frame into the current buffer, queue a DRM_PRIME frame
        for it, free the original and move round-robin to the next buffer.
        The pixel copy itself is not modelled. */
    method EnqueueFB(inframe: Frame, dev: seq<DrmReplies>, exported: seq<Option<int>>) returns (fatal: bool)
      requires Valid() && display.filled < VideoSurfacesMax
      requires inframe.width >= 0 && inframe.height >= 0
      requires |dev| == SoftwareBuffers && |exported| == SoftwareBuffers
      modifies this`buffers, this`enqueueBuffer, this`released, bufs, display, display.rb
      ensures Valid()
      ensures old(buffers) != 0 ==> !fatal && buffers == old(buffers) && bufs[..] == old(bufs[..])
      ensures old(buffers) == 0 ==> (fatal <==> exists i :: 0 <= i < SoftwareBuffers && DumbFatal(dev[i]))
      ensures old(buffers) == 0 && !fatal ==>
        buffers == DoneCount(dev) &&
        bufs[..SoftwareBuffers] ==
          SoftwareBufs(old(bufs[..SoftwareBuffers]), inframe.width, inframe.height, dev, exported, SoftwareBuffers) &&
        bufs[SoftwareBuffers..] == old(bufs[SoftwareBuffers..])
      ensures !fatal ==>
        display.Contents() == old(display.Contents()) + [SoftwareFrame(inframe, bufs[old(enqueueBuffer)].fdPrime)] &&
        released == old(released) + [inframe] && enqueueBuffer == NextSoftware(old(enqueueBuffer))
      ensures fatal ==> display.Contents() == old(display.Contents()) && released == old(released)
    {
      if buffers == 0 {
        fatal := SetupSoftwareBuffers(inframe.width, inframe.height, dev, exported);
        if fatal {
          return;
        }
      }
      fatal := false;
      PushSoftware(inframe);
    }

    /** The set-up loop of EnqueueFB (1576-1595) over the five software
        buffers: each is sized to the frame as NV12 and set up as a dumb
        buffer (counted only on success), then its prime fd is exported.
        A fatal failure stops the loop; the buffers set up before it stay
        set up and counted. */
    method SetupSoftwareBuffers(w: nat, h: nat, dev: seq<DrmReplies>, exported: seq<Option<int>>) returns (fatal: bool)
      requires Valid() && buffers == 0
      requires |dev| == SoftwareBuffers && |exported| == SoftwareBuffers
      modifies this`buffers, bufs
      ensures Valid()
      ensures fatal <==> exists i :: 0 <= i < SoftwareBuffers && DumbFatal(dev[i])
      ensures !fatal ==>
        buffers == DoneCount(dev) &&
        bufs[..SoftwareBuffers] == SoftwareBufs(old(bufs[..SoftwareBuffers]), w, h, dev, exported, SoftwareBuffers) &&
        bufs[SoftwareBuffers..] == old(bufs[SoftwareBuffers..])
    {
      var out, done;
      fatal, out, done := SetupSoftware(bufs[..SoftwareBuffers], w, h, dev, exported);
      forall j | 0 <= j < SoftwareBuffers {
        bufs[j] := out[j];
      }
      assert bufs[..SoftwareBuffers] == out;
      buffers := buffers + done;
    }

    /** The tail of EnqueueFB (1610-1630): queue the DRM_PRIME frame for
        the current software buffer, free the original, advance. */
    method PushSoftware(inframe: Frame)
      requires Valid() && display.filled < VideoSurfacesMax
      requires inframe.width >= 0 && inframe.height >= 0
      modifies this`enqueueBuffer, this`released, display, display.rb
      ensures Valid()
      ensures display.Contents() == old(display.Contents()) + [SoftwareFrame(inframe, bufs[old(enqueueBuffer)].fdPrime)]
      ensures released == old(released) + [inframe] && enqueueBuffer == NextSoftware(old(enqueueBuffer))
    {
      var frame := SoftwareFrame(inframe, bufs[enqueueBuffer].fdPrime);
      released := released + [inframe];
      display.Push(frame);
      enqueueBuffer := NextSoftware(enqueueBuffer);
    }

    /** The filter thread taking its next input (1642-1660), once a frame
        is queued or Filter_Close is set: without Filter_Close the front
        frame of the pre-filter ring; with it, every queued frame is freed
        and the filter is sent end of stream (no frame). */
    method FilterTakeInput() returns (input: Option<Frame>)
      requires Valid() && (deint.filled > 0 || filterClose)
      modifies this`released, deint
      ensures Valid()
      ensures !filterClose ==>
        input == Some(old(deint.Contents())[0]) && deint.Contents() == old(deint.Contents())[1..] &&
        released == old(released)
      ensures filterClose ==>
        input == None && deint.Contents() == [] && released == old(released) + old(deint.Contents())
    {
      if filterClose {
        DrainRing(deint);
        return None;
      }
      var f := deint.Pop();
      input := Some(f);
    }

    /** A filtered frame at `fillframe` (1686-1703): freed once the filter
        is closing; while the display ring is full or the render is closing
        the thread sleeps and retries; otherwise NV12 output is copied by
        EnqueueFB (pts halved under the bwdif bug) and anything else is
        queued for display as it is. */
    method FillFrame(filt: Frame, dev: seq<DrmReplies>, exported: seq<Option<int>>) returns (o: FillOutcome, fatal: bool)
      requires Valid()
      requires filt.width >= 0 && filt.height >= 0 && (filt.format != Nv12 ==> Displayable(filt))
      requires |dev| == SoftwareBuffers && |exported| == SoftwareBuffers
      modifies this`released, this`buffers, this`enqueueBuffer, bufs, display, display.rb
      ensures Valid()
      ensures o == FillFreed <==> filterClose
      ensures o == FillRetry <==> !filterClose && (old(display.filled) >= VideoSurfacesMax || closing)
      ensures o == FillQueued <==>
        !filterClose && old(display.filled) < VideoSurfacesMax && !closing && filt.format != Nv12
      ensures o != FillCopied ==> !fatal && buffers == old(buffers) && bufs[..] == old(bufs[..])
      ensures o == FillFreed ==> released == old(released) + [filt] && display.Contents() == old(display.Contents())
      ensures o == FillRetry ==> released == old(released) && display.Contents() == old(display.Contents())
      ensures o == FillQueued ==> released == old(released) && display.Contents() == old(display.Contents()) + [filt]
      ensures o == FillCopied && !fatal ==>
        var g := filt.(pts := FilterPts(filt.pts, filterBug));
        display.Contents() == old(display.Contents()) + [SoftwareFrame(g, bufs[old(enqueueBuffer)].fdPrime)] &&
        released == old(released) + [g]
    {
      fatal := false;
      if filterClose {
        released := released + [filt];
        return FillFreed, false;
      }
      if display.filled < VideoSurfacesMax && !closing {
        if filt.format == Nv12 {
          var g := filt;
          if filterBug {
            g := g.(pts := CDiv(g.pts, 2));
          }
          fatal := EnqueueFB(g, dev, exported);
          return FillCopied, fatal;
        }
        display.Push(filt);
        return FillQueued, false;
      }
      o := FillRetry;
    }

    /** The filter thread's exit (1706-1715): the graph is freed, the
        close request cleared, and FilterThread reset by the exit handler
        (98-101). */
    method FilterExit()
      modifies this`filterClose, this`filterThread
      ensures !filterClose && !filterThread
    {
      filterClose := false;
      filterThread := false;
    }

    // -------------------------------------------------------------------
    // The display loop (Frame2Display, video_drm.c:1006-1220)

    /** The linear search of the pool by prime fd (1036-1041). */
    method FindBuffer(fd: int) returns (found: Option<nat>)
      requires Valid()
      ensures found == Locate(PoolFds(), fd)
      ensures found.Some? ==> found.value < buffers && bufs[found.value].fdPrime == fd
    {
      found := None;
      var i := 0;
      while i < buffers
        invariant 0 <= i <= buffers
        invariant forall j :: 0 <= j < i ==> bufs[j].fdPrime != fd
      {
        if bufs[i].fdPrime == fd {
          found := Some(i);
          LocateFirst(PoolFds(), fd, i);
          return;
        }
        i := i + 1;
      }
      assert fd !in PoolFds();
    }

    /** Find or create the framebuffer of a frame (1036-1050), with the
        pool bound the source lacks: a pooled entry with the frame's fd is
        reused and the pool is unchanged; a miss on a full pool is fatal
        and leaves the pool alone (the source writes entry 36, past the end
        of bufs[]: PoolOverflowAsWritten); otherwise entry `buffers` gets
        the frame's size and fd, is set up around the frame's dmabuf and
        joins the pool. */
    method LocateBuffer(frame: Frame, dev: DrmReplies) returns (cur: nat, fatal: bool)
      requires Valid() && Displayable(frame)
      modifies this`buffers, bufs
      ensures Valid()
      ensures !fatal ==> cur < buffers && bufs[cur].fdPrime == FdOf(frame)
      ensures fatal ==> buffers == old(buffers) && bufs[..] == old(bufs[..])
      ensures var hit := Locate(old(PoolFds()), FdOf(frame));
        hit.Some? ==> !fatal && cur == hit.value && buffers == old(buffers) && bufs[..] == old(bufs[..])
      ensures Locate(old(PoolFds()), FdOf(frame)).None? && old(buffers) == PoolSize ==> fatal
      ensures Locate(old(PoolFds()), FdOf(frame)).None? && old(buffers) < PoolSize ==>
        var b := old(bufs[buffers]).(width := frame.width, height := frame.height, fdPrime := FdOf(frame));
        var r := SetupSpec(b, Some(frame.prime), dev);
        (fatal <==> r.status == SetupFatal) &&
        (!fatal ==> cur == old(buffers) && buffers == old(buffers) + 1 &&
                    bufs[..] == old(bufs[..])[cur := r.buf])
    {
      var found := FindBuffer(FdOf(frame));
      if found.Some? {
        return found.value, false;
      }
      cur := buffers;
      if cur == PoolSize {
        return cur, true;
      }
      var b := bufs[cur].(width := frame.width, height := frame.height, fdPrime := FdOf(frame));
      var status, out, calls := SetupFB(b, Some(frame.prime), dev);
      if status == SetupFatal {
        return cur, true;
      }
      bufs[cur] := out;
      buffers := buffers + 1;
      fatal := false;
      assert Fds(bufs[..buffers]) == Fds(old(bufs[..buffers])) + [FdOf(frame)];
    }

    /** One step of Frame2Display, from label `at` (with `cur` the buffer
        found for the front frame when resuming at avready or audioclock)
        to the page flip or the next wait. `avWait` is AudioVideoReady's
        answer, `audioPts` the audio clock and `videoPts` the frame's pts in
        ms. The ring is FIFO: only a drop or a show takes the front frame. */
    method Frame2DisplayStep(at: Label, cur: nat, avWait: bool, videoPts: int, audioPts: int, dev: DrmReplies)
      returns (o: StepOutcome)
      requires Valid()
      requires at == AvReady || at == AudioClock ==>
        display.filled > 0 && cur < buffers && bufs[cur].fdPrime == FdOf(display.Front())
      modifies this`buffers, this`pts, this`framesDropped, this`framesDuped, this`startCounter, this`released
      modifies display, bufs
      ensures Valid()
      ensures var q := old(display.Contents());
        (o.ShowBlack? || o.Wait? || o.Duplicated? || o.Fatal?) ==>
          display.Contents() == q && released == old(released)
      ensures o.ShowBlack? ==> closing
      ensures o.Wait? ==> !closing
      ensures var q := old(display.Contents());
        o.Dropped? ==>
          |q| > 0 && display.Contents() == q[1..] && released == old(released) + [q[0]] &&
          Decide(videoPts, audioPts, audioDelay, trickSpeed) == Drop
      ensures o.Duplicated? ==> o.index < buffers && Decide(videoPts, audioPts, audioDelay, trickSpeed) == Duplicate
      ensures var q := old(display.Contents());
        o.Shown? ==>
          |q| > 0 && display.Contents() == q[1..] && released == old(released) &&
          o.index < buffers && bufs[o.index].frame == Some(q[0]) && bufs[o.index].fdPrime == FdOf(q[0])
      ensures var q := old(display.Contents());
        (at == Entry || at == Dequeue) && |q| > 0 && Locate(old(PoolFds()), FdOf(q[0])).Some? ==>
          buffers == old(buffers)
      ensures var q := old(display.Contents());
        (at == Dequeue || (at == Entry && !closing)) && |q| > 0 &&
        Locate(old(PoolFds()), FdOf(q[0])).None? && old(buffers) == PoolSize ==>
          o == Fatal && buffers == old(buffers)
      ensures buffers == old(buffers) || buffers == old(buffers) + 1
    {
      var buf := cur;
      var next := at;
      if at == Entry || at == Dequeue {
        var early;
        early, buf, next := DequeueFront(at == Entry, dev);
        if early.Some? {
          return early.value;
        }
      }
      if next == AvReady && avWait {
        return if closing then ShowBlack else Wait(AvReady, buf);
      }
      o := SyncStep(buf, videoPts, audioPts);
    }

    /** From the entry (or label dequeue) to the A/V checks (1015-1066):
        black when closing, wait while the ring is empty, otherwise find or
        create the front frame's buffer (fatal on a miss with a full pool)
        and note its pts. With no early
        outcome, `next` is where the step goes on: avready for the first
        frame of a normal-speed start, audioclock otherwise. */
    method DequeueFront(atEntry: bool, dev: DrmReplies) returns (early: Option<StepOutcome>, buf: nat, next: Label)
      requires Valid()
      modifies this`buffers, this`pts, bufs
      ensures Valid()
      ensures early.Some? ==> early.value.ShowBlack? || early.value.Wait? || early.value.Fatal?
      ensures early == Some(ShowBlack) ==> closing
      ensures early.Some? && early.value.Wait? ==> !closing
      ensures early.None? ==>
        display.filled > 0 && buf < buffers && bufs[buf].fdPrime == FdOf(display.Front()) &&
        pts == display.Front().pts &&
        next == (if startCounter == 0 && !closing && trickSpeed == 0 then AvReady else AudioClock)
      ensures display.filled > 0 && Locate(old(PoolFds()), FdOf(display.Front())).Some? ==>
        buffers == old(buffers)
      ensures !(atEntry && closing) && display.filled > 0 && !old(PoolHasRoomFor(display.Front())) ==>
        early == Some(Fatal) && buffers == old(buffers)
      ensures buffers == old(buffers) || buffers == old(buffers) + 1
    {
      buf, next := 0, Dequeue;
      if atEntry && closing {
        return Some(ShowBlack), buf, next;
      }
      if display.filled == 0 {
        return Some(if closing then ShowBlack else Wait(Dequeue, 0)), buf, next;
      }
      var frame := display.Front();
      var fatal;
      buf, fatal := LocateBuffer(frame, dev);
      if fatal {
        return Some(Fatal), buf, next;
      }
      pts := frame.pts;
      early := None;
      next := if startCounter == 0 && !closing && trickSpeed == 0 then AvReady else AudioClock;
    }

    /** The page flip (video_drm.c:1128-1219) to `target`, against the
        plane properties `current` the kernel reports: it makes `target`
        the active buffer, returns the atomic request, and clears the OSD's
        dirty flag. After the request is committed the video plane scans
        out `target` at its own width, scaled to the picture width; a dirty
        OSD is raised above the video when shown and lowered (or given an
        empty source) when hidden; a clean OSD is left alone.
        `picWidthRaw` is the aspect-corrected width computed in floating
        point. */
    method PageFlip(target: BufRef, current: PlaneState, picWidthRaw: nat) returns (req: seq<PropSet>)
      requires Valid() && Unsigned(current)
      requires target.PoolBuf? ==> target.index < PoolSize
      modifies this`actBuf, this`bufOsd
      ensures Valid()
      ensures actBuf == Some(target) && bufOsd == old(bufOsd).(dirty := false)
      ensures var t := Commit(current, req); var v := planeIds[VideoPlane]; var b := BufOf(target);
        Get(t, v, FbId) == b.fbId && Get(t, v, SrcW) / 0x1_0000 == b.width &&
        Get(t, v, CrtcW) == PicWidth(picWidthRaw, mode)
      ensures var t := Commit(current, req); var osd := planeIds[OsdPlane];
        !old(bufOsd.dirty) ==> forall p :: Get(t, osd, p) == Get(current, osd, p)
      ensures var t := Commit(current, req); var v := planeIds[VideoPlane]; var osd := planeIds[OsdPlane];
        old(bufOsd.dirty) && osdShown && useZpos ==>
          Get(t, osd, Zpos) == zposOverlay &&
          (Get(current, osd, Zpos) != zposOverlay ==> Get(t, v, Zpos) == zposPrimary < zposOverlay)
      ensures var t := Commit(current, req); var osd := planeIds[OsdPlane];
        old(bufOsd.dirty) && osdShown ==>
          if Get(current, osd, FbId) == 0
          then Get(t, osd, FbId) == bufOsd.fbId && Get(t, osd, SrcW) / 0x1_0000 == bufOsd.width
          else Get(t, osd, FbId) == Get(current, osd, FbId)
      ensures var t := Commit(current, req); var v := planeIds[VideoPlane]; var osd := planeIds[OsdPlane];
        old(bufOsd.dirty) && !osdShown && useZpos ==>
          Get(t, osd, Zpos) != zposOverlay &&
          (Get(current, osd, Zpos) == zposOverlay ==> Get(t, v, Zpos) == zposOverlay > Get(t, osd, Zpos))
      ensures var t := Commit(current, req); var osd := planeIds[OsdPlane];
        old(bufOsd.dirty) && !osdShown && !useZpos ==>
          Get(t, osd, FbId) == bufOsd.fbId && Get(t, osd, SrcW) == 0
    {
      var b := BufOf(target);
      var v, osd := planeIds[VideoPlane], planeIds[OsdPlane];
      var videoReq := VideoPlaneRequest(v, b, current, PicWidth(picWidthRaw, mode), mode);
      ghost var t0 := Commit(current, videoReq);
      var osdReq := OsdPlaneRequest(v, osd, crtcId, useZpos, zposOverlay, zposPrimary, osdShown, bufOsd, current, t0);
      CommitAppend(current, videoReq, osdReq);
      req := videoReq + osdReq;
      actBuf := Some(target);
      if bufOsd.dirty {
        bufOsd := bufOsd.(dirty := false);
      }
    }

    /** The display thread after each flip (1264-1271): free the previously
        shown frame, remember the one now on screen, and clean up once the
        black buffer is up while closing. */
    method AfterFlip()
      requires Valid() && actBuf.Some?
      modifies this`lastFrame, this`released, this`filterClose, this`buffers, this`enqueueBuffer, this`closing
      modifies display, bufs
      ensures Valid()
      ensures old(closing) && bufBlack.fbId == old(BufOf(actBuf.value)).fbId ==>
        var shown := old(BufOf(actBuf.value));
        display.Contents() == [] && buffers == 0 && !closing && lastFrame == None &&
        released == old(released) + (if old(lastFrame).Some? then [old(lastFrame).value] else []) +
                    (if shown.frame.Some? then [shown.frame.value] else []) + old(display.Contents()) &&
        enqueueBuffer == (if old(buffers) != 0 then 0 else old(enqueueBuffer)) &&
        Destroyed(bufs[..], old(bufs[..]), old(buffers))
      ensures !(old(closing) && bufBlack.fbId == old(BufOf(actBuf.value)).fbId) ==>
        lastFrame == old(BufOf(actBuf.value)).frame &&
        released == old(released) + (if old(lastFrame).Some? then [old(lastFrame).value] else []) &&
        display.Contents() == old(display.Contents()) && buffers == old(buffers) && closing == old(closing) &&
        bufs[..] == old(bufs[..])
    {
      if lastFrame.Some? {
        released := released + [lastFrame.value];
      }
      var shown := BufOf(actBuf.value);
      lastFrame := shown.frame;
      if closing && bufBlack.fbId == shown.fbId {
        CleanDisplayThread();
      }
    }

    /** CleanDisplayThread (962-1001): free the last shown frame and every
        queued one, ask the filter thread to stop, destroy the pooled
        framebuffers, and clear Closing. */
    method CleanDisplayThread()
      requires Valid()
      modifies this`lastFrame, this`released, this`filterClose, this`buffers, this`enqueueBuffer, this`closing
      modifies display, bufs
      ensures Valid()
      ensures display.Contents() == [] && lastFrame == None && !closing && buffers == 0
      ensures released == old(released) + (if old(lastFrame).Some? then [old(lastFrame).value] else []) +
                          old(display.Contents())
      ensures filterClose == (old(filterClose) || filterThread)
      ensures enqueueBuffer == (if old(buffers) != 0 then 0 else old(enqueueBuffer))
      ensures Destroyed(bufs[..], old(bufs[..]), old(buffers))
    {
      FreeFrames();
      ReleasePool();
      closing := false;
    }

    /** The frame-freeing half of CleanDisplayThread (967-980): the last
        shown frame, then every queued frame, oldest first. */
    method FreeFrames()
      requires Valid()
      modifies this`lastFrame, this`released, display
      ensures Valid()
      ensures display.Contents() == [] && lastFrame == None
      ensures released == old(released) + (if old(lastFrame).Some? then [old(lastFrame).value] else []) +
                          old(display.Contents())
    {
      if lastFrame.Some? {
        released := released + [lastFrame.value];
        lastFrame := None;
      }
      DrainRing(display);
    }

    /** Empty one of the two rings, releasing each queued frame oldest
        first (display ring: 970-979; pre-filter ring on filter close:
        1647-1660). */
    method DrainRing(r: FrameRing)
      requires RingsValid() && (r == deint || r == display)
      modifies this`released, r
      ensures RingsValid() && r.Contents() == []
      ensures released == old(released) + old(r.Contents())
    {
      var fs := r.Drain();
      released := released + fs;
    }

    /** The pool half of CleanDisplayThread (982-992): ask a running
        filter thread to close, destroy the pooled framebuffers and empty
        the pool. */
    method ReleasePool()
      requires Valid()
      modifies this`filterClose, this`buffers, this`enqueueBuffer, bufs
      ensures Valid() && buffers == 0
      ensures filterClose == (old(filterClose) || filterThread)
      ensures enqueueBuffer == (if old(buffers) != 0 then 0 else old(enqueueBuffer))
      ensures Destroyed(bufs[..], old(bufs[..]), old(buffers))
    {
      if filterThread {
        filterClose := true;
      }
      if buffers != 0 {
        DestroyPool();
        buffers := 0;
        enqueueBuffer := 0;
      }
    }

    /** DestroyFB on each pooled entry (986-991). */
    method DestroyPool()
      requires Valid()
      modifies bufs
      ensures Valid()
      ensures Destroyed(bufs[..], old(bufs[..]), buffers)
    {
      var i := 0;
      while i < buffers
        invariant 0 <= i <= buffers
        invariant forall j :: 0 <= j < PoolSize ==>
          bufs[j] == if j < i then AfterDestroy(old(bufs[j])) else old(bufs[j])
      {
        var out, calls := DestroyFB(bufs[i]);
        bufs[i] := out;
        i := i + 1;
      }
    }

    /** VideoSetClosing (1915-1944) with the display thread's answer run in
        place of the wait: when buffers are in use it sets Closing, lets a
        paused display go on, and the display loop then flips to the black
        buffer and cleans up. In every case the statistics and the trick
        speed are reset. */
    method VideoSetClosing(current: PlaneState, picWidthRaw: nat)
      requires Valid() && Unsigned(current)
      modifies this`closing, this`videoPaused, this`startCounter, this`actBuf, this`bufOsd, this`lastFrame
      modifies this`released, this`filterClose, this`buffers, this`enqueueBuffer, this`framesDuped
      modifies this`framesDropped, this`trickSpeed, display, bufs
      ensures Valid()
      ensures startCounter == 0 && framesDuped == 0 && framesDropped == 0 && trickSpeed == 0
      ensures old(buffers) != 0 ==> ClosedAfter(old(bufs[..]), old(buffers), old(lastFrame), old(released),
                                                old(display.Contents()))
      ensures old(buffers) == 0 ==>
        closing == old(closing) && display.Contents() == old(display.Contents()) && released == old(released) &&
        bufs[..] == old(bufs[..]) && buffers == old(buffers) && lastFrame == old(lastFrame) &&
        actBuf == old(actBuf) && videoPaused == old(videoPaused) && enqueueBuffer == old(enqueueBuffer) &&
        bufOsd == old(bufOsd) && filterClose == old(filterClose)
    {
      if buffers != 0 {
        CloseDisplay(current, picWidthRaw);
      }
      ResetCounters();
    }

    /** The resets VideoSetClosing makes in every case (1940-1943). */
    method ResetCounters()
      modifies this`startCounter, this`framesDuped, this`framesDropped, this`trickSpeed
      ensures startCounter == 0 && framesDuped == 0 && framesDropped == 0 && trickSpeed == 0
    {
      startCounter := 0;
      framesDuped := 0;
      framesDropped := 0;
      trickSpeed := 0;
    }

    /** The state once the display thread has put up the black buffer and
        cleaned up, from the pool, last frame, released list and queue as
        they were when closing began. */
    ghost predicate ClosedAfter(bufs0: seq<DrmBuf>, buffers0: nat, last0: Option<Frame>, released0: seq<Frame>,
                                queue0: seq<Frame>)
      reads this`closing, this`videoPaused, this`buffers, this`enqueueBuffer, this`lastFrame, this`actBuf
      reads this`released, this`bufBlack, display, display.rb, bufs
    {
      !closing && !videoPaused && buffers == 0 && enqueueBuffer == 0 && display.Valid() && display.Contents() == [] &&
      lastFrame == None && actBuf == Some(BlackBuf) && Destroyed(bufs[..], bufs0, buffers0) &&
      released == released0 + (if last0.Some? then [last0.value] else []) +
                  (if bufBlack.frame.Some? then [bufBlack.frame.value] else []) + queue0
    }

    /** The closing branch of VideoSetClosing (1922-1939) with the display
        thread's reaction inlined: Closing is raised, a paused display is
        restarted, the black buffer is flipped in, and the thread cleans up. */
    method CloseDisplay(current: PlaneState, picWidthRaw: nat)
      requires Valid() && Unsigned(current) && buffers != 0
      modifies this`closing, this`videoPaused, this`startCounter, this`actBuf, this`bufOsd, this`lastFrame
      modifies this`released, this`filterClose, this`buffers, this`enqueueBuffer, display, bufs
      ensures Valid()
      ensures ClosedAfter(old(bufs[..]), old(buffers), old(lastFrame), old(released), old(display.Contents()))
    {
      ghost var b0, n0, l0, r0, q0 := bufs[..], buffers, lastFrame, released, display.Contents();
      closing := true;
      if videoPaused {
        StartVideo();
      }
      var req := PageFlip(BlackBuf, current, picWidthRaw);
      BlackShown(b0, n0, l0, r0, q0);
    }

    /** The display thread's turn right after the black buffer went up
        while closing: AfterFlip takes the clean-up branch. The ghost
        parameters are the state it starts from. */
    method BlackShown(ghost b0: seq<DrmBuf>, ghost n0: nat, ghost l0: Option<Frame>, ghost r0: seq<Frame>,
                      ghost q0: seq<Frame>)
      requires Valid() && closing && !videoPaused && actBuf == Some(BlackBuf) && buffers != 0
      requires b0 == bufs[..] && n0 == buffers && l0 == lastFrame && r0 == released && q0 == display.Contents()
      modifies this`lastFrame, this`released, this`filterClose, this`buffers, this`enqueueBuffer, this`closing
      modifies display, bufs
      ensures Valid()
      ensures ClosedAfter(b0, n0, l0, r0, q0)
    {
      AfterFlip();
    }

    /** From label audioclock on (1067-1126): wait for an audio clock,
        then drop, hold or show the front frame on `buf`. */
    method SyncStep(buf: nat, videoPts: int, audioPts: int) returns (o: StepOutcome)
      requires Valid() && display.filled > 0 && buf < buffers && bufs[buf].fdPrime == FdOf(display.Front())
      modifies this`framesDropped, this`framesDuped, this`startCounter, this`released, display, bufs
      ensures Valid()
      ensures o.ShowBlack? || o.Dropped? || o.Wait? || o.Duplicated? || o.Shown?
      ensures var q := old(display.Contents());
        (o.ShowBlack? || o.Wait? || o.Duplicated?) ==> display.Contents() == q && released == old(released)
      ensures o.ShowBlack? <==> closing
      ensures o.ShowBlack? ==> framesDropped == old(framesDropped) && framesDuped == old(framesDuped)
      ensures o.Wait? ==> o == Wait(AudioClock, buf) && audioPts == NoPts && trickSpeed == 0
      ensures var q := old(display.Contents());
        o.Dropped? ==>
          display.Contents() == q[1..] && released == old(released) + [q[0]] &&
          framesDropped == old(framesDropped) + 1 && framesDuped == old(framesDuped) &&
          startCounter == (if old(startCounter) == 0 then 1 else old(startCounter)) &&
          Decide(videoPts, audioPts, audioDelay, trickSpeed) == Drop
      ensures o.Duplicated? ==>
        o.index == buf && framesDuped == old(framesDuped) + 1 && framesDropped == old(framesDropped) &&
        startCounter == old(startCounter) && Decide(videoPts, audioPts, audioDelay, trickSpeed) == Duplicate
      ensures var q := old(display.Contents());
        o.Shown? ==>
          display.Contents() == q[1..] && released == old(released) &&
          o.index == buf && bufs[buf].frame == Some(q[0]) && bufs[buf].fdPrime == FdOf(q[0]) &&
          framesDropped == old(framesDropped) && framesDuped == old(framesDuped) &&
          startCounter == old(startCounter) + (if trickSpeed == 0 then 1 else 0) &&
          Decide(videoPts, audioPts, audioDelay, trickSpeed) == Show &&
          (trickSpeed == 0 ==> audioPts != NoPts)
    {
      if closing {
        return ShowBlack;
      }
      if audioPts == NoPts && trickSpeed == 0 {
        return Wait(AudioClock, buf);
      }
      var action := Decide(videoPts, audioPts, audioDelay, trickSpeed);
      if action == Drop {
        DropFront();
        return Dropped;
      }
      if action == Duplicate {
        framesDuped := framesDuped + 1;
        return Duplicated(buf);
      }
      ShowFront(buf);
      o := Shown(buf);
    }

    /** A drop (1080-1095): count it, free the front frame, advance the
        ring, and mark the start as past. */
    method DropFront()
      requires Valid() && display.filled > 0
      modifies this`framesDropped, this`startCounter, this`released, display
      ensures Valid()
      ensures var q := old(display.Contents());
        display.Contents() == q[1..] && released == old(released) + [q[0]]
      ensures framesDropped == old(framesDropped) + 1
      ensures startCounter == (if old(startCounter) == 0 then 1 else old(startCounter))
    {
      framesDropped := framesDropped + 1;
      var f := display.Pop();
      released := released + [f];
      if startCounter == 0 {
        startCounter := startCounter + 1;
      }
    }

    /** A show (1116-1123): count it outside trick speed, attach the front
        frame to its buffer and advance the ring. */
    method ShowFront(buf: nat)
      requires Valid() && display.filled > 0 && buf < buffers
      modifies this`startCounter, display, bufs
      ensures Valid()
      ensures var q := old(display.Contents());
        display.Contents() == q[1..] && bufs[..] == old(bufs[..])[buf := old(bufs[buf]).(frame := Some(q[0]))]
      ensures startCounter == old(startCounter) + (if trickSpeed == 0 then 1 else 0)
    {
      if trickSpeed == 0 {
        startCounter := startCounter + 1;
      }
      var f := display.Pop();
      bufs[buf] := bufs[buf].(frame := Some(f));
    }
  }

  // ---------------------------------------------------------------------
  // The two halves of the page flip's atomic request (video_drm.c:1128-1212)

  /** The video-plane half (1135-1155): SRC_* only when the buffer's width
      differs from the plane's, CRTC_* (centred) only when the picture
      width differs, FB_ID always. No other plane is touched. */
  method VideoPlaneRequest(v: int, b: DrmBuf, current: PlaneState, pic: int, m: Mode) returns (req: seq<PropSet>)
    requires Unsigned(current) && b.Valid()
    ensures var t := Commit(current, req);
      Get(t, v, FbId) == b.fbId && Get(t, v, SrcW) / 0x1_0000 == b.width && Get(t, v, CrtcW) == pic
    ensures SameElsewhere(current, Commit(current, req), v, {FbId, CrtcX, CrtcY, CrtcW, CrtcH, SrcX, SrcY, SrcW, SrcH})
  {
    req := [];
    ghost var t := current;
    if b.width != FromFixed16(Get(current, v, SrcW)) {
      var piece := SetPlaneSrc(v, 0, 0, b.width, b.height);
      CommitAppend(current, req, piece);
      SrcGet(t, v, 0, 0, b.width, b.height);
      req, t := req + piece, Commit(t, piece);
    }
    if pic != Get(current, v, CrtcW) {
      var piece := SetPlaneCrtc(v, (m.hdisplay - pic) / 2, 0, pic, m.vdisplay);
      CommitAppend(current, req, piece);
      CrtcGet(t, v, (m.hdisplay - pic) / 2, 0, pic, m.vdisplay);
      req, t := req + piece, Commit(t, piece);
    }
    var piece := SetPlaneFbId(v, b.fbId);
    CommitAppend(current, req, piece);
    FbIdGet(t, v, b.fbId);
    req, t := req + piece, Commit(t, piece);
  }

  /** The OSD-plane half (1182-1212), applied to `t0`, a state that agrees
      with the kernel's report `current` on the OSD plane. A clean OSD adds
      nothing. A dirty OSD that is shown is swapped on top (unless it
      already is) and, when it has no framebuffer, gets the whole OSD
      buffer; a hidden one is swapped back under the video, or without
      zpos keeps its framebuffer with an empty source. Only the zpos of the
      video plane can change. */
  method OsdPlaneRequest(v: int, osd: int, crtc: int, useZpos: bool, overlay: int, primary: int,
                         shown: bool, osdBuf: DrmBuf, current: PlaneState, ghost t0: PlaneState)
    returns (req: seq<PropSet>)
    requires osdBuf.Valid() && v != osd && (useZpos ==> overlay > primary)
    requires forall p :: Get(t0, osd, p) == Get(current, osd, p)
    ensures !osdBuf.dirty ==> req == []
    ensures var t := Commit(t0, req); forall p :: p != Zpos ==> Get(t, v, p) == Get(t0, v, p)
    ensures var t := Commit(t0, req);
      osdBuf.dirty && shown && useZpos ==>
        Get(t, osd, Zpos) == overlay &&
        (Get(current, osd, Zpos) != overlay ==> Get(t, v, Zpos) == primary < overlay)
    ensures var t := Commit(t0, req);
      osdBuf.dirty && shown ==>
        if Get(current, osd, FbId) == 0
        then Get(t, osd, FbId) == osdBuf.fbId && Get(t, osd, SrcW) / 0x1_0000 == osdBuf.width
        else Get(t, osd, FbId) == Get(current, osd, FbId)
    ensures var t := Commit(t0, req);
      osdBuf.dirty && !shown && useZpos ==>
        Get(t, osd, Zpos) != overlay &&
        (Get(current, osd, Zpos) == overlay ==> Get(t, v, Zpos) == overlay > Get(t, osd, Zpos))
    ensures var t := Commit(t0, req);
      osdBuf.dirty && !shown && !useZpos ==> Get(t, osd, FbId) == osdBuf.fbId && Get(t, osd, SrcW) == 0
  {
    req := [];
    if !osdBuf.dirty {
      return;
    }
    if shown {
      req := ShownOsdRequest(v, osd, crtc, useZpos, overlay, primary, osdBuf, current, t0);
    } else if useZpos {
      if overlay == Get(current, osd, Zpos) {
        req := SetChangePlanes(v, osd, overlay, primary, true);
        ChangePlanesGet(t0, v, osd, overlay, primary, true);
      }
    } else {
      req := SetPlane(osd, crtc, osdBuf.fbId, 0, 0, osdBuf.width, osdBuf.height, 0, 0, 0, 0);
      PlaneGet(t0, osd, crtc, osdBuf.fbId, 0, 0, osdBuf.width, osdBuf.height, 0, 0, 0, 0);
    }
  }

  /** A dirty, shown OSD (1184-1199). */
  method ShownOsdRequest(v: int, osd: int, crtc: int, useZpos: bool, overlay: int, primary: int,
                         osdBuf: DrmBuf, current: PlaneState, ghost t0: PlaneState)
    returns (req: seq<PropSet>)
    requires osdBuf.Valid() && v != osd && (useZpos ==> overlay > primary)
    requires forall p :: Get(t0, osd, p) == Get(current, osd, p)
    ensures var t := Commit(t0, req); forall p :: p != Zpos ==> Get(t, v, p) == Get(t0, v, p)
    ensures var t := Commit(t0, req);
      useZpos ==>
        Get(t, osd, Zpos) == overlay &&
        (Get(current, osd, Zpos) != overlay ==> Get(t, v, Zpos) == primary < overlay)
    ensures var t := Commit(t0, req);
      if Get(current, osd, FbId) == 0
      then Get(t, osd, FbId) == osdBuf.fbId && Get(t, osd, SrcW) / 0x1_0000 == osdBuf.width
      else Get(t, osd, FbId) == Get(current, osd, FbId)
  {
    req := [];
    ghost var t := t0;
    if useZpos && overlay != Get(current, osd, Zpos) {
      var piece := SetChangePlanes(v, osd, overlay, primary, false);
      CommitAppend(t0, req, piece);
      ChangePlanesGet(t, v, osd, overlay, primary, false);
      req, t := req + piece, Commit(t, piece);
    }
    if Get(current, osd, FbId) == 0 {
      var piece := SetPlane(osd, crtc, osdBuf.fbId, 0, 0, osdBuf.width, osdBuf.height,
                            0, 0, osdBuf.width, osdBuf.height);
      CommitAppend(t0, req, piece);
      PlaneGet(t, osd, crtc, osdBuf.fbId, 0, 0, osdBuf.width, osdBuf.height,
               0, 0, osdBuf.width, osdBuf.height);
      req, t := req + piece, Commit(t, piece);
    }
  }

  // ---------------------------------------------------------------------
  // String helpers of ReadHWPlatform: strlen and strstr on a buffer

  const Bcm2711: seq<char> := "bcm2711"

  predicate OccursAt(s: seq<char>, i: int, pat: seq<char>)
  {
    0 <= i && i + |pat| <= |s| && s[i..i + |pat|] == pat
  }

  /** `strstr(s, pat) != NULL` on a string without NUL. */
  predicate HasSubstring(s: seq<char>, pat: seq<char>)
  {
    exists i :: 0 <= i <= |s| && OccursAt(s, i, pat)
  }

  /** `strlen(&s[from])`: the distance to the next NUL. */
  function StrLen(s: seq<char>, from: nat): (n: nat)
    requires from < |s| && s[|s| - 1] == '\0'
    ensures from + n < |s| && s[from + n] == '\0'
    ensures forall k :: from <= k < from + n ==> s[k] != '\0'
    decreases |s| - from
  {
    if s[from] == '\0' then 0 else 1 + StrLen(s, from + 1)
  }

  /** An occurrence of a NUL-free pattern starting inside a NUL-terminated
      segment lies wholly inside it. */
  lemma {:induction false} SegmentMatch(s: seq<char>, pos: nat, len: nat, pat: seq<char>)
    requires pos + len < |s| && s[pos + len] == '\0'
    requires forall k :: pos <= k < pos + len ==> s[k] != '\0'
    requires |pat| > 0 && forall k :: 0 <= k < |pat| ==> pat[k] != '\0'
    ensures HasSubstring(s[pos..pos + len], pat) <==> exists i :: pos <= i <= pos + len && OccursAt(s, i, pat)
  {
    var seg := s[pos..pos + len];
    if HasSubstring(seg, pat) {
      var j :| 0 <= j <= |seg| && OccursAt(seg, j, pat);
      assert j + |pat| <= len && seg[j..j + |pat|] == pat;
      forall k | 0 <= k < |pat| ensures s[pos + j + k] == pat[k] {
        assert seg[j..j + |pat|][k] == pat[k];
      }
      assert s[pos + j..pos + j + |pat|] == pat;
      assert OccursAt(s, pos + j, pat);
    }
    if i :| pos <= i <= pos + len && OccursAt(s, i, pat) {
      assert s[i..i + |pat|] == pat;
      assert i + |pat| <= pos + len;
      forall k | 0 <= k < |pat| ensures seg[i - pos + k] == pat[k] {
        assert s[i..i + |pat|][k] == pat[k];
      }
      assert seg[i - pos..i - pos + |pat|] == pat;
      assert OccursAt(seg, i - pos, pat);
    }
  }

  lemma NoOccurrence(s: seq<char>, pat: seq<char>)
    requires forall i :: 0 <= i < |s| ==> !OccursAt(s, i, pat)
    requires |pat| > 0
    ensures !HasSubstring(s, pat)
  {
  }
}
