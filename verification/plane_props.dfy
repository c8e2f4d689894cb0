/** Atomic mode-setting requests (video_drm.c:200-281): the helpers that add
    plane properties to a request, and what committing a request does to
    the planes' property values. */
module PlaneProps {

  datatype Prop = FbId | CrtcId | CrtcX | CrtcY | CrtcW | CrtcH | SrcX | SrcY | SrcW | SrcH | Zpos

  /** One `drmModeAtomicAddProperty` entry. */
  datatype PropSet = PropSet(obj: int, prop: Prop, value: int)

  /** Property values of all planes, keyed by (plane id, property). */
  type PlaneState = map<(int, Prop), int>

  /** A committed request: entries apply in order, a later entry for the
      same property wins. */
  function Commit(s: PlaneState, req: seq<PropSet>): PlaneState
    decreases |req|
  {
    if req == [] then s
    else Commit(s[(req[0].obj, req[0].prop) := req[0].value], req[1..])
  }

  predicate Sets(req: seq<PropSet>, obj: int, p: Prop)
  {
    exists k :: 0 <= k < |req| && req[k].obj == obj && req[k].prop == p
  }

  /** A property no entry of the request names keeps its value. */
  lemma {:induction false} CommitUntouched(s: PlaneState, req: seq<PropSet>, obj: int, p: Prop)
    requires !Sets(req, obj, p)
    ensures (obj, p) in Commit(s, req) <==> (obj, p) in s
    ensures (obj, p) in s ==> Commit(s, req)[(obj, p)] == s[(obj, p)]
    decreases |req|
  {
    if req != [] {
      CommitUntouched(s[(req[0].obj, req[0].prop) := req[0].value], req[1..], obj, p);
    }
  }

  /** The last entry for a property decides its value. */
  lemma {:induction false} CommitLast(s: PlaneState, req: seq<PropSet>, k: nat)
    requires k < |req|
    requires !Sets(req[k + 1..], req[k].obj, req[k].prop)
    ensures (req[k].obj, req[k].prop) in Commit(s, req)
    ensures Commit(s, req)[(req[k].obj, req[k].prop)] == req[k].value
    decreases |req|
  {
    if k == 0 {
      assert req[1..] == req[k + 1..];
      CommitUntouched(s[(req[0].obj, req[0].prop) := req[0].value], req[1..], req[0].obj, req[0].prop);
    } else {
      assert req[1..][k - 1 + 1..] == req[k + 1..];
      CommitLast(s[(req[0].obj, req[0].prop) := req[0].value], req[1..], k - 1);
    }
  }

  /** A property's value, 0 when the plane does not report it. */
  function Get(s: PlaneState, obj: int, p: Prop): int
  {
    if (obj, p) in s then s[(obj, p)] else 0
  }

  /** DRM property values are unsigned 64-bit numbers. */
  predicate Unsigned(s: PlaneState)
  {
    forall k :: k in s ==> s[k] >= 0
  }

  function Key(x: PropSet): (int, Prop)
  {
    (x.obj, x.prop)
  }

  /** Committing two requests one after the other is committing their
      concatenation. */
  lemma {:induction false} CommitAppend(s: PlaneState, a: seq<PropSet>, b: seq<PropSet>)
    ensures Commit(s, a + b) == Commit(Commit(s, a), b)
    decreases |a|
  {
    if a == [] {
      assert a + b == b;
    } else {
      assert (a + b)[1..] == a[1..] + b;
      CommitAppend(s[Key(a[0]) := a[0].value], a[1..], b);
    }
  }

  lemma Commit1(s: PlaneState, a: PropSet)
    ensures Commit(s, [a]) == s[Key(a) := a.value]
  {
    assert [a][1..] == [];
  }

  lemma Commit2(s: PlaneState, a: PropSet, b: PropSet)
    ensures Commit(s, [a, b]) == s[Key(a) := a.value][Key(b) := b.value]
  {
    assert [a, b][1..] == [b];
    Commit1(s[Key(a) := a.value], b);
  }

  lemma Commit4(s: PlaneState, a: PropSet, b: PropSet, c: PropSet, d: PropSet)
    ensures Commit(s, [a, b, c, d]) == s[Key(a) := a.value][Key(b) := b.value][Key(c) := c.value][Key(d) := d.value]
  {
    assert [a, b, c, d][1..] == [b, c, d];
    assert [b, c, d][1..] == [c, d];
    Commit2(s[Key(a) := a.value][Key(b) := b.value], c, d);
  }

  /** The plane's SRC_* properties are 16.16 fixed point (`<< 16`). */
  function ToFixed16(v: nat): (r: nat)
    ensures r % 0x1_0000 == 0
    ensures r / 0x1_0000 == v
  {
    v * 0x1_0000
  }

  /** `x >> 16` on an unsigned property value. */
  function FromFixed16(r: nat): (v: nat)
    ensures v * 0x1_0000 <= r < v * 0x1_0000 + 0x1_0000
  {
    r / 0x1_0000
  }

  function SetPlaneCrtc(id: int, x: int, y: int, w: int, h: int): seq<PropSet>
  {
    [PropSet(id, CrtcX, x), PropSet(id, CrtcY, y), PropSet(id, CrtcW, w), PropSet(id, CrtcH, h)]
  }

  function SetPlaneSrc(id: int, x: int, y: int, w: nat, h: nat): seq<PropSet>
  {
    [PropSet(id, SrcX, x), PropSet(id, SrcY, y), PropSet(id, SrcW, ToFixed16(w)), PropSet(id, SrcH, ToFixed16(h))]
  }

  function SetPlaneFbId(id: int, fb: int): seq<PropSet>
  {
    [PropSet(id, FbId, fb)]
  }

  function SetPlaneZpos(id: int, z: int): seq<PropSet>
  {
    [PropSet(id, Zpos, z)]
  }

  /** A full plane assignment: CRTC, framebuffer, destination and source. */
  function SetPlane(id: int, crtc: int, fb: int, cx: int, cy: int, cw: int, ch: int,
                    sx: int, sy: int, sw: nat, sh: nat): seq<PropSet>
  {
    [PropSet(id, CrtcId, crtc)] + SetPlaneFbId(id, fb) + SetPlaneCrtc(id, cx, cy, cw, ch)
    + SetPlaneSrc(id, sx, sy, sw, sh)
  }

  /** SetChangePlanes (video_drm.c:260-281): with `back` the video plane gets
      the overlay zpos and the OSD plane the primary zpos; without it the
      other way round. */
  function SetChangePlanes(videoId: int, osdId: int, overlay: int, primary: int, back: bool): seq<PropSet>
  {
    if back then SetPlaneZpos(videoId, overlay) + SetPlaneZpos(osdId, primary)
    else SetPlaneZpos(videoId, primary) + SetPlaneZpos(osdId, overlay)
  }

  /** What committing each request helper does to the property values. */
  lemma CommitSrc(s: PlaneState, id: int, x: int, y: int, w: nat, h: nat)
    ensures Commit(s, SetPlaneSrc(id, x, y, w, h)) ==
      s[(id, SrcX) := x][(id, SrcY) := y][(id, SrcW) := ToFixed16(w)][(id, SrcH) := ToFixed16(h)]
  {
    Commit4(s, PropSet(id, SrcX, x), PropSet(id, SrcY, y), PropSet(id, SrcW, ToFixed16(w)), PropSet(id, SrcH, ToFixed16(h)));
  }

  lemma CommitCrtc(s: PlaneState, id: int, x: int, y: int, w: int, h: int)
    ensures Commit(s, SetPlaneCrtc(id, x, y, w, h)) ==
      s[(id, CrtcX) := x][(id, CrtcY) := y][(id, CrtcW) := w][(id, CrtcH) := h]
  {
    Commit4(s, PropSet(id, CrtcX, x), PropSet(id, CrtcY, y), PropSet(id, CrtcW, w), PropSet(id, CrtcH, h));
  }

  lemma CommitPlane(s: PlaneState, id: int, crtc: int, fb: int, cx: int, cy: int, cw: int, ch: int,
                    sx: int, sy: int, sw: nat, sh: nat)
    ensures Commit(s, SetPlane(id, crtc, fb, cx, cy, cw, ch, sx, sy, sw, sh)) ==
      s[(id, CrtcId) := crtc][(id, FbId) := fb]
       [(id, CrtcX) := cx][(id, CrtcY) := cy][(id, CrtcW) := cw][(id, CrtcH) := ch]
       [(id, SrcX) := sx][(id, SrcY) := sy][(id, SrcW) := ToFixed16(sw)][(id, SrcH) := ToFixed16(sh)]
  {
    var head := [PropSet(id, CrtcId, crtc)] + SetPlaneFbId(id, fb);
    var crtcReq := SetPlaneCrtc(id, cx, cy, cw, ch);
    var srcReq := SetPlaneSrc(id, sx, sy, sw, sh);
    assert SetPlane(id, crtc, fb, cx, cy, cw, ch, sx, sy, sw, sh) == (head + crtcReq) + srcReq;
    CommitAppend(s, head + crtcReq, srcReq);
    CommitAppend(s, head, crtcReq);
    Commit2(s, PropSet(id, CrtcId, crtc), PropSet(id, FbId, fb));
    CommitCrtc(Commit(s, head), id, cx, cy, cw, ch);
    CommitSrc(Commit(s, head + crtcReq), id, sx, sy, sw, sh);
  }

  lemma CommitChangePlanes(s: PlaneState, videoId: int, osdId: int, overlay: int, primary: int, back: bool)
    ensures Commit(s, SetChangePlanes(videoId, osdId, overlay, primary, back)) ==
      if back then s[(videoId, Zpos) := overlay][(osdId, Zpos) := primary]
      else s[(videoId, Zpos) := primary][(osdId, Zpos) := overlay]
  {
    if back {
      Commit2(s, PropSet(videoId, Zpos, overlay), PropSet(osdId, Zpos, primary));
    } else {
      Commit2(s, PropSet(videoId, Zpos, primary), PropSet(osdId, Zpos, overlay));
    }
  }

  /** Every property outside `touched` on plane `id`, and every property
      of every other plane, has the same value in `t` as in `s`. */
  ghost predicate SameElsewhere(s: PlaneState, t: PlaneState, id: int, touched: set<Prop>)
  {
    forall o, p :: (o != id || p !in touched) ==> Get(t, o, p) == Get(s, o, p)
  }

  /** The effects above read through Get, which is how the page flip
      inspects the planes. */
  lemma SrcGet(s: PlaneState, id: int, x: int, y: int, w: nat, h: nat)
    ensures var t := Commit(s, SetPlaneSrc(id, x, y, w, h));
      Get(t, id, SrcX) == x && Get(t, id, SrcY) == y &&
      Get(t, id, SrcW) == ToFixed16(w) && Get(t, id, SrcH) == ToFixed16(h) &&
      SameElsewhere(s, t, id, {SrcX, SrcY, SrcW, SrcH})
  {
    CommitSrc(s, id, x, y, w, h);
  }

  lemma CrtcGet(s: PlaneState, id: int, x: int, y: int, w: int, h: int)
    ensures var t := Commit(s, SetPlaneCrtc(id, x, y, w, h));
      Get(t, id, CrtcX) == x && Get(t, id, CrtcY) == y && Get(t, id, CrtcW) == w && Get(t, id, CrtcH) == h &&
      SameElsewhere(s, t, id, {CrtcX, CrtcY, CrtcW, CrtcH})
  {
    CommitCrtc(s, id, x, y, w, h);
  }

  lemma FbIdGet(s: PlaneState, id: int, fb: int)
    ensures var t := Commit(s, SetPlaneFbId(id, fb));
      Get(t, id, FbId) == fb && SameElsewhere(s, t, id, {FbId})
  {
    Commit1(s, PropSet(id, FbId, fb));
  }

  lemma PlaneGet(s: PlaneState, id: int, crtc: int, fb: int, cx: int, cy: int, cw: int, ch: int,
                 sx: int, sy: int, sw: nat, sh: nat)
    ensures var t := Commit(s, SetPlane(id, crtc, fb, cx, cy, cw, ch, sx, sy, sw, sh));
      Get(t, id, CrtcId) == crtc && Get(t, id, FbId) == fb &&
      Get(t, id, CrtcX) == cx && Get(t, id, CrtcY) == cy && Get(t, id, CrtcW) == cw && Get(t, id, CrtcH) == ch &&
      Get(t, id, SrcX) == sx && Get(t, id, SrcY) == sy &&
      Get(t, id, SrcW) == ToFixed16(sw) && Get(t, id, SrcH) == ToFixed16(sh) &&
      SameElsewhere(s, t, id, {CrtcId, FbId, CrtcX, CrtcY, CrtcW, CrtcH, SrcX, SrcY, SrcW, SrcH})
  {
    CommitPlane(s, id, crtc, fb, cx, cy, cw, ch, sx, sy, sw, sh);
  }

  lemma ChangePlanesGet(s: PlaneState, videoId: int, osdId: int, overlay: int, primary: int, back: bool)
    requires videoId != osdId
    ensures var t := Commit(s, SetChangePlanes(videoId, osdId, overlay, primary, back));
      Get(t, videoId, Zpos) == (if back then overlay else primary) &&
      Get(t, osdId, Zpos) == (if back then primary else overlay) &&
      forall o, p :: p != Zpos || (o != videoId && o != osdId) ==> Get(t, o, p) == Get(s, o, p)
  {
    CommitChangePlanes(s, videoId, osdId, overlay, primary, back);
  }

  /** With normalised zpos values (overlay above primary), committing
      SetChangePlanes without `back` puts the OSD plane above the video
      plane, and with `back` puts the video plane above the OSD plane. */
  lemma {:induction false} ChangePlanesStacking(s: PlaneState, videoId: int, osdId: int,
                                                overlay: int, primary: int, back: bool)
    requires videoId != osdId && overlay > primary
    ensures var t := Commit(s, SetChangePlanes(videoId, osdId, overlay, primary, back));
      (videoId, Zpos) in t && (osdId, Zpos) in t &&
      (back ==> t[(videoId, Zpos)] == overlay && t[(osdId, Zpos)] == primary) &&
      (!back ==> t[(osdId, Zpos)] == overlay && t[(videoId, Zpos)] == primary) &&
      (back <==> t[(videoId, Zpos)] > t[(osdId, Zpos)])
  {
    var req := SetChangePlanes(videoId, osdId, overlay, primary, back);
    assert !Sets(req[2..], req[0].obj, req[0].prop);
    assert !Sets(req[1 + 1..], req[1].obj, req[1].prop);
    assert !Sets(req[0 + 1..], req[0].obj, req[0].prop) by {
      assert req[1..] == [req[1]];
    }
    CommitLast(s, req, 0);
    CommitLast(s, req, 1);
  }

  /** Programming a source width and reading SRC_W back (`>> 16`) gives the
      width again: the video plane's source is re-programmed only when the
      buffer width changes. */
  lemma {:induction false} SrcWidthReadBack(s: PlaneState, id: int, w: nat, h: nat)
    ensures var t := Commit(s, SetPlaneSrc(id, 0, 0, w, h));
      (id, SrcW) in t && t[(id, SrcW)] >= 0 && FromFixed16(t[(id, SrcW)]) == w
  {
    var req := SetPlaneSrc(id, 0, 0, w, h);
    assert req[2 + 1..] == [req[3]];
    CommitLast(s, req, 2);
    assert ToFixed16(w) / 0x1_0000 == w;
  }

  /** SetChangePlanes(0) followed by SetChangePlanes(1) leaves both planes
      at the zpos SetChangePlanes(1) alone gives: video on the overlay
      zpos, OSD on the primary zpos, as after start-up. */
  lemma ChangePlanesRoundTrip(s: PlaneState, videoId: int, osdId: int, overlay: int, primary: int)
    requires videoId != osdId
    ensures var t := Commit(Commit(s, SetChangePlanes(videoId, osdId, overlay, primary, false)),
                            SetChangePlanes(videoId, osdId, overlay, primary, true));
      Get(t, videoId, Zpos) == overlay && Get(t, osdId, Zpos) == primary &&
      t == Commit(s, SetChangePlanes(videoId, osdId, overlay, primary, true))
  {
    var t0 := Commit(s, SetChangePlanes(videoId, osdId, overlay, primary, false));
    CommitChangePlanes(s, videoId, osdId, overlay, primary, false);
    CommitChangePlanes(t0, videoId, osdId, overlay, primary, true);
    CommitChangePlanes(s, videoId, osdId, overlay, primary, true);
  }
}
