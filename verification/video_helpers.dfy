/** Small decisions of video_drm.c that compute a value from their inputs:
    the decoder output format, the decoder name, the deinterlace/scale
    filter, the display mode preference and the zpos normalisation. */
module VideoHelpers {
  import opened Common
  import opened VideoTypes

  // ---------------------------------------------------------------------
  // Video_get_format (video_drm.c:1546-1567)

  /** The formats the render path takes directly. */
  predicate Renderable(f: PixelFormat)
  {
    f == DrmPrime || f == Yuv420p
  }

  datatype FormatChoice = Chosen(format: PixelFormat) | LibraryDefault

  /** The decoder offers `offered` in its order of preference (the
      AV_PIX_FMT_NONE terminator left out); the first DRM_PRIME or YUV420P
      wins, and with neither the choice is left to ffmpeg's default. */
  function GetFormat(offered: seq<PixelFormat>): (r: FormatChoice)
    ensures r.Chosen? ==>
      Renderable(r.format) &&
      exists i :: 0 <= i < |offered| && offered[i] == r.format &&
        forall j :: 0 <= j < i ==> !Renderable(offered[j])
    ensures r == LibraryDefault <==> forall i :: 0 <= i < |offered| ==> !Renderable(offered[i])
  {
    if offered == [] then LibraryDefault
    else if offered[0] == DrmPrime then Chosen(DrmPrime)
    else if offered[0] == Yuv420p then Chosen(Yuv420p)
    else
      var r := GetFormat(offered[1..]);
      assert r.Chosen? ==> (exists i :: 0 <= i < |offered| && offered[i] == r.format &&
                                  forall j :: 0 <= j < i ==> !Renderable(offered[j])) by {
        if r.Chosen? {
          var i :| 0 <= i < |offered[1..]| && offered[1..][i] == r.format &&
            forall j :: 0 <= j < i ==> !Renderable(offered[1..][j]);
          assert offered[i + 1] == r.format;
          assert forall j :: 0 <= j < i + 1 ==> !Renderable(offered[j]) by {
            forall j | 0 <= j < i + 1 ensures !Renderable(offered[j]) {
              if j > 0 {
                assert offered[j] == offered[1..][j - 1];
              }
            }
          }
        }
      }
      r
  }

  // ---------------------------------------------------------------------
  // VideoGetDecoderName (video_drm.c:2211-2217)

  /** H.264 is decoded by the V4L2 memory-to-memory decoder; every other
      codec keeps its ffmpeg name. */
  function DecoderName(codec: string): (r: string)
    ensures codec == "h264" ==> r == "h264_v4l2m2m"
    ensures codec != "h264" ==> r == codec
  {
    if codec == "h264" then "h264_v4l2m2m" else codec
  }

  // ---------------------------------------------------------------------
  // VideoFilterInit's choice of filter (video_drm.c:1734-1744)

  datatype FilterChoice = FilterChoice(description: Option<string>, filterBug: bool)

  /** Interlaced hardware frames go to the V4L2 deinterlacer; interlaced
      software frames to bwdif, whose output timestamps come out doubled
      (the filter-bug flag); progressive software frames only to scale. */
  function ChooseFilter(interlaced: bool, format: PixelFormat): (c: FilterChoice)
    ensures c.filterBug <==> interlaced && format == Yuv420p
    ensures c.description.Some? <==> (interlaced && format == DrmPrime) || format == Yuv420p
    ensures c.description == Some("deinterlace_v4l2m2m") <==> interlaced && format == DrmPrime
  {
    if interlaced then
      if format == DrmPrime then FilterChoice(Some("deinterlace_v4l2m2m"), false)
      else if format == Yuv420p then FilterChoice(Some("bwdif=1:-1:0"), true)
      else FilterChoice(None, false)
    else if format == Yuv420p then FilterChoice(Some("scale"), false)
    else FilterChoice(None, false)
  }

  // ---------------------------------------------------------------------
  // FindDevice's mode search (video_drm.c:486-512)

  /** A `drmModeModeInfo` reduced to what the search reads. */
  datatype Mode = Mode(hdisplay: int, vdisplay: int, vrefresh: int, interlaced: bool)

  const NoMode: Mode := Mode(0, 0, 0, false)

  predicate IsSet(m: Mode)
  {
    m.hdisplay != 0 && m.vdisplay != 0
  }

  /** The pass for HD-ready (`hdr`: 1280x720) or full HD (1920x1080) at the
      given refresh rate accepts only progressive modes. */
  predicate Matches(m: Mode, hdr: bool, rate: int)
  {
    (if hdr then m.hdisplay == 1280 && m.vdisplay == 720 else m.hdisplay == 1920 && m.vdisplay == 1080)
    && m.vrefresh == rate && !m.interlaced
  }

  predicate HasMatch(modes: seq<Mode>, hdr: bool, rate: int)
  {
    exists i :: 0 <= i < |modes| && Matches(modes[i], hdr, rate)
  }

  /** One pass over the connector's modes: every match overwrites the
      current mode, so the last match in list order is kept. */
  function Pass(modes: seq<Mode>, hdr: bool, rate: int, cur: Mode): Mode
    decreases |modes|
  {
    if modes == [] then cur
    else if Matches(modes[|modes| - 1], hdr, rate) then modes[|modes| - 1]
    else Pass(modes[..|modes| - 1], hdr, rate, cur)
  }

  /** The passes in order 1080p50, 720p50, 1080p60, 720p60, each run only
      while no mode has been found. */
  function Select(modes: seq<Mode>, cur: Mode): Mode
  {
    var m1 := Pass(modes, false, 50, cur);
    if IsSet(m1) then m1 else
    var m2 := Pass(modes, true, 50, m1);
    if IsSet(m2) then m2 else
    var m3 := Pass(modes, false, 60, m2);
    if IsSet(m3) then m3 else
    Pass(modes, true, 60, m3)
  }

  /** The search as the source runs it: an inner loop over the modes and
      retries that first switch to HD ready, then to 60 Hz. */
  method SearchModes(modes: seq<Mode>, cur: Mode) returns (m: Mode)
    ensures m == Select(modes, cur)
  {
    var hdr := false;
    var vrefresh := 50;
    m := cur;
    ghost var before := cur;
    while true
      invariant (hdr, vrefresh) in {(false, 50), (true, 50), (false, 60), (true, 60)}
      invariant m == before
      invariant hdr == false && vrefresh == 50 ==> before == cur
      invariant hdr && vrefresh == 50 ==>
        before == Pass(modes, false, 50, cur) && !IsSet(before)
      invariant !hdr && vrefresh == 60 ==>
        var m1 := Pass(modes, false, 50, cur);
        !IsSet(m1) && !IsSet(Pass(modes, true, 50, m1)) && before == Pass(modes, true, 50, m1)
      invariant hdr && vrefresh == 60 ==>
        var m1 := Pass(modes, false, 50, cur);
        var m2 := Pass(modes, true, 50, m1);
        !IsSet(m1) && !IsSet(m2) && !IsSet(Pass(modes, false, 60, m2)) &&
        before == Pass(modes, false, 60, m2)
      decreases (if vrefresh == 50 then 2 else 0) + (if hdr then 0 else 1)
    {
      var i := 0;
      while i < |modes|
        invariant 0 <= i <= |modes|
        invariant m == Pass(modes[..i], hdr, vrefresh, before)
      {
        assert modes[..i + 1][..i] == modes[..i];
        if Matches(modes[i], hdr, vrefresh) {
          m := modes[i];
        }
        i := i + 1;
      }
      assert modes[..|modes|] == modes;
      if !IsSet(m) {
        if !hdr {
          hdr := true;
          before := m;
          continue;
        }
        if vrefresh == 50 {
          vrefresh := 60;
          hdr := false;
          before := m;
          continue;
        }
      }
      return;
    }
  }

  /** A pass keeps the last matching mode, or the current one when nothing
      matches. */
  lemma {:induction false} PassKeepsLastMatch(modes: seq<Mode>, hdr: bool, rate: int, cur: Mode)
    ensures !HasMatch(modes, hdr, rate) ==> Pass(modes, hdr, rate, cur) == cur
    ensures HasMatch(modes, hdr, rate) ==>
      exists i :: 0 <= i < |modes| && Pass(modes, hdr, rate, cur) == modes[i] &&
        Matches(modes[i], hdr, rate) &&
        forall j :: i < j < |modes| ==> !Matches(modes[j], hdr, rate)
    decreases |modes|
  {
    if modes != [] {
      var n := |modes| - 1;
      var init := modes[..n];
      PassKeepsLastMatch(init, hdr, rate, cur);
      if !Matches(modes[n], hdr, rate) {
        if HasMatch(modes, hdr, rate) {
          var k :| 0 <= k < |modes| && Matches(modes[k], hdr, rate);
          assert init[k] == modes[k];
          var i :| 0 <= i < |init| && Pass(init, hdr, rate, cur) == init[i] &&
            Matches(init[i], hdr, rate) && forall j :: i < j < |init| ==> !Matches(init[j], hdr, rate);
          assert modes[i] == init[i];
          assert forall j :: i < j < |modes| ==> !Matches(modes[j], hdr, rate) by {
            forall j | i < j < |modes| ensures !Matches(modes[j], hdr, rate) {
              if j < n {
                assert modes[j] == init[j];
              }
            }
          }
        }
      }
    }
  }

  /** Starting from no mode, the search picks a full-HD 50 Hz mode when the
      connector has one, otherwise HD ready at 50 Hz, otherwise full HD at
      60 Hz, otherwise HD ready at 60 Hz, and finds nothing (the Fatal
      "No Monitor Mode found") when none of the four exists. */
  lemma {:induction false} SelectPreference(modes: seq<Mode>)
    ensures var m := Select(modes, NoMode);
      (HasMatch(modes, false, 50) ==> Matches(m, false, 50)) &&
      (!HasMatch(modes, false, 50) && HasMatch(modes, true, 50) ==> Matches(m, true, 50)) &&
      ((!HasMatch(modes, false, 50) && !HasMatch(modes, true, 50) && HasMatch(modes, false, 60))
         ==> Matches(m, false, 60)) &&
      ((!HasMatch(modes, false, 50) && !HasMatch(modes, true, 50) && !HasMatch(modes, false, 60) &&
        HasMatch(modes, true, 60)) ==> Matches(m, true, 60)) &&
      (IsSet(m) ==> m in modes && !m.interlaced) &&
      (!IsSet(m) <==> !HasMatch(modes, false, 50) && !HasMatch(modes, true, 50) &&
                      !HasMatch(modes, false, 60) && !HasMatch(modes, true, 60))
  {
    PassKeepsLastMatch(modes, false, 50, NoMode);
    var m1 := Pass(modes, false, 50, NoMode);
    PassKeepsLastMatch(modes, true, 50, m1);
    var m2 := Pass(modes, true, 50, m1);
    PassKeepsLastMatch(modes, false, 60, m2);
    var m3 := Pass(modes, false, 60, m2);
    PassKeepsLastMatch(modes, true, 60, m3);
  }

  // ---------------------------------------------------------------------
  // FindDevice's zpos normalisation (video_drm.c:607-626)

  datatype ZposPair = ZposPair(overlay: nat, primary: nat)

  /** With zpos in use, the overlay (video) plane must sit above the primary
      (OSD) plane: equal values become 1 and 0, reversed values are
      swapped; otherwise the pair is left alone. */
  function NormalizeZpos(useZpos: bool, z: ZposPair): (r: ZposPair)
    ensures useZpos ==> r.overlay > r.primary
    ensures !useZpos || z.overlay > z.primary ==> r == z
    ensures useZpos && z.overlay != z.primary ==>
      {r.overlay, r.primary} == {z.overlay, z.primary}
  {
    if useZpos && z.overlay <= z.primary then
      if z.overlay == z.primary then ZposPair(1, 0)
      else ZposPair(z.primary, z.overlay)
    else z
  }
}
