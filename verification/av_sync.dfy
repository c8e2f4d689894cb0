/** The per-frame audio/video synchronisation policy of the display loop
    (video_drm.c, Frame2Display): compare the frame's presentation time with
    the audio clock and decide whether to drop the frame, hold it for another
    refresh (showing the previous picture again), or show it. */
module AvSync {
  import opened Common

  /** Video later than audio by more than this many ms: drop the frame. */
  const DropThreshold: int := -5
  /** Video earlier than audio by more than this many ms: hold the frame. */
  const DupThreshold: int := 35
  /** A gap beyond this many ms is a discontinuity, not drift: show as-is. */
  const DesyncGuard: int := 5000

  datatype SyncAction = Drop | Duplicate | Show

  /** `int diff = video_pts - audio_pts - VideoAudioDelay;` the 64-bit
      difference is stored in a 32-bit `int`. */
  function SyncDiff(videoPts: int, audioPts: int, delay: int): (d: int)
    ensures IsInt32(d)
    ensures IsInt32(videoPts - audioPts - delay) ==> d == videoPts - audioPts - delay
  {
    ToInt32(videoPts - audioPts - delay)
  }

  /** The decision of video_drm.c:1080 and 1097 on an already computed diff.
      Outside INT_MIN (where C's abs wraps) the guard band is exactly
      -5000 <= diff <= 5000. */
  function Classify(diff: int, trickSpeed: int): (a: SyncAction)
    requires IsInt32(diff)
    ensures diff != -TwoPow31 ==>
      (a == Drop <==> trickSpeed == 0 && -DesyncGuard <= diff < DropThreshold)
    ensures a == Duplicate <==> trickSpeed == 0 && DupThreshold < diff <= DesyncGuard
    ensures trickSpeed != 0 ==> a == Show
  {
    if diff < DropThreshold && trickSpeed == 0 && !(Abs32(diff) > DesyncGuard) then Drop
    else if diff > DupThreshold && trickSpeed == 0 && !(Abs32(diff) > DesyncGuard) then Duplicate
    else Show
  }

  /** The whole decision from the two clocks. */
  function Decide(videoPts: int, audioPts: int, delay: int, trickSpeed: int): SyncAction
  {
    Classify(SyncDiff(videoPts, audioPts, delay), trickSpeed)
  }

  /** A frame is shown as-is whenever the clocks are more than 5 s apart
      (a seek or stream switch), so a discontinuity never drops or holds. */
  lemma DesyncAlwaysShows(videoPts: int, audioPts: int, delay: int, trickSpeed: int)
    requires IsInt32(videoPts - audioPts - delay)
    requires videoPts - audioPts - delay > DesyncGuard || videoPts - audioPts - delay < -DesyncGuard
    requires videoPts - audioPts - delay != -TwoPow31
    ensures Decide(videoPts, audioPts, delay, trickSpeed) == Show
  {
  }

  /** The order of the decision: within the guard band, a larger diff never
      moves the decision toward dropping (Drop < Show < Duplicate). */
  function Rank(a: SyncAction): int
  {
    match a
    case Drop => 0
    case Show => 1
    case Duplicate => 2
  }

  lemma ClassifyMonotone(d1: int, d2: int)
    requires -DesyncGuard <= d1 <= d2 <= DesyncGuard
    ensures Rank(Classify(d1, 0)) <= Rank(Classify(d2, 0))
  {
  }

  /** Worked examples: audio at 1000 ms, no delay, normal speed. */
  lemma WorkedExamples()
    ensures Decide(994, 1000, 0, 0) == Drop
    ensures Decide(1036, 1000, 0, 0) == Duplicate
    ensures Decide(1010, 1000, 0, 0) == Show
    ensures Decide(7000, 1000, 0, 0) == Show
  {
  }

  /** The C `abs` quirk: a diff that wraps to INT_MIN passes the guard and is
      dropped, however far apart the clocks really are. */
  lemma IntMinIsDropped()
    ensures Classify(-TwoPow31, 0) == Drop
  {
  }
}
