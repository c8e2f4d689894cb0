/** The two frame rings of `struct _Drm_Render_` (video.h:82-90): a fixed
    array of VIDEO_SURFACES_MAX frame slots with a write index, a read index
    and a fill counter. Producers store at the write index and advance it,
    consumers take from the read index and advance it, both modulo the
    capacity. */
module FrameRings {
  import opened VideoTypes

  /** The frames a ring holds, oldest first: `n` slots from `read` on,
      wrapping around the end of the array. */
  function RingContents(a: seq<Frame>, read: nat, n: nat): (r: seq<Frame>)
    requires |a| == VideoSurfacesMax && read < VideoSurfacesMax && n <= VideoSurfacesMax
    ensures |r| == n
    ensures n > 0 ==> r[0] == a[read]
    decreases n
  {
    if n == 0 then [] else [a[read]] + RingContents(a, (read + 1) % VideoSurfacesMax, n - 1)
  }

  /** Writing the slot just past the last frame appends that frame. */
  lemma {:induction false} RingStore(a: seq<Frame>, read: nat, n: nat, f: Frame)
    requires |a| == VideoSurfacesMax && read < VideoSurfacesMax && n < VideoSurfacesMax
    ensures RingContents(a[(read + n) % VideoSurfacesMax := f], read, n + 1) == RingContents(a, read, n) + [f]
    decreases n
  {
    var a' := a[(read + n) % VideoSurfacesMax := f];
    var next := (read + 1) % VideoSurfacesMax;
    if n == 0 {
      assert RingContents(a', next, 0) == [];
    } else {
      assert (next + (n - 1)) % VideoSurfacesMax == (read + n) % VideoSurfacesMax;
      RingStore(a, next, n - 1, f);
      assert a'[read] == a[read];
    }
  }

  class FrameRing {
    /** `FramesRb` / `FramesDeintRb`. */
    const rb: array<Frame>
    /** `FramesWrite` / `FramesDeintWrite`. */
    var write: int
    /** `FramesRead` / `FramesDeintRead`. */
    var read: int
    /** `FramesFilled` / `FramesDeintFilled`. */
    var filled: int

    ghost predicate Valid()
      reads this
    {
      rb.Length == VideoSurfacesMax &&
      0 <= read < VideoSurfacesMax && 0 <= filled <= VideoSurfacesMax &&
      write == (read + filled) % VideoSurfacesMax
    }

    /** The queued frames, oldest first. */
    ghost function Contents(): (q: seq<Frame>)
      reads this, rb
      requires Valid()
      ensures |q| == filled
    {
      RingContents(rb[..], read, filled)
    }

    /** The zeroed ring of a freshly allocated render structure. */
    constructor ()
      ensures Valid() && Contents() == [] && fresh(rb)
      ensures forall k :: 0 <= k < rb.Length ==> rb[k] == BlankFrame
      ensures read == 0 && write == 0 && filled == 0
    {
      rb := new Frame[VideoSurfacesMax](_ => BlankFrame);
      write, read, filled := 0, 0, 0;
    }

    /** `Rb[Write] = f; Write = (Write + 1) % VIDEO_SURFACES_MAX; Filled++`
        (video_drm.c:1624-1626, 1695-1697, 1867-1869, 1870-1872). */
    method Push(f: Frame)
      requires Valid() && filled < VideoSurfacesMax
      modifies this, rb
      ensures Valid()
      ensures Contents() == old(Contents()) + [f]
      ensures rb[..] == old(rb[..])[old(write) := f]
      ensures read == old(read) && filled == old(filled) + 1
      ensures write == (old(write) + 1) % VideoSurfacesMax
    {
      RingStore(rb[..], read, filled, f);
      rb[write] := f;
      write := (write + 1) % VideoSurfacesMax;
      filled := filled + 1;
    }

    /** The frame at the read index. */
    function Front(): (f: Frame)
      reads this, rb
      requires Valid() && filled > 0
      ensures f == Contents()[0]
    {
      rb[read]
    }

    /** `f = Rb[Read]; Read = (Read + 1) % VIDEO_SURFACES_MAX; Filled--`
        (video_drm.c:974-977, 1091-1092, 1122-1123). */
    method Pop() returns (f: Frame)
      requires Valid() && filled > 0
      modifies this
      ensures Valid()
      ensures f == old(Contents())[0] && Contents() == old(Contents())[1..]
      ensures filled == old(filled) - 1 && write == old(write)
      ensures read == (old(read) + 1) % VideoSurfacesMax
    {
      f := rb[read];
      read := (read + 1) % VideoSurfacesMax;
      filled := filled - 1;
    }

    /** Pop until the ring is empty (the `goto dequeue` loop at
        video_drm.c:971-980 and the `goto getinframe` loop at 1645-1654):
        the frames come out oldest first, exactly the queued contents. */
    method Drain() returns (fs: seq<Frame>)
      requires Valid()
      modifies this
      ensures Valid() && Contents() == [] && fs == old(Contents())
      ensures write == old(write)
    {
      fs := [];
      ghost var q := Contents();
      while filled > 0
        invariant Valid() && 0 <= filled <= |q| && write == old(write)
        invariant Contents() == q[|q| - filled..]
        invariant fs == q[..|q| - filled]
        decreases filled
      {
        ghost var k := |q| - filled;
        var f := Pop();
        assert q[..k + 1] == q[..k] + [f];
        fs := fs + [f];
      }
    }
  }
}
