/** The value types of video.h and the ffmpeg/DRM records the render code
    reads: frame descriptors, the `drm_buf` framebuffer record, and the
    constants that size the rings, the plane table and the buffer pool. */
module VideoTypes {
  import opened Common

  /** Capacity of each frame ring (video.h:48). */
  const VideoSurfacesMax: nat := 3
  /** Indices into the two-entry plane table (video.h:50-52). */
  const VideoPlane: nat := 0
  const OsdPlane: nat := 1
  const MaxPlanes: nat := 2
  /** Length of the framebuffer pool `bufs[36]` (video.h:118). */
  const PoolSize: nat := 36
  /** Number of dumb buffers set up for software-decoded video (video_drm.c:1576). */
  const SoftwareBuffers: nat := VideoSurfacesMax + 2

  /** DRM fourcc codes: the four characters in little-endian order. */
  function Fourcc(a: char, b: char, c: char, d: char): (code: nat)
    requires a as int < 256 && b as int < 256 && c as int < 256 && d as int < 256
    ensures code < TwoPow32
    ensures code % 256 == a as int && code / 0x100_0000 == d as int
  {
    a as int + 0x100 * b as int + 0x1_0000 * c as int + 0x100_0000 * d as int
  }

  const FormatNv12: nat := 0x3231_564E
  const FormatYuv420: nat := 0x3231_5559
  const FormatArgb8888: nat := 0x3432_5241

  /** The three format codes are the fourcc of their names. */
  lemma FormatCodes()
    ensures FormatNv12 == Fourcc('N', 'V', '1', '2')
    ensures FormatYuv420 == Fourcc('Y', 'U', '1', '2')
    ensures FormatArgb8888 == Fourcc('A', 'R', '2', '4')
  {
  }

  /** `DRM_MODE_FB_MODIFIERS`, the AddFB2 flag that makes the kernel read
      the per-plane modifiers. */
  const FbModifiersFlag: nat := 2

  /** The ffmpeg pixel formats the core tells apart. */
  datatype PixelFormat = DrmPrime | Yuv420p | Nv12 | OtherPixFmt(code: int)

  /** `AVDRMFrameDescriptor`: the dmabuf objects of a hardware frame and
      the planes of its first layer. */
  datatype DrmObject = DrmObject(fd: int, size: int, modifier: int)
  datatype DrmPlaneDesc = DrmPlaneDesc(objectIndex: int, offset: int, pitch: int)
  datatype PrimeDesc = PrimeDesc(objects: seq<DrmObject>, layerFormat: int, planes: seq<DrmPlaneDesc>)
  {
    /** At least one object, at most four planes, each naming an object. */
    predicate Valid()
    {
      |objects| >= 1 && |planes| <= 4 &&
      forall p :: 0 <= p < |planes| ==> 0 <= planes[p].objectIndex < |objects|
    }
  }

  /** The fields of an `AVFrame` the render code reads. `prime` is the
      descriptor behind `data[0]` of a DRM_PRIME frame. */
  datatype Frame = Frame(pts: int, width: int, height: int, format: PixelFormat,
                         interlaced: bool, prime: PrimeDesc)

  /** `struct drm_buf` (video.h:61-71): one framebuffer, by value. Plane
      addresses are integers, 0 meaning "not mapped". */
  datatype DrmBuf = DrmBuf(width: int, height: int, size: int,
                           pitch: seq<int>, handle: seq<int>, offset: seq<int>,
                           fbId: int, plane: seq<int>, pixFmt: int, fdPrime: int,
                           frame: Option<Frame>, dirty: bool)
  {
    /** The four per-plane arrays hold four entries each; width and
        height are unsigned. */
    predicate Valid()
    {
      |pitch| == 4 && |handle| == 4 && |offset| == 4 && |plane| == 4 &&
      width >= 0 && height >= 0
    }
  }

  /** A frame the display loop can take: its descriptor names a dmabuf
      object and its size is unsigned. */
  predicate Displayable(f: Frame)
  {
    f.prime.Valid() && f.width >= 0 && f.height >= 0
  }

  /** The value a ring slot holds before anything is written to it. */
  const BlankFrame: Frame := Frame(0, 0, 0, OtherPixFmt(0), false, PrimeDesc([DrmObject(0, 0, 0)], 0, []))

  const Zero4: seq<int> := [0, 0, 0, 0]

  /** A zero-filled `drm_buf`, as the render structure starts out. */
  const EmptyBuf: DrmBuf := DrmBuf(0, 0, 0, Zero4, Zero4, Zero4, 0, Zero4, 0, 0, None, false)
}
