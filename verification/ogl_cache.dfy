/** The image cache of the OpenGL OSD thread (openglosd.cpp:1976-2126): a
    fixed table of texture slots, handed out as negative handles `-i-1`,
    and the running byte count `memCached` of the images they hold. The
    GL thread that uploads and deletes textures is not modelled: the
    commands queued for it are recorded, and the texture it produces is a
    parameter. */
module OglCache {
  import opened Common

  /** `sizeof(tColor)`: one ARGB pixel. */
  const ColorBytes: int := 4

  /** `sOglImage`: one slot of the cache. `texture` 0 is `GL_NONE`. */
  datatype OglImage = OglImage(used: bool, texture: int, width: int, height: int)

  const FreeImage: OglImage := OglImage(false, 0, 0, 0)

  /** The bytes a slot accounts for. */
  function Bytes(e: OglImage): int
  {
    if e.used then e.width * e.height * ColorBytes else 0
  }

  /** The bytes of all slots in use. */
  function CachedBytes(s: seq<OglImage>): int
    decreases |s|
  {
    if s == [] then 0 else Bytes(s[0]) + CachedBytes(s[1..])
  }

  /** Replacing one slot changes the total by the difference of the two. */
  lemma {:induction false} CachedBytesUpdate(s: seq<OglImage>, i: nat, e: OglImage)
    requires i < |s|
    ensures CachedBytes(s[i := e]) == CachedBytes(s) - Bytes(s[i]) + Bytes(e)
    decreases |s|
  {
    if i > 0 {
      assert s[i := e][1..] == s[1..][i - 1 := e];
      CachedBytesUpdate(s[1..], i - 1, e);
    } else {
      assert s[i := e][1..] == s[1..];
    }
  }

  /** A table with no slot in use holds no bytes. */
  lemma {:induction false} EmptyCacheHoldsNothing(s: seq<OglImage>)
    requires forall k :: 0 <= k < |s| ==> !s[k].used
    ensures CachedBytes(s) == 0
    decreases |s|
  {
    if s != [] {
      assert forall k :: 0 <= k < |s[1..]| ==> s[1..][k] == s[k + 1];
      EmptyCacheHoldsNothing(s[1..]);
    }
  }

  /** The handle of slot `i`. */
  function HandleOf(i: nat): (h: int)
    ensures h < 0
  {
    -(i as int) - 1
  }

  /** The slot a handle names: `-h-1`; a handle names a slot only when it
      is negative. */
  function IndexOf(h: int): (i: int)
    ensures i >= 0 <==> h < 0
  {
    -h - 1
  }

  /** Handles and slots are in one-to-one correspondence; 0 and positive
      numbers are not handles. */
  lemma HandleRoundTrip(i: nat, h: int)
    ensures IndexOf(HandleOf(i)) == i
    ensures h < 0 ==> HandleOf(IndexOf(h)) == h
    ensures h >= 0 ==> IndexOf(h) < 0
  {
  }

  /** The lowest slot not in use. */
  function FirstFree(s: seq<OglImage>): (r: Option<nat>)
    ensures r.None? <==> forall k :: 0 <= k < |s| ==> s[k].used
    ensures r.Some? ==> r.value < |s| && !s[r.value].used && forall k :: 0 <= k < r.value ==> s[k].used
    decreases |s|
  {
    if s == [] then None
    else if !s[0].used then Some(0)
    else
      var r := FirstFree(s[1..]);
      assert forall k :: 0 <= k < |s[1..]| ==> s[1..][k] == s[k + 1];
      if r.None? then None else Some(r.value + 1)
  }

  /** The commands queued for the GL thread, by slot. */
  datatype Cmd = StoreImageCmd(slot: nat) | DropImageCmd(slot: nat)

  /** `cOglThread`, reduced to the image cache. The table length is
      `OGL_MAX_OSDIMAGES`. */
  class OglThread {
    const imageCache: array<OglImage>
    var memCached: int
    const maxCacheSize: int
    var maxTextureSize: int
    var commands: seq<Cmd>

    /** Every slot has a non-negative size, and a free slot holds no image. */
    ghost predicate SlotsOk()
      reads imageCache
    {
      forall k :: 0 <= k < imageCache.Length ==>
        imageCache[k].width >= 0 && imageCache[k].height >= 0 &&
        (!imageCache[k].used ==> imageCache[k].width == 0 && imageCache[k].height == 0)
    }

    /** `memCached` is the byte count of the slots in use and stays within
        the cache size. */
    ghost predicate Valid()
      reads this`memCached, imageCache
    {
      SlotsOk() && memCached == CachedBytes(imageCache[..]) && memCached <= maxCacheSize
    }

    /** The cache size is given in MB; every slot starts free. The maximum
        texture size is 0 until the GL thread has asked the driver. */
    constructor (slots: nat, maxCacheMb: nat)
      ensures Valid() && fresh(imageCache)
      ensures imageCache.Length == slots && memCached == 0 && maxCacheSize == maxCacheMb * 1024 * 1024
      ensures maxTextureSize == 0 && commands == []
      ensures forall k :: 0 <= k < slots ==> imageCache[k] == FreeImage
    {
      memCached := 0;
      maxCacheSize := maxCacheMb * 1024 * 1024;
      maxTextureSize := 0;
      commands := [];
      imageCache := new OglImage[slots](_ => FreeImage);
      new;
      EmptyCacheHoldsNothing(imageCache[..]);
    }

    /** GetImageRef: the slot a handle names, when it lies in the table. */
    function ImageRef(h: int): (r: Option<nat>)
      ensures r.Some? <==> 0 <= IndexOf(h) < imageCache.Length
      ensures r.Some? ==> r.value == IndexOf(h) && HandleOf(r.value) == h
    {
      var i := -h - 1;
      if 0 <= i < imageCache.Length then Some(i) else None
    }

    /** GetFreeSlot: marks the lowest free slot used and returns its
        handle, or returns 0 and changes nothing when every slot is in
        use. */
    method GetFreeSlot() returns (slot: int)
      requires Valid()
      modifies imageCache
      ensures Valid()
      ensures slot == 0 <==> FirstFree(old(imageCache[..])).None?
      ensures slot == 0 ==> imageCache[..] == old(imageCache[..])
      ensures slot != 0 ==>
        var i := FirstFree(old(imageCache[..])).value;
        slot == HandleOf(i) && imageCache[..] == old(imageCache[..])[i := old(imageCache[i]).(used := true)]
    {
      slot := 0;
      var i := 0;
      while i < imageCache.Length && slot == 0
        invariant 0 <= i <= imageCache.Length
        invariant slot == 0 ==> imageCache[..] == old(imageCache[..]) && forall k :: 0 <= k < i ==> imageCache[k].used
        invariant slot != 0 ==>
          1 <= i && FirstFree(old(imageCache[..])) == Some(i - 1) && slot == HandleOf(i - 1) &&
          imageCache[..] == old(imageCache[..])[i - 1 := old(imageCache[i - 1]).(used := true)]
      {
        if !imageCache[i].used {
          ghost var s := imageCache[..];
          imageCache[i] := imageCache[i].(used := true);
          slot := -i - 1;
          assert FirstFree(s) == Some(i);
        }
        i := i + 1;
      }
      if slot != 0 {
        var j := -slot - 1;
        CachedBytesUpdate(old(imageCache[..]), j, old(imageCache[j]).(used := true));
      }
    }

    /** ClearSlot: resets the slot a valid handle names; any other handle
        is ignored. */
    method ClearSlot(h: int)
      modifies imageCache
      ensures ImageRef(h).Some? ==> imageCache[..] == old(imageCache[..])[ImageRef(h).value := FreeImage]
      ensures ImageRef(h).None? ==> imageCache[..] == old(imageCache[..])
    {
      var i := -h - 1;
      if i >= 0 && i < imageCache.Length {
        imageCache[i] := FreeImage;
      }
    }

    /** DoCmd: queue a command for the GL thread. */
    method DoCmd(cmd: Cmd)
      modifies this`commands
      ensures commands == old(commands) + [cmd]
    {
      commands := commands + [cmd];
    }

    /** DropImageData: for a valid handle, the slot's bytes leave
        `memCached`, the GL thread is told to delete the texture and the
        slot is freed; any other handle changes nothing. */
    method DropImageData(h: int)
      requires SlotsOk()
      modifies this`memCached, this`commands, imageCache
      ensures SlotsOk()
      ensures memCached - CachedBytes(imageCache[..]) == old(memCached - CachedBytes(imageCache[..]))
      ensures memCached <= old(memCached)
      ensures ImageRef(h).None? ==>
        memCached == old(memCached) && commands == old(commands) && imageCache[..] == old(imageCache[..])
      ensures ImageRef(h).Some? ==>
        var i := ImageRef(h).value;
        memCached == old(memCached) - Bytes(old(imageCache[i])) &&
        commands == old(commands) + [DropImageCmd(i)] &&
        imageCache[..] == old(imageCache[..])[i := FreeImage]
    {
      var ref := ImageRef(h);
      if ref.None? {
        return;
      }
      var i := ref.value;
      var imgSize := imageCache[i].width * imageCache[i].height * ColorBytes;
      assert imgSize >= 0;
      memCached := memCached - imgSize;
      DoCmd(DropImageCmd(i));
      ClearSlot(h);
      CachedBytesUpdate(old(imageCache[..]), i, FreeImage);
    }

    /** StoreImage for a `width` x `height` image. `allocOk` is whether the
        pixel copy could be allocated and `texture` what the GL thread
        stored in the slot (0 on failure or time-out). Returns the handle,
        or 0 when the image is not cached. */
    method StoreImage(width: int, height: int, allocOk: bool, texture: int) returns (slot: int)
      requires Valid() && width >= 0 && height >= 0
      modifies this`memCached, this`commands, imageCache
      ensures Valid()
      ensures slot != 0 <==>
        !(maxCacheSize == 0 || width > maxTextureSize || height > maxTextureSize ||
          old(memCached) + width * height * ColorBytes > maxCacheSize) &&
        FirstFree(old(imageCache[..])).Some? && allocOk && texture != 0
      ensures slot == 0 ==> memCached == old(memCached)
      ensures slot == 0 ==> forall k :: 0 <= k < imageCache.Length ==> imageCache[k].used == old(imageCache[k].used)
      ensures (maxCacheSize == 0 || width > maxTextureSize || height > maxTextureSize ||
               old(memCached) + width * height * ColorBytes > maxCacheSize) ==>
        slot == 0 && imageCache[..] == old(imageCache[..]) && commands == old(commands)
      ensures slot != 0 ==>
        var i := IndexOf(slot);
        0 <= i < imageCache.Length && FirstFree(old(imageCache[..])) == Some(i) &&
        imageCache[..] == old(imageCache[..])[i := OglImage(true, texture, width, height)] &&
        memCached == old(memCached) + width * height * ColorBytes && texture != 0
    {
      if maxCacheSize == 0 {
        return 0;
      }
      if width > maxTextureSize || height > maxTextureSize {
        return 0;
      }
      var imgSize := width * height;
      var newMemUsed := imgSize * ColorBytes + memCached;
      if newMemUsed > maxCacheSize {
        return 0;
      }
      assert !(maxCacheSize == 0 || width > maxTextureSize || height > maxTextureSize ||
               old(memCached) + width * height * ColorBytes > maxCacheSize);
      ghost var before := imageCache[..];
      slot := GetFreeSlot();
      if slot == 0 {
        return 0;
      }
      ghost var i := ImageRef(slot).value;
      slot := FillSlot(slot, width, height, allocOk, texture);
      if slot != 0 {
        assert imageCache[..] == before[i := OglImage(true, texture, width, height)];
      } else {
        assert imageCache[..] == before[i := FreeImage];
        assert !before[i].used;
      }
    }

    /** The rest of StoreImage once `slot` has been taken: the pixel copy,
        the size, the upload by the GL thread, and the accounting. A failed
        copy frees the slot again; a failed upload drops the slot's data;
        either way the handle returned is 0. */
    method FillSlot(slot: int, width: int, height: int, allocOk: bool, texture: int) returns (r: int)
      requires Valid() && width >= 0 && height >= 0
      requires ImageRef(slot).Some?
      requires var i := ImageRef(slot).value;
        imageCache[i].used && imageCache[i].width == 0 && imageCache[i].height == 0
      requires memCached + width * height * ColorBytes <= maxCacheSize
      modifies this`memCached, this`commands, imageCache
      ensures Valid()
      ensures r != 0 <==> allocOk && texture != 0
      ensures r == 0 ==>
        memCached == old(memCached) && imageCache[..] == old(imageCache[..])[ImageRef(slot).value := FreeImage]
      ensures r != 0 ==>
        var i := ImageRef(slot).value;
        r == slot && texture != 0 &&
        imageCache[..] == old(imageCache[..])[i := OglImage(true, texture, width, height)] &&
        memCached == old(memCached) + width * height * ColorBytes
    {
      r := slot;
      var imgSize := width * height;
      var i := ImageRef(slot).value;
      ghost var before := imageCache[..];
      assert Bytes(before[i]) == 0;
      if !allocOk {
        ClearSlot(slot);
        CachedBytesUpdate(before, i, FreeImage);
        return 0;
      }
      imageCache[i] := imageCache[i].(width := width, height := height);
      DoCmd(StoreImageCmd(i));
      // the GL thread uploads the texture while this thread waits
      imageCache[i] := imageCache[i].(texture := texture);
      assert imageCache[..] == before[i := imageCache[i]];
      assert Bytes(imageCache[i]) == imgSize * ColorBytes;
      CachedBytesUpdate(before, i, imageCache[i]);
      if imageCache[i].texture == 0 {
        DropImageData(slot);
        r := 0;
      }
      memCached := memCached + imgSize * ColorBytes;
    }

    /** A slot index is never a handle: GetImageRef finds nothing for it. */
    lemma IndexIsNotHandle(i: nat)
      ensures ImageRef(i).None?
    {
    }

    /** Stop as written: the loop hands DropImageData the slot index `i`
        where a handle `-i-1` is expected. No index is a handle, so nothing
        is dropped: the slots stay in use and `memCached` keeps their
        bytes. */
    method StopAsWritten()
      requires Valid()
      modifies this`memCached, this`commands, imageCache
      ensures memCached == old(memCached) && commands == old(commands)
      ensures imageCache[..] == old(imageCache[..])
    {
      var i := 0;
      while i < imageCache.Length
        invariant 0 <= i <= imageCache.Length
        invariant Valid()
        invariant memCached == old(memCached) && commands == old(commands)
        invariant imageCache[..] == old(imageCache[..])
      {
        if imageCache[i].used {
          assert ImageRef(i).None?;
          DropImageData(i);
        }
        i := i + 1;
      }
    }

    /** Stop as intended: every slot in use is dropped by its handle, which
        leaves the whole table free and nothing accounted. */
    method Stop()
      requires Valid()
      modifies this`memCached, this`commands, imageCache
      ensures Valid() && memCached == 0
      ensures forall k :: 0 <= k < imageCache.Length ==> !imageCache[k].used
    {
      var i := 0;
      while i < imageCache.Length
        invariant 0 <= i <= imageCache.Length
        invariant Valid()
        invariant forall k :: 0 <= k < i ==> !imageCache[k].used
      {
        if imageCache[i].used {
          DropImageData(HandleOf(i));
        }
        i := i + 1;
      }
      EmptyCacheHoldsNothing(imageCache[..]);
    }
  }
}
