/** The bookkeeping of the OpenGL OSD in openglosd.cpp: the per-glyph kerning
    caches, the `oglPixmaps` slot table of `cOglOsd` with the layer-ordered
    flush, and the alignment arithmetic of `cOglPixmap::DrawText`. FreeType,
    the GL commands' execution and the pixel data are not modelled: a
    kerning delta is a parameter, and the commands handed to the GL thread
    are returned as a list. */
module OglOsd {
  import opened Common

  // ---------------------------------------------------------------------
  // Kerning caches (openglosd.cpp:393, 412-418, 478-484, 819-849)

  /** `KERNING_UNKNOWN`: the cache's "no entry" answer. */
  const KerningUnknown: int := -10000

  /** One `tKerning` record of a glyph's cache. */
  datatype KerningEntry = KerningEntry(prevSym: int, kerning: int)

  /** What `GetKerningCache(prevSym)` answers for a cache: the newest entry
      for `prevSym` among indices 1 and up, `KerningUnknown` if there is
      none. Index 0 is never consulted. */
  function LatestKerning(cache: seq<KerningEntry>, prevSym: int): (k: int)
    ensures (forall i :: 1 <= i < |cache| ==> cache[i].prevSym != prevSym) ==> k == KerningUnknown
    ensures (exists i :: 1 <= i < |cache| && cache[i].prevSym == prevSym) ==>
      exists i :: 1 <= i < |cache| && cache[i].prevSym == prevSym && k == cache[i].kerning &&
        forall j :: i < j < |cache| ==> cache[j].prevSym != prevSym
    decreases |cache|
  {
    if |cache| <= 1 then KerningUnknown
    else if cache[|cache| - 1].prevSym == prevSym then cache[|cache| - 1].kerning
    else
      var k := LatestKerning(cache[..|cache| - 1], prevSym);
      assert forall i :: 0 <= i < |cache| - 1 ==> cache[..|cache| - 1][i] == cache[i];
      k
  }

  /** One step of the search from the back: the newest entry of the
      prefix `c[..i]` answers, or the search goes on in `c[..i - 1]`. */
  lemma LatestKerningPrefix(c: seq<KerningEntry>, i: nat, prevSym: int)
    requires 1 < i <= |c|
    ensures c[i - 1].prevSym == prevSym ==> LatestKerning(c[..i], prevSym) == c[i - 1].kerning
    ensures c[i - 1].prevSym != prevSym ==> LatestKerning(c[..i], prevSym) == LatestKerning(c[..i - 1], prevSym)
  {
    assert c[..i][..i - 1] == c[..i - 1];
  }

  /** A new entry answers for its own symbol from then on, once the cache
      already holds an entry. */
  lemma StoredKerningFound(cache: seq<KerningEntry>, prevSym: int, kerning: int)
    requires |cache| >= 1
    ensures LatestKerning(cache + [KerningEntry(prevSym, kerning)], prevSym) == kerning
  {
  }

  /** A new entry leaves the answers for every other symbol as they were. */
  lemma {:induction false} OtherSymbolsUnaffected(cache: seq<KerningEntry>, prevSym: int, other: int, kerning: int)
    requires other != prevSym
    ensures LatestKerning(cache + [KerningEntry(other, kerning)], prevSym) == LatestKerning(cache, prevSym)
  {
    var c := cache + [KerningEntry(other, kerning)];
    if |c| > 1 {
      assert c[..|c| - 1] == cache;
    }
  }

  /** Because index 0 is skipped, the first pair a glyph kerns is looked up
      in vain twice: the entry stored by the first miss is invisible, the
      second miss stores the pair again, and only then is it found. */
  lemma FirstPairStoredTwice(prevSym: int, k1: int, k2: int)
    ensures LatestKerning([KerningEntry(prevSym, k1)], prevSym) == KerningUnknown
    ensures LatestKerning([KerningEntry(prevSym, k1)] + [KerningEntry(prevSym, k2)], prevSym) == k2
  {
  }

  /** `cOglGlyph` (and `cOglAtlasGlyph`, whose cache code is the same),
      reduced to its character and its kerning cache. */
  class Glyph {
    const charCode: int
    var kerningCache: seq<KerningEntry>

    constructor (charCode: int)
      ensures this.charCode == charCode && kerningCache == []
    {
      this.charCode := charCode;
      kerningCache := [];
    }

    /** Searches from the newest entry down to index 1. */
    method GetKerningCache(prevSym: int) returns (k: int)
      ensures k == LatestKerning(kerningCache, prevSym)
    {
      var c := kerningCache;
      var i := |c|;
      assert c[..i] == c;
      while i > 1
        invariant 0 <= i <= |c|
        invariant LatestKerning(c, prevSym) == LatestKerning(c[..i], prevSym)
        decreases i
      {
        LatestKerningPrefix(c, i, prevSym);
        i := i - 1;
        if c[i].prevSym == prevSym {
          return c[i].kerning;
        }
      }
      return KerningUnknown;
    }

    method SetKerningCache(prevSym: int, kerning: int)
      modifies this`kerningCache
      ensures kerningCache == old(kerningCache) + [KerningEntry(prevSym, kerning)]
    {
      kerningCache := kerningCache + [KerningEntry(prevSym, kerning)];
    }
  }

  /** `cOglFont::Kerning` (and `AtlasKerning`): 0 for a missing glyph or a
      zero previous symbol; otherwise the cached value, or on a miss the
      FreeType delta `deltaX` (in 1/64 pixel) truncated to pixels and
      appended to the cache. */
  method Kerning(glyph: Glyph?, prevSym: int, deltaX: int) returns (k: int)
    modifies glyph
    ensures glyph == null || prevSym == 0 ==> k == 0
    ensures glyph != null && prevSym == 0 ==> glyph.kerningCache == old(glyph.kerningCache)
    ensures glyph != null && prevSym != 0 ==>
      var cached := LatestKerning(old(glyph.kerningCache), prevSym);
      (cached != KerningUnknown ==> k == cached && glyph.kerningCache == old(glyph.kerningCache)) &&
      (cached == KerningUnknown ==>
         k == CDiv(deltaX, 64) && glyph.kerningCache == old(glyph.kerningCache) + [KerningEntry(prevSym, k)])
  {
    k := 0;
    if glyph != null && prevSym != 0 {
      k := glyph.GetKerningCache(prevSym);
      if k == KerningUnknown {
        k := CDiv(deltaX, 64);
        glyph.SetKerningCache(prevSym, k);
      }
    }
  }

  // ---------------------------------------------------------------------
  // The pixmap table of cOglOsd (openglosd.cpp:2658-2740)

  /** `MAXPIXMAPLAYERS` of VDR's osd.h. */
  const MaxPixmapLayers: int := 8

  /** A `cOglPixmap` as the OSD sees it. `id` stands for the object's
      address, by which `DestroyPixmap` finds it. */
  datatype Pixmap = Pixmap(id: nat, layer: int, dirty: bool,
                           viewX: int, viewY: int, alpha: int, drawX: int, drawY: int)

  /** The commands `Flush` hands to the GL thread. */
  datatype OsdCmd =
    | Fill                                   // cOglCmdFill(bFb, clrTransparent)
    | RenderFbToBufferFb(pixmap: nat, x: int, y: int, alpha: int, drawX: int, drawY: int)
    | BufferFill                             // cOglCmdBufferFill(oFb, clrTransparent)
    | CopyBufferToOutputFb(x: int, y: int, active: int)

  /** No two occupied slots hold the same pixmap. */
  predicate DistinctIds(ps: seq<Option<Pixmap>>)
  {
    forall i, j :: 0 <= i < j < |ps| && ps[i].Some? && ps[j].Some? ==> ps[i].value.id != ps[j].value.id
  }

  predicate IdFree(ps: seq<Option<Pixmap>>, id: nat)
  {
    forall i :: 0 <= i < |ps| && ps[i].Some? ==> ps[i].value.id != id
  }

  /** The lowest null slot, if any. */
  function FirstNull(ps: seq<Option<Pixmap>>): (r: Option<nat>)
    ensures r.None? ==> forall i :: 0 <= i < |ps| ==> ps[i].Some?
    ensures r.Some? ==> r.value < |ps| && ps[r.value].None? && forall i :: 0 <= i < r.value ==> ps[i].Some?
  {
    if ps == [] then None
    else if ps[0].None? then Some(0)
    else match FirstNull(ps[1..]) {
      case None => None
      case Some(k) => Some(k + 1)
    }
  }

  /** The table after `CreatePixmap` placed `p`: in the lowest null slot,
      or appended when there is none. */
  function AfterCreate(ps: seq<Option<Pixmap>>, p: Pixmap): (r: seq<Option<Pixmap>>)
  {
    match FirstNull(ps) {
      case Some(k) => ps[k := Some(p)]
      case None => ps + [Some(p)]
    }
  }

  /** The slot `CreatePixmap` uses is the lowest null one, the table grows
      only when it had none, every other slot is left alone, and no pixmap
      appears twice afterwards. */
  lemma CreateFillsLowestNull(ps: seq<Option<Pixmap>>, p: Pixmap)
    requires DistinctIds(ps) && IdFree(ps, p.id)
    ensures var r := AfterCreate(ps, p);
      exists k :: 0 <= k < |r| && r[k] == Some(p) &&
        (forall i :: 0 <= i < k ==> ps[i].Some?) &&
        (k < |ps| ==> ps[k].None? && |r| == |ps|) &&
        (k == |ps| ==> |r| == |ps| + 1) &&
        (forall i :: 0 <= i < |ps| && i != k ==> r[i] == ps[i])
    ensures DistinctIds(AfterCreate(ps, p))
  {
    var r := AfterCreate(ps, p);
    match FirstNull(ps) {
      case Some(k) =>
        assert r[k] == Some(p);
      case None =>
        assert r[|ps|] == Some(p);
    }
  }

  /** The slot `DestroyPixmap` finds: the first at or after `start` that
      holds pixmap `id`. */
  function FindPixmap(ps: seq<Option<Pixmap>>, start: nat, id: nat): (r: Option<nat>)
    ensures r.None? ==> forall i :: start <= i < |ps| ==> ps[i].None? || ps[i].value.id != id
    ensures r.Some? ==> start <= r.value < |ps| && ps[r.value].Some? && ps[r.value].value.id == id
    ensures r.Some? ==> forall i :: start <= i < r.value ==> ps[i].None? || ps[i].value.id != id
    decreases |ps| - start
  {
    if start >= |ps| then None
    else if ps[start].Some? && ps[start].value.id == id then Some(start)
    else FindPixmap(ps, start + 1, id)
  }

  /** The C code calls `SetDirty` on slot 0 when the destroyed pixmap is
      visible (layer >= 0); that slot must then hold a pixmap. */
  predicate DestroyDefined(ps: seq<Option<Pixmap>>, start: nat, id: nat)
  {
    var f := FindPixmap(ps, start, id);
    f.Some? && ps[f.value].value.layer >= 0 ==> ps[0].Some?
  }

  /** The table after `DestroyPixmap`: slot 0 is marked dirty when a
      visible pixmap goes, then the pixmap's slot is nulled. */
  function AfterDestroy(ps: seq<Option<Pixmap>>, start: nat, id: nat): (r: seq<Option<Pixmap>>)
    requires DestroyDefined(ps, start, id)
    ensures |r| == |ps|
  {
    match FindPixmap(ps, start, id) {
      case None => ps
      case Some(k) =>
        var marked := if ps[k].value.layer >= 0 then ps[0 := Some(ps[0].value.(dirty := true))] else ps;
        marked[k := None]
    }
  }

  /** What `DestroyPixmap` does to the table: the matching slot (at or after
      `start`) becomes null, slot 0 is marked dirty if the pixmap was
      visible, nothing else changes, and an unknown pixmap changes nothing. */
  lemma DestroyNullsMatch(ps: seq<Option<Pixmap>>, start: nat, id: nat)
    requires DistinctIds(ps) && DestroyDefined(ps, start, id)
    ensures var r := AfterDestroy(ps, start, id);
      DistinctIds(r) &&
      (forall i :: start <= i < |r| && r[i].Some? ==> r[i].value.id != id) &&
      (forall i :: 0 <= i < |ps| && start <= i && ps[i].Some? && ps[i].value.id == id ==>
         r[i].None? &&
         (forall j :: 0 < j < |ps| && j != i ==> r[j] == ps[j]) &&
         (i != 0 && ps[i].value.layer >= 0 ==> r[0] == Some(ps[0].value.(dirty := true))) &&
         (i != 0 && ps[i].value.layer < 0 ==> r[0] == ps[0])) &&
      ((forall i :: start <= i < |ps| ==> ps[i].None? || ps[i].value.id != id) ==> r == ps)
  {
    var r := AfterDestroy(ps, start, id);
    match FindPixmap(ps, start, id) {
      case None =>
      case Some(k) =>
        forall i | 0 <= i < |r| && r[i].Some?
          ensures r[i].value.id != id
        {
          assert i != k;
          if i == 0 {
            assert r[0].value.id == ps[0].value.id;
          }
        }
    }
  }

  /** An OSD that is not a subtitle OSD searches from slot 1, so it never
      releases slot 0: `SetAreas`' own `DestroyPixmap(oglPixmaps[0])` leaves
      the table as it was. */
  lemma SlotZeroKept(ps: seq<Option<Pixmap>>, id: nat)
    requires DistinctIds(ps) && |ps| > 0 && ps[0].Some? && ps[0].value.id == id
    ensures DestroyDefined(ps, 1, id)
    ensures AfterDestroy(ps, 1, id) == ps
  {
  }

  /** A table whose slot 0 is occupied can always be released from. */
  lemma MainPixmapMakesDestroyDefined(ps: seq<Option<Pixmap>>, start: nat, id: nat)
    requires |ps| > 0 && ps[0].Some?
    ensures DestroyDefined(ps, start, id)
    ensures start >= 1 ==> AfterDestroy(ps, start, id)[0].Some?
  {
  }

  /** The render command for one pixmap; a subtitle OSD renders at y 0. */
  function RenderCmd(p: Pixmap, subtitle: bool): OsdCmd
  {
    RenderFbToBufferFb(p.id, p.viewX, if subtitle then 0 else p.viewY, p.alpha, p.drawX, p.drawY)
  }

  /** Some visible pixmap is dirty: the condition for `Flush` to draw. */
  predicate AnyDirty(ps: seq<Option<Pixmap>>)
  {
    exists i :: 0 <= i < |ps| && ps[i].Some? && ps[i].value.layer >= 0 && ps[i].value.dirty
  }

  /** The slots below `n` that hold a pixmap on `layer`, ascending. */
  function LayerSlots(ps: seq<Option<Pixmap>>, layer: int, n: nat): seq<nat>
    requires n <= |ps|
  {
    if n == 0 then []
    else LayerSlots(ps, layer, n - 1) + (if ps[n - 1].Some? && ps[n - 1].value.layer == layer then [n - 1] else [])
  }

  /** `LayerSlots` lists, in ascending order, exactly the slots below `n`
      holding a pixmap on `layer`. */
  lemma {:induction false} LayerSlotsExact(ps: seq<Option<Pixmap>>, layer: int, n: nat)
    requires n <= |ps|
    ensures var s := LayerSlots(ps, layer, n);
      (forall j :: 0 <= j < |s| ==> s[j] < n && ps[s[j]].Some? && ps[s[j]].value.layer == layer) &&
      (forall j, j' :: 0 <= j < j' < |s| ==> s[j] < s[j']) &&
      (forall k :: 0 <= k < n && ps[k].Some? && ps[k].value.layer == layer ==> k in s)
  {
    if n > 0 {
      LayerSlotsExact(ps, layer, n - 1);
    }
  }

  /** A slot below `n` holding a pixmap on `layer` is among `LayerSlots`. */
  lemma {:induction false} InLayerSlots(ps: seq<Option<Pixmap>>, layer: int, n: nat, k: nat)
    requires k < n <= |ps| && ps[k].Some? && ps[k].value.layer == layer
    ensures k in LayerSlots(ps, layer, n)
  {
    if k < n - 1 {
      InLayerSlots(ps, layer, n - 1, k);
    }
  }

  /** The order in which `Flush` renders the slots of layers `0 .. layers-1`. */
  function FlushSlots(ps: seq<Option<Pixmap>>, layers: nat): seq<nat>
  {
    if layers == 0 then []
    else FlushSlots(ps, layers - 1) + LayerSlots(ps, layers - 1, |ps|)
  }

  /** Every slot in `s` holds a pixmap of a layer in `0 .. layers-1`. */
  predicate SlotsBelow(ps: seq<Option<Pixmap>>, s: seq<nat>, layers: int)
  {
    forall j :: 0 <= j < |s| ==> s[j] < |ps| && ps[s[j]].Some? && 0 <= ps[s[j]].value.layer < layers
  }

  /** Every slot `Flush` renders holds a pixmap of a layer it draws. */
  lemma {:induction false} FlushSlotsValid(ps: seq<Option<Pixmap>>, layers: nat)
    ensures SlotsBelow(ps, FlushSlots(ps, layers), layers)
  {
    if layers > 0 {
      FlushSlotsValid(ps, layers - 1);
      LayerSlotsExact(ps, layers - 1, |ps|);
      var a := FlushSlots(ps, layers - 1);
      var b := LayerSlots(ps, layers - 1, |ps|);
      var s := FlushSlots(ps, layers);
      assert s == a + b;
      forall j | 0 <= j < |s|
        ensures s[j] < |ps| && ps[s[j]].Some? && 0 <= ps[s[j]].value.layer < layers
      {
        if j < |a| {
          assert s[j] == a[j];
        } else {
          assert s[j] == b[j - |a|];
        }
      }
    }
  }

  /** The layer of the pixmap in slot `k`, -1 for an empty slot. */
  function LayerOf(ps: seq<Option<Pixmap>>, k: nat): int
  {
    if k < |ps| && ps[k].Some? then ps[k].value.layer else -1
  }

  /** The slots of `s` go by ascending layer, and by ascending slot within
      a layer. */
  predicate SlotsOrdered(ps: seq<Option<Pixmap>>, s: seq<nat>)
  {
    forall j, j' :: 0 <= j < j' < |s| ==>
      LayerOf(ps, s[j]) < LayerOf(ps, s[j']) || (LayerOf(ps, s[j]) == LayerOf(ps, s[j']) && s[j] < s[j'])
  }

  /** `Flush` renders by ascending layer, and by ascending slot within a
      layer. */
  lemma {:induction false} FlushSlotsOrdered(ps: seq<Option<Pixmap>>, layers: nat)
    ensures SlotsOrdered(ps, FlushSlots(ps, layers))
  {
    if layers > 0 {
      FlushSlotsOrdered(ps, layers - 1);
      FlushSlotsValid(ps, layers - 1);
      LayerSlotsExact(ps, layers - 1, |ps|);
      var a := FlushSlots(ps, layers - 1);
      var b := LayerSlots(ps, layers - 1, |ps|);
      var s := FlushSlots(ps, layers);
      assert s == a + b;
      forall j, j' | 0 <= j < j' < |s|
        ensures LayerOf(ps, s[j]) < LayerOf(ps, s[j']) || (LayerOf(ps, s[j]) == LayerOf(ps, s[j']) && s[j] < s[j'])
      {
        if j' < |a| {
          assert s[j] == a[j] && s[j'] == a[j'];
        } else if j < |a| {
          assert s[j] == a[j] && s[j'] == b[j' - |a|];
        } else {
          assert s[j] == b[j - |a|] && s[j'] == b[j' - |a|];
        }
      }
    }
  }

  /** Only pixmaps on a layer `0 .. layers-1` are rendered. */
  lemma RenderedOnlyBelow(ps: seq<Option<Pixmap>>, layers: nat, k: nat)
    requires k in FlushSlots(ps, layers)
    ensures k < |ps| && ps[k].Some? && 0 <= ps[k].value.layer < layers
  {
    var s := FlushSlots(ps, layers);
    FlushSlotsValid(ps, layers);
    var j :| 0 <= j < |s| && s[j] == k;
  }

  /** Every pixmap on a layer `0 .. layers-1` is rendered. */
  lemma {:induction false} RenderedAllBelow(ps: seq<Option<Pixmap>>, layers: nat, k: nat)
    requires k < |ps| && ps[k].Some? && 0 <= ps[k].value.layer < layers
    ensures k in FlushSlots(ps, layers)
  {
    var a := FlushSlots(ps, layers - 1);
    var b := LayerSlots(ps, layers - 1, |ps|);
    assert FlushSlots(ps, layers) == a + b;
    if ps[k].value.layer == layers - 1 {
      InLayerSlots(ps, layers - 1, |ps|, k);
      assert k in b;
    } else {
      RenderedAllBelow(ps, layers - 1, k);
      assert k in a;
    }
  }

  /** Every pixmap on a layer `0 .. layers-1` is rendered, and only those. */
  lemma FlushSlotsCover(ps: seq<Option<Pixmap>>, layers: nat, k: nat)
    ensures k in FlushSlots(ps, layers) <==> k < |ps| && ps[k].Some? && 0 <= ps[k].value.layer < layers
  {
    if k in FlushSlots(ps, layers) {
      RenderedOnlyBelow(ps, layers, k);
    }
    if k < |ps| && ps[k].Some? && 0 <= ps[k].value.layer < layers {
      RenderedAllBelow(ps, layers, k);
    }
  }

  /** The render commands for a run of slots (slots without a pixmap give
      none). */
  function RenderCmds(ps: seq<Option<Pixmap>>, slots: seq<nat>, subtitle: bool): seq<OsdCmd>
  {
    if slots == [] then []
    else
      var k := slots[|slots| - 1];
      RenderCmds(ps, slots[..|slots| - 1], subtitle) +
        (if k < |ps| && ps[k].Some? then [RenderCmd(ps[k].value, subtitle)] else [])
  }

  lemma {:induction false} RenderCmdsAppend(ps: seq<Option<Pixmap>>, a: seq<nat>, b: seq<nat>, subtitle: bool)
    ensures RenderCmds(ps, a + b, subtitle) == RenderCmds(ps, a, subtitle) + RenderCmds(ps, b, subtitle)
    decreases |b|
  {
    if b == [] {
      assert a + b == a;
    } else {
      var b' := b[..|b| - 1];
      RenderCmdsAppend(ps, a, b', subtitle);
      assert (a + b)[..|a + b| - 1] == a + b';
    }
  }

  /** The render commands for the pixmaps on `layer` among the slots below
      `n`, in slot order. */
  function LayerCmds(ps: seq<Option<Pixmap>>, layer: int, n: nat, subtitle: bool): seq<OsdCmd>
    requires n <= |ps|
  {
    if n == 0 then []
    else
      var last := if ps[n - 1].Some? && ps[n - 1].value.layer == layer then [RenderCmd(ps[n - 1].value, subtitle)] else [];
      LayerCmds(ps, layer, n - 1, subtitle) + last
  }

  /** The render commands of a flush over layers `0 .. layers-1`. */
  function FlushCmds(ps: seq<Option<Pixmap>>, layers: nat, subtitle: bool): seq<OsdCmd>
  {
    if layers == 0 then []
    else FlushCmds(ps, layers - 1, subtitle) + LayerCmds(ps, layers - 1, |ps|, subtitle)
  }

  lemma {:induction false} LayerCmdsRenderSlots(ps: seq<Option<Pixmap>>, layer: int, n: nat, subtitle: bool)
    requires n <= |ps|
    ensures LayerCmds(ps, layer, n, subtitle) == RenderCmds(ps, LayerSlots(ps, layer, n), subtitle)
  {
    if n > 0 {
      LayerCmdsRenderSlots(ps, layer, n - 1, subtitle);
      var a := LayerSlots(ps, layer, n - 1);
      if ps[n - 1].Some? && ps[n - 1].value.layer == layer {
        var s := a + [n - 1];
        assert LayerSlots(ps, layer, n) == s;
        assert s[..|s| - 1] == a && s[|s| - 1] == n - 1;
        assert RenderCmds(ps, s, subtitle) == RenderCmds(ps, a, subtitle) + [RenderCmd(ps[n - 1].value, subtitle)];
      } else {
        assert LayerSlots(ps, layer, n) == a + [] == a;
      }
    }
  }

  /** The commands a flush issues are the render commands of the slots
      `FlushSlots` lists, in that order: one per pixmap of layers
      `0 .. layers-1`, by ascending layer. */
  lemma {:induction false} FlushCmdsRenderSlots(ps: seq<Option<Pixmap>>, layers: nat, subtitle: bool)
    ensures FlushCmds(ps, layers, subtitle) == RenderCmds(ps, FlushSlots(ps, layers), subtitle)
  {
    if layers > 0 {
      var a := FlushSlots(ps, layers - 1);
      var b := LayerSlots(ps, layers - 1, |ps|);
      assert FlushCmds(ps, layers - 1, subtitle) == RenderCmds(ps, a, subtitle) by {
        FlushCmdsRenderSlots(ps, layers - 1, subtitle);
      }
      assert LayerCmds(ps, layers - 1, |ps|, subtitle) == RenderCmds(ps, b, subtitle) by {
        LayerCmdsRenderSlots(ps, layers - 1, |ps|, subtitle);
      }
      assert RenderCmds(ps, a + b, subtitle) == RenderCmds(ps, a, subtitle) + RenderCmds(ps, b, subtitle) by {
        RenderCmdsAppend(ps, a, b, subtitle);
      }
      assert FlushSlots(ps, layers) == a + b;
      assert FlushCmds(ps, layers, subtitle) ==
        FlushCmds(ps, layers - 1, subtitle) + LayerCmds(ps, layers - 1, |ps|, subtitle);
    }
  }

  /** A slot after the flush has drawn layers below `below`: those pixmaps
      are clean, the rest as they were. */
  function Cleared(e: Option<Pixmap>, below: int): Option<Pixmap>
  {
    if e.Some? && 0 <= e.value.layer < below then Some(e.value.(dirty := false)) else e
  }

  /** The table after a flush that drew. */
  function Flushed(ps: seq<Option<Pixmap>>): (r: seq<Option<Pixmap>>)
    ensures |r| == |ps|
    ensures forall i :: 0 <= i < |ps| ==> r[i] == Cleared(ps[i], MaxPixmapLayers)
  {
    seq(|ps|, i requires 0 <= i < |ps| => Cleared(ps[i], MaxPixmapLayers))
  }

  /** When every pixmap sits below `MAXPIXMAPLAYERS`, a flush that drew
      leaves nothing visible dirty, so the next flush draws nothing. */
  lemma FlushSettles(ps: seq<Option<Pixmap>>)
    requires forall i :: 0 <= i < |ps| && ps[i].Some? ==> ps[i].value.layer < MaxPixmapLayers
    ensures !AnyDirty(Flushed(ps))
  {
  }

  /** A dirty pixmap above the last layer is never drawn nor cleaned: every
      later flush draws again. */
  lemma HighLayerKeepsFlushing(ps: seq<Option<Pixmap>>, i: nat)
    requires i < |ps| && ps[i].Some? && ps[i].value.layer >= MaxPixmapLayers && ps[i].value.dirty
    ensures AnyDirty(Flushed(ps))
    ensures i !in FlushSlots(ps, MaxPixmapLayers as nat)
  {
    assert Flushed(ps)[i] == ps[i];
    FlushSlotsCover(ps, MaxPixmapLayers as nat, i);
  }

  /** `cOglOsd`, reduced to its pixmap table and where it sits. */
  class OglOsdTable {
    const left: int
    const top: int
    var isSubtitleOsd: bool
    var pixmaps: seq<Option<Pixmap>>

    predicate Valid()
      reads this`pixmaps, this`isSubtitleOsd
    {
      DistinctIds(pixmaps) && (!isSubtitleOsd ==> |pixmaps| == 0 || pixmaps[0].Some?)
    }

    /** The first slot `DestroyPixmap` looks at. */
    function Start(): (s: nat)
      reads this`isSubtitleOsd
      ensures s == 0 <==> isSubtitleOsd
    {
      if isSubtitleOsd then 0 else 1
    }

    constructor (left: int, top: int)
      ensures this.left == left && this.top == top
      ensures !isSubtitleOsd && pixmaps == []
      ensures Valid()
    {
      this.left := left;
      this.top := top;
      isSubtitleOsd := false;
      pixmaps := [];
    }

    /** The subtitle decision of `SetAreas`: more than one area makes a
        subtitle OSD, and it stays one. */
    method SetAreasSubtitle(numAreas: int)
      modifies this`isSubtitleOsd
      ensures isSubtitleOsd == (old(isSubtitleOsd) || numAreas > 1)
    {
      if numAreas > 1 {
        isSubtitleOsd := true;
      }
    }

    /** `CreatePixmap`: `active` is the GL thread's state and `added` what
        `cOsd::AddPixmap` answered. A new pixmap starts dirty. */
    method CreatePixmap(active: bool, added: bool, id: nat, layer: int,
                        viewX: int, viewY: int, alpha: int, drawX: int, drawY: int)
      returns (r: Option<nat>)
      requires Valid() && IdFree(pixmaps, id)
      modifies this`pixmaps
      ensures Valid()
      ensures !(active && added) ==> r == None && pixmaps == old(pixmaps)
      ensures active && added ==> r == Some(id)
      ensures active && added ==>
        pixmaps == AfterCreate(old(pixmaps), Pixmap(id, layer, true, viewX, viewY, alpha, drawX, drawY))
    {
      if !active {
        return None;
      }
      var p := Pixmap(id, layer, true, viewX, viewY, alpha, drawX, drawY);
      CreateFillsLowestNull(pixmaps, p);
      if !added {
        return None;
      }
      var i := 0;
      while i < |pixmaps|
        invariant 0 <= i <= |pixmaps|
        invariant forall j :: 0 <= j < i ==> pixmaps[j].Some?
        invariant pixmaps == old(pixmaps)
      {
        if pixmaps[i].None? {
          assert FirstNull(pixmaps) == Some(i);
          pixmaps := pixmaps[i := Some(p)];
          return Some(id);
        }
        i := i + 1;
      }
      assert FirstNull(pixmaps).None?;
      pixmaps := pixmaps + [Some(p)];
      r := Some(id);
    }

    /** `DestroyPixmap(id)`; `None` stands for a null pointer. */
    method DestroyPixmap(active: bool, id: Option<nat>)
      requires Valid()
      requires id.Some? ==> DestroyDefined(pixmaps, Start(), id.value)
      modifies this`pixmaps
      ensures Valid()
      ensures !active || id.None? ==> pixmaps == old(pixmaps)
      ensures active && id.Some? ==> pixmaps == AfterDestroy(old(pixmaps), Start(), id.value)
    {
      if !active || id.None? {
        return;
      }
      DestroyNullsMatch(pixmaps, Start(), id.value);
      var start := if isSubtitleOsd then 0 else 1;
      var i := start;
      while i < |pixmaps|
        invariant start <= i
        invariant pixmaps == old(pixmaps)
        invariant forall j :: start <= j < i && j < |pixmaps| ==> pixmaps[j].None? || pixmaps[j].value.id != id.value
      {
        if pixmaps[i].Some? && pixmaps[i].value.id == id.value {
          assert FindPixmap(pixmaps, start, id.value) == Some(i);
          if pixmaps[i].value.layer >= 0 {
            pixmaps := pixmaps[0 := Some(pixmaps[0].value.(dirty := true))];
          }
          pixmaps := pixmaps[i := None];
          return;
        }
        i := i + 1;
      }
      assert FindPixmap(pixmaps, start, id.value).None?;
    }

    /** `Flush`: nothing unless the GL thread runs and a visible pixmap is
        dirty; otherwise clear the buffer, render every pixmap of layers
        0 .. MAXPIXMAPLAYERS-1 layer by layer and mark it clean, then copy
        the buffer to the output at the OSD's position. */
    method Flush(active: bool) returns (cmds: seq<OsdCmd>)
      modifies this`pixmaps
      ensures !active || !AnyDirty(old(pixmaps)) ==> cmds == [] && pixmaps == old(pixmaps)
      ensures active && AnyDirty(old(pixmaps)) ==>
        cmds == [Fill] + FlushCmds(old(pixmaps), MaxPixmapLayers as nat, isSubtitleOsd)
                + [BufferFill, CopyBufferToOutputFb(left, top, 1)] &&
        pixmaps == Flushed(old(pixmaps))
    {
      cmds := [];
      if !active {
        return;
      }
      var dirty := AnyVisibleDirty();
      if !dirty {
        return;
      }
      cmds := [Fill];
      ghost var ps := pixmaps;
      var layer := 0;
      while layer < MaxPixmapLayers
        invariant 0 <= layer <= MaxPixmapLayers
        invariant |pixmaps| == |ps|
        invariant forall k :: 0 <= k < |ps| ==> pixmaps[k] == Cleared(ps[k], layer)
        invariant cmds == [Fill] + FlushCmds(ps, layer, isSubtitleOsd)
      {
        var layerCmds := RenderLayer(layer, ps);
        cmds := cmds + layerCmds;
        layer := layer + 1;
      }
      assert pixmaps == Flushed(ps);
      cmds := cmds + [BufferFill, CopyBufferToOutputFb(left, top, 1)];
    }

    /** The scan at the head of `Flush`: is some visible pixmap dirty? */
    method AnyVisibleDirty() returns (dirty: bool)
      ensures dirty == AnyDirty(pixmaps)
    {
      dirty := false;
      var i := 0;
      while i < |pixmaps| && !dirty
        invariant 0 <= i <= |pixmaps|
        invariant dirty <==> exists j :: 0 <= j < i && pixmaps[j].Some? && pixmaps[j].value.layer >= 0 && pixmaps[j].value.dirty
      {
        if pixmaps[i].Some? && pixmaps[i].value.layer >= 0 && pixmaps[i].value.dirty {
          dirty := true;
        }
        i := i + 1;
      }
    }

    /** One pass of `Flush`'s layer loop: render the pixmaps of `layer` in
        slot order and mark them clean. `ps` is the table as the flush
        found it. */
    method RenderLayer(layer: int, ghost ps: seq<Option<Pixmap>>) returns (layerCmds: seq<OsdCmd>)
      requires |pixmaps| == |ps| && 0 <= layer
      requires forall k :: 0 <= k < |ps| ==> pixmaps[k] == Cleared(ps[k], layer)
      modifies this`pixmaps
      ensures |pixmaps| == |ps|
      ensures forall k :: 0 <= k < |ps| ==> pixmaps[k] == Cleared(ps[k], layer + 1)
      ensures layerCmds == LayerCmds(ps, layer, |ps|, isSubtitleOsd)
    {
      layerCmds := [];
      var t := pixmaps;
      var i := 0;
      while i < |t|
        invariant 0 <= i <= |t| == |ps|
        invariant forall k :: 0 <= k < i ==> t[k] == Cleared(ps[k], layer + 1)
        invariant forall k :: i <= k < |ps| ==> t[k] == Cleared(ps[k], layer)
        invariant layerCmds == LayerCmds(ps, layer, i, isSubtitleOsd)
      {
        if t[i].Some? && t[i].value.layer == layer {
          layerCmds := layerCmds + [RenderCmd(t[i].value, isSubtitleOsd)];
          t := t[i := Some(t[i].value.(dirty := false))];
        }
        i := i + 1;
      }
      pixmaps := t;
    }
  }

  // ---------------------------------------------------------------------
  // cOglPixmap::DrawText alignment (openglosd.cpp:2424-2489)

  /** VDR's `eTextAlignment` bits and `TEXT_ALIGN_BORDER`. */
  const TaLeft: nat := 0
  const TaRight: nat := 1
  const TaTop: nat := 2
  const TaBottom: nat := 3
  const TaBorder: nat := 4
  const TextAlignBorder: int := 10

  /** Where the text command starts and where it is cut off. */
  datatype TextPlacement = TextPlacement(x: int, y: int, limitX: int)

  function Max(a: int, b: int): int { if a >= b then a else b }

  /** The indent a border adds: a tenth of the font height, at least 1. */
  function BorderIndent(h: int): (d: int)
    ensures d >= 1
    ensures h >= TextAlignBorder ==> d * TextAlignBorder <= h < (d + 1) * TextAlignBorder
  {
    Max(CDiv(h, TextAlignBorder), 1)
  }

  /** The start of a text `w` wide and `h` high drawn at (px, py) in a box
      `width` x `height` (0 = "as large as the text") with `alignment`
      bits. */
  function AlignText(px: int, py: int, w: int, h: int, width: int, height: int, alignment: int): (t: TextPlacement)
    ensures width == 0 && height == 0 ==> t == TextPlacement(px, py, 0)
    ensures width != 0 || height != 0 ==> t.limitX == px + (if width != 0 then width else w)
    ensures width == 0 ==> t.x == px
    ensures height == 0 ==> t.y == py
    // horizontally
    ensures width != 0 && Bit(alignment, TaLeft) == 1 ==>
      t.x == px + (if Bit(alignment, TaBorder) == 1 then BorderIndent(h) else 0)
    ensures width != 0 && Bit(alignment, TaLeft) == 0 && Bit(alignment, TaRight) == 1 ==>
      (w < width ==> t.x + w == px + width - (if Bit(alignment, TaBorder) == 1 then BorderIndent(h) else 0)) &&
      (w >= width ==> t.x == px - (if Bit(alignment, TaBorder) == 1 then BorderIndent(h) else 0))
    ensures width != 0 && Bit(alignment, TaLeft) == 0 && Bit(alignment, TaRight) == 0 ==>
      (w < width ==> t.x - px <= (px + width) - (t.x + w) <= t.x - px + 1 && t.x >= px) &&
      (w >= width ==> t.x == px)
    // vertically
    ensures height != 0 && Bit(alignment, TaTop) == 1 ==> t.y == py
    ensures height != 0 && Bit(alignment, TaTop) == 0 && Bit(alignment, TaBottom) == 1 ==>
      (h < height ==> t.y + h == py + height) && (h >= height ==> t.y == py)
    ensures height != 0 && Bit(alignment, TaTop) == 0 && Bit(alignment, TaBottom) == 0 ==>
      (h < height ==> t.y - py <= (py + height) - (t.y + h) <= t.y - py + 1 && t.y >= py) &&
      (h >= height ==> t.y == py)
  {
    var cw := if width != 0 then width else w;
    if width == 0 && height == 0 then TextPlacement(px, py, 0)
    else
      var x :=
        if width == 0 then px
        else if Bit(alignment, TaLeft) == 1 then
          px + (if Bit(alignment, TaBorder) == 1 then BorderIndent(h) else 0)
        else if Bit(alignment, TaRight) == 1 then
          (if w < width then px + width - w else px) - (if Bit(alignment, TaBorder) == 1 then BorderIndent(h) else 0)
        else if w < width then px + CDiv(width - w, 2)
        else px;
      var y :=
        if height == 0 || Bit(alignment, TaTop) == 1 then py
        else if Bit(alignment, TaBottom) == 1 then (if h < height then py + height - h else py)
        else if h < height then py + CDiv(height - h, 2)
        else py;
      TextPlacement(x, y, px + cw)
  }
}
