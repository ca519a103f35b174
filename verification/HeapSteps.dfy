/** The steps of malloc, free and realloc on the whole heap: each keeps the heap in
    order and the other blocks in place, and its effect on headers and feet is exactly
    what the header macros write (lj_alloc.c:379-397, 560-592). */
module HeapSteps {
  import opened BoundaryTags
  import opened HeapWorld
  import opened HeapEdge
  import opened HeapSegments

  /** All blocks handed out before, except p, are still handed out with their sizes. */
  ghost predicate Kept(w: World, w': World, p: int) {
    forall q :: q in w.live && q != p ==> KeptAt(w, w', q)
  }

  ghost predicate KeptAt(w: World, w': World, q: int)
    requires q in w.live
  {
    && q in w'.live && w'.live[q] == w.live[q]
    && q in w.tags.head && q in w'.tags.head && w'.tags.head[q].size == w.tags.head[q].size
  }

  lemma KeptTrans(w: World, w1: World, w': World, p: int, q: int)
    requires Kept(w, w1, p) && Kept(w1, w', q) && (q == p || q !in w.live)
    ensures Kept(w, w', p)
  {
    forall x | x in w.live && x != p
      ensures KeptAt(w, w', x)
    {
      assert KeptAt(w, w1, x);
      assert KeptAt(w1, w', x);
    }
  }

  lemma KeptSame(w: World, w': World, p: int)
    requires Books(w) && w'.live == w.live && w'.tags == w.tags
    ensures Kept(w, w', p)
  {
    BooksTags(w);
    hide Books;
    forall x | x in w.live ensures KeptAt(w, w', x) { ListedAt(w, x); }
  }

  lemma HeapParts(w: World, segs: seq<Seg>)
    requires HeapOk(w, segs)
    ensures Books(w) && Mapped(w.tags, w.pinned, segs) && TopOk(w, segs) && Tiles(w.tags) && Truthful(w.tags)
      && Listed(w)
  {
    BooksTags(w);
  }

  // ----- moving free chunks between bins, victim and loose

  function Unbin(w: World, c: int): World {
    w.(binned := w.binned - {c}, loose := w.loose + {c})
  }

  function Bin(w: World, c: int): World
    requires c in w.tags.head
  {
    w.(binned := w.binned[c := w.tags.head[c].size], loose := w.loose - {c})
  }

  function DropDv(w: World): World {
    if w.dv == 0 then w else w.(dv := 0, dvsize := 0, loose := w.loose + {w.dv})
  }

  function SetDv(w: World, c: int): World
    requires c in w.tags.head
  {
    w.(dv := c, dvsize := w.tags.head[c].size, loose := w.loose - {c})
  }

  lemma UnbinOk(w: World, segs: seq<Seg>, c: int)
    requires HeapOk(w, segs) && c in w.binned
    ensures HeapOk(Unbin(w, c), segs) && Kept(w, Unbin(w, c), 0) && c in w.tags.head
      && w.tags.head[c].size == w.binned[c] && c !in w.loose
  {
    hide Books, Mapped, Tiles, Truthful;
    HeapParts(w, segs);
    ListedAt(w, c);
    KindAt(w, c);
    var w' := Unbin(w, c);
    forall d | d in w'.tags.head ensures KindOk(w', d) { KindAt(w, d); }
    forall d | d in w'.loose ensures d in w'.tags.head { ListedAt(w, d); }
    BooksIntro(w');
    KeptSame(w, w', 0);
  }

  lemma BinOk(w: World, segs: seq<Seg>, c: int)
    requires HeapOk(w, segs) && c in w.loose
    ensures c in w.tags.head && HeapOk(Bin(w, c), segs) && Kept(w, Bin(w, c), 0)
    ensures !w.tags.head[c].cinuse && c !in w.binned && c != w.top && w.tags.head[c].size >= MIN_CHUNK_SIZE
  {
    hide Books, Mapped, Tiles, Truthful;
    HeapParts(w, segs);
    ListedAt(w, c);
    KindAt(w, c);
    var w' := Bin(w, c);
    forall d | d in w'.tags.head ensures KindOk(w', d) { KindAt(w, d); }
    BooksIntro(w');
    KeptSame(w, w', 0);
  }

  lemma DropDvOk(w: World, segs: seq<Seg>)
    requires HeapOk(w, segs)
    ensures HeapOk(DropDv(w), segs) && Kept(w, DropDv(w), 0)
    ensures w.dv != 0 ==>
        w.dv in w.tags.head && w.tags.head[w.dv].size == w.dvsize >= MIN_CHUNK_SIZE && w.dv !in w.loose
        && w.dv !in w.binned && w.dv != w.top && !w.tags.head[w.dv].cinuse
    ensures w.dv == 0 ==> w.dvsize == 0
  {
    hide Books, Mapped, Tiles, Truthful;
    HeapParts(w, segs);
    if w.dv != 0 {
      ListedAt(w, w.dv);
      KindAt(w, w.dv);
      ChunkAt(w.tags, w.dv);
      var w' := DropDv(w);
      forall d | d in w'.tags.head ensures KindOk(w', d) { KindAt(w, d); ChunkAt(w.tags, d); }
      forall d | d in w'.loose ensures d in w'.tags.head { ListedAt(w, d); }
      BooksIntro(w');
      KeptSame(w, w', 0);
    } else {
      ListedDv(w);
      KeptSame(w, w, 0);
    }
  }

  lemma ListedDv(w: World)
    requires Listed(w)
    ensures w.dv == 0 ==> w.dvsize == 0
  {
  }

  lemma SetDvOk(w: World, segs: seq<Seg>, c: int)
    requires HeapOk(w, segs) && c in w.loose && w.dv == 0
    ensures c in w.tags.head && HeapOk(SetDv(w, c), segs) && Kept(w, SetDv(w, c), 0) && c > 0
  {
    hide Books, Mapped, Tiles, Truthful;
    HeapParts(w, segs);
    ListedAt(w, c);
    KindAt(w, c);
    ChunkAt(w.tags, c);
    var w' := SetDv(w, c);
    forall d | d in w'.tags.head ensures KindOk(w', d) { KindAt(w, d); ChunkAt(w.tags, d); }
    BooksIntro(w');
    KeptSame(w, w', 0);
  }

  // ----- handing out

  lemma UseWholeHeap(w: World, segs: seq<Seg>, c: int, nsize: nat)
    requires HeapOk(w, segs) && c in w.loose && c in w.tags.head && w.tags.head[c].size - CHUNK_OVERHEAD >= nsize
    ensures HeapOk(UseWhole(w, c, nsize), segs) && Kept(w, UseWhole(w, c, nsize), 0) && c !in w.live
  {
    hide Books, Mapped, Tiles, Truthful, Merged, IsRun;
    HeapParts(w, segs);
    KindAt(w, c);
    NotDirect(w, c);
    WholeRun(w, c);
    UseWholeOk(w, c, nsize);
    var s := w.tags.head[c].size;
    forall d | d in w.tags.head && c <= d < c + s
      ensures d !in w.pinned
    {
      if d != c { PairAt(w.tags, c, d); }
    }
    MergedMapped(w.tags, w.pinned, segs, c, s, true);
    MergedFoot(w.tags, c, s, true, c);
    UseWholeRest(w, segs, c, nsize);
  }

  /** The header of a free chunk marked in use, and the next chunk told. */
  function Relabelled(t: Tags, c: int): Tags
    requires c in t.head && Next(t, c) in t.head
  {
    var n := Next(t, c);
    t.(head := t.head[c := Head(t.head[c].size, true, true)][n := t.head[n].(pinuse := true)])
  }

  /** What handing out a loose chunk whole does to headers and feet. */
  lemma UseWholeTags(w: World, c: int, nsize: nat)
    requires Books(w) && c in w.loose && c in w.tags.head
    ensures Next(w.tags, c) in w.tags.head
    ensures UseWhole(w, c, nsize).tags == Relabelled(w.tags, c)
  {
    hide Books, Tiles, Truthful, Merged, IsRun;
    BooksTags(w);
    KindAt(w, c);
    NotDirect(w, c);
    WholeRun(w, c);
    FreePinuse(w.tags, c);
    WholeIs(w.tags, c, true);
    MergedFootSame(w.tags, c, w.tags.head[c].size);
  }

  lemma MergedFootSame(t: Tags, a: int, n: nat)
    requires a in t.head
    ensures Merged(t, a, n, true) == t.(head := Merged(t, a, n, true).head)
  {
  }

  lemma UseWholeRest(w: World, segs: seq<Seg>, c: int, nsize: nat)
    requires HeapOk(w, segs) && c in w.loose && c in w.tags.head && IsRun(w.tags, c, w.tags.head[c].size)
    ensures Kept(w, UseWhole(w, c, nsize), 0) && TopOk(UseWhole(w, c, nsize), segs)
  {
    hide Books, Mapped, Tiles, Truthful, Merged, IsRun;
    HeapParts(w, segs);
    var s := w.tags.head[c].size;
    var w' := UseWhole(w, c, nsize);
    MergedKeeps(w.tags, c, true);
    forall q | q in w.live
      ensures KeptAt(w, w', q)
    {
      ListedAt(w, q);
      KindAt(w, q);
      MergedHead(w.tags, c, s, true, q);
    }
  }

  /** Merging a chunk with itself only rewrites its own and the next header. */
  lemma WholeIs(t: Tags, c: int, cinuse: bool)
    requires Tiles(t) && c in t.head && Next(t, c) in t.head && IsRun(t, c, t.head[c].size)
    ensures var s := t.head[c].size;
      Merged(t, c, s, cinuse).head ==
        t.head[c := Head(s, cinuse, t.head[c].pinuse)][c + s := t.head[c + s].(pinuse := cinuse)]
  {
    hide Tiles, Merged, IsRun;
    var s := t.head[c].size;
    ChunkAt(t, c);
    var h := t.head[c := Head(s, cinuse, t.head[c].pinuse)][c + s := t.head[c + s].(pinuse := cinuse)];
    var h' := Merged(t, c, s, cinuse).head;
    forall d
      ensures d in h' <==> d in h
      ensures d in h' ==> h'[d] == h[d]
    {
      MergedHead(t, c, s, cinuse, d);
      if d in t.head && c < d { PairAt(t, c, d); }
    }
    assert h'.Keys == h.Keys;
  }

  lemma UseFrontHeap(w: World, segs: seq<Seg>, c: int, nb: nat, nsize: nat)
    requires HeapOk(w, segs) && c in w.loose && c in w.tags.head && MIN_CHUNK_SIZE <= nb && nb % 8 == 0
      && nb - CHUNK_OVERHEAD >= nsize
    requires nb + MIN_CHUNK_SIZE <= w.tags.head[c].size
    ensures HeapOk(UseFront(w, c, nb, nsize), segs) && Kept(w, UseFront(w, c, nb, nsize), 0) && c !in w.live
      && c + nb !in w.tags.head
    ensures var s := w.tags.head[c].size;
      UseFront(w, c, nb, nsize).tags ==
        w.tags.(head := w.tags.head[c := Head(nb, true, true)][c + nb := Head(s - nb, false, true)],
                                               foot := w.tags.foot[c + s := PrevSize(s - nb)])
  {
    hide Books, Mapped, Tiles, Truthful, Split;
    HeapParts(w, segs);
    KindAt(w, c);
    NotDirect(w, c);
    UseFrontOk(w, c, nb, nsize);
    SplitMapped(w.tags, w.pinned, segs, c, nb, false);
    SplitInside(w.tags, c, nb);
    FreePinuse(w.tags, c);
    AfterAt(w.tags, c);
    SplitIs(w.tags, c, nb, false);
    var w' := UseFront(w, c, nb, nsize);
    TopFacts(w);
    SplitHead(w.tags, c, nb, false, w.top);
    forall q | q in w.live
      ensures KeptAt(w, w', q)
    {
      ListedAt(w, q);
      KindAt(w, q);
      SplitHead(w.tags, c, nb, false, q);
    }
  }

  /** Cutting a chunk whose next chunk already has the right pinuse bit. */
  lemma SplitIs(t: Tags, c: int, nb: nat, cinuse: bool)
    requires c in t.head && 0 < nb < t.head[c].size && c + nb !in t.head
    requires Next(t, c) in t.head ==> t.head[Next(t, c)].pinuse == cinuse
    ensures var s := t.head[c].size;
      Split(t, c, nb, cinuse) ==
        t.(head := t.head[c := Head(nb, true, t.head[c].pinuse)][c + nb := Head(s - nb, cinuse, true)],
           foot := if cinuse then t.foot else t.foot[c + s := PrevSize(s - nb)])
  {
    var s := t.head[c].size;
    var h := t.head[c := Head(nb, true, t.head[c].pinuse)][c + nb := Head(s - nb, cinuse, true)];
    if c + s in t.head {
      assert h[c + s := t.head[c + s].(pinuse := cinuse)] == h;
    }
  }

  lemma UseTopHeap(w: World, segs: seq<Seg>, nb: nat, nsize: nat)
    requires HeapOk(w, segs) && MIN_CHUNK_SIZE <= nb < w.topsize && nb % 8 == 0 && nb - CHUNK_OVERHEAD >= nsize
    ensures w.top in w.tags.head && w.tags.head[w.top].size == w.topsize && HeapOk(UseTop(w, nb, nsize), segs)
      && Kept(w, UseTop(w, nb, nsize), 0) && w.top !in w.live
    ensures UseTop(w, nb, nsize).tags ==
      w.tags.(head := w.tags.head[w.top := Head(nb, true, true)][w.top + nb := Head(w.topsize - nb, false, true)],
                                                 foot := w.tags.foot[w.top + w.topsize := PrevSize(w.topsize - nb)])
  {
    hide Books, Mapped, Tiles, Truthful, Split;
    HeapParts(w, segs);
    TopFacts(w);
    UseTopOk(w, nb, nsize);
    SplitMapped(w.tags, w.pinned, segs, w.top, nb, false);
    SplitInside(w.tags, w.top, nb);
    FreePinuse(w.tags, w.top);
    TopLim(w, segs);
    SplitIs(w.tags, w.top, nb, false);
    var w' := UseTop(w, nb, nsize);
    SplitHead(w.tags, w.top, nb, false, w.top + nb);
    forall q | q in w.live
      ensures KeptAt(w, w', q)
    {
      ListedAt(w, q);
      SplitHead(w.tags, w.top, nb, false, q);
    }
  }

  lemma TopLim(w: World, segs: seq<Seg>)
    requires HeapOk(w, segs)
    ensures w.top + w.topsize in w.tags.lims && w.top + w.topsize !in w.tags.head
  {
    hide Books, Mapped, Tiles, Truthful;
    HeapParts(w, segs);
    SegAt(w.tags, w.pinned, segs, 0);
    LimNot(w.tags, w.top + w.topsize);
  }

  lemma CutLiveHeap(w: World, segs: seq<Seg>, p: int, nb: nat, nsize: nat)
    requires HeapOk(w, segs) && p in w.live && p in w.tags.head && p !in w.tags.direct && MIN_CHUNK_SIZE <= nb
      && nb % 8 == 0 && nb - CHUNK_OVERHEAD >= nsize
    requires nb + MIN_CHUNK_SIZE <= w.tags.head[p].size
    ensures HeapOk(CutLive(w, p, nb, nsize), segs) && Kept(w, CutLive(w, p, nb, nsize), p) && p + nb !in w.tags.head
      && p + nb !in w.live
    ensures var s := w.tags.head[p].size;
      CutLive(w, p, nb, nsize).tags ==
        w.tags.(head := w.tags.head[p := Head(nb, true, w.tags.head[p].pinuse)][p + nb := Head(s - nb, true, true)])
  {
    hide Books, Mapped, Tiles, Truthful, Split;
    HeapParts(w, segs);
    KindAt(w, p);
    CutLiveOk(w, p, nb, nsize);
    SplitMapped(w.tags, w.pinned, segs, p, nb, true);
    SplitInside(w.tags, p, nb);
    if Next(w.tags, p) in w.tags.head { AfterAt(w.tags, p); }
    SplitIs(w.tags, p, nb, true);
    ListedAt(w, p + nb);
    var w' := CutLive(w, p, nb, nsize);
    TopFacts(w);
    SplitHead(w.tags, p, nb, true, w.top);
    forall q | q in w.live && q != p
      ensures KeptAt(w, w', q)
    {
      ListedAt(w, q);
      SplitHead(w.tags, p, nb, true, q);
    }
  }

  lemma GrowIntoTopHeap(w: World, segs: seq<Seg>, p: int, nb: nat, nsize: nat)
    requires HeapOk(w, segs) && p in w.live && p in w.tags.head && p !in w.tags.direct && Next(w.tags, p) == w.top
    requires w.tags.head[p].size < nb < w.tags.head[p].size + w.topsize && nb % 8 == 0 && nb - CHUNK_OVERHEAD >= nsize
    ensures HeapOk(GrowIntoTop(w, p, nb, nsize), segs) && Kept(w, GrowIntoTop(w, p, nb, nsize), p)
  {
    hide Books, Mapped, Tiles, Truthful, Split, Merged, IsRun;
    HeapParts(w, segs);
    TopFacts(w);
    TopLim(w, segs);
    GrowIntoTopOk(w, p, nb, nsize);
    GrowMapped(w, segs, p, nb, nsize);
    MergedHead(w.tags, p, w.tags.head[p].size + w.topsize, true, p);
    SplitHead(Merged(w.tags, p, w.tags.head[p].size + w.topsize, true), p, nb, false, p + nb);
    GrowSeg(w, segs, p);
    GrowKept(w, p, nb, nsize);
  }

  lemma GrowMapped(w: World, segs: seq<Seg>, p: int, nb: nat, nsize: nat)
    requires HeapOk(w, segs) && p in w.live && p in w.tags.head && p !in w.tags.direct && Next(w.tags, p) == w.top
    requires w.tags.head[p].size < nb < w.tags.head[p].size + w.topsize && nb % 8 == 0
      && w.top + w.topsize in w.tags.lims
    ensures Mapped(GrowIntoTop(w, p, nb, nsize).tags, w.pinned, segs)
  {
    hide Books, Mapped, Tiles, Truthful, Split, Merged, IsRun, TopOk, HeapOk, Listed;
    var n := w.tags.head[p].size + w.topsize;
    GrowMerged(w, segs, p);
    SplitMapped(Merged(w.tags, p, n, true), w.pinned, segs, p, nb, false);
  }

  /** The chunk and the top chunk behind it as one. */
  lemma GrowMerged(w: World, segs: seq<Seg>, p: int)
    requires HeapOk(w, segs) && p in w.live && p in w.tags.head && p !in w.tags.direct && Next(w.tags, p) == w.top
      && w.top + w.topsize in w.tags.lims
    ensures var n := w.tags.head[p].size + w.topsize; var t := Merged(w.tags, p, n, true);
      Mapped(t, w.pinned, segs) && Tiles(t) && Truthful(t) && p in t.head && t.head[p].size == n && p !in t.direct
        && p !in w.pinned
  {
    hide Books, Mapped, Tiles, Truthful, Merged, IsRun, TopOk, HeapOk, Listed;
    HeapParts(w, segs);
    TopFacts(w);
    KindAt(w, p);
    var n := w.tags.head[p].size + w.topsize;
    GrowRun(w, p);
    GrowOthers(w, p);
    MergedMapped(w.tags, w.pinned, segs, p, n, true);
    MergedTiles(w.tags, p, n, true);
    MergedTruthful(w.tags, p, n, true);
    MergedHead(w.tags, p, n, true, p);
    MergedFoot(w.tags, p, n, true, p);
  }

  lemma GrowOthers(w: World, p: int)
    requires Books(w) && p in w.live && p in w.tags.head && p !in w.tags.direct && Next(w.tags, p) == w.top
      && w.top + w.topsize in w.tags.lims
    ensures forall d :: d in w.tags.head && p <= d < p + (w.tags.head[p].size + w.topsize) ==> d !in w.pinned
  {
    hide Books;
    TopFacts(w);
    KindAt(w, p);
    forall d | d in w.tags.head && p <= d < p + (w.tags.head[p].size + w.topsize) ensures d !in w.pinned {
      GrowOutside(w, p, d);
    }
  }

  /** What growing into the top chunk does to headers and feet. */
  lemma GrowTags(w: World, p: int, nb: nat, nsize: nat)
    requires Books(w) && p in w.live && p in w.tags.head && p !in w.tags.direct && Next(w.tags, p) == w.top
      && w.top + w.topsize in w.tags.lims
    requires 0 < w.tags.head[p].size < nb < w.tags.head[p].size + w.topsize
    ensures var n := w.tags.head[p].size + w.topsize;
      GrowIntoTop(w, p, nb, nsize).tags ==
        w.tags.(head := (w.tags.head - {w.top})[p := Head(nb, true, w.tags.head[p].pinuse)]
                               [p + nb := Head(n - nb, false, true)],
               foot := w.tags.foot[p + n := PrevSize(n - nb)])
  {
    hide Books, Tiles, Truthful, Split, Merged, IsRun;
    TopFacts(w);
    LimNot(w.tags, w.top + w.topsize);
    var n := w.tags.head[p].size + w.topsize;
    var t1 := Merged(w.tags, p, n, true);
    MergedHead(w.tags, p, n, true, p);
    MergedHead(w.tags, p, n, true, p + n);
    MergedHead(w.tags, p, n, true, p + nb);
    GrowMiddle(w, p, nb);
    SplitIs(t1, p, nb, false);
    GrowIs(w, p);
    MergedFootSame(w.tags, p, n);
  }

  lemma GrowKept(w: World, p: int, nb: nat, nsize: nat)
    requires Books(w) && p in w.live && p in w.tags.head && Next(w.tags, p) == w.top
    requires w.tags.head[p].size < nb < w.tags.head[p].size + w.topsize
    ensures Kept(w, GrowIntoTop(w, p, nb, nsize), p)
  {
    hide Books, Tiles, Truthful, Split, Merged;
    TopFacts(w);
    GrowMiddle(w, p, nb);
    var n := w.tags.head[p].size + w.topsize;
    var w' := GrowIntoTop(w, p, nb, nsize);
    MergedHead(w.tags, p, n, true, p);
    forall q | q in w.live && q != p
      ensures KeptAt(w, w', q)
    {
      ListedAt(w, q);
      GrowOutside(w, p, q);
      MergedHead(w.tags, p, n, true, q);
      SplitHead(Merged(w.tags, p, n, true), p, nb, false, q);
    }
  }

  lemma GrowSeg(w: World, segs: seq<Seg>, p: int)
    requires HeapOk(w, segs) && p in w.tags.head && p !in w.tags.direct && Next(w.tags, p) == w.top
    ensures segs[0].base <= p
  {
    hide Books, Mapped, Tiles, Truthful;
    HeapParts(w, segs);
    TopFacts(w);
    SegAt(w.tags, w.pinned, segs, 0);
    BaseIsFirst(w.tags, w.pinned, segs, p, 0);
  }

  lemma GrowIs(w: World, p: int)
    requires Books(w) && p in w.tags.head && Next(w.tags, p) == w.top && w.top + w.topsize !in w.tags.head
    ensures var n := w.tags.head[p].size + w.topsize;
      Merged(w.tags, p, n, true).head == (w.tags.head - {w.top})[p := Head(n, true, w.tags.head[p].pinuse)]
  {
    hide Books, Tiles, Truthful, Merged;
    TopFacts(w);
    ChunkAt(w.tags, p);
    var n := w.tags.head[p].size + w.topsize;
    var h := (w.tags.head - {w.top})[p := Head(n, true, w.tags.head[p].pinuse)];
    var h' := Merged(w.tags, p, n, true).head;
    forall d
      ensures d in h' <==> d in h
      ensures d in h' ==> h'[d] == h[d]
    {
      MergedHead(w.tags, p, n, true, d);
      if d in w.tags.head { GrowOutside(w, p, d); }
    }
    assert h'.Keys == h.Keys;
  }

  // ----- taking back

  lemma AbsorbHeap(w: World, segs: seq<Seg>, a: int, n: nat, p: int)
    requires HeapOk(w, segs) && Absorbable(w, a, n, p)
    ensures a in w.tags.head && HeapOk(Absorb(w, a, n, p), segs) && Kept(w, Absorb(w, a, n, p), p)
  {
    hide Books, Mapped, Tiles, Truthful, Merged, IsRun, Absorbable;
    HeapParts(w, segs);
    AbsorbableParts(w, a, n, p);
    TopFacts(w);
    AbsorbOk(w, a, n, p);
    forall d | d in w.tags.head && a <= d < a + n
      ensures d !in w.pinned
    {
      AbsorbableAt(w, a, n, p, d);
      KindAt(w, d);
    }
    MergedMapped(w.tags, w.pinned, segs, a, n, false);
    MergedFoot(w.tags, a, n, false, a);
    var w' := Absorb(w, a, n, p);
    AbsorbTop(w, segs, a, n, p);
    forall q | q in w.live && q != p
      ensures KeptAt(w, w', q)
    {
      ListedAt(w, q);
      KindAt(w, q);
      AbsorbableAt(w, a, n, p, q);
      MergedHead(w.tags, a, n, false, q);
    }
  }

  lemma AbsorbTop(w: World, segs: seq<Seg>, a: int, n: nat, p: int)
    requires HeapOk(w, segs) && Absorbable(w, a, n, p) && a in w.tags.head
    ensures TopOk(Absorb(w, a, n, p), segs)
  {
    hide Books, Mapped, Tiles, Truthful, Merged, IsRun, Absorbable;
    HeapParts(w, segs);
    AbsorbableParts(w, a, n, p);
    TopFacts(w);
    MergedHead(w.tags, a, n, false, a);
    MergedHead(w.tags, a, n, false, w.top);
    if a <= w.top < a + n { RunToTop(w, segs, a, n); }
  }

  /** A run that holds the top chunk ends where the first segment ends. */
  lemma RunToTop(w: World, segs: seq<Seg>, a: int, n: nat)
    requires HeapOk(w, segs) && IsRun(w.tags, a, n) && a <= w.top < a + n && a + n in w.tags.lims
    ensures segs != [] && segs[0].base <= a && a + n == segs[0].lim
  {
    hide Books, Mapped, Tiles, Truthful, IsRun, IsRecord;
    HeapParts(w, segs);
    TopFacts(w);
    var k := RunInSeg(w.tags, w.pinned, segs, a, n);
    if k != 0 { SegAt(w.tags, w.pinned, segs, 0); ApartAt(w.tags, w.pinned, segs, 0, k); }
    TopLim(w, segs);
    RunNoLim(w.tags, a, n, w.top + w.topsize);
    PairAt(w.tags, w.top, a + n);
  }
}
