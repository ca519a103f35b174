/** The steps of alloc_sys, alloc_trim and release_unused_segments on heap, segment list
    and pages together: memory is conserved (lj_alloc.c:820-1043). */
module SegmentCalls {
  import opened BoundaryTags
  import opened HeapWorld
  import opened HeapEdge
  import opened HeapSegments
  import opened HeapSteps
  import opened HeapCalls
  import opened Mmap

  lemma OrderParts(w: World, segs: seq<Seg>, pages: set<int>, leaked: set<int>)
    requires InOrder(w, segs, pages, leaked)
    ensures HeapOk(w, segs) && Books(w) && Mapped(w.tags, w.pinned, segs) && Holds(w.tags, segs, pages, leaked)
      && Aligned(w.tags, segs)
    ensures segs != []
  {
    hide Books, Mapped, DirectUses, SegUses;
    HeapParts(w, segs);
    NonEmpty(w.tags, w.pinned, segs);
  }

  /** A region of whole granules, as the system maps them for segments. */
  predicate Granular(tbase: int, tsize: nat) {
    tsize > 0 && tsize % GRANULARITY == 0 && PageAligned(tbase, tsize) && tbase > 0 && tbase + tsize <= ADDRESS_LIMIT
  }

  lemma GranularFacts(tbase: int, tsize: nat)
    requires Granular(tbase, tsize)
    ensures GRANULARITY <= tsize && PageAligned(tbase, tsize) && 0 < tbase && tbase + tsize <= ADDRESS_LIMIT
      && tbase % 8 == 0 && tsize % 8 == 0
  {
    Eights(tsize, GRANULARITY / 8);
    Eights(tbase, PAGE / 8);
  }

  lemma Eights(x: int, m: nat)
    requires m > 0 && x % (8 * m) == 0
    ensures x % 8 == 0 && (x > 0 ==> x >= 8 * m)
  {
    var q := x / (8 * m);
    assert x == 8 * m * q == 8 * (m * q);
    assert q <= 0 ==> m * q <= 0;
    assert q >= 1 ==> m * q >= m;
  }

  lemma DirectsListed(w: World)
    requires Books(w)
    ensures forall d :: d in w.tags.direct ==> d in w.tags.head && d in w.live
  {
    hide Books;
    BooksTags(w);
    forall d | d in w.tags.direct ensures d in w.tags.head && d in w.live {
      DirectAt(w.tags, d);
      KindAt(w, d);
    }
  }

  // ----- the first segment grows or shrinks at its end

  /** init_top with another size of the first segment. */
  function ResizedSegs(w: World, segs: seq<Seg>, n: nat, size: nat): seq<Seg>
    requires segs != []
  {
    Resegmented(segs, size, w.top + n)
  }

  lemma ResizeKept(w: World, n: nat)
    requires Books(w) && w.top in w.tags.head
    ensures Moves(w, ResizeTop(w, n)) && SameDirect(w.tags, ResizeTop(w, n).tags)
  {
    hide Books, Tiles, Truthful;
    TopFacts(w);
    DirectsListed(w);
    forall q | q in w.live ensures KeptAt(w, ResizeTop(w, n), q) { ListedAt(w, q); }
  }

  lemma ResizedAligned(t: Tags, t': Tags, segs: seq<Seg>, size: nat, lim: int)
    requires Aligned(t, segs) && SameDirect(t, t') && segs != [] && size % GRANULARITY == 0
    ensures Aligned(t', Resegmented(segs, size, lim))
  {
  }

  /** Which pages the segments use after the first has another size. */
  lemma ResizedUses(segs: seq<Seg>, size: nat, lim: int, q: int)
    requires segs != []
    ensures SegUses(Resegmented(segs, size, lim), q) <==>
      InPages(segs[0].base, size, q) || exists k :: 1 <= k < |segs| && InPages(segs[k].base, segs[k].size, q)
  {
    var segs' := Resegmented(segs, size, lim);
    assert segs'[0].base == segs[0].base && segs'[0].size == size;
    if SegUses(segs', q) {
      var k :| 0 <= k < |segs'| && InPages(segs'[k].base, segs'[k].size, q);
      assert k == 0 || InPages(segs[k].base, segs[k].size, q);
    }
    if InPages(segs[0].base, size, q) {
      assert InPages(segs'[0].base, segs'[0].size, q);
    }
    if k :| 1 <= k < |segs| && InPages(segs[k].base, segs[k].size, q) {
      assert InPages(segs'[k].base, segs'[k].size, q);
    }
  }

  lemma FirstUses(segs: seq<Seg>, q: int)
    requires segs != []
    ensures SegUses(segs, q) <==>
      InPages(segs[0].base, segs[0].size, q) || exists k :: 1 <= k < |segs| && InPages(segs[k].base, segs[k].size, q)
  {
    if SegUses(segs, q) {
      var k :| 0 <= k < |segs| && InPages(segs[k].base, segs[k].size, q);
    }
  }

  lemma AppendRoom(w: World, segs: seq<Seg>, tbase: int, tsize: nat)
    requires HeapOk(w, segs) && segs != [] && End(segs[0]) == tbase && Fresh(w.tags, segs, tbase, tbase + tsize)
      && tsize % 8 == 0
    ensures RoomFor(w.tags, segs, segs[0].size + tsize)
  {
    hide Books, Mapped, Tiles, Truthful, Fresh, SegOk;
    FirstSeg(w, segs);
    FreshParts(w.tags, segs, tbase, tbase + tsize);
    forall k | 1 <= k < |segs|
      ensures Apart(segs[k].base, End(segs[k]), segs[0].base, segs[0].base + segs[0].size + tsize)
    {
      AppendApart(w, segs, tbase, tsize, k);
    }
    forall d | d in w.tags.direct && d in w.tags.head
      ensures Apart(d, Next(w.tags, d) + DIRECT_FOOT_PAD, segs[0].base, segs[0].base + segs[0].size + tsize)
    {
      FreshDirect(w.tags, segs, tbase, tbase + tsize, d);
      DirectOkAt(w.tags, w.pinned, segs, d);
    }
  }

  lemma FirstSeg(w: World, segs: seq<Seg>)
    requires HeapOk(w, segs) && segs != []
    ensures w.top + w.topsize == segs[0].lim == End(segs[0]) - TOP_FOOT_SIZE && segs[0].size % 8 == 0
      && GRANULARITY <= segs[0].size && segs[0].base <= w.top
  {
    hide Books, Mapped;
    SegAt(w.tags, w.pinned, segs, 0);
  }

  lemma AppendApart(w: World, segs: seq<Seg>, tbase: int, tsize: nat, k: nat)
    requires HeapOk(w, segs) && segs != [] && End(segs[0]) == tbase && Fresh(w.tags, segs, tbase, tbase + tsize)
      && 1 <= k < |segs|
    ensures Apart(segs[k].base, End(segs[k]), segs[0].base, segs[0].base + segs[0].size + tsize)
  {
    hide Books, Mapped, Tiles, Truthful, Fresh;
    ApartAt(w.tags, w.pinned, segs, k, 0);
    FreshAt(w.tags, segs, tbase, tbase + tsize, k);
    SegSize(w.tags, w.pinned, segs, k);
    SegSize(w.tags, w.pinned, segs, 0);
  }

  lemma GranularSum(t: Tags, segs: seq<Seg>, tbase: int, tsize: nat)
    requires Aligned(t, segs) && segs != [] && Granular(tbase, tsize)
    ensures (segs[0].size + tsize) % GRANULARITY == 0
  {
  }

  /** append: new memory right behind the first segment. */
  lemma AppendCall(w: World, segs: seq<Seg>, pages: set<int>, leaked: set<int>, tbase: int, tsize: nat)
    requires InOrder(w, segs, pages, leaked) && segs != [] && End(segs[0]) == tbase
    requires GRANULARITY <= tsize && Granular(tbase, tsize) && Pages(tbase, tsize) !! pages
    ensures w.top in w.tags.head
    ensures var w' := ResizeTop(w, w.topsize + tsize);
      InOrder(w', ResizedSegs(w, segs, w.topsize + tsize, segs[0].size + tsize), pages + Pages(tbase, tsize), leaked)
        && Moves(w, w')
  {
    hide Books, Mapped, Tiles, Truthful, Holds, Aligned, Kept, Pages, Fresh, RoomFor, Granular, PageAligned;
    OrderParts(w, segs, pages, leaked);
    TopFacts(w);
    GranularFacts(tbase, tsize);
    MappedIsFresh(w.tags, w.pinned, segs, pages, leaked, tbase, tsize);
    AppendRoom(w, segs, tbase, tsize);
    FirstSeg(w, segs);
    var n, size := w.topsize + tsize, segs[0].size + tsize;
    ResizeTopHeap(w, segs, n, size);
    ResizeKept(w, n);
    var t', segs' := ResizeTop(w, n).tags, ResizedSegs(w, segs, n, size);
    GranularSum(w.tags, segs, tbase, tsize);
    ResizedAligned(w.tags, t', segs, size, w.top + n);
    forall q
      ensures SegUses(segs', q) <==> SegUses(segs, q) || InPages(tbase, tsize, q)
    {
      ResizedUses(segs, size, w.top + n, q);
      FirstUses(segs, q);
    }
    HoldsMore(w.tags, t', segs, segs', pages, leaked, tbase, tsize);
  }

  /** Nothing but its own segment uses a page of a segment. */
  lemma PageOwner(t: Tags, pinned: set<int>, segs: seq<Seg>, k: nat, q: int)
    requires Mapped(t, pinned, segs) && k < |segs| && InPages(segs[k].base, segs[k].size, q)
    ensures SegUses(segs, q) && !DirectUses(t, q)
    ensures forall j :: 0 <= j < |segs| && j != k ==> !InPages(segs[j].base, segs[j].size, q)
  {
    hide Mapped;
    forall j | 0 <= j < |segs| && j != k
      ensures !InPages(segs[j].base, segs[j].size, q)
    {
      ApartAt(t, pinned, segs, j, k);
    }
    forall d | d in t.direct && d in t.head
      ensures !InPages(d, t.head[d].size + DIRECT_FOOT_PAD, q)
    {
      DirectOkAt(t, pinned, segs, d);
      assert Apart(segs[k].base, End(segs[k]), d, Next(t, d) + DIRECT_FOOT_PAD);
    }
  }

  lemma TrimRoom(w: World, segs: seq<Seg>, size: nat)
    requires HeapOk(w, segs) && segs != [] && GRANULARITY <= size <= segs[0].size && size % 8 == 0
    ensures RoomFor(w.tags, segs, size)
  {
    hide Books, Mapped, Tiles, Truthful;
    HeapParts(w, segs);
    SegAt(w.tags, w.pinned, segs, 0);
    forall k | 1 <= k < |segs|
      ensures Apart(segs[k].base, End(segs[k]), segs[0].base, segs[0].base + size)
    {
      ApartAt(w.tags, w.pinned, segs, k, 0);
      SegAt(w.tags, w.pinned, segs, k);
    }
    forall d | d in w.tags.direct && d in w.tags.head
      ensures Apart(d, Next(w.tags, d) + DIRECT_FOOT_PAD, segs[0].base, segs[0].base + size)
    {
      DirectOkAt(w.tags, w.pinned, segs, d);
    }
  }

  lemma TrimSizes(t: Tags, segs: seq<Seg>, topsize: nat, extra: nat)
    requires Aligned(t, segs) && segs != [] && extra % GRANULARITY == 0 && extra < topsize < segs[0].size
      && topsize % 8 == 0
    ensures (segs[0].size - extra) % GRANULARITY == 0 && GRANULARITY <= segs[0].size - extra
      && (segs[0].size - extra) % 8 == 0 && (topsize - extra) % 8 == 0
    ensures PageAligned(segs[0].base + (segs[0].size - extra), extra)
  {
    Multiples(segs[0].size, extra);
    Eights(segs[0].size - extra, GRANULARITY / 8);
    Eights(extra, GRANULARITY / 8);
    EightsApart(extra, topsize);
    Paged(segs[0].base, segs[0].size - extra);
    Paged(0, extra);
  }

  lemma Multiples(a: nat, b: nat)
    requires a % GRANULARITY == 0 && b % GRANULARITY == 0 && b < a
    ensures (a - b) % GRANULARITY == 0
  {
  }

  lemma Paged(base: int, n: int)
    requires base % PAGE == 0 && n % GRANULARITY == 0
    ensures (base + n) % PAGE == 0
  {
    assert n == PAGE * (32 * (n / GRANULARITY));
  }

  /** alloc_trim: whole granules at the end of the top chunk go back to the system. */
  lemma TrimCall(w: World, segs: seq<Seg>, pages: set<int>, leaked: set<int>, extra: nat)
    requires InOrder(w, segs, pages, leaked) && segs != [] && extra % GRANULARITY == 0 && extra < w.topsize
    ensures w.top in w.tags.head && extra < segs[0].size
    ensures var w' := ResizeTop(w, w.topsize - extra);
      InOrder(w', ResizedSegs(w, segs, w.topsize - extra, segs[0].size - extra),
        pages - Pages(segs[0].base + (segs[0].size - extra), extra), leaked) && Moves(w, w')
  {
    hide Books, Mapped, Tiles, Truthful, Holds, Aligned, Kept, Pages, RoomFor, PageAligned;
    OrderParts(w, segs, pages, leaked);
    TopFacts(w);
    FirstSeg(w, segs);
    TrimSizes(w.tags, segs, w.topsize, extra);
    var n: nat, size: nat := w.topsize - extra, segs[0].size - extra;
    TrimRoom(w, segs, size);
    ResizeTopHeap(w, segs, n, size);
    ResizeKept(w, n);
    var t', segs' := ResizeTop(w, n).tags, ResizedSegs(w, segs, n, size);
    ResizedAligned(w.tags, t', segs, size, w.top + n);
    var cut := segs[0].base + size;
    forall q
      ensures SegUses(segs', q) <==> SegUses(segs, q) && !InPages(cut, extra, q)
      ensures InPages(cut, extra, q) ==> SegUses(segs, q) && !DirectUses(w.tags, q)
    {
      ResizedUses(segs, size, w.top + n, q);
      FirstUses(segs, q);
      if InPages(segs[0].base, segs[0].size, q) { PageOwner(w.tags, w.pinned, segs, 0, q); }
    }
    HoldsLess(w.tags, t', segs, segs', pages, leaked, cut, extra);
  }

  // ----- new segments

  lemma NewTopKept(w: World, segs: seq<Seg>, tbase: int, tsize: nat)
    requires HeapOk(w, segs) && Fresh(w.tags, segs, tbase, tbase + tsize) && GRANULARITY <= tsize
      && w.top in w.tags.head
    ensures Moves(w, NewTop(w, tbase, tsize - TOP_FOOT_SIZE))
      && SameDirect(w.tags, NewTop(w, tbase, tsize - TOP_FOOT_SIZE).tags)
  {
    hide Books, Mapped, Tiles, Truthful, Fresh, NewTop;
    HeapParts(w, segs);
    TopFacts(w);
    DirectsListed(w);
    NewTopLive(w, tbase, tsize - TOP_FOOT_SIZE);
    forall q | q in w.live ensures KeptAt(w, NewTop(w, tbase, tsize - TOP_FOOT_SIZE), q)
    {
      ListedAt(w, q);
      NewTopKeeps(w, segs, tbase, tsize, q);
    }
    forall d | d in w.tags.direct
      ensures d in NewTop(w, tbase, tsize - TOP_FOOT_SIZE).tags.head
        && NewTop(w, tbase, tsize - TOP_FOOT_SIZE).tags.head[d].size == w.tags.head[d].size
    {
      NewTopKeeps(w, segs, tbase, tsize, d);
    }
  }

  lemma NewTopLive(w: World, tbase: int, n: nat)
    requires w.top in w.tags.head
    ensures NewTop(w, tbase, n).live == w.live && NewTop(w, tbase, n).tags.direct == w.tags.direct
      && NewTop(w, tbase, n).binned == w.binned && NewTop(w, tbase, n).dv == w.dv
      && NewTop(w, tbase, n).dvsize == w.dvsize
  {
  }

  lemma WithSegmentUses(w: World, segs: seq<Seg>, tbase: int, tsize: nat, n: nat, q: int)
    requires segs != []
    ensures SegUses(WithSegment(w, segs, tbase, tsize, n), q) <==> SegUses(segs, q) || InPages(tbase, tsize, q)
  {
    var segs' := WithSegment(w, segs, tbase, tsize, n);
    assert segs'[0].base == tbase && segs'[0].size == tsize;
    assert forall k :: 0 <= k < |segs| ==> segs'[k + 1].base == segs[k].base && segs'[k + 1].size == segs[k].size;
    if SegUses(segs', q) {
      var k :| 0 <= k < |segs'| && InPages(segs'[k].base, segs'[k].size, q);
      assert k != 0 ==> InPages(segs[k - 1].base, segs[k - 1].size, q);
    }
    if SegUses(segs, q) {
      var k :| 0 <= k < |segs| && InPages(segs[k].base, segs[k].size, q);
      assert InPages(segs'[k + 1].base, segs'[k + 1].size, q);
    }
    if InPages(tbase, tsize, q) { assert InPages(segs'[0].base, segs'[0].size, q); }
  }

  lemma WithSegmentAligned(w: World, t': Tags, segs: seq<Seg>, tbase: int, tsize: nat, n: nat)
    requires Aligned(w.tags, segs) && SameDirect(w.tags, t') && segs != [] && Granular(tbase, tsize)
    ensures Aligned(t', WithSegment(w, segs, tbase, tsize, n))
  {
    var segs' := WithSegment(w, segs, tbase, tsize, n);
    assert forall k :: 0 < k < |segs'| ==> segs'[k].base == segs[k - 1].base && segs'[k].size == segs[k - 1].size;
  }

  /** add_segment. */
  lemma NewTopCall(w: World, segs: seq<Seg>, pages: set<int>, leaked: set<int>, tbase: int, tsize: nat)
    requires InOrder(w, segs, pages, leaked)
    requires GRANULARITY <= tsize && Granular(tbase, tsize) && Pages(tbase, tsize) !! pages
    ensures segs != [] && w.top in w.tags.head
    ensures var w' := NewTop(w, tbase, tsize - TOP_FOOT_SIZE);
      InOrder(w', WithSegment(w, segs, tbase, tsize, tsize - TOP_FOOT_SIZE), pages + Pages(tbase, tsize), leaked)
        && Moves(w, w')
  {
    hide Books, Mapped, Tiles, Truthful, Holds, Aligned, Kept, Pages, Fresh, NewTop, WithSegment, Granular, PageAligned;
    OrderParts(w, segs, pages, leaked);
    TopFacts(w);
    GranularFacts(tbase, tsize);
    MappedIsFresh(w.tags, w.pinned, segs, pages, leaked, tbase, tsize);
    var n := tsize - TOP_FOOT_SIZE;
    NewTopHeap(w, segs, tbase, tsize);
    NewTopKept(w, segs, tbase, tsize);
    var t', segs' := NewTop(w, tbase, n).tags, WithSegment(w, segs, tbase, tsize, n);
    WithSegmentAligned(w, t', segs, tbase, tsize, n);
    forall q
      ensures SegUses(segs', q) <==> SegUses(segs, q) || InPages(tbase, tsize, q)
    {
      WithSegmentUses(w, segs, tbase, tsize, n, q);
    }
    HoldsMore(w.tags, t', segs, segs', pages, leaked, tbase, tsize);
  }

  // ----- memory right before a segment

  lemma GrownUses(segs: seq<Seg>, k: nat, tsize: nat, q: int)
    requires k < |segs|
    ensures SegUses(Grown(segs, k, tsize), q) <==> SegUses(segs, q) || InPages(segs[k].base - tsize, tsize, q)
  {
    var segs' := Grown(segs, k, tsize);
    if SegUses(segs', q) {
      var j :| 0 <= j < |segs'| && InPages(segs'[j].base, segs'[j].size, q);
      assert InPages(segs[j].base, segs[j].size, q) || (j == k && InPages(segs[k].base - tsize, tsize, q));
    }
    if SegUses(segs, q) {
      var j :| 0 <= j < |segs| && InPages(segs[j].base, segs[j].size, q);
      assert InPages(segs'[j].base, segs'[j].size, q);
    }
    if InPages(segs[k].base - tsize, tsize, q) { assert InPages(segs'[k].base, segs'[k].size, q); }
  }

  lemma GrownAligned(t: Tags, t': Tags, segs: seq<Seg>, k: nat, tsize: nat)
    requires Aligned(t, segs) && SameDirect(t, t') && k < |segs| && Granular(segs[k].base - tsize, tsize)
    ensures Aligned(t', Grown(segs, k, tsize))
  {
  }

  /** prepend_alloc, first step. */
  lemma PrependCall(w: World, segs: seq<Seg>, pages: set<int>, leaked: set<int>, k: nat, tbase: int, tsize: nat,
                    nsize: nat)
    requires InOrder(w, segs, pages, leaked) && k < |segs| && segs[k].base == tbase + tsize
      && tsize - CHUNK_OVERHEAD >= nsize
    requires GRANULARITY <= tsize && Granular(tbase, tsize) && Pages(tbase, tsize) !! pages
    ensures var w' := Prepend(w, tbase, tsize, nsize);
      InOrder(w', Grown(segs, k, tsize), pages + Pages(tbase, tsize), leaked) && Gives(w, w', tbase, nsize)
        && tbase !in w.tags.direct
  {
    hide Books, Mapped, Tiles, Truthful, Holds, Aligned, Pages, Fresh, Granular, PageAligned;
    OrderParts(w, segs, pages, leaked);
    GranularFacts(tbase, tsize);
    MappedIsFresh(w.tags, w.pinned, segs, pages, leaked, tbase, tsize);
    PrependHeap(w, segs, k, tbase, tsize, nsize);
    var w' := Prepend(w, tbase, tsize, nsize);
    BooksTags(w);
    DirectsListed(w);
    ListedAt(w, tbase);
    forall q | q in w.live ensures KeptAt(w, w', q) { ListedAt(w, q); }
    GrownAligned(w.tags, w'.tags, segs, k, tsize);
    forall q
      ensures SegUses(Grown(segs, k, tsize), q) <==> SegUses(segs, q) || InPages(tbase, tsize, q)
    {
      GrownUses(segs, k, tsize, q);
    }
    HoldsMore(w.tags, w'.tags, segs, Grown(segs, k, tsize), pages, leaked, tbase, tsize);
  }

  // ----- unmapping a segment

  lemma WithoutUses(segs: seq<Seg>, k: nat, q: int)
    requires k < |segs|
    ensures SegUses(Without(segs, k), q) <==>
        exists j :: 0 <= j < |segs| && j != k && InPages(segs[j].base, segs[j].size, q)
  {
    var segs' := Without(segs, k);
    if SegUses(segs', q) {
      var j :| 0 <= j < |segs'| && InPages(segs'[j].base, segs'[j].size, q);
      WithoutAt(segs, k, j);
      var i := if j < k then j else j + 1;
      assert InPages(segs[i].base, segs[i].size, q);
    }
    if j :| 0 <= j < |segs| && j != k && InPages(segs[j].base, segs[j].size, q) {
      var i := if j < k then j else j - 1;
      WithoutAt(segs, k, i);
      assert InPages(segs'[i].base, segs'[i].size, q);
    }
  }

  lemma WithoutAligned(t: Tags, t': Tags, segs: seq<Seg>, k: nat)
    requires Aligned(t, segs) && SameDirect(t, t') && k < |segs|
    ensures Aligned(t', Without(segs, k))
  {
    forall i | 0 <= i < |segs| - 1 ensures Without(segs, k)[i] == segs[if i < k then i else i + 1] {
      WithoutAt(segs, k, i);
    }
  }

  /** The first chunk of the segment is loose and reaches the record behind it. */
  ghost predicate Unused(w: World, segs: seq<Seg>, k: nat)
    requires k < |segs|
  {
    segs[k].base in w.loose && segs[k].base in w.tags.head && Next(w.tags, segs[k].base) >= End(segs[k]) - TOP_FOOT_SIZE
  }

  /** Then it is all there is besides the record of the segment itself. */
  lemma UnusedHolds(w: World, segs: seq<Seg>, k: nat, c: int)
    requires HeapOk(w, segs) && 0 < k < |segs| && Unused(w, segs, k)
    requires c in w.tags.head && segs[k].base <= c < End(segs[k])
    ensures c == segs[k].base || c == segs[k].rec
    ensures c != w.dv && c !in w.binned && c !in w.live && c !in w.tags.direct && c != w.top
  {
    hide Books, Mapped, Tiles, Truthful;
    HeapParts(w, segs);
    SegAt(w.tags, w.pinned, segs, k);
    BaseIsFirst(w.tags, w.pinned, segs, c, k);
    var base, rec := segs[k].base, segs[k].rec;
    KindAt(w, base);
    KindAt(w, rec);
    KindAt(w, c);
    ChunkAt(w.tags, c);
    if base != c { PairAt(w.tags, base, c); }
    if base != rec { PairAt(w.tags, base, rec); }
    if c < rec { PairAt(w.tags, c, rec); } else if rec < c { PairAt(w.tags, rec, c); }
  }

  lemma UnmapKept(w: World, segs: seq<Seg>, k: nat)
    requires HeapOk(w, segs) && 0 < k < |segs| && Unused(w, segs, k)
    ensures var w' := Unmap(w, segs[k].base, End(segs[k])); Moves(w, w') && SameDirect(w.tags, w'.tags)
  {
    hide Books, Mapped, Tiles, Truthful, Unused;
    HeapParts(w, segs);
    DirectsListed(w);
    var w' := Unmap(w, segs[k].base, End(segs[k]));
    forall q | q in w.live
      ensures q in w'.live && w'.live[q] == w.live[q] && KeptAt(w, w', q)
        && (q in w.tags.direct ==> q in w'.tags.direct)
    {
      ListedAt(w, q);
      if segs[k].base <= q < End(segs[k]) { UnusedHolds(w, segs, k, q); }
    }
    assert w'.live == w.live;
    assert w'.tags.direct == w.tags.direct;
  }

  /** release_unused_segments, when the system takes the segment back. */
  lemma UnmapCall(w: World, segs: seq<Seg>, pages: set<int>, leaked: set<int>, k: nat)
    requires InOrder(w, segs, pages, leaked) && 0 < k < |segs| && Unused(w, segs, k)
    ensures var w' := Unmap(w, segs[k].base, End(segs[k]));
      InOrder(w', Without(segs, k), pages - Pages(segs[k].base, segs[k].size), leaked) && Moves(w, w')
        && w'.loose == w.loose - {segs[k].base}
  {
    hide Books, Mapped, Tiles, Truthful, Holds, Aligned, Kept, Pages, Unused;
    OrderParts(w, segs, pages, leaked);
    HeapParts(w, segs);
    var g := segs[k];
    forall c | c in w.tags.head && g.base <= c < End(g) ensures c != w.dv && c !in w.binned {
      UnusedHolds(w, segs, k, c);
    }
    UnmapHeap(w, segs, k);
    UnmapKept(w, segs, k);
    UnusedLoose(w, segs, k);
    var w' := Unmap(w, g.base, End(g));
    AlignedSeg(w.tags, segs, k);
    WithoutAligned(w.tags, w'.tags, segs, k);
    forall q
      ensures SegUses(Without(segs, k), q) <==> SegUses(segs, q) && !InPages(g.base, g.size, q)
      ensures InPages(g.base, g.size, q) ==> SegUses(segs, q) && !DirectUses(w.tags, q)
    {
      WithoutUses(segs, k, q);
      if InPages(g.base, g.size, q) { PageOwner(w.tags, w.pinned, segs, k, q); }
    }
    HoldsLess(w.tags, w'.tags, segs, Without(segs, k), pages, leaked, g.base, g.size);
  }

  lemma UnusedLoose(w: World, segs: seq<Seg>, k: nat)
    requires HeapOk(w, segs) && 0 < k < |segs| && Unused(w, segs, k)
    ensures Unmap(w, segs[k].base, End(segs[k])).loose == w.loose - {segs[k].base}
  {
    hide Books, Mapped, Tiles, Truthful;
    HeapParts(w, segs);
    SegAt(w.tags, w.pinned, segs, k);
    KindAt(w, segs[k].rec);
    forall c | c in w.loose && segs[k].base <= c < End(segs[k]) ensures c == segs[k].base
    {
      ListedAt(w, c);
      UnusedHolds(w, segs, k, c);
    }
  }

  // ----- directly mapped chunks

  /** direct_alloc. */
  lemma DirectCall(w: World, segs: seq<Seg>, pages: set<int>, leaked: set<int>, c: int, size: nat, nsize: nat)
    requires InOrder(w, segs, pages, leaked) && size >= DIRECT_CHUNK_OVERHEAD + nsize
    requires c > 0 && PageAligned(c, size + DIRECT_FOOT_PAD) && c + size + DIRECT_FOOT_PAD <= ADDRESS_LIMIT
      && Pages(c, size + DIRECT_FOOT_PAD) !! pages
    ensures var w' := MapDirect(w, c, size, nsize);
      InOrder(w', segs, pages + Pages(c, size + DIRECT_FOOT_PAD), leaked) && Gives(w, w', c, nsize)
  {
    hide Books, Mapped, Tiles, Truthful, Holds, Aligned, Pages, Fresh;
    OrderParts(w, segs, pages, leaked);
    BooksTags(w);
    DirectsListed(w);
    MappedIsFresh(w.tags, w.pinned, segs, pages, leaked, c, size + DIRECT_FOOT_PAD);
    DirectSize(c, size);
    MapDirectHeap(w, segs, c, size, nsize);
    ListedAt(w, c);
    var w' := MapDirect(w, c, size, nsize);
    forall q | q in w.live ensures KeptAt(w, w', q) { ListedAt(w, q); }
    HoldsDirect(w.tags, segs, pages, leaked, c, size);
  }

  lemma DirectSize(c: int, size: nat)
    requires PageAligned(c, size + DIRECT_FOOT_PAD)
    ensures c % 8 == 0 && size % 8 == 0
  {
  }

  /** free of a directly mapped chunk; if the system refuses to unmap it, its pages leak. */
  lemma UndirectCall(w: World, segs: seq<Seg>, pages: set<int>, leaked: set<int>, c: int, ok: bool)
    requires InOrder(w, segs, pages, leaked) && c in w.tags.direct
    ensures c in w.tags.head
    ensures var n := w.tags.head[c].size + DIRECT_FOOT_PAD; var w' := Unmap(w, c, c + n);
      InOrder(w', segs, if ok then pages - Pages(c, n) else pages, if ok then leaked else leaked + Pages(c, n))
        && Takes(w, w', c) && w'.loose == w.loose && w'.pinned == w.pinned
  {
    hide Books, Mapped, Tiles, Truthful, Holds, Aligned, Pages;
    OrderParts(w, segs, pages, leaked);
    DirectsListed(w);
    UnmapDirectHeap(w, segs, c);
    var n := w.tags.head[c].size + DIRECT_FOOT_PAD;
    var w' := Unmap(w, c, c + n);
    UndirectKept(w, segs, c);
    HoldsUndirect(w.tags, w'.tags, segs, w.pinned, pages, leaked, c, ok);
  }

  lemma UndirectKept(w: World, segs: seq<Seg>, c: int)
    requires HeapOk(w, segs) && c in w.tags.direct && c in w.tags.head
    ensures var w' := Unmap(w, c, Next(w.tags, c) + DIRECT_FOOT_PAD);
      && Takes(w, w', c) && w'.loose == w.loose && w'.pinned == w.pinned && w'.tags.direct == w.tags.direct - {c}
      && (forall d :: d in w'.tags.direct && d in w.tags.head ==>
          d in w'.tags.head && w'.tags.head[d] == w.tags.head[d])
  {
    hide Books, Mapped, Tiles, Truthful;
    HeapParts(w, segs);
    DirectsListed(w);
    KindAt(w, c);
    var w' := Unmap(w, c, Next(w.tags, c) + DIRECT_FOOT_PAD);
    ChunkAt(w.tags, c);
    forall q | q in w.tags.head
      ensures c <= q < Next(w.tags, c) + DIRECT_FOOT_PAD <==> q == c
    {
      DirectAlone(w, segs, c, q);
    }
    forall q | q in w.live || q in w.loose || q in w.pinned ensures q in w.tags.head { ListedAt(w, q); }
    assert w'.live == w.live - {c};
    assert w'.loose == w.loose;
    assert w'.pinned == w.pinned;
  }

  /** The first chunk of a segment other than the first. */
  lemma FirstChunk(w: World, segs: seq<Seg>, pages: set<int>, leaked: set<int>, k: nat)
    requires InOrder(w, segs, pages, leaked) && 0 < k < |segs| && w.loose == {}
    ensures segs[k].base in w.tags.head && segs[k].size >= GRANULARITY
    ensures var p := segs[k].base;
      !w.tags.head[p].cinuse ==>
          (p == w.dv && p != 0) || (p != w.dv && p in w.binned && w.binned[p] == w.tags.head[p].size)
  {
    hide Books, Mapped, Tiles, Truthful, Holds;
    HeapParts(w, segs);
    TopFacts(w);
    FirstSeg(w, segs);
    SegAt(w.tags, w.pinned, segs, k);
    SegAt(w.tags, w.pinned, segs, 0);
    ApartAt(w.tags, w.pinned, segs, 0, k);
    KindAt(w, segs[k].base);
  }
}
