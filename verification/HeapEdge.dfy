/** Changes at the edge of the mapped memory: growing a chunk into the top chunk,
    growing and trimming the top chunk, new segments with their records, segments
    mapped right before another one, unmapped segments, and directly mapped chunks
    (lj_alloc.c:745-763, 820-897, 963-1043, 1347-1355). */
module HeapEdge {
  import opened BoundaryTags
  import opened HeapWorld

  const RECORD_SIZE: nat := 32

  lemma TopFacts(w: World)
    requires Books(w)
    ensures w.top in w.tags.head && !w.tags.head[w.top].cinuse && w.tags.head[w.top].size == w.topsize > 0
      && w.topsize % 8 == 0
    ensures w.top !in w.tags.direct && w.top !in w.live && w.top !in w.pinned && w.top !in w.loose && w.top !in w.binned
      && w.top != w.dv
    ensures Tiles(w.tags) && Truthful(w.tags) && Listed(w)
  {
    hide Books, Tiles, Truthful;
    BooksTags(w);
    ListedAt(w, w.top);
    KindAt(w, w.top);
    NotDirect(w, w.top);
    ChunkAt(w.tags, w.top);
  }

  // ----- growing into top

  /** A chunk handed out takes the front of the top chunk behind it. */
  function GrowIntoTop(w: World, p: int, nb: nat, nsize: nat): World
    requires p in w.tags.head && nb < w.tags.head[p].size + w.topsize
  {
    var n := w.tags.head[p].size + w.topsize;
    w.(tags := Split(Merged(w.tags, p, n, true), p, nb, false), top := p + nb, topsize := n - nb,
      live := w.live[p := nsize])
  }

  lemma GrowIntoTopOk(w: World, p: int, nb: nat, nsize: nat)
    requires Books(w) && p in w.live && p in w.tags.head && p !in w.tags.direct
    requires Next(w.tags, p) == w.top && w.top + w.topsize in w.tags.lims
    requires w.tags.head[p].size < nb < w.tags.head[p].size + w.topsize && nb % 8 == 0 && nb - CHUNK_OVERHEAD >= nsize
    ensures Books(GrowIntoTop(w, p, nb, nsize))
  {
    hide Books, Tiles, Truthful, Merged, Split, IsRun;
    TopFacts(w);
    var n := w.tags.head[p].size + w.topsize;
    GrowRun(w, p);
    LimNot(w.tags, p + n);
    MergedTiles(w.tags, p, n, true);
    MergedTruthful(w.tags, p, n, true);
    var t1 := Merged(w.tags, p, n, true);
    MergedHead(w.tags, p, n, true, p);
    MergedHead(w.tags, p, n, true, p + n);
    MergedFoot(w.tags, p, n, true, p);
    SplitTiles(t1, p, nb, false);
    SplitTruthful(t1, p, nb, false);
    var w' := GrowIntoTop(w, p, nb, nsize);
    forall d | d in w'.tags.head
      ensures KindOk(w', d)
    {
      GrowKind(w, p, nb, nsize, d);
    }
    forall c | c in w'.binned || c in w'.live || c in w'.pinned || c in w'.loose || (c == w'.dv && c != 0)
      || c == w'.top
      ensures c in w'.tags.head
    {
      SplitHead(t1, p, nb, false, c);
      MergedHead(w.tags, p, n, true, c);
      ListedAt(w, c);
      if c in w.tags.head { GrowOutside(w, p, c); }
    }
    BooksIntro(w');
  }

  lemma GrowRun(w: World, p: int)
    requires Books(w) && p in w.tags.head && p !in w.tags.direct
    requires Next(w.tags, p) == w.top && w.top + w.topsize in w.tags.lims
    ensures IsRun(w.tags, p, w.tags.head[p].size + w.topsize)
  {
    hide Books, Tiles, Truthful;
    TopFacts(w);
    ChunkAt(w.tags, p);
    var n := w.tags.head[p].size + w.topsize;
    forall c | c in w.tags.head && p <= c < p + n
      ensures c !in w.tags.direct
    {
      GrowOutside(w, p, c);
    }
    forall e | e in w.tags.lims
      ensures !(p < e < p + n)
    {
      if p < e {
        PairAt(w.tags, p, e);
        LimNot(w.tags, e);
        if w.top < e { PairAt(w.tags, w.top, e); }
      }
    }
  }

  /** Between p and the end of the top chunk behind it there are no other chunks. */
  lemma GrowOutside(w: World, p: int, c: int)
    requires Books(w) && p in w.tags.head && Next(w.tags, p) == w.top && c in w.tags.head
    ensures c <= p || c == w.top || w.top + w.topsize <= c
  {
    hide Books, Tiles, Truthful;
    TopFacts(w);
    if p < c { PairAt(w.tags, p, c); }
    if w.top < c { PairAt(w.tags, w.top, c); }
  }

  lemma GrowKind(w: World, p: int, nb: nat, nsize: nat, d: int)
    requires Books(w) && p in w.live && p in w.tags.head && p !in w.tags.direct
    requires Next(w.tags, p) == w.top && w.top + w.topsize in w.tags.lims
    requires w.tags.head[p].size < nb < w.tags.head[p].size + w.topsize && nb - CHUNK_OVERHEAD >= nsize
    requires d in GrowIntoTop(w, p, nb, nsize).tags.head
    ensures KindOk(GrowIntoTop(w, p, nb, nsize), d)
  {
    hide Books, Tiles, Truthful, Merged, Split, IsRun;
    TopFacts(w);
    GrowRun(w, p);
    var n := w.tags.head[p].size + w.topsize;
    var t1, w' := Merged(w.tags, p, n, true), GrowIntoTop(w, p, nb, nsize);
    MergedTiles(w.tags, p, n, true);
    MergedHead(w.tags, p, n, true, p);
    MergedHead(w.tags, p, n, true, p + n);
    LimNot(w.tags, p + n);
    MergedHead(w.tags, p, n, true, d);
    MergedFoot(w.tags, p, n, true, d);
    SplitInside(t1, p, nb);
    SplitHead(t1, p, nb, false, d);
    SplitNext(t1, p, nb, false, d);
    SplitHead(t1, p, nb, false, Next(w'.tags, d));
    ChunkAt(w.tags, p);
    KindAt(w, p);
    if d != p + nb {
      MergedNext(w.tags, p, n, true, d);
      KindAt(w, d);
      LimNot(w.tags, Next(w.tags, d));
    } else {
      GrowMiddle(w, p, nb);
    }
  }

  /** The new top address was not the address of a chunk in use. */
  lemma GrowMiddle(w: World, p: int, nb: nat)
    requires Books(w) && p in w.tags.head && Next(w.tags, p) == w.top
    requires w.tags.head[p].size < nb < w.tags.head[p].size + w.topsize
    ensures p + nb !in w.tags.head && p + nb !in w.live && p + nb !in w.pinned && p + nb !in w.loose
      && p + nb !in w.binned && (p + nb == w.dv ==> w.dv == 0)
    ensures p + nb !in w.tags.direct
  {
    hide Books, Tiles, Truthful;
    TopFacts(w);
    if p + nb in w.tags.head { GrowOutside(w, p, p + nb); }
    ListedAt(w, p + nb);
    NotDirectInside(w.tags, p + nb);
  }

  // ----- growing and trimming top

  /** init_top on the same address with another size. */
  function ResizeTop(w: World, n: nat): World
    requires w.top in w.tags.head
  {
    w.(tags := Resized(w.tags, w.top, n, false), topsize := n)
  }

  lemma ResizeTopOk(w: World, n: nat)
    requires Books(w) && CanResize(w.tags, w.top, n)
    ensures Books(ResizeTop(w, n))
  {
    hide Books, Tiles, Truthful, CanResize;
    TopFacts(w);
    ResizedTiles(w.tags, w.top, n, false);
    ResizedTruthful(w.tags, w.top, n, false);
    var w' := ResizeTop(w, n);
    forall d | d in w'.tags.head
      ensures KindOk(w', d)
    {
      KindAt(w, d);
    }
    ResizeListed(w, n);
    BooksIntro(w');
  }

  lemma ResizeListed(w: World, n: nat)
    requires Listed(w) && w.top in w.tags.head
    ensures Listed(ResizeTop(w, n))
  {
  }

  // ----- a new segment

  /** add_segment: a new top chunk in the new region, and a record chunk for the old
      segment where its top chunk ended, or in place of a top chunk too small to be
      kept. */
  function NewTop(w: World, tbase: int, n: nat): World
    requires w.top in w.tags.head
  {
    var t := if w.topsize >= MIN_CHUNK_SIZE then WithRecord(w.tags, w.top)
      else Resized(w.tags, w.top, RECORD_SIZE, true);
    var rec := RecordAt(w);
    w.(tags := AddAlone(t, tbase, Head(n, false, true)), top := tbase, topsize := n,
       pinned := w.pinned + {rec}, loose := if w.topsize >= MIN_CHUNK_SIZE then w.loose + {w.top} else w.loose)
  }

  function RecordAt(w: World): int {
    if w.topsize >= MIN_CHUNK_SIZE then w.top + w.topsize else w.top
  }

  /** A record chunk behind the free chunk p, which ended at a limit. */
  function WithRecord(t: Tags, p: int): Tags
    requires p in t.head
  {
    var e := Next(t, p);
    t.(head := t.head[e := Head(RECORD_SIZE, true, false)], foot := t.foot[e := PrevSize(t.head[p].size)],
       lims := t.lims - {e} + {e + RECORD_SIZE})
  }

  /** The record chunk is what remains in use when the enlarged top is cut. */
  lemma WithRecordOk(t: Tags, p: int)
    requires Tiles(t) && Truthful(t) && p in t.head && !t.head[p].cinuse && t.head[p].pinuse
    requires CanResize(t, p, t.head[p].size + RECORD_SIZE)
    ensures Tiles(WithRecord(t, p)) && Truthful(WithRecord(t, p)) && Next(t, p) !in t.head
  {
    hide Tiles, Truthful, CanResize;
    ResizeParts(t, p, t.head[p].size + RECORD_SIZE);
    var s := t.head[p].size;
    ChunkAt(t, p);
    LimNot(t, Next(t, p));
    var t1 := Resized(t, p, s + RECORD_SIZE, true);
    ResizedTiles(t, p, s + RECORD_SIZE, true);
    ResizedTruthful(t, p, s + RECORD_SIZE, true);
    ChunkAt(t1, p);
    SplitTiles(t1, p, s, true);
    SplitTruthful(t1, p, s, true);
    var t2 := Split(t1, p, s, true);
    OneChunkRun(t2, p);
    MergedTiles(t2, p, s, false);
    MergedTruthful(t2, p, s, false);
    RecordSame(t, p);
  }

  lemma ResizeParts(t: Tags, p: int, n: nat)
    requires CanResize(t, p, n)
    ensures p in t.head && p !in t.direct && Next(t, p) in t.lims && n > 0 && n % 8 == 0
  {
  }

  lemma OneChunkRun(t: Tags, c: int)
    requires Tiles(t) && c in t.head && c !in t.direct
    ensures IsRun(t, c, t.head[c].size)
  {
    hide Tiles;
    var n := t.head[c].size;
    ChunkAt(t, c);
    forall d | d in t.head && c <= d < c + n
      ensures d == c
    {
      if d != c { PairAt(t, c, d); }
    }
    forall e | e in t.lims
      ensures !(c < e < c + n)
    {
      if c < e { PairAt(t, c, e); }
    }
  }

  lemma RecordSame(t: Tags, p: int)
    requires Tiles(t) && p in t.head && !t.head[p].cinuse && Next(t, p) in t.lims
    requires CanResize(t, p, t.head[p].size + RECORD_SIZE)
    ensures var s := t.head[p].size;
      var t1 := Resized(t, p, s + RECORD_SIZE, true);
      s > 0 && WithRecord(t, p) == Merged(Split(t1, p, s, true), p, s, false)
  {
    hide Tiles;
    ChunkAt(t, p);
    var s := t.head[p].size;
    var e := p + s;
    LimNot(t, e);
    var t1 := Resized(t, p, s + RECORD_SIZE, true);
    var t2 := Split(t1, p, s, true);
    var t3 := Merged(t2, p, s, false);
    var u := WithRecord(t, p);
    forall c
      ensures c in t3.head <==> c in u.head
      ensures c in u.head ==> t3.head[c] == u.head[c]
    {
      if c in t.head && c != p && p < c { PairAt(t, p, c); }
    }
    assert t3.head == u.head;
    assert t3.foot == u.foot;
  }

  /** What has to be known of the old segment and the new region. */
  ghost predicate CanAddTop(w: World, tbase: int, n: nat) {
    && w.top in w.tags.head && w.tags.head[w.top].pinuse
    && CanResize(w.tags, w.top, if w.topsize >= MIN_CHUNK_SIZE then w.topsize + RECORD_SIZE else RECORD_SIZE)
    && tbase > 0 && tbase % 8 == 0 && n > 0 && n % 8 == 0
    && Vacant(w.tags, tbase, tbase + n)
    && (w.top + w.topsize + RECORD_SIZE < tbase || tbase + n < w.top)
  }

  lemma CanAddTopParts(w: World, tbase: int, n: nat)
    requires CanAddTop(w, tbase, n)
    ensures w.top in w.tags.head && w.tags.head[w.top].pinuse
    ensures CanResize(w.tags, w.top, if w.topsize >= MIN_CHUNK_SIZE then w.topsize + RECORD_SIZE else RECORD_SIZE)
    ensures tbase > 0 && tbase % 8 == 0 && n > 0 && n % 8 == 0 && Vacant(w.tags, tbase, tbase + n)
    ensures w.top + w.topsize + RECORD_SIZE < tbase || tbase + n < w.top
  {
  }

  lemma NewTopOk(w: World, tbase: int, n: nat)
    requires Books(w) && CanAddTop(w, tbase, n)
    ensures Books(NewTop(w, tbase, n))
  {
    hide Books, Tiles, Truthful, CanAddTop, CanResize, Vacant, WithRecord, Resized, Listed;
    TopFacts(w);
    CanAddTopParts(w, tbase, n);
    var big := w.topsize >= MIN_CHUNK_SIZE;
    if big {
      WithRecordOk(w.tags, w.top);
    } else {
      ResizedTiles(w.tags, w.top, RECORD_SIZE, true);
      ResizedTruthful(w.tags, w.top, RECORD_SIZE, true);
    }
    var t := if big then WithRecord(w.tags, w.top) else Resized(w.tags, w.top, RECORD_SIZE, true);
    RecordVacant(w, tbase, n);
    AddAloneOk(t, tbase, Head(n, false, true));
    var w' := NewTop(w, tbase, n);
    forall d | d in w'.tags.head
      ensures KindOk(w', d)
    {
      NewTopKind(w, tbase, n, d);
    }
    NewTopListed(w, tbase, n);
    BooksIntro(w');
  }

  lemma RecordVacant(w: World, tbase: int, n: nat)
    requires Books(w) && CanAddTop(w, tbase, n)
    ensures var t := if w.topsize >= MIN_CHUNK_SIZE then WithRecord(w.tags, w.top)
      else Resized(w.tags, w.top, RECORD_SIZE, true);
            Vacant(t, tbase, tbase + n)
  {
    hide Books, Tiles, Truthful, CanAddTop, CanResize;
    TopFacts(w);
    CanAddTopParts(w, tbase, n);
    VacantStep(w.tags, w.top, tbase, n);
  }

  lemma VacantStep(t: Tags, p: int, tbase: int, n: nat)
    requires p in t.head && t.head[p].size > 0 && Vacant(t, tbase, tbase + n)
    requires p + t.head[p].size + RECORD_SIZE < tbase || tbase + n < p
    ensures Vacant(WithRecord(t, p), tbase, tbase + n)
    ensures Vacant(Resized(t, p, RECORD_SIZE, true), tbase, tbase + n)
  {
  }

  lemma NewTopListed(w: World, tbase: int, n: nat)
    requires Listed(w) && w.top in w.tags.head && w.tags.head[w.top].size == w.topsize
    ensures Listed(NewTop(w, tbase, n))
  {
  }

  lemma NewTopKind(w: World, tbase: int, n: nat, d: int)
    requires Books(w) && CanAddTop(w, tbase, n) && w.top in w.tags.head && d in NewTop(w, tbase, n).tags.head
    ensures KindOk(NewTop(w, tbase, n), d)
  {
    hide Books, Tiles, Truthful, CanAddTop, CanResize, Vacant;
    TopFacts(w);
    CanAddTopParts(w, tbase, n);
    ResizeParts(w.tags, w.top, if w.topsize >= MIN_CHUNK_SIZE then w.topsize + RECORD_SIZE else RECORD_SIZE);
    LimNot(w.tags, w.top + w.topsize);
    VacantAt(w.tags, tbase, tbase + n, tbase);
    ListedAt(w, tbase);
    NotDirectInside(w.tags, tbase);
    NotDirectInside(w.tags, w.top + w.topsize);
    ListedAt(w, w.top + w.topsize);
    ChunkAt(w.tags, w.top);
    if d in w.tags.head {
      KindAt(w, d);
      ChunkAt(w.tags, d);
    }
  }

  // ----- a region mapped right before a segment

  /** prepend_alloc, first step: the whole region is one chunk handed out. */
  function Prepend(w: World, c: int, n: nat, nsize: nat): World {
    w.(tags := AddBefore(w.tags, c, n), live := w.live[c := nsize])
  }

  lemma PrependOk(w: World, c: int, n: nat, nsize: nat)
    requires Books(w) && c > 0 && c % 8 == 0 && n >= MIN_CHUNK_SIZE && n % 8 == 0 && n - CHUNK_OVERHEAD >= nsize
    requires c + n in w.tags.head && w.tags.head[c + n].pinuse && c + n !in w.tags.direct && VacantBefore(w.tags, c, n)
    ensures Books(Prepend(w, c, n, nsize)) && c !in w.tags.head
  {
    hide Books, Tiles, Truthful, VacantBefore;
    BooksTags(w);
    AddBeforeOk(w.tags, c, n);
    VacantBeforeAt(w.tags, c, n, c);
    NotDirectInside(w.tags, c);
    var w' := Prepend(w, c, n, nsize);
    ListedAt(w, c);
    forall d | d in w'.tags.head
      ensures KindOk(w', d)
    {
      if d != c {
        KindAt(w, d);
      }
    }
    BooksIntro(w');
  }

  // ----- unmapping

  /** All chunks of a region leave: what was loose or bookkeeping there is gone. */
  function Unmap(w: World, lo: int, hi: int): World {
    w.(tags := Dropped(w.tags, lo, hi), loose := (set c | c in w.loose && !(lo <= c < hi)),
       pinned := (set c | c in w.pinned && !(lo <= c < hi)),
         live := (map c | c in w.live && !(lo <= c < hi) :: w.live[c]))
  }

  /** The region holds no top chunk, victim or binned chunk. */
  ghost predicate CanUnmap(w: World, lo: int, hi: int) {
    && 0 < lo && Closed(w.tags, lo, hi)
    && forall c :: c in w.tags.head && lo <= c < hi ==> c != w.top && c != w.dv && c !in w.binned
  }

  lemma CanUnmapAt(w: World, lo: int, hi: int, c: int)
    requires CanUnmap(w, lo, hi)
    ensures Closed(w.tags, lo, hi) && 0 < lo
    ensures c in w.tags.head && lo <= c < hi ==> c != w.top && c != w.dv && c !in w.binned
  {
  }

  lemma UnmapOk(w: World, lo: int, hi: int)
    requires Books(w) && CanUnmap(w, lo, hi)
    ensures Books(Unmap(w, lo, hi))
  {
    hide Books, Tiles, Truthful, CanUnmap, Closed, Dropped, FreeBefore;
    BooksTags(w);
    CanUnmapAt(w, lo, hi, w.top);
    DroppedOk(w.tags, lo, hi);
    DroppedParts(w.tags, lo, hi);
    var w' := Unmap(w, lo, hi);
    forall d | d in w'.tags.head
      ensures KindOk(w', d)
    {
      KindAt(w, d);
      ClosedAt(w.tags, lo, hi, d);
    }
    forall c | c in w'.binned || c in w'.live || c in w'.pinned || c in w'.loose || (c == w'.dv && c != 0)
      || c == w'.top
      ensures c in w'.tags.head
    {
      ListedAt(w, c);
      CanUnmapAt(w, lo, hi, c);
    }
    BooksIntro(w');
  }

  // ----- directly mapped chunks

  function MapDirect(w: World, c: int, size: nat, nsize: nat): World {
    w.(tags := AddDirect(w.tags, c, size), live := w.live[c := nsize])
  }

  lemma MapDirectOk(w: World, c: int, size: nat, nsize: nat)
    requires Books(w) && c > 0 && c % 8 == 0 && size % 8 == 0 && size > 0 && size >= DIRECT_CHUNK_OVERHEAD + nsize
    requires Vacant(w.tags, c, c + size)
    ensures Books(MapDirect(w, c, size, nsize)) && c !in w.tags.head
  {
    hide Books, Tiles, Truthful, Vacant;
    BooksTags(w);
    AddDirectOk(w.tags, c, size);
    VacantAt(w.tags, c, c + size, c);
    ListedAt(w, c);
    var w' := MapDirect(w, c, size, nsize);
    forall d | d in w'.tags.head
      ensures KindOk(w', d)
    {
      if d != c {
        KindAt(w, d);
      }
    }
    BooksIntro(w');
  }
}
