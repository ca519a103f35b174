/** What every chunk of the heap is: handed out, bookkeeping, the top chunk, the
    designated victim, in a bin, or (only in the middle of an operation) loose. */
module HeapWorld {
  import opened BoundaryTags

  const MIN_CHUNK_SIZE: nat := 32
  const CHUNK_OVERHEAD: nat := 8
  const DIRECT_CHUNK_OVERHEAD: nat := 16

  /** `live` maps the chunks handed out to the requested sizes, `pinned` are the chunks
      of malloc_state and of the segment records, `loose` are free chunks on their way
      from one place to another. */
  datatype World = World(tags: Tags, top: int, topsize: nat, dv: int, dvsize: nat,
                         binned: map<int, nat>, live: map<int, nat>, pinned: set<int>, loose: set<int>)

  ghost predicate KindOk(w: World, c: int)
    requires c in w.tags.head
  {
    var h := w.tags.head[c];
    && (h.cinuse <==> c in w.live || c in w.pinned)
    && !(c in w.live && c in w.pinned)
    && (!h.cinuse ==> c == w.top || c == w.dv || c in w.binned || c in w.loose)
    && (c == w.top ==> !h.cinuse && h.size == w.topsize)
    && (c == w.dv ==> !h.cinuse && h.size == w.dvsize && c != w.top)
    && (c in w.binned ==> !h.cinuse && h.size == w.binned[c] && c != w.top && c != w.dv)
    && (c in w.loose ==> !h.cinuse && c != w.top && c != w.dv && c !in w.binned)
    && (!h.cinuse && c != w.top ==> h.size >= MIN_CHUNK_SIZE && Next(w.tags, c) in w.tags.head)
    && (c in w.live && c !in w.tags.direct ==>
          h.size >= MIN_CHUNK_SIZE && h.size - CHUNK_OVERHEAD >= w.live[c] && Next(w.tags, c) in w.tags.head)
    && (c in w.tags.direct ==> c in w.live && h.size >= DIRECT_CHUNK_OVERHEAD + w.live[c])
  }

  ghost predicate Listed(w: World) {
    && w.top in w.tags.head
    && (if w.dv == 0 then w.dvsize == 0 else w.dv in w.tags.head)
    && (forall c :: c in w.binned || c in w.live || c in w.pinned || c in w.loose ==> c in w.tags.head)
  }

  /** The books: every chunk is of exactly one kind, and the tags are in order. */
  ghost predicate Books(w: World) {
    && Tiles(w.tags) && Truthful(w.tags) && Listed(w)
    && forall c :: c in w.tags.head ==> KindOk(w, c)
  }

  lemma KindAt(w: World, c: int)
    requires Books(w) && c in w.tags.head
    ensures KindOk(w, c)
  {
  }

  lemma BooksTags(w: World)
    requires Books(w)
    ensures Tiles(w.tags) && Truthful(w.tags) && Listed(w)
  {
  }

  lemma ListedAt(w: World, c: int)
    requires Listed(w)
    ensures c in w.binned || c in w.live || c in w.pinned || c in w.loose || (c == w.dv && c != 0) || c == w.top ==>
        c in w.tags.head
  {
  }

  lemma BooksIntro(w: World)
    requires Tiles(w.tags) && Truthful(w.tags) && Listed(w)
    requires forall c :: c in w.tags.head ==> KindOk(w, c)
    ensures Books(w)
  {
  }

  // ----- handing out

  /** A loose chunk is handed out whole. */
  function UseWhole(w: World, c: int, nsize: nat): World
    requires c in w.tags.head
  {
    w.(tags := Merged(w.tags, c, w.tags.head[c].size, true), loose := w.loose - {c}, live := w.live[c := nsize])
  }

  lemma WholeRun(w: World, c: int)
    requires Books(w) && c in w.tags.head && c !in w.tags.direct
    ensures IsRun(w.tags, c, w.tags.head[c].size)
  {
    hide Books;
    BooksTags(w);
    var n := w.tags.head[c].size;
    ChunkAt(w.tags, c);
    forall d | d in w.tags.head && c <= d < c + n
      ensures d == c
    {
      if d != c { PairAt(w.tags, c, d); }
    }
    forall e | e in w.tags.lims
      ensures !(c < e < c + n)
    {
      if c < e { PairAt(w.tags, c, e); }
    }
  }

  lemma UseWholeOk(w: World, c: int, nsize: nat)
    requires Books(w) && c in w.loose && w.tags.head[c].size - CHUNK_OVERHEAD >= nsize
    ensures Books(UseWhole(w, c, nsize))
  {
    hide Books, Tiles, Truthful, Merged, IsRun;
    BooksTags(w);
    ListedAt(w, c);
    var n := w.tags.head[c].size;
    var w' := UseWhole(w, c, nsize);
    KindAt(w, c);
    WholeRun(w, c);
    BooksTags(w);
    MergedTiles(w.tags, c, n, true);
    MergedTruthful(w.tags, c, n, true);
    forall d | d in w'.tags.head
      ensures KindOk(w', d)
    {
      UseWholeKind(w, c, nsize, d);
    }
    MergedKeeps(w.tags, c, true);
    BooksIntro(w');
  }

  lemma MergedKeeps(t: Tags, c: int, cinuse: bool)
    requires Tiles(t) && c in t.head && IsRun(t, c, t.head[c].size)
    ensures Merged(t, c, t.head[c].size, cinuse).head.Keys == t.head.Keys
  {
    hide Tiles, Merged, IsRun;
    var t' := Merged(t, c, t.head[c].size, cinuse);
    ChunkAt(t, c);
    forall d
      ensures d in t'.head <==> d in t.head
    {
      MergedHead(t, c, t.head[c].size, cinuse, d);
      if d in t.head && c < d { PairAt(t, c, d); }
    }
  }

  lemma UseWholeKind(w: World, c: int, nsize: nat, d: int)
    requires Books(w) && c in w.loose && w.tags.head[c].size - CHUNK_OVERHEAD >= nsize
    requires IsRun(w.tags, c, w.tags.head[c].size) && d in UseWhole(w, c, nsize).tags.head
    ensures KindOk(UseWhole(w, c, nsize), d)
  {
    hide Books, Tiles, Truthful, Merged, IsRun;
    BooksTags(w);
    ListedAt(w, c);
    var n := w.tags.head[c].size;
    var w' := UseWhole(w, c, nsize);
    BooksTags(w);
    MergedHead(w.tags, c, n, true, d);
    KindAt(w, d);
    KindAt(w, c);
    MergedNext(w.tags, c, n, true, d);
    MergedKeeps(w.tags, c, true);
    MergedFoot(w.tags, c, n, true, d);
  }

  /** The front of a loose chunk is handed out, the rest stays loose. */
  function UseFront(w: World, c: int, nb: nat, nsize: nat): World
    requires c in w.tags.head && nb < w.tags.head[c].size
  {
    w.(tags := Split(w.tags, c, nb, false), loose := w.loose - {c} + {c + nb}, live := w.live[c := nsize])
  }

  /** The front of the top chunk is handed out. */
  function UseTop(w: World, nb: nat, nsize: nat): World
    requires w.top in w.tags.head && nb < w.tags.head[w.top].size && nb < w.topsize
  {
    w.(tags := Split(w.tags, w.top, nb, false), top := w.top + nb, topsize := w.topsize - nb,
      live := w.live[w.top := nsize])
  }

  /** A chunk handed out is cut in two, both still handed out. */
  function CutLive(w: World, p: int, nb: nat, nsize: nat): World
    requires p in w.tags.head && nb < w.tags.head[p].size
  {
    w.(tags := Split(w.tags, p, nb, true), live := w.live[p := nsize][p + nb := 0])
  }

  lemma SplitReady(w: World, c: int, nb: nat, cinuse: bool)
    requires Books(w) && c in w.tags.head && c !in w.tags.direct && 0 < nb < w.tags.head[c].size && nb % 8 == 0
    requires cinuse || !w.tags.head[c].cinuse
    ensures Tiles(Split(w.tags, c, nb, cinuse)) && Truthful(Split(w.tags, c, nb, cinuse))
    ensures c + nb !in w.tags.head && Split(w.tags, c, nb, cinuse).head.Keys == w.tags.head.Keys + {c + nb}
  {
    hide Books;
    hide Tiles, Truthful, Split;
    BooksTags(w);
    if Next(w.tags, c) in w.tags.head {
      AfterAt(w.tags, c);
    }
    SplitTiles(w.tags, c, nb, cinuse);
    SplitTruthful(w.tags, c, nb, cinuse);
    SplitInside(w.tags, c, nb);
    forall d
      ensures d in Split(w.tags, c, nb, cinuse).head <==> d in w.tags.head || d == c + nb
    {
      SplitHead(w.tags, c, nb, cinuse, d);
    }
  }

  lemma NotDirect(w: World, c: int)
    requires Books(w) && c in w.tags.head && !w.tags.head[c].cinuse
    ensures c !in w.tags.direct
  {
    if c in w.tags.direct {
      DirectAt(w.tags, c);
    }
  }

  lemma UseFrontOk(w: World, c: int, nb: nat, nsize: nat)
    requires Books(w) && c in w.loose && MIN_CHUNK_SIZE <= nb && nb % 8 == 0 && nb - CHUNK_OVERHEAD >= nsize
    requires nb + MIN_CHUNK_SIZE <= w.tags.head[c].size
    ensures Books(UseFront(w, c, nb, nsize))
  {
    hide Books, Tiles, Truthful, Split;
    BooksTags(w);
    ListedAt(w, c);
    var w' := UseFront(w, c, nb, nsize);
    KindAt(w, c);
    NotDirect(w, c);
    SplitReady(w, c, nb, false);
    BooksTags(w);
    forall d | d in w'.tags.head
      ensures KindOk(w', d)
    {
      UseFrontKind(w, c, nb, nsize, d);
    }
    BooksIntro(w');
  }

  lemma UseFrontKind(w: World, c: int, nb: nat, nsize: nat, d: int)
    requires Books(w) && c in w.loose && c !in w.tags.direct && MIN_CHUNK_SIZE <= nb && nb - CHUNK_OVERHEAD >= nsize
    requires nb + MIN_CHUNK_SIZE <= w.tags.head[c].size && c + nb !in w.tags.head
    requires d in UseFront(w, c, nb, nsize).tags.head
    ensures KindOk(UseFront(w, c, nb, nsize), d)
  {
    hide Books, Tiles, Truthful, Split;
    BooksTags(w);
    SplitHead(w.tags, c, nb, false, d);
    KindAt(w, c);
    SplitNext(w.tags, c, nb, false, d);
    SplitHead(w.tags, c, nb, false, Next(UseFront(w, c, nb, nsize).tags, d));
    if d != c + nb {
      KindAt(w, d);
    } else {
      NotDirectInside(w.tags, d);
    }
  }

  lemma UseTopOk(w: World, nb: nat, nsize: nat)
    requires Books(w) && MIN_CHUNK_SIZE <= nb < w.topsize && nb % 8 == 0 && nb - CHUNK_OVERHEAD >= nsize
    ensures w.tags.head[w.top].size == w.topsize && Books(UseTop(w, nb, nsize))
  {
    hide Books, Tiles, Truthful, Split;
    BooksTags(w);
    ListedAt(w, w.top);
    KindAt(w, w.top);
    NotDirect(w, w.top);
    SplitReady(w, w.top, nb, false);
    BooksTags(w);
    var w' := UseTop(w, nb, nsize);
    forall d | d in w'.tags.head
      ensures KindOk(w', d)
    {
      UseTopKind(w, nb, nsize, d);
    }
    BooksIntro(w');
  }

  lemma UseTopKind(w: World, nb: nat, nsize: nat, d: int)
    requires Books(w) && MIN_CHUNK_SIZE <= nb < w.topsize && nb - CHUNK_OVERHEAD >= nsize
    requires w.top in w.tags.head && w.top !in w.tags.direct && w.tags.head[w.top].size == w.topsize
      && w.top + nb !in w.tags.head
    requires d in UseTop(w, nb, nsize).tags.head
    ensures KindOk(UseTop(w, nb, nsize), d)
  {
    hide Books, Tiles, Truthful, Split;
    BooksTags(w);
    SplitHead(w.tags, w.top, nb, false, d);
    KindAt(w, w.top);
    SplitNext(w.tags, w.top, nb, false, d);
    SplitHead(w.tags, w.top, nb, false, Next(UseTop(w, nb, nsize).tags, d));
    if d != w.top + nb {
      KindAt(w, d);
    } else {
      NotDirectInside(w.tags, d);
    }
  }

  lemma CutLiveOk(w: World, p: int, nb: nat, nsize: nat)
    requires Books(w) && p in w.live && p !in w.tags.direct && MIN_CHUNK_SIZE <= nb && nb % 8 == 0
      && nb - CHUNK_OVERHEAD >= nsize
    requires p in w.tags.head && nb + MIN_CHUNK_SIZE <= w.tags.head[p].size
    ensures Books(CutLive(w, p, nb, nsize))
  {
    hide Books, Tiles, Truthful, Split;
    var w' := CutLive(w, p, nb, nsize);
    KindAt(w, p);
    SplitReady(w, p, nb, true);
    BooksTags(w);
    forall d | d in w'.tags.head
      ensures KindOk(w', d)
    {
      CutLiveKind(w, p, nb, nsize, d);
    }
    BooksIntro(w');
  }

  lemma CutLiveKind(w: World, p: int, nb: nat, nsize: nat, d: int)
    requires Books(w) && p in w.live && p !in w.tags.direct && MIN_CHUNK_SIZE <= nb && nb - CHUNK_OVERHEAD >= nsize
    requires p in w.tags.head && nb + MIN_CHUNK_SIZE <= w.tags.head[p].size && p + nb !in w.tags.head
    requires d in CutLive(w, p, nb, nsize).tags.head
    ensures KindOk(CutLive(w, p, nb, nsize), d)
  {
    hide Books, Tiles, Truthful, Split;
    BooksTags(w);
    SplitHead(w.tags, p, nb, true, d);
    KindAt(w, p);
    SplitNext(w.tags, p, nb, true, d);
    SplitHead(w.tags, p, nb, true, Next(CutLive(w, p, nb, nsize).tags, d));
    if d != p + nb {
      KindAt(w, d);
    } else {
      NotDirectInside(w.tags, d);
    }
  }

  // ----- taking back

  /** The run a .. a+n, made of a chunk handed out and its loose neighbours, becomes one
      loose chunk, or the top chunk if it reaches the end of the segment. */
  function Absorb(w: World, a: int, n: nat, p: int): World
    requires a in w.tags.head
  {
    var w1 := w.(tags := Merged(w.tags, a, n, false), live := w.live - {p},
                 loose := set c | c in w.loose && !(a <= c < a + n));
    if a <= w.top < a + n then w1.(top := a, topsize := n) else w1.(loose := w1.loose + {a})
  }

  /** The chunks of the run are p, loose chunks, and possibly the top chunk at its end. */
  ghost predicate Absorbable(w: World, a: int, n: nat, p: int) {
    && IsRun(w.tags, a, n) && a <= p < a + n && p in w.live && p in w.tags.head && p !in w.tags.direct
    && (forall c :: c in w.tags.head && a <= c < a + n && c != p ==> c in w.loose || c == w.top)
    && w.tags.head[a].pinuse
    && n >= MIN_CHUNK_SIZE
    && (if a <= w.top < a + n then a + n in w.tags.lims else a + n in w.tags.head && w.tags.head[a + n].cinuse)
  }

  lemma AbsorbableAt(w: World, a: int, n: nat, p: int, c: int)
    requires Absorbable(w, a, n, p) && c in w.tags.head
    ensures a <= c < a + n && c != p ==> c in w.loose || c == w.top
  {
  }

  lemma AbsorbableParts(w: World, a: int, n: nat, p: int)
    requires Absorbable(w, a, n, p)
    ensures IsRun(w.tags, a, n) && a <= p < a + n && p in w.live && p in w.tags.head && w.tags.head[a].pinuse
      && n >= MIN_CHUNK_SIZE
    ensures a in w.tags.head && p !in w.tags.direct
    ensures if a <= w.top < a + n then a + n in w.tags.lims else a + n in w.tags.head && w.tags.head[a + n].cinuse
  {
  }

  lemma AbsorbOk(w: World, a: int, n: nat, p: int)
    requires Books(w) && Absorbable(w, a, n, p)
    ensures a in w.tags.head && Books(Absorb(w, a, n, p))
  {
    hide Books, Tiles, Truthful, Merged, IsRun, Absorbable;
    AbsorbableParts(w, a, n, p);
    var w' := Absorb(w, a, n, p);
    BooksTags(w);
    LimNot(w.tags, a + n);
    MergedTiles(w.tags, a, n, false);
    MergedTruthful(w.tags, a, n, false);
    forall d | d in w'.tags.head
      ensures KindOk(w', d)
    {
      AbsorbKind(w, a, n, p, d);
    }
    AbsorbListed(w, a, n, p);
    BooksIntro(w');
  }

  lemma AbsorbListed(w: World, a: int, n: nat, p: int)
    requires Books(w) && Absorbable(w, a, n, p) && a in w.tags.head
    ensures Listed(Absorb(w, a, n, p))
  {
    hide Books, Tiles, Truthful, Merged, IsRun, Absorbable;
    var w' := Absorb(w, a, n, p);
    AbsorbableParts(w, a, n, p);
    BooksTags(w);
    MergedHead(w.tags, a, n, false, a);
    MergedHead(w.tags, a, n, false, w'.top);
    forall c | c in w'.binned || c in w'.live || c in w'.pinned || c in w'.loose || (c == w'.dv && c != 0)
      ensures c in w'.tags.head
    {
      MergedHead(w.tags, a, n, false, c);
      AbsorbOutside(w, a, n, p, c);
    }
  }

  /** Only the absorbed chunks lie in the run. */
  lemma AbsorbOutside(w: World, a: int, n: nat, p: int, c: int)
    requires Books(w) && Absorbable(w, a, n, p)
    requires c in w.binned || (c in w.live && c != p) || c in w.pinned || (c in w.loose && !(a <= c < a + n)) || c == a
      || (c == w.dv && w.dv != 0)
    ensures c in w.tags.head && (c <= a || a + n <= c)
  {
    hide Books;
    AbsorbableParts(w, a, n, p);
    BooksTags(w);
    ListedAt(w, c);
    KindAt(w, c);
    AbsorbableAt(w, a, n, p, c);
  }

  lemma AbsorbKind(w: World, a: int, n: nat, p: int, d: int)
    requires Books(w) && Absorbable(w, a, n, p) && a in w.tags.head && d in Absorb(w, a, n, p).tags.head
    ensures KindOk(Absorb(w, a, n, p), d)
  {
    hide Books, Tiles, Truthful, Merged, IsRun, Absorbable;
    var w' := Absorb(w, a, n, p);
    AbsorbableParts(w, a, n, p);
    BooksTags(w);
    MergedHead(w.tags, a, n, false, d);
    MergedNext(w.tags, a, n, false, d);
    MergedFoot(w.tags, a, n, false, d);
    var x := Next(w'.tags, d);
    MergedHead(w.tags, a, n, false, x);
    KindAt(w, d);
    AbsorbableAt(w, a, n, p, d);
    LimNot(w.tags, a + n);
    RunExcludesAt(w.tags, a, n, a);
  }

  lemma LimNot(t: Tags, e: int)
    requires Tiles(t)
    ensures e in t.lims ==> e !in t.head
  {
  }

  lemma RunExcludesAt(t: Tags, a: int, n: nat, c: int)
    requires IsRun(t, a, n) && c in t.head && a <= c < a + n
    ensures c !in t.direct
  {
  }
}
