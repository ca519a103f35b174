/** What one call of malloc or free may do to the rest of the heap, and when the
    neighbours of a chunk taken back may be merged with it (lj_alloc.c:1275-1338). */
module HeapCalls {
  import opened BoundaryTags
  import opened HeapWorld
  import opened HeapEdge
  import opened HeapSegments
  import opened HeapSteps
  import opened Mmap

  /** Between two states of the allocator: heap, segments and pages are in order. */
  ghost predicate InOrder(w: World, segs: seq<Seg>, pages: set<int>, leaked: set<int>) {
    HeapOk(w, segs) && Holds(w.tags, segs, pages, leaked)
  }

  /** The blocks handed out stay as they are. */
  ghost predicate Moves(w: World, w': World) {
    w'.live == w.live && Kept(w, w', 0)
  }

  /** One more block is handed out. */
  ghost predicate Gives(w: World, w': World, p: int, nsize: nat) {
    p !in w.live && w'.live == w.live[p := nsize] && Kept(w, w', 0)
  }

  /** One block is taken back. */
  ghost predicate Takes(w: World, w': World, p: int) {
    w'.live == w.live - {p} && Kept(w, w', p)
  }

  lemma MovesRefl(w: World)
    requires Books(w)
    ensures Moves(w, w)
  {
    KeptSame(w, w, 0);
  }

  lemma LivePositive(w: World)
    requires Books(w)
    ensures 0 !in w.live
  {
    hide Books, Tiles, Truthful;
    BooksTags(w);
    if 0 in w.live { ListedAt(w, 0); ChunkAt(w.tags, 0); }
  }

  lemma MovesTrans(w: World, w1: World, w': World)
    requires Moves(w, w1) && Moves(w1, w')
    ensures Moves(w, w')
  {
    KeptTrans(w, w1, w', 0, 0);
  }

  lemma MovesGives(w: World, w1: World, w': World, p: int, nsize: nat)
    requires Moves(w, w1) && Gives(w1, w', p, nsize)
    ensures Gives(w, w', p, nsize)
  {
    KeptTrans(w, w1, w', 0, 0);
  }

  lemma GivesMoves(w: World, w1: World, w': World, p: int, nsize: nat)
    requires Gives(w, w1, p, nsize) && Moves(w1, w')
    ensures Gives(w, w', p, nsize)
  {
    KeptTrans(w, w1, w', 0, 0);
  }

  lemma MovesTakes(w: World, w1: World, w': World, p: int)
    requires Moves(w, w1) && Takes(w1, w', p) && Books(w)
    ensures Takes(w, w', p)
  {
    hide Books;
    LivePositive(w);
    forall x | x in w.live && x != p ensures KeptAt(w, w', x) {
      assert KeptAt(w, w1, x);
      assert KeptAt(w1, w', x);
    }
  }

  lemma TakesMoves(w: World, w1: World, w': World, p: int)
    requires Takes(w, w1, p) && Moves(w1, w') && Books(w)
    ensures Takes(w, w', p)
  {
    hide Books;
    LivePositive(w);
    forall x | x in w.live && x != p ensures KeptAt(w, w', x) {
      assert KeptAt(w, w1, x);
      assert KeptAt(w1, w', x);
    }
  }

  /** Directly mapped chunks are handed out, so what is kept includes them. */
  lemma KeptDirect(w: World, w': World, p: int)
    requires Books(w) && Kept(w, w', p) && w'.tags.direct == w.tags.direct && (p == 0 || p !in w.tags.direct)
    ensures SameDirect(w.tags, w'.tags)
  {
    hide Books;
    BooksTags(w);
    forall d | d in w.tags.direct
      ensures d in w.tags.head && d in w'.tags.head && w'.tags.head[d].size == w.tags.head[d].size
    {
      DirectAt(w.tags, d);
      KindAt(w, d);
      ChunkAt(w.tags, d);
      assert KeptAt(w, w', d);
    }
  }

  /** A step on headers and feet leaves the pages as they are. */
  lemma StepInOrder(w: World, w': World, segs: seq<Seg>, pages: set<int>, leaked: set<int>, p: int)
    requires InOrder(w, segs, pages, leaked) && HeapOk(w', segs) && Kept(w, w', p)
    requires w'.tags.direct == w.tags.direct && (p == 0 || p !in w.tags.direct)
    ensures InOrder(w', segs, pages, leaked)
  {
    hide Books, Mapped, Tiles, Truthful, Holds, Kept;
    KeptDirect(w, w', p);
    HoldsKept(w.tags, w'.tags, segs, pages, leaked);
  }

  // ----- sizes

  lemma SizeBelowLimit(w: World, segs: seq<Seg>, c: int)
    requires HeapOk(w, segs) && c in w.tags.head
    ensures 0 < w.tags.head[c].size < ADDRESS_LIMIT && w.tags.head[c].size % 8 == 0 && 0 < c < ADDRESS_LIMIT
      && c % 8 == 0
  {
    hide Books, Mapped, Tiles, Truthful;
    BooksTags(w);
    ChunkAt(w.tags, c);
    if c in w.tags.direct {
      DirectOkAt(w.tags, w.pinned, segs, c);
    } else {
      var k := OwnerAt(w.tags, w.pinned, segs, c);
      SegAt(w.tags, w.pinned, segs, k);
    }
  }

  lemma BinnedSize(w: World, c: int)
    requires Books(w) && c in w.binned
    ensures c in w.tags.head && w.tags.head[c].size == w.binned[c] >= MIN_CHUNK_SIZE && !w.tags.head[c].cinuse
  {
    hide Books;
    BooksTags(w);
    ListedAt(w, c);
    KindAt(w, c);
  }

  lemma LooseFacts(w: World, c: int)
    requires Books(w) && c in w.loose
    ensures c in w.tags.head && w.tags.head[c].size >= MIN_CHUNK_SIZE && c !in w.binned && c != w.dv && c != w.top
    ensures !w.tags.head[c].cinuse && w.tags.head[c].pinuse && Next(w.tags, c) in w.tags.head && c > 0
  {
    hide Books, Tiles, Truthful;
    BooksTags(w);
    ListedAt(w, c);
    KindAt(w, c);
    FreePinuse(w.tags, c);
    ChunkAt(w.tags, c);
  }

  // ----- the neighbours of a chunk taken back

  lemma LiveFacts(w: World, p: int)
    requires Books(w) && p in w.live && p !in w.tags.direct
    ensures p in w.tags.head && w.tags.head[p].size >= MIN_CHUNK_SIZE
      && w.tags.head[p].size - CHUNK_OVERHEAD >= w.live[p] && w.tags.head[p].cinuse && p !in w.pinned
    ensures var nx := Next(w.tags, p); nx in w.tags.head && nx !in w.tags.direct && w.tags.head[nx].pinuse
  {
    hide Books, Tiles, Truthful;
    BooksTags(w);
    ListedAt(w, p);
    KindAt(w, p);
    AfterAt(w.tags, p);
  }

  /** A chunk whose pinuse bit is clear follows a free chunk, which its foot names. */
  lemma PrevFacts(w: World, segs: seq<Seg>, p: int)
    requires HeapOk(w, segs) && p in w.tags.head && !w.tags.head[p].pinuse && p !in w.tags.direct
    ensures p in w.tags.foot && w.tags.foot[p].PrevSize?
    ensures var q := p - w.tags.foot[p].n;
      && q in w.tags.head && w.tags.head[q].size == w.tags.foot[p].n && Next(w.tags, q) == p && !w.tags.head[q].cinuse
      && (q == w.dv || q in w.binned || q in w.loose) && q != w.top
  {
    hide Books, Mapped, Tiles, Truthful;
    HeapParts(w, segs);
    BeforeAt(w.tags, p);
    KindAt(w, p - w.tags.foot[p].n);
    TopFacts(w);
    TopLim(w, segs);
  }

  lemma NextFacts(w: World, p: int)
    requires Books(w) && p in w.live && p !in w.tags.direct && p in w.tags.head && Next(w.tags, p) in w.tags.head
      && !w.tags.head[Next(w.tags, p)].cinuse
    ensures var nx := Next(w.tags, p); nx == w.top || nx == w.dv || nx in w.binned || nx in w.loose
  {
    hide Books;
    KindAt(w, Next(w.tags, p));
  }

  /** a .. x is the chunk p together with what is free right before and right after it. */
  ghost predicate Around(w: World, p: int, a: int, x: int)
    requires p in w.tags.head && Next(w.tags, p) in w.tags.head
  {
    var nx := Next(w.tags, p);
    && (if a == p then w.tags.head[p].pinuse else a in w.loose && a in w.tags.head && Next(w.tags, a) == p)
    && (if nx in w.loose then x == Next(w.tags, nx) else if nx == w.top then x == nx + w.topsize
      else x == nx && w.tags.head[nx].cinuse)
  }

  lemma AroundAbsorbable(w: World, segs: seq<Seg>, p: int, a: int, x: int)
    requires HeapOk(w, segs) && p in w.live && p in w.tags.head && p !in w.tags.direct && Next(w.tags, p) in w.tags.head
      && Around(w, p, a, x)
    ensures a <= p < x && Absorbable(w, a, x - a, p)
  {
    hide Books, Mapped, Tiles, Truthful, IsRun, Around, HeapOk;
    AroundEnds(w, segs, p, a, x);
    AroundRun(w, segs, p, a, x);
    forall c | c in w.tags.head && a <= c < x && c != p
      ensures c in w.loose || c == w.top
    {
      AroundChunk(w, segs, p, a, x, c);
    }
    if a <= w.top < x { AroundTop(w, segs, p, a, x); }
    AroundTopIn(w, segs, p, a, x);
  }

  lemma AroundRun(w: World, segs: seq<Seg>, p: int, a: int, x: int)
    requires HeapOk(w, segs) && p in w.live && p in w.tags.head && p !in w.tags.direct && Next(w.tags, p) in w.tags.head
      && Around(w, p, a, x)
    ensures a < x && IsRun(w.tags, a, x - a)
  {
    hide Books, Mapped, Tiles, Truthful, IsRun, Around, HeapOk;
    AroundEnds(w, segs, p, a, x);
    forall c | c in w.tags.head && a <= c < x
      ensures c !in w.tags.direct
    {
      AroundChunk(w, segs, p, a, x, c);
    }
    forall e | e in w.tags.lims
      ensures !(a < e < x)
    {
      AroundLim(w, segs, p, a, x, e);
    }
    EightsApart(a, x);
    RunIntro(w.tags, a, x - a);
  }

  lemma EightsApart(a: int, x: int)
    requires a % 8 == 0 && x % 8 == 0
    ensures (x - a) % 8 == 0
  {
  }

  lemma RunIntro(t: Tags, a: int, n: nat)
    requires a in t.head && n > 0 && n % 8 == 0 && (a + n in t.head || a + n in t.lims)
    requires forall c :: c in t.head && a <= c < a + n ==> c !in t.direct
    requires forall e :: e in t.lims ==> !(a < e < a + n)
    ensures IsRun(t, a, n)
  {
  }

  lemma AroundEnds(w: World, segs: seq<Seg>, p: int, a: int, x: int)
    requires HeapOk(w, segs) && p in w.live && p in w.tags.head && p !in w.tags.direct && Next(w.tags, p) in w.tags.head
      && Around(w, p, a, x)
    ensures a in w.tags.head && w.tags.head[a].pinuse && a <= p < Next(w.tags, p) <= x && a % 8 == 0 && x % 8 == 0
      && x - a >= MIN_CHUNK_SIZE
    ensures Next(w.tags, p) == w.top ==> x in w.tags.lims
    ensures Next(w.tags, p) != w.top ==> x in w.tags.head && w.tags.head[x].cinuse
  {
    hide Books, Mapped, Tiles, Truthful, HeapOk;
    HeapParts(w, segs);
    AroundFront(w, p, a, x);
    AroundBack(w, segs, p, a, x);
  }

  lemma AroundFront(w: World, p: int, a: int, x: int)
    requires Books(w) && p in w.live && p in w.tags.head && p !in w.tags.direct && Next(w.tags, p) in w.tags.head
      && Around(w, p, a, x)
    ensures a in w.tags.head && w.tags.head[a].pinuse && a <= p < Next(w.tags, p) && a % 8 == 0
      && Next(w.tags, p) - a >= MIN_CHUNK_SIZE
  {
    hide Books, Tiles, Truthful;
    BooksTags(w);
    ChunkAt(w.tags, p);
    LiveFacts(w, p);
    if a != p { LooseFacts(w, a); }
    ChunkAt(w.tags, a);
  }

  lemma AroundBack(w: World, segs: seq<Seg>, p: int, a: int, x: int)
    requires HeapOk(w, segs) && p in w.live && p in w.tags.head && p !in w.tags.direct && Next(w.tags, p) in w.tags.head
      && Around(w, p, a, x)
    ensures Next(w.tags, p) <= x && x % 8 == 0
    ensures Next(w.tags, p) == w.top ==> x in w.tags.lims
    ensures Next(w.tags, p) != w.top ==> x in w.tags.head && w.tags.head[x].cinuse
  {
    hide Books, Mapped, Tiles, Truthful, TopOk, HeapOk, Listed, KindOk;
    HeapParts(w, segs);
    TopFacts(w);
    var nx := Next(w.tags, p);
    ChunkAt(w.tags, nx);
    if nx in w.loose { LooseFacts(w, nx); AfterAt(w.tags, nx); }
    TopLim(w, segs);
  }

  lemma AroundTopIn(w: World, segs: seq<Seg>, p: int, a: int, x: int)
    requires HeapOk(w, segs) && p in w.live && p in w.tags.head && p !in w.tags.direct && Next(w.tags, p) in w.tags.head
      && Around(w, p, a, x)
    ensures Next(w.tags, p) == w.top ==> a <= w.top < x
  {
    hide Books, Mapped, Tiles, Truthful;
    HeapParts(w, segs);
    TopFacts(w);
    AroundEnds(w, segs, p, a, x);
  }

  lemma AroundChunk(w: World, segs: seq<Seg>, p: int, a: int, x: int, c: int)
    requires HeapOk(w, segs) && p in w.live && p in w.tags.head && p !in w.tags.direct && Next(w.tags, p) in w.tags.head
      && Around(w, p, a, x)
    requires c in w.tags.head && a <= c < x
    ensures c == a || c == p || c == Next(w.tags, p)
    ensures c == p || ((c in w.loose || c == w.top) && c !in w.tags.direct)
  {
    hide Books, Mapped, Tiles, Truthful;
    HeapParts(w, segs);
    TopFacts(w);
    var nx := Next(w.tags, p);
    ChunkAt(w.tags, p);
    if a < c < p { PairAt(w.tags, a, c); }
    if p < c < nx { PairAt(w.tags, p, c); }
    if nx < c { PairAt(w.tags, nx, c); }
    if c in w.loose { LooseFacts(w, c); NotDirect(w, c); }
  }

  lemma AroundLim(w: World, segs: seq<Seg>, p: int, a: int, x: int, e: int)
    requires HeapOk(w, segs) && p in w.live && p in w.tags.head && p !in w.tags.direct && Next(w.tags, p) in w.tags.head
      && Around(w, p, a, x)
    requires e in w.tags.lims
    ensures !(a < e < x)
  {
    hide Books, Mapped, Tiles, Truthful;
    HeapParts(w, segs);
    TopFacts(w);
    var nx := Next(w.tags, p);
    LimNot(w.tags, e);
    if a < e && a != p { PairAt(w.tags, a, e); }
    if p < e { PairAt(w.tags, p, e); }
    if nx < e { PairAt(w.tags, nx, e); }
  }

  lemma AroundTop(w: World, segs: seq<Seg>, p: int, a: int, x: int)
    requires HeapOk(w, segs) && p in w.live && p in w.tags.head && p !in w.tags.direct && Next(w.tags, p) in w.tags.head
      && Around(w, p, a, x)
    requires a <= w.top < x
    ensures w.top == Next(w.tags, p)
  {
    hide Books, Mapped, Tiles, Truthful;
    HeapParts(w, segs);
    TopFacts(w);
    AroundChunk(w, segs, p, a, x, w.top);
  }

  /** The headers strictly inside a chunk are no headers any more. */
  function Forget(head: map<int, Head>, a: int, x: int): map<int, Head> {
    map c | c in head && !(a < c < x) :: head[c]
  }

  /** The writes that merge a .. x into one free chunk. */
  function Freed(t: Tags, a: int, x: int): Tags
    requires a in t.head && a < x
  {
    var h := Forget(t.head, a, x)[a := Head(x - a, false, true)];
    t.(head := if x in t.head then h[x := t.head[x].(pinuse := false)] else h, foot := t.foot[x := PrevSize(x - a)])
  }

  lemma FreedIsMerged(t: Tags, a: int, x: int)
    requires a in t.head && a < x && t.head[a].pinuse
    ensures Freed(t, a, x) == Merged(t, a, x - a, false)
  {
    var t', t'' := Freed(t, a, x), Merged(t, a, x - a, false);
    assert t'.head.Keys == t''.head.Keys;
    assert t'.head == t''.head;
  }

  /** Taking back a chunk together with its loose neighbours. */
  lemma TakeBack(w: World, segs: seq<Seg>, pages: set<int>, leaked: set<int>, p: int, a: int, x: int)
    requires InOrder(w, segs, pages, leaked) && p in w.live && p in w.tags.head && p !in w.tags.direct
    requires Next(w.tags, p) in w.tags.head && Around(w, p, a, x)
    ensures a <= p < x && a in w.tags.head && InOrder(Absorb(w, a, x - a, p), segs, pages, leaked)
      && Takes(w, Absorb(w, a, x - a, p), p)
    ensures Absorb(w, a, x - a, p).tags == Freed(w.tags, a, x)
    ensures Next(w.tags, p) == w.top <==> a <= w.top < x
    ensures Absorb(w, a, x - a, p).loose ==
      w.loose - {a, Next(w.tags, p)} + (if Next(w.tags, p) == w.top then {} else {a})
    ensures a == p ==> w.tags.head[a].pinuse
  {
    hide Books, Mapped, Tiles, Truthful, Holds, Kept, Absorbable, Merged, IsRun;
    HeapParts(w, segs);
    TopFacts(w);
    AroundAbsorbable(w, segs, p, a, x);
    AroundEnds(w, segs, p, a, x);
    AbsorbHeap(w, segs, a, x - a, p);
    var w' := Absorb(w, a, x - a, p);
    MergedFoot(w.tags, a, x - a, false, a);
    StepInOrder(w, w', segs, pages, leaked, p);
    FreedIsMerged(w.tags, a, x);
    if a <= w.top < x { AroundTop(w, segs, p, a, x); }
    forall c
      ensures c in w.loose && !(a <= c < x) <==> c in w.loose && c != a && c != Next(w.tags, p)
    {
      if c in w.loose && a <= c < x {
        LooseFacts(w, c);
        AroundChunk(w, segs, p, a, x, c);
        if c == p { KindAt(w, p); }
      }
      AroundLoose(w, p, a, x);
    }
  }

  /** The next chunk is part of what is taken back if it is loose. */
  lemma AroundLoose(w: World, p: int, a: int, x: int)
    requires Books(w) && p in w.tags.head && Next(w.tags, p) in w.tags.head && Around(w, p, a, x) && a <= p
    ensures Next(w.tags, p) in w.loose ==> a <= Next(w.tags, p) < x
    ensures a in w.loose ==> a < x
  {
    hide Books, Tiles, Truthful;
    BooksTags(w);
    ChunkAt(w.tags, p);
    ChunkAt(w.tags, Next(w.tags, p));
  }

  // ----- handing out, with the pages

  lemma WholeCall(w: World, segs: seq<Seg>, pages: set<int>, leaked: set<int>, c: int, nsize: nat)
    requires InOrder(w, segs, pages, leaked) && c in w.loose && c in w.tags.head
      && w.tags.head[c].size - CHUNK_OVERHEAD >= nsize
    ensures InOrder(UseWhole(w, c, nsize), segs, pages, leaked) && Gives(w, UseWhole(w, c, nsize), c, nsize)
    ensures Next(w.tags, c) in w.tags.head && Next(w.tags, c) != c
      && UseWhole(w, c, nsize).tags == Relabelled(w.tags, c)
  {
    hide Books, Mapped, Tiles, Truthful, Holds, Kept, Merged;
    HeapParts(w, segs);
    LooseFacts(w, c);
    UseWholeHeap(w, segs, c, nsize);
    UseWholeTags(w, c, nsize);
    StepInOrder(w, UseWhole(w, c, nsize), segs, pages, leaked, 0);
  }

  /** The writes that cut the free chunk c, handing out its front. */
  function CutTags(t: Tags, c: int, nb: nat): Tags
    requires c in t.head && nb < t.head[c].size
  {
    var s := t.head[c].size;
    t.(head := t.head[c := Head(nb, true, true)][c + nb := Head(s - nb, false, true)],
      foot := t.foot[c + s := PrevSize(s - nb)])
  }

  lemma FrontCall(w: World, segs: seq<Seg>, pages: set<int>, leaked: set<int>, c: int, nb: nat, nsize: nat)
    requires InOrder(w, segs, pages, leaked) && c in w.loose && c in w.tags.head && MIN_CHUNK_SIZE <= nb && nb % 8 == 0
      && nb - CHUNK_OVERHEAD >= nsize
    requires nb + MIN_CHUNK_SIZE <= w.tags.head[c].size
    ensures InOrder(UseFront(w, c, nb, nsize), segs, pages, leaked) && Gives(w, UseFront(w, c, nb, nsize), c, nsize)
    ensures UseFront(w, c, nb, nsize).tags == CutTags(w.tags, c, nb) && c + nb !in w.loose
  {
    hide Books, Mapped, Tiles, Truthful, Holds, Kept, Split;
    HeapParts(w, segs);
    UseFrontHeap(w, segs, c, nb, nsize);
    ListedAt(w, c + nb);
    StepInOrder(w, UseFront(w, c, nb, nsize), segs, pages, leaked, 0);
  }

  // ----- feet nobody reads

  /** Only the feet of chunks matter, not the word at the end of a segment. */
  ghost predicate SameFeet(t: Tags, f: map<int, Foot>) {
    forall c :: c in t.head ==> (c in f <==> c in t.foot) && (c in f ==> f[c] == t.foot[c])
  }

  lemma FeetTruthful(t: Tags, f: map<int, Foot>)
    requires Tiles(t) && Truthful(t) && SameFeet(t, f)
    ensures Tiles(t.(foot := f)) && Truthful(t.(foot := f))
  {
    hide Truthful, Tiles;
    var t' := t.(foot := f);
    FeetTiles(t, f);
    forall c | c in t'.head && Next(t', c) in t'.head ensures TrueAfter(t', c) { AfterAt(t, c); }
    forall c | c in t'.head && !t'.head[c].pinuse && c !in t'.direct ensures FreeBefore(t', c) { BeforeAt(t, c); }
    forall c | c in t'.direct ensures IsDirect(t', c) { DirectAt(t, c); }
    TruthfulIntro(t');
  }

  lemma FeetTiles(t: Tags, f: map<int, Foot>)
    requires Tiles(t)
    ensures Tiles(t.(foot := f))
  {
    hide Tiles;
    var t' := t.(foot := f);
    forall c | c in t'.head ensures GoodChunk(t', c) { ChunkAt(t, c); }
    forall c, d | c in t'.head && d in t'.head && c < d ensures Next(t', c) <= d { PairAt(t, c, d); }
    forall c, e | c in t'.head && e in t'.lims && c < e ensures Next(t', c) <= e { PairAt(t, c, e); }
    TilesIntro(t');
  }

  lemma FeetMapped(t: Tags, pinned: set<int>, segs: seq<Seg>, f: map<int, Foot>)
    requires Mapped(t, pinned, segs)
    ensures Mapped(t.(foot := f), pinned, segs)
  {
    hide Mapped, SegOk, Owned, LimOwned, DirectOk;
    var t' := t.(foot := f);
    NonEmpty(t, pinned, segs);
    forall k | 0 <= k < |segs| ensures SegOk(t', pinned, segs[k], k == 0) {
      SegAt(t, pinned, segs, k);
      FeetSeg(t, pinned, segs[k], k == 0, f);
    }
    forall i, j | 0 <= i < j < |segs| ensures Apart(segs[i].base, End(segs[i]), segs[j].base, End(segs[j])) {
      ApartAt(t, pinned, segs, i, j);
    }
    forall c | c in t'.head && c !in t'.direct ensures Owned(t', segs, c) {
      var k := OwnerAt(t, pinned, segs, c);
      FeetOwned(t, segs, c, k, f);
    }
    forall e | e in t'.lims ensures LimOwned(t', segs, e) { LimAt(t, pinned, segs, e); FeetLim(t, segs, e, f); }
    forall d | d in t'.direct ensures DirectOk(t', segs, d) {
      DirectOkAt(t, pinned, segs, d);
      FeetDirect(t, segs, d, f);
    }
    MappedIntro(t', pinned, segs);
  }

  lemma FeetSeg(t: Tags, pinned: set<int>, g: Seg, first: bool, f: map<int, Foot>)
    requires SegOk(t, pinned, g, first)
    ensures SegOk(t.(foot := f), pinned, g, first)
  {
  }

  lemma FeetOwned(t: Tags, segs: seq<Seg>, c: int, k: nat, f: map<int, Foot>)
    requires c in t.head && k < |segs| && InSeg(t, segs[k], c)
    ensures Owned(t.(foot := f), segs, c)
  {
    assert InSeg(t.(foot := f), segs[k], c);
  }

  lemma FeetLim(t: Tags, segs: seq<Seg>, e: int, f: map<int, Foot>)
    requires LimOwned(t, segs, e)
    ensures LimOwned(t.(foot := f), segs, e)
  {
    var t' := t.(foot := f);
    if !(exists k :: 0 <= k < |segs| && segs[k].lim == e) {
      var d :| d in t.direct && d in t.head && Next(t, d) == e;
      assert d in t'.direct && d in t'.head && Next(t', d) == e;
    }
  }

  lemma FeetDirect(t: Tags, segs: seq<Seg>, d: int, f: map<int, Foot>)
    requires DirectOk(t, segs, d)
    ensures DirectOk(t.(foot := f), segs, d)
  {
  }

  lemma FeetInOrder(w: World, segs: seq<Seg>, pages: set<int>, leaked: set<int>, f: map<int, Foot>)
    requires InOrder(w, segs, pages, leaked) && SameFeet(w.tags, f)
    ensures InOrder(w.(tags := w.tags.(foot := f)), segs, pages, leaked) && Moves(w, w.(tags := w.tags.(foot := f)))
  {
    hide Books, Mapped, Tiles, Truthful, Holds, KindOk;
    HeapParts(w, segs);
    var w' := w.(tags := w.tags.(foot := f));
    FeetTruthful(w.tags, f);
    FeetMapped(w.tags, w.pinned, segs, f);
    forall c | c in w'.tags.head ensures KindOk(w', c) { KindAt(w, c); FeetKind(w, c, f); }
    BooksIntro(w');
    forall q | q in w.live ensures KeptAt(w, w', q) { ListedAt(w, q); }
    StepInOrder(w, w', segs, pages, leaked, 0);
  }

  lemma FeetKind(w: World, c: int, f: map<int, Foot>)
    requires c in w.tags.head && KindOk(w, c)
    ensures KindOk(w.(tags := w.tags.(foot := f)), c)
  {
  }

  // ----- handing out the top chunk and the victim

  /** The writes that cut the top chunk: it has no foot. */
  function CutTop(w: World, nb: nat): Tags
    requires nb < w.topsize
  {
    w.tags.(head := w.tags.head[w.top := Head(nb, true, true)][w.top + nb := Head(w.topsize - nb, false, true)])
  }

  lemma TopCall(w: World, segs: seq<Seg>, pages: set<int>, leaked: set<int>, nb: nat, nsize: nat)
    requires InOrder(w, segs, pages, leaked) && MIN_CHUNK_SIZE <= nb < w.topsize && nb % 8 == 0
      && nb - CHUNK_OVERHEAD >= nsize
    ensures w.top > 0
    ensures var w' := w.(tags := CutTop(w, nb), top := w.top + nb, topsize := w.topsize - nb,
      live := w.live[w.top := nsize]);
      InOrder(w', segs, pages, leaked) && Gives(w, w', w.top, nsize)
  {
    hide Books, Mapped, Tiles, Truthful, Holds, Kept, Split, SameFeet, TopOk, HeapOk, InOrder, Gives;
    OrderHeap(w, segs, pages, leaked);
    UseTopHeap(w, segs, nb, nsize);
    SizeBelowLimit(w, segs, w.top);
    TopStep(w, segs, pages, leaked, nb, nsize);
    var w1 := UseTop(w, nb, nsize);
    OrderHeap(w1, segs, pages, leaked);
    TopLim(w1, segs);
    EndFoot(w1.tags, w.tags.foot, w.top + w.topsize, PrevSize(w.topsize - nb));
    FeetInOrder(w1, segs, pages, leaked, w.tags.foot);
    GivesMoves(w, w1, w1.(tags := w1.tags.(foot := w.tags.foot)), w.top, nsize);
  }

  lemma TopStep(w: World, segs: seq<Seg>, pages: set<int>, leaked: set<int>, nb: nat, nsize: nat)
    requires InOrder(w, segs, pages, leaked) && MIN_CHUNK_SIZE <= nb < w.topsize && nb % 8 == 0
      && nb - CHUNK_OVERHEAD >= nsize
    requires w.top in w.tags.head && nb < w.tags.head[w.top].size
    ensures InOrder(UseTop(w, nb, nsize), segs, pages, leaked) && Gives(w, UseTop(w, nb, nsize), w.top, nsize)
  {
    hide Books, Mapped, Tiles, Truthful, Holds, Kept, Split, TopOk, HeapOk;
    UseTopHeap(w, segs, nb, nsize);
    StepInOrder(w, UseTop(w, nb, nsize), segs, pages, leaked, 0);
  }

  lemma OrderHeap(w: World, segs: seq<Seg>, pages: set<int>, leaked: set<int>)
    requires InOrder(w, segs, pages, leaked)
    ensures HeapOk(w, segs)
  {
  }

  lemma EndFoot(t: Tags, f: map<int, Foot>, e: int, v: Foot)
    requires e !in t.head && t.foot == f[e := v]
    ensures SameFeet(t, f)
  {
  }

  lemma DropDvCall(w: World, segs: seq<Seg>, pages: set<int>, leaked: set<int>)
    requires InOrder(w, segs, pages, leaked)
    ensures InOrder(DropDv(w), segs, pages, leaked) && Moves(w, DropDv(w))
    ensures w.dv != 0 ==>
        w.dv in w.tags.head && w.tags.head[w.dv].size == w.dvsize >= MIN_CHUNK_SIZE && w.dv in DropDv(w).loose
        && w.dv !in w.loose && w.dv > 0
    ensures w.dv == 0 ==> w.dvsize == 0
  {
    hide Books, Mapped, Tiles, Truthful, Holds, Kept;
    DropDvOk(w, segs);
    StepInOrder(w, DropDv(w), segs, pages, leaked, 0);
    if w.dv != 0 { SizeBelowLimit(w, segs, w.dv); }
  }

  lemma SetDvCall(w: World, segs: seq<Seg>, pages: set<int>, leaked: set<int>, c: int)
    requires InOrder(w, segs, pages, leaked) && c in w.loose && w.dv == 0
    ensures c in w.tags.head && c > 0 && InOrder(SetDv(w, c), segs, pages, leaked) && Moves(w, SetDv(w, c))
  {
    hide Books, Mapped, Tiles, Truthful, Holds, Kept;
    SetDvOk(w, segs, c);
    StepInOrder(w, SetDv(w, c), segs, pages, leaked, 0);
  }

  /** The designated victim is handed out whole. */
  lemma VictimWhole(w: World, segs: seq<Seg>, pages: set<int>, leaked: set<int>, nsize: nat)
    requires InOrder(w, segs, pages, leaked) && w.dv != 0 && w.dvsize - CHUNK_OVERHEAD >= nsize
    ensures w.dv in w.tags.head && w.tags.head[w.dv].size == w.dvsize && Next(w.tags, w.dv) in w.tags.head
      && Next(w.tags, w.dv) != w.dv
    ensures var w' := UseWhole(DropDv(w), w.dv, nsize);
      InOrder(w', segs, pages, leaked) && Gives(w, w', w.dv, nsize) && w'.tags == Relabelled(w.tags, w.dv)
        && w'.loose == w.loose
  {
    hide InOrder, Moves, Gives, UseWhole, Relabelled;
    DropDvCall(w, segs, pages, leaked);
    WholeCall(DropDv(w), segs, pages, leaked, w.dv, nsize);
    MovesGives(w, DropDv(w), UseWhole(DropDv(w), w.dv, nsize), w.dv, nsize);
    VictimLoose(w, nsize);
  }

  lemma VictimLoose(w: World, nsize: nat)
    requires w.dv != 0 && w.dv in w.tags.head && w.dv !in w.loose
    ensures UseWhole(DropDv(w), w.dv, nsize).loose == w.loose
  {
  }

  /** The front of the designated victim is handed out, the rest is the new victim. */
  lemma VictimFront(w: World, segs: seq<Seg>, pages: set<int>, leaked: set<int>, nb: nat, nsize: nat)
    requires InOrder(w, segs, pages, leaked) && w.dv != 0 && MIN_CHUNK_SIZE <= nb && nb % 8 == 0
      && nb - CHUNK_OVERHEAD >= nsize
    requires nb + MIN_CHUNK_SIZE <= w.dvsize
    ensures w.dv in w.tags.head && w.tags.head[w.dv].size == w.dvsize
    ensures var w' := w.(tags := CutTags(w.tags, w.dv, nb), dv := w.dv + nb, dvsize := w.dvsize - nb,
      live := w.live[w.dv := nsize]);
      InOrder(w', segs, pages, leaked) && Gives(w, w', w.dv, nsize)
  {
    hide InOrder, Moves, Gives;
    DropDvCall(w, segs, pages, leaked);
    var w1 := DropDv(w);
    FrontCall(w1, segs, pages, leaked, w.dv, nb, nsize);
    var w2 := UseFront(w1, w.dv, nb, nsize);
    MovesGives(w, w1, w2, w.dv, nsize);
    SetDvCall(w2, segs, pages, leaked, w.dv + nb);
    var w' := SetDv(w2, w.dv + nb);
    GivesMoves(w, w2, w', w.dv, nsize);
    assert w'.loose == w.loose;
  }

  // ----- taking back

  /** What free makes of the chunk p and its free neighbours in a .. x: more of the top
      chunk, the designated victim, or a loose chunk. */
  function FreeResult(w: World, p: int, a: int, x: int): World
    requires p in w.tags.head && a in w.tags.head && a < x
  {
    var nx := Next(w.tags, p);
    var w1 := w.(tags := Freed(w.tags, a, x), live := w.live - {p}, loose := w.loose - {a, nx});
    if nx == w.top then
      w1.(tags := w1.tags.(foot := w.tags.foot), top := a, topsize := x - a,
          dv := if w.dv == a then 0 else w.dv, dvsize := if w.dv == a then 0 else w.dvsize)
    else if w.dv == a || w.dv == nx then w1.(dv := a, dvsize := x - a)
    else w1.(loose := w1.loose + {a})
  }

  /** The world in which the neighbours of p are loose. */
  function Freeing(w: World, p: int, a: int): World
    requires p in w.tags.head
  {
    if w.dv == a || w.dv == Next(w.tags, p) then DropDv(w) else w
  }

  lemma OrderBooks(w: World, segs: seq<Seg>, pages: set<int>, leaked: set<int>)
    requires InOrder(w, segs, pages, leaked)
    ensures Books(w) && Tiles(w.tags) && Listed(w) && HeapOk(w, segs)
  {
    hide Books, Mapped, Holds;
    HeapParts(w, segs);
  }

  lemma FreedHead(t: Tags, a: int, x: int)
    requires a in t.head && a < x
    ensures a in Freed(t, a, x).head && Freed(t, a, x).head[a] == Head(x - a, false, true)
    ensures x !in t.head ==> x !in Freed(t, a, x).head
    ensures Freed(t, a, x).foot == t.foot[x := PrevSize(x - a)] && Freed(t, a, x).direct == t.direct
      && Freed(t, a, x).lims == t.lims
  {
  }

  lemma FreeCall(w: World, segs: seq<Seg>, pages: set<int>, leaked: set<int>, p: int, a: int, x: int)
    requires InOrder(w, segs, pages, leaked) && p in w.live && p in w.tags.head && p !in w.tags.direct
    requires Next(w.tags, p) in w.tags.head && Around(Freeing(w, p, a), p, a, x)
    ensures 0 < a <= p < x && a in w.tags.head
    ensures InOrder(FreeResult(w, p, a, x), segs, pages, leaked) && Takes(w, FreeResult(w, p, a, x), p)
  {
    hide InOrder, Moves, Takes, Freed, Around, Books, Tiles, Merged, HeapOk;
    var w1 := Freeing(w, p, a);
    FreeingCall(w, segs, pages, leaked, p, a);
    TakeBack(w1, segs, pages, leaked, p, a, x);
    SizeFacts(w1, segs, pages, leaked, a);
    var w2 := Absorb(w1, a, x - a, p);
    OrderBooks(w, segs, pages, leaked);
    MovesTakes(w, w1, w2, p);
    FreedHead(w.tags, a, x);
    if Next(w.tags, p) == w.top {
      FreeIntoTop(w, segs, pages, leaked, p, a, x);
    } else if w.dv == a || w.dv == Next(w.tags, p) {
      FreeIntoDv(w, segs, pages, leaked, p, a, x);
    } else {
      assert w2 == FreeResult(w, p, a, x);
    }
  }

  lemma SizeFacts(w: World, segs: seq<Seg>, pages: set<int>, leaked: set<int>, c: int)
    requires InOrder(w, segs, pages, leaked) && c in w.tags.head
    ensures 0 < w.tags.head[c].size < ADDRESS_LIMIT && w.tags.head[c].size % 8 == 0 && 0 < c < ADDRESS_LIMIT
      && c % 8 == 0
  {
    hide Books, Mapped, Holds;
    SizeBelowLimit(w, segs, c);
  }

  lemma FreeingCall(w: World, segs: seq<Seg>, pages: set<int>, leaked: set<int>, p: int, a: int)
    requires InOrder(w, segs, pages, leaked) && p in w.tags.head
    ensures InOrder(Freeing(w, p, a), segs, pages, leaked) && Moves(w, Freeing(w, p, a))
    ensures w.dv == 0 || w.dv !in w.loose
    ensures w.dv == 0 ==> w.dvsize == 0
  {
    hide InOrder, Moves, Books;
    DropDvCall(w, segs, pages, leaked);
    OrderBooks(w, segs, pages, leaked);
    MovesRefl(w);
  }

  lemma FreeIntoDv(w: World, segs: seq<Seg>, pages: set<int>, leaked: set<int>, p: int, a: int, x: int)
    requires InOrder(w, segs, pages, leaked) && p in w.tags.head && a in w.tags.head && 0 < a < x
      && (w.dv == a || w.dv == Next(w.tags, p)) && Next(w.tags, p) != w.top
    requires var w2 := Absorb(DropDv(w), a, x - a, p);
      InOrder(w2, segs, pages, leaked) && Takes(w, w2, p) && w2.tags == Freed(w.tags, a, x) && !(a <= w.top < x)
      && w2.loose == DropDv(w).loose - {a, Next(w.tags, p)} + {a} && w.dv !in w.loose && w.dv != 0
    ensures InOrder(FreeResult(w, p, a, x), segs, pages, leaked) && Takes(w, FreeResult(w, p, a, x), p)
  {
    hide InOrder, Moves, Takes, Freed, Books, Merged;
    var w2 := Absorb(DropDv(w), a, x - a, p);
    SetDvCall(w2, segs, pages, leaked, a);
    OrderBooks(w, segs, pages, leaked);
    TakesMoves(w, w2, SetDv(w2, a), p);
    FreedHead(w.tags, a, x);
    assert SetDv(w2, a).loose == w.loose - {a, Next(w.tags, p)};
    assert SetDv(w2, a) == FreeResult(w, p, a, x);
  }

  lemma FreeIntoTop(w: World, segs: seq<Seg>, pages: set<int>, leaked: set<int>, p: int, a: int, x: int)
    requires InOrder(w, segs, pages, leaked) && p in w.tags.head && a in w.tags.head && 0 < a < x
      && Next(w.tags, p) == w.top
    requires var w1 := Freeing(w, p, a); var w2 := Absorb(w1, a, x - a, p);
      InOrder(w2, segs, pages, leaked) && Takes(w, w2, p) && w2.tags == Freed(w.tags, a, x) && a <= w.top < x
      && w2.loose == w1.loose - {a, Next(w.tags, p)} && (w.dv == 0 || w.dv !in w.loose) && (w.dv == 0 ==> w.dvsize == 0)
    ensures InOrder(FreeResult(w, p, a, x), segs, pages, leaked) && Takes(w, FreeResult(w, p, a, x), p)
  {
    hide Moves, Takes, Freed, Books, Merged, Mapped, Holds, SameFeet, TopOk, Tiles, Truthful, Listed;
    var w2 := Absorb(Freeing(w, p, a), a, x - a, p);
    HeapParts(w, segs);
    TopFacts(w);
    FreedHead(w.tags, a, x);
    TopLim(w2, segs);
    EndFoot(w2.tags, w.tags.foot, x, PrevSize(x - a));
    FeetInOrder(w2, segs, pages, leaked, w.tags.foot);
    var w3 := w2.(tags := w2.tags.(foot := w.tags.foot));
    TakesMoves(w, w2, w3, p);
    assert w3.loose == w.loose - {a, Next(w.tags, p)};
    assert w3 == FreeResult(w, p, a, x);
  }

  /** Where what is freed with p ends. */
  function FreeEnd(w: World, p: int): int
    requires p in w.tags.head && Next(w.tags, p) in w.tags.head
  {
    var nx := Next(w.tags, p);
    if w.tags.head[nx].cinuse then nx else Next(w.tags, nx)
  }

  /** The free neighbours of p are in no bin; the one before it, if there is one, is a. */
  ghost predicate ReadyToMerge(w: World, p: int, a: int) {
    && p in w.live && p in w.tags.head && p !in w.tags.direct && Next(w.tags, p) in w.tags.head
    && (if a == p then w.tags.head[p].pinuse
      else a in w.tags.head && Next(w.tags, a) == p && (a in w.loose || a == w.dv))
    && Next(w.tags, p) !in w.binned
    && w.loose <= {a, Next(w.tags, p)}
  }

  /** The chunk that a freed block becomes: where it begins and how long it is, and whether it
      is the top chunk, the victim, or one for a bin. */
  lemma FreeParts(w: World, p: int, a: int, x: int)
    requires p in w.tags.head && a in w.tags.head && a < x
    ensures var w' := FreeResult(w, p, a, x); var nx := Next(w.tags, p);
      if nx == w.top then
        && w'.top == a && w'.topsize == x - a
        && w'.dv == (if w.dv == a then 0 else w.dv) && w'.dvsize == (if w.dv == a then 0 else w.dvsize)
      else
        && w'.top == w.top && w'.topsize == w.topsize && a in w'.tags.head && w'.tags.head[a].size == x - a
        && w'.dv == (if w.dv == a || w.dv == nx then a else w.dv)
        && w'.dvsize == (if w.dv == a || w.dv == nx then x - a else w.dvsize)
  {
  }

  /** Where the chunk begins that a freed block becomes a part of. */
  function FreeStart(w: World, p: int): int
    requires p in w.tags.head && (!w.tags.head[p].pinuse ==> p in w.tags.foot && w.tags.foot[p].PrevSize?)
  {
    if w.tags.head[p].pinuse then p else p - w.tags.foot[p].n
  }

  lemma MergeAround(w: World, segs: seq<Seg>, pages: set<int>, leaked: set<int>, p: int, a: int)
    requires InOrder(w, segs, pages, leaked) && ReadyToMerge(w, p, a)
    ensures Around(Freeing(w, p, a), p, a, FreeEnd(w, p)) && p !in w.loose && p != w.dv
  {
    hide Books, Mapped, Tiles, Truthful, Holds;
    HeapParts(w, segs);
    TopFacts(w);
    LiveFacts(w, p);
    KindAt(w, p);
    var nx := Next(w.tags, p);
    KindAt(w, nx);
    ChunkAt(w.tags, p);
  }

  /** What free leaves loose. */
  lemma FreeLoose(w: World, p: int, a: int)
    requires ReadyToMerge(w, p, a) && a in w.tags.head && a < FreeEnd(w, p)
    ensures var w' := FreeResult(w, p, a, FreeEnd(w, p)); var nx := Next(w.tags, p);
      && w'.loose == (if nx == w.top || w.dv == a || w.dv == nx then {} else {a})
      && a in w'.tags.head && w'.tags.head[a] == Head(FreeEnd(w, p) - a, false, true)
  {
    FreedHead(w.tags, a, FreeEnd(w, p));
  }

  /** q is the free chunk right before p. */
  ghost predicate IsPrev(w: World, p: int, q: int) {
    q in w.tags.head && Next(w.tags, q) == p && q != w.top && q < p && (q == w.dv || q in w.binned || q in w.loose)
  }

  lemma ReadyFacts(w: World, segs: seq<Seg>, pages: set<int>, leaked: set<int>, p: int)
    requires InOrder(w, segs, pages, leaked) && p in w.live && p !in w.tags.direct
    ensures p in w.tags.head && Next(w.tags, p) in w.tags.head && w.tags.head[p].cinuse
      && w.tags.head[Next(w.tags, p)].pinuse && p > 0
    ensures !w.tags.head[p].pinuse ==>
        p in w.tags.foot && w.tags.foot[p].PrevSize? && IsPrev(w, p, p - w.tags.foot[p].n)
    ensures !w.tags.head[Next(w.tags, p)].cinuse ==>
      Next(w.tags, p) == w.top || Next(w.tags, p) == w.dv || Next(w.tags, p) in w.binned || Next(w.tags, p) in w.loose
    ensures w.top in w.tags.head && !w.tags.head[w.top].cinuse && w.tags.head[w.top].size == w.topsize
      && w.top + w.topsize !in w.tags.head
    ensures w.dv != 0 ==> w.dv in w.tags.head && w.tags.head[w.dv].size == w.dvsize && !w.tags.head[w.dv].cinuse
  {
    hide Books, Mapped, Holds, Tiles, Truthful;
    HeapParts(w, segs);
    LiveFacts(w, p);
    SizeBelowLimit(w, segs, p);
    TopFacts(w);
    TopLim(w, segs);
    if !w.tags.head[p].pinuse { PrevFacts(w, segs, p); ChunkAt(w.tags, p - w.tags.foot[p].n); }
    if !w.tags.head[Next(w.tags, p)].cinuse { NextFacts(w, p); }
    DropDvOk(w, segs);
  }

  lemma BinnedNot(w: World, segs: seq<Seg>, pages: set<int>, leaked: set<int>, c: int)
    requires InOrder(w, segs, pages, leaked) && c in w.binned
    ensures c != w.dv && c != w.top && c !in w.loose && c !in w.live && c in w.tags.head
      && w.tags.head[c].size == w.binned[c]
  {
    hide Books, Mapped, Holds, Tiles, Truthful;
    HeapParts(w, segs);
    ListedAt(w, c);
    KindAt(w, c);
  }

  lemma MergeCall(w: World, segs: seq<Seg>, pages: set<int>, leaked: set<int>, p: int, a: int)
    requires InOrder(w, segs, pages, leaked) && ReadyToMerge(w, p, a)
    ensures p in w.tags.head && Next(w.tags, p) in w.tags.head && 0 < a <= p < FreeEnd(w, p) && a in w.tags.head
      && p < Next(w.tags, p)
    ensures var w' := FreeResult(w, p, a, FreeEnd(w, p)); var nx := Next(w.tags, p);
      && InOrder(w', segs, pages, leaked) && Takes(w, w', p)
      && w'.loose == (if nx == w.top || w.dv == a || w.dv == nx then {} else {a})
      && a in w'.tags.head && w'.tags.head[a] == Head(FreeEnd(w, p) - a, false, true)
    ensures Next(w.tags, p) == w.top ==> FreeEnd(w, p) == w.top + w.topsize && w.top + w.topsize !in w.tags.head
    ensures Next(w.tags, p) == w.dv ==> FreeEnd(w, p) == w.dv + w.dvsize
  {
    hide InOrder, Takes, Around, FreeResult;
    ReadyFacts(w, segs, pages, leaked, p);
    MergeAround(w, segs, pages, leaked, p, a);
    FreeCall(w, segs, pages, leaked, p, a, FreeEnd(w, p));
    FreeLoose(w, p, a);
    SizeFacts(w, segs, pages, leaked, p);
  }

  // ----- realloc in place

  /** The block p is now q and was asked to hold nsize bytes; all others are as before. */
  ghost predicate Resizes(w: World, w': World, p: int, q: int, nsize: nat) {
    w'.live == (w.live - {p})[q := nsize] && Kept(w, w', p) && (q == p || q !in w.live)
  }

  lemma GivesTakes(w: World, w1: World, w': World, p: int, q: int, nsize: nat)
    requires Gives(w, w1, q, nsize) && Takes(w1, w', p) && p in w.live && 0 !in w.live
    ensures Resizes(w, w', p, q, nsize)
  {
    forall x | x in w.live && x != p
      ensures KeptAt(w, w', x)
    {
      assert KeptAt(w, w1, x);
      assert KeptAt(w1, w', x);
    }
    assert w'.live == (w.live - {p})[q := nsize];
  }

  lemma TakesGives(w: World, w1: World, w': World, p: int, nsize: nat)
    requires Takes(w, w1, p) && Gives(w1, w', p, nsize) && p in w.live && 0 !in w.live
    ensures Resizes(w, w', p, p, nsize)
  {
    forall x | x in w.live && x != p
      ensures KeptAt(w, w', x)
    {
      assert KeptAt(w, w1, x);
      assert KeptAt(w1, w', x);
    }
    assert w'.live == (w.live - {p})[p := nsize];
  }

  /** The chunk is big enough as it is. */
  lemma KeepCall(w: World, segs: seq<Seg>, pages: set<int>, leaked: set<int>, p: int, nsize: nat)
    requires InOrder(w, segs, pages, leaked) && p in w.live && p in w.tags.head
    requires w.tags.head[p].size >= nsize + (if p in w.tags.direct then DIRECT_CHUNK_OVERHEAD else CHUNK_OVERHEAD)
    ensures var w' := w.(live := w.live[p := nsize]); InOrder(w', segs, pages, leaked) && Resizes(w, w', p, p, nsize)
  {
    hide Books, Mapped, Tiles, Truthful, Holds;
    HeapParts(w, segs);
    var w' := w.(live := w.live[p := nsize]);
    KindAt(w, p);
    forall c | c in w'.tags.head ensures KindOk(w', c) { KindAt(w, c); }
    forall c | c in w'.live ensures c in w'.tags.head { ListedAt(w, c); }
    BooksIntro(w');
    forall x | x in w.live && x != p ensures KeptAt(w, w', x) { ListedAt(w, x); }
    assert w'.live == (w.live - {p})[p := nsize];
  }

  /** The writes that cut a block, both parts in use. */
  function CutInUse(t: Tags, p: int, nb: nat): Tags
    requires p in t.head && nb < t.head[p].size
  {
    t.(head := t.head[p := Head(nb, true, t.head[p].pinuse)][p + nb := Head(t.head[p].size - nb, true, true)])
  }

  lemma ShrinkCall(w: World, segs: seq<Seg>, pages: set<int>, leaked: set<int>, p: int, nb: nat, nsize: nat)
    requires InOrder(w, segs, pages, leaked) && p in w.live && p in w.tags.head && p !in w.tags.direct
      && MIN_CHUNK_SIZE <= nb && nb % 8 == 0 && nb - CHUNK_OVERHEAD >= nsize
    requires nb + MIN_CHUNK_SIZE <= w.tags.head[p].size
    ensures var w' := w.(tags := CutInUse(w.tags, p, nb), live := w.live[p := nsize][p + nb := 0]);
      InOrder(w', segs, pages, leaked) && Kept(w, w', p) && p + nb !in w.live && p + nb !in w.tags.direct
  {
    hide Books, Mapped, Tiles, Truthful, Holds, Kept, Split;
    HeapParts(w, segs);
    CutLiveHeap(w, segs, p, nb, nsize);
    StepInOrder(w, CutLive(w, p, nb, nsize), segs, pages, leaked, p);
    NotDirectInside(w.tags, p + nb);
  }

  lemma ShrinkTakes(w: World, w1: World, w': World, p: int, r: int, nsize: nat)
    requires p in w.live && p != r && r !in w.live && w1.live == w.live[p := nsize][r := 0] && Kept(w, w1, p)
      && Takes(w1, w', r)
    ensures Resizes(w, w', p, p, nsize)
    ensures p in w1.tags.head && p in w'.tags.head && w'.tags.head[p].size == w1.tags.head[p].size
  {
    forall x | x in w.live && x != p
      ensures KeptAt(w, w', x)
    {
      assert KeptAt(w, w1, x);
      assert KeptAt(w1, w', x);
    }
    assert KeptAt(w1, w', p);
    assert w'.live == (w.live - {p})[p := nsize];
  }

  /** The writes that let a block take the front of the top chunk. */
  function GrownTags(w: World, p: int, nb: nat): Tags
    requires p in w.tags.head && nb < w.tags.head[p].size + w.topsize
  {
    var n := w.tags.head[p].size + w.topsize;
    w.tags.(head := (w.tags.head - {w.top})[p := Head(nb, true, w.tags.head[p].pinuse)]
                           [p + nb := Head(n - nb, false, true)])
  }

  lemma GrowCall(w: World, segs: seq<Seg>, pages: set<int>, leaked: set<int>, p: int, nb: nat, nsize: nat)
    requires InOrder(w, segs, pages, leaked) && p in w.live && p in w.tags.head && p !in w.tags.direct
      && Next(w.tags, p) == w.top
    requires w.tags.head[p].size < nb < w.tags.head[p].size + w.topsize && nb % 8 == 0 && nb - CHUNK_OVERHEAD >= nsize
    ensures var n := w.tags.head[p].size + w.topsize;
      var w' := w.(tags := GrownTags(w, p, nb), top := p + nb, topsize := n - nb, live := w.live[p := nsize]);
      InOrder(w', segs, pages, leaked) && Resizes(w, w', p, p, nsize)
  {
    hide InOrder, Kept, Moves, Resizes, Books, HeapOk, Tiles, Listed, GrowIntoTop, SameFeet;
    OrderBooks(w, segs, pages, leaked);
    GrowWorld(w, segs, pages, leaked, p, nb, nsize);
    var n := w.tags.head[p].size + w.topsize;
    var w1 := GrowIntoTop(w, p, nb, nsize);
    EndFoot(w1.tags, w.tags.foot, p + n, PrevSize(n - nb));
    FeetInOrder(w1, segs, pages, leaked, w.tags.foot);
    GrowResizes(w, w1, w1.(tags := w1.tags.(foot := w.tags.foot)), p, nsize);
  }

  lemma GrowShape(w: World, p: int, nb: nat, nsize: nat)
    requires Books(w) && p in w.live && p in w.tags.head && p !in w.tags.direct && Next(w.tags, p) == w.top
      && w.top + w.topsize in w.tags.lims
    requires 0 < w.tags.head[p].size < nb < w.tags.head[p].size + w.topsize
    ensures var n := w.tags.head[p].size + w.topsize;
      GrowIntoTop(w, p, nb, nsize) ==
        w.(tags := GrownTags(w, p, nb).(foot := w.tags.foot[p + n := PrevSize(n - nb)]), top := p + nb,
           topsize := n - nb, live := w.live[p := nsize])
  {
    hide Books, Split, Merged;
    GrowTags(w, p, nb, nsize);
  }

  lemma GrowOrder(w: World, segs: seq<Seg>, pages: set<int>, leaked: set<int>, p: int, nb: nat, nsize: nat)
    requires InOrder(w, segs, pages, leaked) && p in w.live && p in w.tags.head && p !in w.tags.direct
      && Next(w.tags, p) == w.top
    requires w.tags.head[p].size < nb < w.tags.head[p].size + w.topsize && nb % 8 == 0 && nb - CHUNK_OVERHEAD >= nsize
    ensures var w1 := GrowIntoTop(w, p, nb, nsize);
      && InOrder(w1, segs, pages, leaked) && HeapOk(w1, segs) && Kept(w, w1, p)
  {
    hide Books, Mapped, Tiles, Truthful, Holds, Kept, GrowIntoTop, HeapOk;
    GrowFacts(w, segs, pages, leaked, p);
    GrowIntoTopHeap(w, segs, p, nb, nsize);
    GrowShape(w, p, nb, nsize);
    hide InOrder;
    StepInOrder(w, GrowIntoTop(w, p, nb, nsize), segs, pages, leaked, p);
  }

  lemma GrowFacts(w: World, segs: seq<Seg>, pages: set<int>, leaked: set<int>, p: int)
    requires InOrder(w, segs, pages, leaked) && p in w.live && p in w.tags.head
    ensures HeapOk(w, segs) && Books(w) && w.top + w.topsize in w.tags.lims && w.tags.head[p].size > 0
  {
    hide Books, Mapped, Tiles, Truthful, Holds;
    HeapParts(w, segs);
    TopLim(w, segs);
    SizeBelowLimit(w, segs, p);
  }

  lemma GrowWorld(w: World, segs: seq<Seg>, pages: set<int>, leaked: set<int>, p: int, nb: nat, nsize: nat)
    requires InOrder(w, segs, pages, leaked) && p in w.live && p in w.tags.head && p !in w.tags.direct
      && Next(w.tags, p) == w.top
    requires w.tags.head[p].size < nb < w.tags.head[p].size + w.topsize && nb % 8 == 0 && nb - CHUNK_OVERHEAD >= nsize
    ensures var n := w.tags.head[p].size + w.topsize; var w1 := GrowIntoTop(w, p, nb, nsize);
      && InOrder(w1, segs, pages, leaked) && Kept(w, w1, p) && p + n !in w1.tags.head
      && w1 == w.(tags := GrownTags(w, p, nb).(foot := w.tags.foot[p + n := PrevSize(n - nb)]), top := p + nb,
        topsize := n - nb, live := w.live[p := nsize])
  {
    hide Books, Kept, GrowIntoTop, HeapOk, InOrder, GrownTags;
    GrowFacts(w, segs, pages, leaked, p);
    GrowShape(w, p, nb, nsize);
    GrowOrder(w, segs, pages, leaked, p, nb, nsize);
    TopLim(GrowIntoTop(w, p, nb, nsize), segs);
  }

  lemma GrowResizes(w: World, w1: World, w': World, p: int, nsize: nat)
    requires Kept(w, w1, p) && Moves(w1, w') && w1.live == w.live[p := nsize] && p in w.live && Books(w)
    ensures Resizes(w, w', p, p, nsize)
  {
    hide Books;
    LivePositive(w);
    forall x | x in w.live && x != p
      ensures KeptAt(w, w', x)
    {
      assert KeptAt(w, w1, x);
      assert KeptAt(w1, w', x);
    }
    assert w'.live == (w.live - {p})[p := nsize];
  }
}
