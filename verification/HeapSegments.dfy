/** The segment list: which mapped regions hold which chunks (lj_alloc.c:418-423,
    496-531, 820-1043).  A segment ends in an overhead area that begins at `lim`: the
    fake trailing chunk of the top chunk, or the fenceposts behind the record chunk. */
module HeapSegments {
  import opened BoundaryTags
  import opened HeapWorld
  import opened HeapEdge

  const TOP_FOOT_SIZE: nat := 64
  const DIRECT_FOOT_PAD: nat := 32
  const GRANULARITY: nat := 0x2_0000
  const ADDRESS_LIMIT: nat := 0x100_0000_0000

  /** `rec` is the record chunk that describes the segment; the first segment of the
      list is described by malloc_state itself. */
  datatype Seg = Seg(base: int, size: nat, lim: int, rec: int)

  function End(g: Seg): int { g.base + g.size }

  ghost predicate SegOk(t: Tags, pinned: set<int>, g: Seg, first: bool) {
    && 0 < g.base && g.base % 8 == 0 && g.size % 8 == 0 && GRANULARITY <= g.size && End(g) <= ADDRESS_LIMIT
    && g.base < g.lim <= End(g) - RECORD_SIZE && g.lim in t.lims
    && g.base in t.head && t.head[g.base].pinuse && g.base !in t.direct
    && (if first then g.lim == End(g) - TOP_FOOT_SIZE else IsRecord(t, pinned, g))
  }

  ghost predicate IsRecord(t: Tags, pinned: set<int>, g: Seg) {
    && g.rec in t.head && g.rec in pinned && g.base <= g.rec <= End(g) - TOP_FOOT_SIZE
    && g.rec !in t.direct && Next(t, g.rec) == g.lim && t.head[g.rec].size == RECORD_SIZE
  }

  predicate InSeg(t: Tags, g: Seg, c: int)
    requires c in t.head
  {
    g.base <= c && Next(t, c) <= g.lim
  }

  ghost predicate Owned(t: Tags, segs: seq<Seg>, c: int)
    requires c in t.head
  {
    exists k :: 0 <= k < |segs| && InSeg(t, segs[k], c)
  }

  ghost predicate LimOwned(t: Tags, segs: seq<Seg>, e: int) {
    (exists k :: 0 <= k < |segs| && segs[k].lim == e) || (exists d :: d in t.direct && d in t.head && Next(t, d) == e)
  }

  predicate Apart(lo: int, hi: int, lo': int, hi': int) {
    hi <= lo' || hi' <= lo
  }

  /** A directly mapped chunk begins its region; its own overhead follows it. */
  ghost predicate DirectOk(t: Tags, segs: seq<Seg>, d: int) {
    && d in t.head && Next(t, d) + DIRECT_FOOT_PAD <= ADDRESS_LIMIT
    && (forall k :: 0 <= k < |segs| ==> Apart(segs[k].base, End(segs[k]), d, Next(t, d) + DIRECT_FOOT_PAD))
    && (forall c :: c in t.direct && c != d ==>
        c in t.head && Apart(c, Next(t, c) + DIRECT_FOOT_PAD, d, Next(t, d) + DIRECT_FOOT_PAD))
  }

  ghost predicate Mapped(t: Tags, pinned: set<int>, segs: seq<Seg>) {
    && segs != []
    && (forall k :: 0 <= k < |segs| ==> SegOk(t, pinned, segs[k], k == 0))
    && (forall i, j :: 0 <= i < j < |segs| ==> Apart(segs[i].base, End(segs[i]), segs[j].base, End(segs[j])))
    && (forall c :: c in t.head && c !in t.direct ==> Owned(t, segs, c))
    && (forall e :: e in t.lims ==> LimOwned(t, segs, e))
    && (forall d :: d in t.direct ==> DirectOk(t, segs, d))
  }

  // ----- one element at a time

  lemma SegAt(t: Tags, pinned: set<int>, segs: seq<Seg>, k: nat)
    requires Mapped(t, pinned, segs) && k < |segs|
    ensures SegOk(t, pinned, segs[k], k == 0)
  {
  }

  lemma SegSize(t: Tags, pinned: set<int>, segs: seq<Seg>, k: nat)
    requires Mapped(t, pinned, segs) && k < |segs|
    ensures segs[k].size > 0
  {
    SegAt(t, pinned, segs, k);
  }

  lemma ApartAt(t: Tags, pinned: set<int>, segs: seq<Seg>, i: nat, j: nat)
    requires Mapped(t, pinned, segs) && i < |segs| && j < |segs| && i != j
    ensures Apart(segs[i].base, End(segs[i]), segs[j].base, End(segs[j]))
  {
  }

  lemma OwnerAt(t: Tags, pinned: set<int>, segs: seq<Seg>, c: int) returns (k: nat)
    requires Mapped(t, pinned, segs) && c in t.head && c !in t.direct
    ensures k < |segs| && InSeg(t, segs[k], c)
  {
    assert Owned(t, segs, c);
    k :| 0 <= k < |segs| && InSeg(t, segs[k], c);
  }

  lemma LimAt(t: Tags, pinned: set<int>, segs: seq<Seg>, e: int)
    requires Mapped(t, pinned, segs) && e in t.lims
    ensures LimOwned(t, segs, e)
  {
  }

  lemma DirectOkAt(t: Tags, pinned: set<int>, segs: seq<Seg>, d: int)
    requires Mapped(t, pinned, segs) && d in t.direct
    ensures DirectOk(t, segs, d)
  {
  }

  lemma MappedIntro(t: Tags, pinned: set<int>, segs: seq<Seg>)
    requires segs != []
    requires forall k :: 0 <= k < |segs| ==> SegOk(t, pinned, segs[k], k == 0)
    requires forall i, j :: 0 <= i < j < |segs| ==> Apart(segs[i].base, End(segs[i]), segs[j].base, End(segs[j]))
    requires forall c :: c in t.head && c !in t.direct ==> Owned(t, segs, c)
    requires forall e :: e in t.lims ==> LimOwned(t, segs, e)
    requires forall d :: d in t.direct ==> DirectOk(t, segs, d)
    ensures Mapped(t, pinned, segs)
  {
  }

  /** No chunk ends where a segment begins, and none reaches over an end. */
  lemma BaseIsFirst(t: Tags, pinned: set<int>, segs: seq<Seg>, c: int, k: nat)
    requires Mapped(t, pinned, segs) && Tiles(t) && c in t.head && k < |segs|
    ensures Next(t, c) != segs[k].base
    ensures segs[k].base <= c < End(segs[k]) <==> segs[k].base <= Next(t, c) < End(segs[k])
    ensures segs[k].base <= c < End(segs[k]) ==> c !in t.direct && InSeg(t, segs[k], c)
  {
    hide Mapped, Tiles;
    SegAt(t, pinned, segs, k);
    ChunkAt(t, c);
    if c in t.direct {
      DirectOkAt(t, pinned, segs, c);
      assert Apart(segs[k].base, End(segs[k]), c, Next(t, c) + DIRECT_FOOT_PAD);
    } else {
      var j := OwnerAt(t, pinned, segs, c);
      SegAt(t, pinned, segs, j);
      if j != k {
        ApartAt(t, pinned, segs, j, k);
      }
    }
  }

  /** A run stays inside one segment. */
  lemma RunInSeg(t: Tags, pinned: set<int>, segs: seq<Seg>, a: int, n: nat) returns (k: nat)
    requires Mapped(t, pinned, segs) && Tiles(t) && IsRun(t, a, n)
    ensures k < |segs| && segs[k].base <= a && a + n <= segs[k].lim && SegOk(t, pinned, segs[k], k == 0)
  {
    hide Mapped, Tiles;
    RunExcludesAt(t, a, n, a);
    k := OwnerAt(t, pinned, segs, a);
    SegAt(t, pinned, segs, k);
    ChunkAt(t, a);
    RunNoLim(t, a, n, segs[k].lim);
  }

  lemma RunNoLim(t: Tags, a: int, n: nat, e: int)
    requires IsRun(t, a, n) && e in t.lims
    ensures !(a < e < a + n)
  {
  }

  // ----- steps inside a segment

  /** Merging chunks, none of which is bookkeeping. */
  lemma MergedMapped(t: Tags, pinned: set<int>, segs: seq<Seg>, a: int, n: nat, cinuse: bool)
    requires Mapped(t, pinned, segs) && Tiles(t) && Truthful(t) && IsRun(t, a, n)
    requires forall c :: c in t.head && a <= c < a + n ==> c !in pinned
    ensures Mapped(Merged(t, a, n, cinuse), pinned, segs)
  {
    hide Mapped, Tiles, Truthful, IsRun, Merged;
    RunPositive(t, a, n);
    var t' := Merged(t, a, n, cinuse);
    var k0 := RunInSeg(t, pinned, segs, a, n);
    MergedFoot(t, a, n, cinuse, a);
    NonEmpty(t, pinned, segs);
    forall k | 0 <= k < |segs|
      ensures SegOk(t', pinned, segs[k], k == 0)
    {
      MergedSeg(t, pinned, segs, a, n, cinuse, k, k0);
    }
    forall i, j | 0 <= i < j < |segs|
      ensures Apart(segs[i].base, End(segs[i]), segs[j].base, End(segs[j]))
    {
      ApartAt(t, pinned, segs, i, j);
    }
    forall c | c in t'.head && c !in t'.direct
      ensures Owned(t', segs, c)
    {
      MergedHead(t, a, n, cinuse, c);
      MergedNext(t, a, n, cinuse, c);
      if c != a {
        var k := OwnerAt(t, pinned, segs, c);
        assert InSeg(t', segs[k], c);
      } else {
        assert InSeg(t', segs[k0], c);
      }
    }
    forall e | e in t'.lims
      ensures LimOwned(t', segs, e)
    {
      MergedLim(t, pinned, segs, a, n, cinuse, e);
    }
    forall d | d in t'.direct
      ensures DirectOk(t', segs, d)
    {
      MergedDirectOk(t, pinned, segs, a, n, cinuse, d);
    }
    MappedIntro(t', pinned, segs);
  }

  lemma NonEmpty(t: Tags, pinned: set<int>, segs: seq<Seg>)
    requires Mapped(t, pinned, segs)
    ensures segs != []
  {
  }

  lemma MergedSeg(t: Tags, pinned: set<int>, segs: seq<Seg>, a: int, n: nat, cinuse: bool, k: nat, k0: nat)
    requires Mapped(t, pinned, segs) && Tiles(t) && IsRun(t, a, n) && k < |segs|
    requires forall c :: c in t.head && a <= c < a + n ==> c !in pinned
    requires k0 < |segs| && segs[k0].base <= a && a + n <= segs[k0].lim && SegOk(t, pinned, segs[k0], k0 == 0)
    ensures SegOk(Merged(t, a, n, cinuse), pinned, segs[k], k == 0)
  {
    hide Mapped, Tiles, IsRun, Merged;
    RunPositive(t, a, n);
    var g := segs[k];
    SegAt(t, pinned, segs, k);
    if k != k0 {
      ApartAt(t, pinned, segs, k, k0);
    }
    MergedHead(t, a, n, cinuse, g.base);
    MergedFoot(t, a, n, cinuse, a);
    if k != 0 {
      MergedHead(t, a, n, cinuse, g.rec);
      MergedNext(t, a, n, cinuse, g.rec);
    }
  }

  lemma MergedLim(t: Tags, pinned: set<int>, segs: seq<Seg>, a: int, n: nat, cinuse: bool, e: int)
    requires Mapped(t, pinned, segs) && Tiles(t) && Truthful(t) && IsRun(t, a, n) && e in t.lims
    ensures LimOwned(Merged(t, a, n, cinuse), segs, e)
  {
    hide Mapped, Tiles, Truthful, IsRun, Merged;
    RunPositive(t, a, n);
    MergedFoot(t, a, n, cinuse, a);
    LimAt(t, pinned, segs, e);
    if !(exists k :: 0 <= k < |segs| && segs[k].lim == e) {
      var d :| d in t.direct && d in t.head && Next(t, d) == e;
      RunExcludes(t, a, n, d);
      MergedHead(t, a, n, cinuse, d);
      AfterRun(t, a, n);
      assert d in Merged(t, a, n, cinuse).head && Next(Merged(t, a, n, cinuse), d) == e;
    }
  }

  lemma MergedDirectOk(t: Tags, pinned: set<int>, segs: seq<Seg>, a: int, n: nat, cinuse: bool, d: int)
    requires Mapped(t, pinned, segs) && Tiles(t) && Truthful(t) && IsRun(t, a, n) && d in t.direct
    ensures DirectOk(Merged(t, a, n, cinuse), segs, d)
  {
    hide Mapped, Tiles, Truthful, IsRun, Merged;
    RunPositive(t, a, n);
    MergedFoot(t, a, n, cinuse, a);
    AfterRun(t, a, n);
    DirectOkAt(t, pinned, segs, d);
    MergedKeepsDirect(t, a, n, cinuse, d);
    forall c | c in t.direct && c != d
      ensures c in Merged(t, a, n, cinuse).head && Next(Merged(t, a, n, cinuse), c) == Next(t, c)
    {
      assert c in t.head;
      MergedKeepsDirect(t, a, n, cinuse, c);
    }
  }

  lemma MergedKeepsDirect(t: Tags, a: int, n: nat, cinuse: bool, c: int)
    requires IsRun(t, a, n) && c in t.direct && c in t.head
    ensures c in Merged(t, a, n, cinuse).head && Next(Merged(t, a, n, cinuse), c) == Next(t, c)
  {
  }

  /** Cutting a chunk that is not bookkeeping. */
  lemma SplitMapped(t: Tags, pinned: set<int>, segs: seq<Seg>, a: int, nb: nat, cinuse: bool)
    requires Mapped(t, pinned, segs) && Tiles(t) && Truthful(t) && a in t.head && a !in t.direct && a !in pinned
      && 0 < nb < t.head[a].size
    ensures Mapped(Split(t, a, nb, cinuse), pinned, segs)
  {
    hide Mapped, Tiles, Truthful, Split;
    var t' := Split(t, a, nb, cinuse);
    SplitInside(t, a, nb);
    NonEmpty(t, pinned, segs);
    SplitHead(t, a, nb, cinuse, a);
    var k0 := OwnerAt(t, pinned, segs, a);
    forall k | 0 <= k < |segs|
      ensures SegOk(t', pinned, segs[k], k == 0)
    {
      SplitSeg(t, pinned, segs, a, nb, cinuse, k);
    }
    forall i, j | 0 <= i < j < |segs|
      ensures Apart(segs[i].base, End(segs[i]), segs[j].base, End(segs[j]))
    {
      ApartAt(t, pinned, segs, i, j);
    }
    forall c | c in t'.head && c !in t'.direct
      ensures Owned(t', segs, c)
    {
      SplitHead(t, a, nb, cinuse, c);
      SplitNext(t, a, nb, cinuse, c);
      if c != a && c != a + nb {
        var k := OwnerAt(t, pinned, segs, c);
        assert InSeg(t', segs[k], c);
      } else {
        assert InSeg(t', segs[k0], c);
      }
    }
    forall e | e in t'.lims
      ensures LimOwned(t', segs, e)
    {
      SplitLim(t, pinned, segs, a, nb, cinuse, e);
    }
    forall d | d in t'.direct
      ensures DirectOk(t', segs, d)
    {
      SplitDirectOk(t, pinned, segs, a, nb, cinuse, d);
    }
    MappedIntro(t', pinned, segs);
  }

  lemma SplitSeg(t: Tags, pinned: set<int>, segs: seq<Seg>, a: int, nb: nat, cinuse: bool, k: nat)
    requires Mapped(t, pinned, segs) && Tiles(t) && a in t.head && a !in pinned && 0 < nb < t.head[a].size && k < |segs|
    requires a + nb !in t.head
    ensures SegOk(Split(t, a, nb, cinuse), pinned, segs[k], k == 0)
  {
    hide Mapped, Tiles, Split;
    var g := segs[k];
    SegAt(t, pinned, segs, k);
    BaseIsFirst(t, pinned, segs, a, k);
    SplitHead(t, a, nb, cinuse, g.base);
    if k != 0 {
      SplitHead(t, a, nb, cinuse, g.rec);
      SplitNext(t, a, nb, cinuse, g.rec);
    }
  }

  lemma SplitLim(t: Tags, pinned: set<int>, segs: seq<Seg>, a: int, nb: nat, cinuse: bool, e: int)
    requires Mapped(t, pinned, segs) && Tiles(t) && a in t.head && a !in t.direct && 0 < nb < t.head[a].size
      && e in t.lims
    requires a + nb !in t.head
    ensures LimOwned(Split(t, a, nb, cinuse), segs, e)
  {
    hide Mapped, Tiles, Split;
    LimAt(t, pinned, segs, e);
    if !(exists k :: 0 <= k < |segs| && segs[k].lim == e) {
      var d :| d in t.direct && d in t.head && Next(t, d) == e;
      SplitHead(t, a, nb, cinuse, d);
      SplitNext(t, a, nb, cinuse, d);
      assert d in Split(t, a, nb, cinuse).head && Next(Split(t, a, nb, cinuse), d) == e;
    }
  }

  lemma SplitDirectOk(t: Tags, pinned: set<int>, segs: seq<Seg>, a: int, nb: nat, cinuse: bool, d: int)
    requires Mapped(t, pinned, segs) && Tiles(t) && a in t.head && a !in t.direct && 0 < nb < t.head[a].size
      && d in t.direct
    requires a + nb !in t.head
    ensures DirectOk(Split(t, a, nb, cinuse), segs, d)
  {
    hide Mapped, Tiles, Split;
    DirectOkAt(t, pinned, segs, d);
    SplitKeepsDirect(t, a, nb, cinuse, d);
    SplitHead(t, a, nb, cinuse, d);
    forall c | c in t.direct && c != d
      ensures c in Split(t, a, nb, cinuse).head && Next(Split(t, a, nb, cinuse), c) == Next(t, c)
    {
      assert c in t.head;
      SplitKeepsDirect(t, a, nb, cinuse, c);
    }
  }

  lemma SplitKeepsDirect(t: Tags, a: int, nb: nat, cinuse: bool, c: int)
    requires a in t.head && a !in t.direct && nb < t.head[a].size && c in t.direct && c in t.head && c != a + nb
    ensures c in Split(t, a, nb, cinuse).head && Next(Split(t, a, nb, cinuse), c) == Next(t, c)
  {
  }

  // ----- new and changed regions

  /** The addresses lo .. hi belong to no segment and no directly mapped region. */
  ghost predicate Fresh(t: Tags, segs: seq<Seg>, lo: int, hi: int) {
    && 0 < lo < hi <= ADDRESS_LIMIT
    && (forall k :: 0 <= k < |segs| ==> Apart(segs[k].base, End(segs[k]), lo, hi))
    && (forall d :: d in t.direct && d in t.head ==> Apart(d, Next(t, d) + DIRECT_FOOT_PAD, lo, hi))
  }

  lemma FreshAt(t: Tags, segs: seq<Seg>, lo: int, hi: int, k: nat)
    requires Fresh(t, segs, lo, hi) && k < |segs|
    ensures Apart(segs[k].base, End(segs[k]), lo, hi)
  {
  }

  lemma FreshDirect(t: Tags, segs: seq<Seg>, lo: int, hi: int, d: int)
    requires Fresh(t, segs, lo, hi) && d in t.direct && d in t.head
    ensures Apart(d, Next(t, d) + DIRECT_FOOT_PAD, lo, hi)
  {
  }

  /** Chunks keep clear of fresh memory, by at least the overhead at their end. */
  lemma FreshChunk(t: Tags, pinned: set<int>, segs: seq<Seg>, lo: int, hi: int, c: int)
    requires Mapped(t, pinned, segs) && Tiles(t) && Fresh(t, segs, lo, hi) && c in t.head
    ensures (c < lo && Next(t, c) + RECORD_SIZE <= lo) || hi <= c
  {
    hide Mapped, Tiles, Fresh;
    ChunkAt(t, c);
    if c in t.direct {
      DirectOkAt(t, pinned, segs, c);
      FreshDirect(t, segs, lo, hi, c);
    } else {
      var k := OwnerAt(t, pinned, segs, c);
      SegAt(t, pinned, segs, k);
      FreshAt(t, segs, lo, hi, k);
    }
  }

  lemma FreshLim(t: Tags, pinned: set<int>, segs: seq<Seg>, lo: int, hi: int, e: int)
    requires Mapped(t, pinned, segs) && Tiles(t) && Fresh(t, segs, lo, hi) && e in t.lims
    ensures e + RECORD_SIZE <= lo || hi < e
  {
    hide Mapped, Tiles, Fresh;
    LimAt(t, pinned, segs, e);
    if k :| 0 <= k < |segs| && segs[k].lim == e {
      SegAt(t, pinned, segs, k);
      FreshAt(t, segs, lo, hi, k);
    } else {
      var d :| d in t.direct && d in t.head && Next(t, d) == e;
      ChunkAt(t, d);
      FreshDirect(t, segs, lo, hi, d);
    }
  }

  /** The top chunk is the last chunk of the first segment. */
  ghost predicate TopOk(w: World, segs: seq<Seg>) {
    && segs != [] && w.top in w.tags.head
    && segs[0].base <= w.top && w.top + w.topsize == segs[0].lim
  }

  /** Everything about the heap between two calls. */
  ghost predicate HeapOk(w: World, segs: seq<Seg>) {
    Books(w) && Mapped(w.tags, w.pinned, segs) && TopOk(w, segs)
  }

  /** Whatever is not the top chunk keeps clear of what lies behind the top chunk. */
  lemma BehindTop(w: World, segs: seq<Seg>, c: int, hi: int)
    requires HeapOk(w, segs) && c in w.tags.head && c != w.top && w.top < hi <= segs[0].base + segs[0].size
    ensures c < w.top || hi <= c
    ensures Next(w.tags, c) < w.top + w.topsize || hi < Next(w.tags, c)
  {
    hide Books, Mapped, Tiles, Truthful;
    TopFacts(w);
    SegAt(w.tags, w.pinned, segs, 0);
    BaseIsFirst(w.tags, w.pinned, segs, c, 0);
    ChunkAt(w.tags, c);
    if c < w.top { PairAt(w.tags, c, w.top); } else { PairAt(w.tags, w.top, c); }
  }

  lemma LimBehindTop(w: World, segs: seq<Seg>, e: int)
    requires HeapOk(w, segs) && e in w.tags.lims && e != w.top + w.topsize
    ensures e < w.top || End(segs[0]) < e
  {
    hide Books, Mapped, Tiles, Truthful;
    TopFacts(w);
    SegAt(w.tags, w.pinned, segs, 0);
    LimAt(w.tags, w.pinned, segs, e);
    if k :| 0 <= k < |segs| && segs[k].lim == e {
      SegAt(w.tags, w.pinned, segs, k);
      ApartAt(w.tags, w.pinned, segs, 0, k);
    } else {
      var d :| d in w.tags.direct && d in w.tags.head && Next(w.tags, d) == e;
      ChunkAt(w.tags, d);
      DirectOkAt(w.tags, w.pinned, segs, d);
      assert Apart(segs[0].base, End(segs[0]), d, Next(w.tags, d) + DIRECT_FOOT_PAD);
    }
  }

  /** The first segment with another size and end. */
  function Resegmented(segs: seq<Seg>, size: nat, lim: int): seq<Seg>
    requires segs != []
  {
    segs[0 := segs[0].(size := size, lim := lim)]
  }

  /** The first segment may be given this size: it keeps clear of everything else. */
  ghost predicate RoomFor(t: Tags, segs: seq<Seg>, size: nat) {
    && segs != [] && size % 8 == 0 && GRANULARITY <= size && segs[0].base + size <= ADDRESS_LIMIT
    && (forall k :: 1 <= k < |segs| ==> Apart(segs[k].base, End(segs[k]), segs[0].base, segs[0].base + size))
    && (forall d :: d in t.direct && d in t.head ==>
        Apart(d, Next(t, d) + DIRECT_FOOT_PAD, segs[0].base, segs[0].base + size))
  }

  lemma RoomAt(t: Tags, segs: seq<Seg>, size: nat, k: nat)
    requires RoomFor(t, segs, size) && 1 <= k < |segs|
    ensures Apart(segs[k].base, End(segs[k]), segs[0].base, segs[0].base + size)
  {
  }

  lemma RoomDirect(t: Tags, segs: seq<Seg>, size: nat, d: int)
    requires RoomFor(t, segs, size) && d in t.direct && d in t.head
    ensures Apart(d, Next(t, d) + DIRECT_FOOT_PAD, segs[0].base, segs[0].base + size)
  {
  }

  lemma RoomParts(t: Tags, segs: seq<Seg>, size: nat)
    requires RoomFor(t, segs, size)
    ensures segs != [] && size % 8 == 0 && GRANULARITY <= size && segs[0].base + size <= ADDRESS_LIMIT
  {
  }

  /** Nothing else is in the way of the top chunk with the new size. */
  lemma RoomToResize(w: World, segs: seq<Seg>, n: nat, hi: int)
    requires HeapOk(w, segs) && n > 0 && n % 8 == 0 && w.top + n < hi
    requires forall c :: c in w.tags.head && c != w.top ==> c < w.top || hi <= c
    requires forall e :: e in w.tags.lims && e != w.top + w.topsize ==> e < w.top || hi <= e
    ensures CanResize(w.tags, w.top, n)
  {
    hide Books, Mapped, Tiles, Truthful;
    TopFacts(w);
    SegAt(w.tags, w.pinned, segs, 0);
    forall c | c in w.tags.head && c != w.top
      ensures Next(w.tags, c) != Next(w.tags, w.top)
    {
      BehindTop(w, segs, c, End(segs[0]));
    }
  }

  /** Another size for the top chunk and the first segment, by appended or trimmed memory. */
  lemma ResizeTopHeap(w: World, segs: seq<Seg>, n: nat, size: nat)
    requires HeapOk(w, segs) && n > 0 && n % 8 == 0 && RoomFor(w.tags, segs, size)
    requires w.top + n == segs[0].base + size - TOP_FOOT_SIZE
    ensures w.top in w.tags.head && HeapOk(ResizeTop(w, n), Resegmented(segs, size, w.top + n))
  {
    hide Books, Mapped, Tiles, Truthful, RoomFor, CanResize;
    TopFacts(w);
    RoomParts(w.tags, segs, size);
    SegAt(w.tags, w.pinned, segs, 0);
    var hi := segs[0].base + size;
    forall c | c in w.tags.head && c != w.top
      ensures c < w.top || hi <= c
    {
      RoomChunk(w, segs, size, c);
    }
    forall e | e in w.tags.lims && e != w.top + w.topsize
      ensures e < w.top || hi <= e
    {
      RoomLim(w, segs, size, e);
    }
    RoomToResize(w, segs, n, hi);
    ResizeTopOk(w, n);
    ResizeMapped(w, segs, n, size);
  }

  lemma RoomChunk(w: World, segs: seq<Seg>, size: nat, c: int)
    requires HeapOk(w, segs) && RoomFor(w.tags, segs, size) && c in w.tags.head && c != w.top
    requires w.top < segs[0].base + size
    ensures c < w.top || segs[0].base + size <= c
  {
    hide Books, Mapped, Tiles, Truthful, RoomFor;
    TopFacts(w);
    SegAt(w.tags, w.pinned, segs, 0);
    if w.top < c {
      PairAt(w.tags, w.top, c);
      BaseIsFirst(w.tags, w.pinned, segs, c, 0);
      if c in w.tags.direct {
        RoomDirect(w.tags, segs, size, c);
      } else {
        var k := OwnerAt(w.tags, w.pinned, segs, c);
        SegAt(w.tags, w.pinned, segs, k);
        ChunkAt(w.tags, c);
        if k != 0 {
          RoomAt(w.tags, segs, size, k);
        }
      }
    }
  }

  lemma RoomLim(w: World, segs: seq<Seg>, size: nat, e: int)
    requires HeapOk(w, segs) && RoomFor(w.tags, segs, size) && e in w.tags.lims && e != w.top + w.topsize
    requires w.top < segs[0].base + size
    ensures e < w.top || segs[0].base + size <= e
  {
    hide Books, Mapped, Tiles, Truthful, RoomFor;
    LimBehindTop(w, segs, e);
    LimAt(w.tags, w.pinned, segs, e);
    TopFacts(w);
    SegAt(w.tags, w.pinned, segs, 0);
    if k :| 0 <= k < |segs| && segs[k].lim == e {
      SegAt(w.tags, w.pinned, segs, k);
      RoomAt(w.tags, segs, size, k);
    } else {
      var d :| d in w.tags.direct && d in w.tags.head && Next(w.tags, d) == e;
      ChunkAt(w.tags, d);
      RoomDirect(w.tags, segs, size, d);
    }
  }

  lemma ResizeMapped(w: World, segs: seq<Seg>, n: nat, size: nat)
    requires HeapOk(w, segs) && n > 0 && RoomFor(w.tags, segs, size) && w.top in w.tags.head
    requires w.top + n == segs[0].base + size - TOP_FOOT_SIZE
    ensures Mapped(ResizeTop(w, n).tags, w.pinned, Resegmented(segs, size, w.top + n))
  {
    hide Books, Mapped, Tiles, Truthful, RoomFor;
    TopFacts(w);
    RoomParts(w.tags, segs, size);
    var t', segs' := ResizeTop(w, n).tags, Resegmented(segs, size, w.top + n);
    forall k | 0 <= k < |segs'|
      ensures SegOk(t', w.pinned, segs'[k], k == 0)
    {
      SegAt(w.tags, w.pinned, segs, k);
      SegAt(w.tags, w.pinned, segs, 0);
      if k != 0 { ApartAt(w.tags, w.pinned, segs, 0, k); }
    }
    forall i, j | 0 <= i < j < |segs'|
      ensures Apart(segs'[i].base, End(segs'[i]), segs'[j].base, End(segs'[j]))
    {
      ApartAt(w.tags, w.pinned, segs, i, j);
      RoomAt(w.tags, segs, size, j);
    }
    forall c | c in t'.head && c !in t'.direct
      ensures Owned(t', segs', c)
    {
      if c != w.top {
        var k := OwnerAt(w.tags, w.pinned, segs, c);
        if k == 0 { ResizeOwner(w, segs, n, c); }
        assert InSeg(t', segs'[k], c);
      } else {
        assert InSeg(t', segs'[0], c);
      }
    }
    forall e | e in t'.lims
      ensures LimOwned(t', segs', e)
    {
      ResizeLim(w, segs, n, size, e);
    }
    forall d | d in t'.direct
      ensures DirectOk(t', segs', d)
    {
      ResizeDirect(w, segs, n, size, d);
    }
    MappedIntro(t', w.pinned, segs');
  }

  lemma ResizeOwner(w: World, segs: seq<Seg>, n: nat, c: int)
    requires HeapOk(w, segs) && c in w.tags.head && c != w.top && InSeg(w.tags, segs[0], c)
    ensures Next(w.tags, c) <= w.top
  {
    hide Books, Mapped, Tiles, Truthful;
    TopFacts(w);
    ChunkAt(w.tags, c);
    if c < w.top { PairAt(w.tags, c, w.top); } else { PairAt(w.tags, w.top, c); }
  }

  lemma ResizeLim(w: World, segs: seq<Seg>, n: nat, size: nat, e: int)
    requires HeapOk(w, segs) && w.top in w.tags.head && e in ResizeTop(w, n).tags.lims
    ensures LimOwned(ResizeTop(w, n).tags, Resegmented(segs, size, w.top + n), e)
  {
    hide Books, Mapped, Tiles, Truthful;
    TopFacts(w);
    var t', segs' := ResizeTop(w, n).tags, Resegmented(segs, size, w.top + n);
    if e == w.top + n {
      assert segs'[0].lim == e;
    } else {
      LimAt(w.tags, w.pinned, segs, e);
      if k :| 0 <= k < |segs| && segs[k].lim == e {
        assert segs'[k].lim == e;
      } else {
        var d :| d in w.tags.direct && d in w.tags.head && Next(w.tags, d) == e;
        assert d in t'.direct && d in t'.head && Next(t', d) == e;
      }
    }
  }

  lemma ResizeDirect(w: World, segs: seq<Seg>, n: nat, size: nat, d: int)
    requires HeapOk(w, segs) && w.top in w.tags.head && RoomFor(w.tags, segs, size) && d in w.tags.direct
    ensures DirectOk(ResizeTop(w, n).tags, Resegmented(segs, size, w.top + n), d)
  {
    hide Books, Mapped, Tiles, Truthful, RoomFor;
    TopFacts(w);
    DirectOkAt(w.tags, w.pinned, segs, d);
    RoomDirect(w.tags, segs, size, d);
    var segs' := Resegmented(segs, size, w.top + n);
    forall k | 0 <= k < |segs'|
      ensures Apart(segs'[k].base, End(segs'[k]), d, Next(w.tags, d) + DIRECT_FOOT_PAD)
    {
      assert Apart(segs[k].base, End(segs[k]), d, Next(w.tags, d) + DIRECT_FOOT_PAD);
    }
  }

  /** The bookkeeping after add_segment: the new segment first, the old one described by
      its record chunk. */
  function WithSegment(w: World, segs: seq<Seg>, tbase: int, tsize: nat, n: nat): seq<Seg>
    requires segs != []
  {
    [Seg(tbase, tsize, tbase + n, 0)] + [segs[0].(lim := RecordAt(w) + RECORD_SIZE, rec := RecordAt(w))] + segs[1..]
  }

  lemma NewTopHeap(w: World, segs: seq<Seg>, tbase: int, tsize: nat)
    requires HeapOk(w, segs) && Fresh(w.tags, segs, tbase, tbase + tsize) && tbase % 8 == 0 && tsize % 8 == 0
      && GRANULARITY <= tsize
    ensures segs != [] && w.top in w.tags.head
    ensures HeapOk(NewTop(w, tbase, tsize - TOP_FOOT_SIZE), WithSegment(w, segs, tbase, tsize, tsize - TOP_FOOT_SIZE))
  {
    hide Books, Mapped, Tiles, Truthful, Fresh, CanResize, CanAddTop, Vacant;
    TopFacts(w);
    NewTopReady(w, segs, tbase, tsize);
    NewTopOk(w, tbase, tsize - TOP_FOOT_SIZE);
    NewTopMapped(w, segs, tbase, tsize);
  }

  lemma NewTopReady(w: World, segs: seq<Seg>, tbase: int, tsize: nat)
    requires HeapOk(w, segs) && Fresh(w.tags, segs, tbase, tbase + tsize) && tbase % 8 == 0 && tsize % 8 == 0
      && GRANULARITY <= tsize
    ensures CanAddTop(w, tbase, tsize - TOP_FOOT_SIZE)
  {
    hide Books, Mapped, Tiles, Truthful, Fresh, CanResize, Vacant;
    TopFacts(w);
    SegAt(w.tags, w.pinned, segs, 0);
    FreshAt(w.tags, segs, tbase, tbase + tsize, 0);
    var n := if w.topsize >= MIN_CHUNK_SIZE then w.topsize + RECORD_SIZE else RECORD_SIZE;
    forall c | c in w.tags.head && c != w.top
      ensures c < w.top || End(segs[0]) <= c
    {
      BehindTop(w, segs, c, End(segs[0]));
    }
    forall e | e in w.tags.lims && e != w.top + w.topsize
      ensures e < w.top || End(segs[0]) <= e
    {
      LimBehindTop(w, segs, e);
    }
    RoomToResize(w, segs, n, End(segs[0]));
    TopPinuse(w);
    FreshVacant(w.tags, w.pinned, segs, tbase, tsize);
    FreshChunk(w.tags, w.pinned, segs, tbase, tbase + tsize, w.top);
  }

  lemma FreshVacant(t: Tags, pinned: set<int>, segs: seq<Seg>, tbase: int, tsize: nat)
    requires Mapped(t, pinned, segs) && Tiles(t) && Fresh(t, segs, tbase, tbase + tsize) && tsize >= TOP_FOOT_SIZE
    ensures Vacant(t, tbase, tbase + tsize - TOP_FOOT_SIZE) && 0 < tbase
  {
    FreshParts(t, segs, tbase, tbase + tsize);
    hide Mapped, Tiles, Fresh;
    forall c | c in t.head
      ensures (c < tbase && Next(t, c) < tbase) || tbase + tsize - TOP_FOOT_SIZE < c
    {
      FreshChunk(t, pinned, segs, tbase, tbase + tsize, c);
    }
    forall e | e in t.lims
      ensures e < tbase || tbase + tsize - TOP_FOOT_SIZE < e
    {
      FreshLim(t, pinned, segs, tbase, tbase + tsize, e);
    }
  }

  lemma FreshParts(t: Tags, segs: seq<Seg>, lo: int, hi: int)
    requires Fresh(t, segs, lo, hi)
    ensures 0 < lo < hi <= ADDRESS_LIMIT
  {
  }

  /** The chunk before the top chunk is in use. */
  lemma TopPinuse(w: World)
    requires Books(w)
    ensures w.top in w.tags.head && w.tags.head[w.top].pinuse
  {
    hide Books, Tiles, Truthful;
    TopFacts(w);
    FreePinuse(w.tags, w.top);
  }

  lemma FreePinuse(t: Tags, c: int)
    requires Truthful(t) && c in t.head && !t.head[c].cinuse
    ensures t.head[c].pinuse
  {
    hide Truthful;
    if !t.head[c].pinuse {
      if c in t.direct {
        DirectAt(t, c);
      } else {
        BeforeAt(t, c);
        AfterAt(t, c - t.foot[c].n);
      }
    }
  }

  lemma NewTopMapped(w: World, segs: seq<Seg>, tbase: int, tsize: nat)
    requires HeapOk(w, segs) && Fresh(w.tags, segs, tbase, tbase + tsize) && tbase % 8 == 0 && tsize % 8 == 0
      && GRANULARITY <= tsize
    requires w.top in w.tags.head && CanAddTop(w, tbase, tsize - TOP_FOOT_SIZE)
    ensures var w' := NewTop(w, tbase, tsize - TOP_FOOT_SIZE);
            Mapped(w'.tags, w'.pinned, WithSegment(w, segs, tbase, tsize, tsize - TOP_FOOT_SIZE))
  {
    hide Books, Mapped, Tiles, Truthful, Fresh, CanResize, CanAddTop, Vacant;
    hide DirectOk, Owned, LimOwned, SegOk;
    var n := tsize - TOP_FOOT_SIZE;
    var w' := NewTop(w, tbase, n);
    var t', segs' := w'.tags, WithSegment(w, segs, tbase, tsize, n);
    assert forall k :: 2 <= k < |segs'| ==> segs'[k] == segs[k - 1];
    forall k | 0 <= k < |segs'|
      ensures SegOk(t', w'.pinned, segs'[k], k == 0)
    {
      NewTopSeg(w, segs, tbase, tsize, k);
    }
    forall i, j | 0 <= i < j < |segs'|
      ensures Apart(segs'[i].base, End(segs'[i]), segs'[j].base, End(segs'[j]))
    {
      FreshAt(w.tags, segs, tbase, tbase + tsize, j - 1);
      if i > 0 { ApartAt(w.tags, w.pinned, segs, i - 1, j - 1); }
    }
    forall c | c in t'.head && c !in t'.direct
      ensures Owned(t', segs', c)
    {
      NewTopOwner(w, segs, tbase, tsize, c);
    }
    forall e | e in t'.lims
      ensures LimOwned(t', segs', e)
    {
      NewTopLim(w, segs, tbase, tsize, e);
    }
    forall d | d in t'.direct
      ensures DirectOk(t', segs', d)
    {
      NewTopDirect(w, segs, tbase, tsize, d);
    }
    MappedIntro(t', w'.pinned, segs');
  }

  /** What NewTop leaves of the other chunks. */
  lemma NewTopKeeps(w: World, segs: seq<Seg>, tbase: int, tsize: nat, c: int)
    requires HeapOk(w, segs) && Fresh(w.tags, segs, tbase, tbase + tsize) && GRANULARITY <= tsize
      && w.top in w.tags.head
    requires c in w.tags.head && c != w.top
    ensures var t' := NewTop(w, tbase, tsize - TOP_FOOT_SIZE).tags;
      && c in t'.head && t'.head[c] == w.tags.head[c] && c != tbase && c != RecordAt(w)
  {
    hide Books, Mapped, Tiles, Truthful, Fresh;
    TopFacts(w);
    SegAt(w.tags, w.pinned, segs, 0);
    FreshChunk(w.tags, w.pinned, segs, tbase, tbase + tsize, c);
    LimNot(w.tags, w.top + w.topsize);
  }

  lemma NewTopSeg(w: World, segs: seq<Seg>, tbase: int, tsize: nat, k: nat)
    requires HeapOk(w, segs) && Fresh(w.tags, segs, tbase, tbase + tsize) && tbase % 8 == 0 && tsize % 8 == 0
      && GRANULARITY <= tsize
    requires w.top in w.tags.head && CanAddTop(w, tbase, tsize - TOP_FOOT_SIZE)
    requires k < |WithSegment(w, segs, tbase, tsize, tsize - TOP_FOOT_SIZE)|
    ensures var w' := NewTop(w, tbase, tsize - TOP_FOOT_SIZE);
            SegOk(w'.tags, w'.pinned, WithSegment(w, segs, tbase, tsize, tsize - TOP_FOOT_SIZE)[k], k == 0)
  {
    hide Books, Mapped, Tiles, Truthful, CanResize, CanAddTop, Vacant, Listed, Owned, LimOwned, DirectOk;
    TopFacts(w);
    SegAt(w.tags, w.pinned, segs, 0);
    FreshVacant(w.tags, w.pinned, segs, tbase, tsize);
    VacantAt(w.tags, tbase, tbase + tsize - TOP_FOOT_SIZE, tbase);
    NotDirectInside(w.tags, tbase);
    LimNot(w.tags, w.top + w.topsize);
    NotDirectInside(w.tags, w.top + w.topsize);
    ChunkAt(w.tags, w.top);
    FreshChunk(w.tags, w.pinned, segs, tbase, tbase + tsize, w.top);
    hide Fresh;
    if k == 1 {
      if segs[0].base != w.top {
        NewTopKeeps(w, segs, tbase, tsize, segs[0].base);
      }
    } else if k >= 2 {
      NewTopLater(w, segs, tbase, tsize, k);
    }
  }

  lemma NewTopLater(w: World, segs: seq<Seg>, tbase: int, tsize: nat, k: nat)
    requires HeapOk(w, segs) && Fresh(w.tags, segs, tbase, tbase + tsize) && GRANULARITY <= tsize
    requires w.top in w.tags.head && 2 <= k < |WithSegment(w, segs, tbase, tsize, tsize - TOP_FOOT_SIZE)|
    ensures var w' := NewTop(w, tbase, tsize - TOP_FOOT_SIZE);
            SegOk(w'.tags, w'.pinned, WithSegment(w, segs, tbase, tsize, tsize - TOP_FOOT_SIZE)[k], false)
  {
    hide Books, Mapped, Tiles, Truthful, Fresh;
    var g := segs[k - 1];
    assert WithSegment(w, segs, tbase, tsize, tsize - TOP_FOOT_SIZE)[k] == g;
    TopFacts(w);
    SegAt(w.tags, w.pinned, segs, 0);
    SegAt(w.tags, w.pinned, segs, k - 1);
    ApartAt(w.tags, w.pinned, segs, 0, k - 1);
    NewTopKeeps(w, segs, tbase, tsize, g.base);
    NewTopKeeps(w, segs, tbase, tsize, g.rec);
  }

  lemma NewTopOwner(w: World, segs: seq<Seg>, tbase: int, tsize: nat, c: int)
    requires HeapOk(w, segs) && Fresh(w.tags, segs, tbase, tbase + tsize) && GRANULARITY <= tsize
    requires w.top in w.tags.head
    requires var t' := NewTop(w, tbase, tsize - TOP_FOOT_SIZE).tags; c in t'.head && c !in t'.direct
    ensures Owned(NewTop(w, tbase, tsize - TOP_FOOT_SIZE).tags,
      WithSegment(w, segs, tbase, tsize, tsize - TOP_FOOT_SIZE), c)
  {
    hide Books, Mapped, Tiles, Truthful, Fresh;
    TopFacts(w);
    SegAt(w.tags, w.pinned, segs, 0);
    var n := tsize - TOP_FOOT_SIZE;
    var t', segs' := NewTop(w, tbase, n).tags, WithSegment(w, segs, tbase, tsize, n);
    FreshChunk(w.tags, w.pinned, segs, tbase, tbase + tsize, w.top);
    if c == tbase {
      assert InSeg(t', segs'[0], c);
    } else if c == w.top || c == RecordAt(w) {
      assert InSeg(t', segs'[1], c);
    } else {
      NewTopKeeps(w, segs, tbase, tsize, c);
      var k := OwnerAt(w.tags, w.pinned, segs, c);
      if k == 0 {
        ResizeOwner(w, segs, n, c);
        assert InSeg(t', segs'[1], c);
      } else {
        assert segs'[k + 1] == segs[k];
        assert InSeg(t', segs'[k + 1], c);
      }
    }
  }

  lemma NewTopLim(w: World, segs: seq<Seg>, tbase: int, tsize: nat, e: int)
    requires HeapOk(w, segs) && Fresh(w.tags, segs, tbase, tbase + tsize) && GRANULARITY <= tsize
    requires w.top in w.tags.head && e in NewTop(w, tbase, tsize - TOP_FOOT_SIZE).tags.lims
    ensures LimOwned(NewTop(w, tbase, tsize - TOP_FOOT_SIZE).tags,
      WithSegment(w, segs, tbase, tsize, tsize - TOP_FOOT_SIZE), e)
  {
    hide Books, Mapped, Tiles, Truthful, Fresh;
    TopFacts(w);
    var n := tsize - TOP_FOOT_SIZE;
    var t', segs' := NewTop(w, tbase, n).tags, WithSegment(w, segs, tbase, tsize, n);
    if e == tbase + n {
      assert segs'[0].lim == e;
    } else if e == RecordAt(w) + RECORD_SIZE {
      assert segs'[1].lim == e;
    } else {
      LimAt(w.tags, w.pinned, segs, e);
      if k :| 0 <= k < |segs| && segs[k].lim == e {
        assert k > 0 ==> segs'[k + 1].lim == e;
      } else {
        var d :| d in w.tags.direct && d in w.tags.head && Next(w.tags, d) == e;
        NewTopKeeps(w, segs, tbase, tsize, d);
        assert d in t'.direct && d in t'.head && Next(t', d) == e;
      }
    }
  }

  lemma NewTopDirect(w: World, segs: seq<Seg>, tbase: int, tsize: nat, d: int)
    requires HeapOk(w, segs) && Fresh(w.tags, segs, tbase, tbase + tsize) && GRANULARITY <= tsize
    requires w.top in w.tags.head && d in w.tags.direct
    ensures DirectOk(NewTop(w, tbase, tsize - TOP_FOOT_SIZE).tags,
      WithSegment(w, segs, tbase, tsize, tsize - TOP_FOOT_SIZE), d)
  {
    hide Books, Mapped, Tiles, Truthful, Fresh;
    TopFacts(w);
    DirectOkAt(w.tags, w.pinned, segs, d);
    FreshDirect(w.tags, segs, tbase, tbase + tsize, d);
    NewTopKeeps(w, segs, tbase, tsize, d);
    var n := tsize - TOP_FOOT_SIZE;
    var t', segs' := NewTop(w, tbase, n).tags, WithSegment(w, segs, tbase, tsize, n);
    forall k | 0 <= k < |segs'|
      ensures Apart(segs'[k].base, End(segs'[k]), d, Next(t', d) + DIRECT_FOOT_PAD)
    {
      if k > 0 {
        assert Apart(segs[k - 1].base, End(segs[k - 1]), d, Next(w.tags, d) + DIRECT_FOOT_PAD);
      }
    }
    forall c | c in t'.direct && c != d
      ensures c in t'.head && Apart(c, Next(t', c) + DIRECT_FOOT_PAD, d, Next(t', d) + DIRECT_FOOT_PAD)
    {
      NewTopKeeps(w, segs, tbase, tsize, c);
    }
  }

  // ----- memory mapped right before segment k

  function Grown(segs: seq<Seg>, k: nat, tsize: nat): seq<Seg>
    requires k < |segs|
  {
    segs[k := segs[k].(base := segs[k].base - tsize, size := segs[k].size + tsize)]
  }

  lemma PrependHeap(w: World, segs: seq<Seg>, k: nat, tbase: int, tsize: nat, nsize: nat)
    requires HeapOk(w, segs) && k < |segs| && segs[k].base == tbase + tsize
    requires Fresh(w.tags, segs, tbase, tbase + tsize) && tbase % 8 == 0 && tsize % 8 == 0 && GRANULARITY <= tsize
      && tsize - CHUNK_OVERHEAD >= nsize
    ensures HeapOk(Prepend(w, tbase, tsize, nsize), Grown(segs, k, tsize)) && tbase !in w.tags.head
  {
    hide Books, Mapped, Tiles, Truthful, Fresh, VacantBefore;
    TopFacts(w);
    SegAt(w.tags, w.pinned, segs, k);
    FreshParts(w.tags, segs, tbase, tbase + tsize);
    FreshBefore(w.tags, w.pinned, segs, tbase, tsize);
    PrependOk(w, tbase, tsize, nsize);
    PrependMapped(w, segs, k, tbase, tsize, nsize);
  }

  lemma FreshBefore(t: Tags, pinned: set<int>, segs: seq<Seg>, tbase: int, tsize: nat)
    requires Mapped(t, pinned, segs) && Tiles(t) && Fresh(t, segs, tbase, tbase + tsize)
    ensures VacantBefore(t, tbase, tsize)
  {
    hide Mapped, Tiles, Fresh;
    forall c | c in t.head
      ensures (c < tbase && Next(t, c) < tbase) || tbase + tsize <= c
    {
      FreshChunk(t, pinned, segs, tbase, tbase + tsize, c);
    }
    forall e | e in t.lims
      ensures e < tbase || tbase + tsize < e
    {
      FreshLim(t, pinned, segs, tbase, tbase + tsize, e);
    }
  }

  lemma PrependMapped(w: World, segs: seq<Seg>, k: nat, tbase: int, tsize: nat, nsize: nat)
    requires HeapOk(w, segs) && k < |segs| && segs[k].base == tbase + tsize
    requires Fresh(w.tags, segs, tbase, tbase + tsize) && tbase % 8 == 0 && tsize % 8 == 0 && tsize > 0 && tbase > 0
      && tbase !in w.tags.head
    ensures Mapped(Prepend(w, tbase, tsize, nsize).tags, w.pinned, Grown(segs, k, tsize))
  {
    hide Books, Mapped, Tiles, Truthful, Fresh, DirectOk, Owned, LimOwned, SegOk;
    BooksTags(w);
    NotDirectInside(w.tags, tbase);
    var t', segs' := Prepend(w, tbase, tsize, nsize).tags, Grown(segs, k, tsize);
    forall j | 0 <= j < |segs'|
      ensures SegOk(t', w.pinned, segs'[j], j == 0)
    {
      PrependSeg(w, segs, k, tbase, tsize, nsize, j);
    }
    forall i, j | 0 <= i < j < |segs'|
      ensures Apart(segs'[i].base, End(segs'[i]), segs'[j].base, End(segs'[j]))
    {
      ApartAt(w.tags, w.pinned, segs, i, j);
      FreshAt(w.tags, segs, tbase, tbase + tsize, i);
      FreshAt(w.tags, segs, tbase, tbase + tsize, j);
      SegSize(w.tags, w.pinned, segs, i);
      SegSize(w.tags, w.pinned, segs, j);
    }
    forall c | c in t'.head && c !in t'.direct
      ensures Owned(t', segs', c)
    {
      PrependOwner(w, segs, k, tbase, tsize, nsize, c);
    }
    forall e | e in t'.lims
      ensures LimOwned(t', segs', e)
    {
      PrependLim(w, segs, k, tbase, tsize, nsize, e);
    }
    forall d | d in t'.direct
      ensures DirectOk(t', segs', d)
    {
      PrependDirect(w, segs, k, tbase, tsize, nsize, d);
    }
    MappedIntro(t', w.pinned, segs');
  }

  lemma PrependSeg(w: World, segs: seq<Seg>, k: nat, tbase: int, tsize: nat, nsize: nat, j: nat)
    requires HeapOk(w, segs) && k < |segs| && segs[k].base == tbase + tsize && j < |segs|
    requires tbase % 8 == 0 && tsize % 8 == 0 && tsize > 0 && tbase > 0 && tbase !in w.tags.head
      && tbase !in w.tags.direct
    ensures SegOk(Prepend(w, tbase, tsize, nsize).tags, w.pinned, Grown(segs, k, tsize)[j], j == 0)
  {
    hide Books, Mapped, Tiles, Truthful;
    SegAt(w.tags, w.pinned, segs, j);
  }

  lemma PrependOwner(w: World, segs: seq<Seg>, k: nat, tbase: int, tsize: nat, nsize: nat, c: int)
    requires HeapOk(w, segs) && k < |segs| && segs[k].base == tbase + tsize && tbase !in w.tags.direct
    requires var t' := Prepend(w, tbase, tsize, nsize).tags; c in t'.head && c !in t'.direct
    ensures Owned(Prepend(w, tbase, tsize, nsize).tags, Grown(segs, k, tsize), c)
  {
    hide Books, Mapped, Tiles, Truthful;
    var t', segs' := Prepend(w, tbase, tsize, nsize).tags, Grown(segs, k, tsize);
    SegAt(w.tags, w.pinned, segs, k);
    if c == tbase {
      assert InSeg(t', segs'[k], c);
    } else {
      var j := OwnerAt(w.tags, w.pinned, segs, c);
      assert InSeg(t', segs'[j], c);
    }
  }

  lemma PrependLim(w: World, segs: seq<Seg>, k: nat, tbase: int, tsize: nat, nsize: nat, e: int)
    requires HeapOk(w, segs) && k < |segs| && tbase !in w.tags.head && e in w.tags.lims
    ensures LimOwned(Prepend(w, tbase, tsize, nsize).tags, Grown(segs, k, tsize), e)
  {
    hide Books, Mapped, Tiles, Truthful;
    var t', segs' := Prepend(w, tbase, tsize, nsize).tags, Grown(segs, k, tsize);
    LimAt(w.tags, w.pinned, segs, e);
    if j :| 0 <= j < |segs| && segs[j].lim == e {
      assert segs'[j].lim == e;
    } else {
      var d :| d in w.tags.direct && d in w.tags.head && Next(w.tags, d) == e;
      assert d in t'.direct && d in t'.head && Next(t', d) == e;
    }
  }

  lemma PrependDirect(w: World, segs: seq<Seg>, k: nat, tbase: int, tsize: nat, nsize: nat, d: int)
    requires HeapOk(w, segs) && k < |segs| && segs[k].base == tbase + tsize && tbase !in w.tags.head
      && d in w.tags.direct && tsize > 0
    requires Fresh(w.tags, segs, tbase, tbase + tsize)
    ensures DirectOk(Prepend(w, tbase, tsize, nsize).tags, Grown(segs, k, tsize), d)
  {
    hide Books, Mapped, Tiles, Truthful, Fresh;
    DirectOkAt(w.tags, w.pinned, segs, d);
    FreshDirect(w.tags, segs, tbase, tbase + tsize, d);
    BooksTags(w);
    ChunkAt(w.tags, d);
    SegAt(w.tags, w.pinned, segs, k);
    var segs' := Grown(segs, k, tsize);
    forall j | 0 <= j < |segs'|
      ensures Apart(segs'[j].base, End(segs'[j]), d, Next(w.tags, d) + DIRECT_FOOT_PAD)
    {
      assert Apart(segs[j].base, End(segs[j]), d, Next(w.tags, d) + DIRECT_FOOT_PAD);
    }
  }

  // ----- unmapping a segment

  function Without(segs: seq<Seg>, k: nat): seq<Seg>
    requires k < |segs|
  {
    segs[..k] + segs[k + 1..]
  }

  lemma WithoutAt(segs: seq<Seg>, k: nat, i: nat)
    requires k < |segs| && i + 1 < |segs|
    ensures |Without(segs, k)| == |segs| - 1 && Without(segs, k)[i] == segs[if i < k then i else i + 1]
  {
  }

  /** Unmapping a segment, not the first, that holds no victim and no binned chunk. */
  lemma UnmapHeap(w: World, segs: seq<Seg>, k: nat)
    requires HeapOk(w, segs) && 0 < k < |segs|
    requires forall c :: c in w.tags.head && segs[k].base <= c < End(segs[k]) ==> c != w.dv && c !in w.binned
    ensures HeapOk(Unmap(w, segs[k].base, End(segs[k])), Without(segs, k))
  {
    hide Books, Mapped, Tiles, Truthful, Dropped, CanUnmap, Closed;
    TopFacts(w);
    var g := segs[k];
    var lo, hi := g.base, End(g);
    SegAt(w.tags, w.pinned, segs, k);
    SegAt(w.tags, w.pinned, segs, 0);
    ApartAt(w.tags, w.pinned, segs, 0, k);
    SegClosed(w.tags, w.pinned, segs, k);
    assert CanUnmap(w, lo, hi) by { CanUnmapIntro(w, lo, hi); }
    UnmapOk(w, lo, hi);
    DroppedParts(w.tags, lo, hi);
    UnmapMapped(w, segs, k);
    WithoutAt(segs, k, 0);
  }

  lemma CanUnmapIntro(w: World, lo: int, hi: int)
    requires 0 < lo && Closed(w.tags, lo, hi) && !(lo <= w.top < hi)
    requires forall c :: c in w.tags.head && lo <= c < hi ==> c != w.dv && c !in w.binned
    ensures CanUnmap(w, lo, hi)
  {
  }

  lemma SegClosed(t: Tags, pinned: set<int>, segs: seq<Seg>, k: nat)
    requires Mapped(t, pinned, segs) && Tiles(t) && k < |segs|
    ensures Closed(t, segs[k].base, End(segs[k]))
  {
    hide Mapped, Tiles;
    forall c | c in t.head
      ensures segs[k].base <= c < End(segs[k]) <==> segs[k].base <= Next(t, c) < End(segs[k])
    {
      BaseIsFirst(t, pinned, segs, c, k);
    }
  }

  lemma UnmapMapped(w: World, segs: seq<Seg>, k: nat)
    requires HeapOk(w, segs) && 0 < k < |segs|
    ensures var w' := Unmap(w, segs[k].base, End(segs[k])); Mapped(w'.tags, w'.pinned, Without(segs, k))
  {
    hide Books, Mapped, Tiles, Truthful, Dropped, DirectOk, Owned, LimOwned, SegOk, Without;
    TopFacts(w);
    var lo, hi := segs[k].base, End(segs[k]);
    var w', segs' := Unmap(w, lo, hi), Without(segs, k);
    var t' := w'.tags;
    DroppedParts(w.tags, lo, hi);
    WithoutAt(segs, k, 0);
    forall j | 0 <= j < |segs'|
      ensures SegOk(t', w'.pinned, segs'[j], j == 0)
    {
      WithoutAt(segs, k, j);
      UnmapSeg(w, segs, k, if j < k then j else j + 1);
    }
    forall i, j | 0 <= i < j < |segs'|
      ensures Apart(segs'[i].base, End(segs'[i]), segs'[j].base, End(segs'[j]))
    {
      WithoutAt(segs, k, i);
      WithoutAt(segs, k, j);
      ApartAt(w.tags, w.pinned, segs, if i < k then i else i + 1, if j < k then j else j + 1);
    }
    forall c | c in t'.head && c !in t'.direct
      ensures Owned(t', segs', c)
    {
      UnmapOwner(w, segs, k, c);
    }
    forall e | e in t'.lims
      ensures LimOwned(t', segs', e)
    {
      UnmapLim(w, segs, k, e);
    }
    forall d | d in t'.direct
      ensures DirectOk(t', segs', d)
    {
      UnmapDirectKeeps(w, segs, k, d);
    }
    MappedIntro(t', w'.pinned, segs');
  }

  lemma UnmapSeg(w: World, segs: seq<Seg>, k: nat, j: nat)
    requires HeapOk(w, segs) && k < |segs| && j < |segs| && j != k
    ensures var w' := Unmap(w, segs[k].base, End(segs[k])); SegOk(w'.tags, w'.pinned, segs[j], j == 0)
  {
    hide Books, Mapped, Tiles, Truthful, Dropped;
    DroppedParts(w.tags, segs[k].base, End(segs[k]));
    SegAt(w.tags, w.pinned, segs, j);
    ApartAt(w.tags, w.pinned, segs, j, k);
  }

  lemma UnmapOwner(w: World, segs: seq<Seg>, k: nat, c: int)
    requires HeapOk(w, segs) && k < |segs|
    requires c in w.tags.head && c !in w.tags.direct && !(segs[k].base <= c < End(segs[k]))
    ensures c in Unmap(w, segs[k].base, End(segs[k])).tags.head
    ensures Owned(Unmap(w, segs[k].base, End(segs[k])).tags, Without(segs, k), c)
  {
    hide Books, Mapped, Tiles, Truthful, Dropped, Without;
    BooksTags(w);
    DroppedParts(w.tags, segs[k].base, End(segs[k]));
    var j := OwnerAt(w.tags, w.pinned, segs, c);
    SegAt(w.tags, w.pinned, segs, j);
    ChunkAt(w.tags, c);
    assert j != k;
    var i := if j < k then j else j - 1;
    WithoutAt(segs, k, i);
    assert InSeg(Unmap(w, segs[k].base, End(segs[k])).tags, Without(segs, k)[i], c);
  }

  lemma UnmapLim(w: World, segs: seq<Seg>, k: nat, e: int)
    requires HeapOk(w, segs) && 0 < k < |segs| && e in w.tags.lims && !(segs[k].base <= e < End(segs[k]))
    ensures LimOwned(Unmap(w, segs[k].base, End(segs[k])).tags, Without(segs, k), e)
  {
    hide Books, Mapped, Tiles, Truthful, Dropped, Without;
    BooksTags(w);
    DroppedParts(w.tags, segs[k].base, End(segs[k]));
    LimAt(w.tags, w.pinned, segs, e);
    SegAt(w.tags, w.pinned, segs, k);
    var t', segs' := Unmap(w, segs[k].base, End(segs[k])).tags, Without(segs, k);
    if j :| 0 <= j < |segs| && segs[j].lim == e {
      var i := if j < k then j else j - 1;
      WithoutAt(segs, k, i);
      assert segs'[i].lim == e;
    } else {
      var d :| d in w.tags.direct && d in w.tags.head && Next(w.tags, d) == e;
      BaseIsFirst(w.tags, w.pinned, segs, d, k);
      assert d in t'.direct && d in t'.head && Next(t', d) == e;
    }
  }

  lemma UnmapDirectKeeps(w: World, segs: seq<Seg>, k: nat, d: int)
    requires HeapOk(w, segs) && 0 < k < |segs| && d in w.tags.direct
    ensures DirectOk(Unmap(w, segs[k].base, End(segs[k])).tags, Without(segs, k), d)
  {
    hide Books, Mapped, Tiles, Truthful, Dropped, Without;
    BooksTags(w);
    var lo, hi := segs[k].base, End(segs[k]);
    DroppedParts(w.tags, lo, hi);
    DirectOkAt(w.tags, w.pinned, segs, d);
    DirectAt(w.tags, d);
    BaseIsFirst(w.tags, w.pinned, segs, d, k);
    var t', segs' := Unmap(w, lo, hi).tags, Without(segs, k);
    WithoutAt(segs, k, 0);
    forall j | 0 <= j < |segs'|
      ensures Apart(segs'[j].base, End(segs'[j]), d, Next(t', d) + DIRECT_FOOT_PAD)
    {
      WithoutAt(segs, k, j);
      var i := if j < k then j else j + 1;
      assert Apart(segs[i].base, End(segs[i]), d, Next(w.tags, d) + DIRECT_FOOT_PAD);
      assert d in t'.head && t'.head[d] == w.tags.head[d];
    }
  }

  // ----- directly mapped chunks

  lemma MapDirectHeap(w: World, segs: seq<Seg>, c: int, size: nat, nsize: nat)
    requires HeapOk(w, segs) && c % 8 == 0 && size % 8 == 0 && size > 0 && size >= DIRECT_CHUNK_OVERHEAD + nsize
    requires Fresh(w.tags, segs, c, c + size + DIRECT_FOOT_PAD)
    ensures HeapOk(MapDirect(w, c, size, nsize), segs) && c !in w.tags.head
  {
    hide Books, Mapped, Tiles, Truthful, Fresh, Vacant;
    TopFacts(w);
    FreshParts(w.tags, segs, c, c + size + DIRECT_FOOT_PAD);
    FreshVacantDirect(w.tags, w.pinned, segs, c, size);
    MapDirectOk(w, c, size, nsize);
    MapDirectMapped(w, segs, c, size, nsize);
  }

  lemma FreshVacantDirect(t: Tags, pinned: set<int>, segs: seq<Seg>, c: int, size: nat)
    requires Mapped(t, pinned, segs) && Tiles(t) && Fresh(t, segs, c, c + size + DIRECT_FOOT_PAD)
    ensures Vacant(t, c, c + size)
  {
    hide Mapped, Tiles, Fresh;
    forall d | d in t.head
      ensures (d < c && Next(t, d) < c) || c + size < d
    {
      FreshChunk(t, pinned, segs, c, c + size + DIRECT_FOOT_PAD, d);
    }
    forall e | e in t.lims
      ensures e < c || c + size < e
    {
      FreshLim(t, pinned, segs, c, c + size + DIRECT_FOOT_PAD, e);
    }
  }

  lemma MapDirectMapped(w: World, segs: seq<Seg>, c: int, size: nat, nsize: nat)
    requires HeapOk(w, segs) && size > 0 && Fresh(w.tags, segs, c, c + size + DIRECT_FOOT_PAD) && c !in w.tags.head
    ensures Mapped(MapDirect(w, c, size, nsize).tags, w.pinned, segs)
  {
    hide Books, Mapped, Tiles, Truthful, Fresh;
    TopFacts(w);
    FreshParts(w.tags, segs, c, c + size + DIRECT_FOOT_PAD);
    var t' := MapDirect(w, c, size, nsize).tags;
    forall k | 0 <= k < |segs|
      ensures SegOk(t', w.pinned, segs[k], k == 0)
    {
      SegAt(w.tags, w.pinned, segs, k);
    }
    forall i, j | 0 <= i < j < |segs|
      ensures Apart(segs[i].base, End(segs[i]), segs[j].base, End(segs[j]))
    {
      ApartAt(w.tags, w.pinned, segs, i, j);
    }
    forall d | d in t'.head && d !in t'.direct
      ensures Owned(t', segs, d)
    {
      var k := OwnerAt(w.tags, w.pinned, segs, d);
      assert InSeg(t', segs[k], d);
    }
    forall e | e in t'.lims
      ensures LimOwned(t', segs, e)
    {
      MapDirectLim(w, segs, c, size, nsize, e);
    }
    forall d | d in t'.direct
      ensures DirectOk(t', segs, d)
    {
      MapDirectDirect(w, segs, c, size, nsize, d);
    }
    MappedIntro(t', w.pinned, segs);
  }

  lemma MapDirectLim(w: World, segs: seq<Seg>, c: int, size: nat, nsize: nat, e: int)
    requires HeapOk(w, segs) && c !in w.tags.head && e in MapDirect(w, c, size, nsize).tags.lims
    ensures LimOwned(MapDirect(w, c, size, nsize).tags, segs, e)
  {
    hide Books, Mapped, Tiles, Truthful;
    var t' := MapDirect(w, c, size, nsize).tags;
    if e == c + size {
      assert c in t'.direct && c in t'.head && Next(t', c) == e;
    } else {
      LimAt(w.tags, w.pinned, segs, e);
      if !(exists j :: 0 <= j < |segs| && segs[j].lim == e) {
        var d :| d in w.tags.direct && d in w.tags.head && Next(w.tags, d) == e;
        assert d in t'.direct && d in t'.head && Next(t', d) == e;
      }
    }
  }

  lemma MapDirectDirect(w: World, segs: seq<Seg>, c: int, size: nat, nsize: nat, d: int)
    requires HeapOk(w, segs) && Fresh(w.tags, segs, c, c + size + DIRECT_FOOT_PAD) && c !in w.tags.head
    requires d in MapDirect(w, c, size, nsize).tags.direct
    ensures DirectOk(MapDirect(w, c, size, nsize).tags, segs, d)
  {
    hide Books, Mapped, Tiles, Truthful, Fresh;
    FreshParts(w.tags, segs, c, c + size + DIRECT_FOOT_PAD);
    var t' := MapDirect(w, c, size, nsize).tags;
    if d == c {
      forall k | 0 <= k < |segs| ensures Apart(segs[k].base, End(segs[k]), d, Next(t', d) + DIRECT_FOOT_PAD) {
        FreshAt(w.tags, segs, c, c + size + DIRECT_FOOT_PAD, k);
      }
      forall b | b in t'.direct && b != d
        ensures b in t'.head && Apart(b, Next(t', b) + DIRECT_FOOT_PAD, d, Next(t', d) + DIRECT_FOOT_PAD)
      {
        DirectOkAt(w.tags, w.pinned, segs, b);
        FreshDirect(w.tags, segs, c, c + size + DIRECT_FOOT_PAD, b);
      }
    } else {
      DirectOkAt(w.tags, w.pinned, segs, d);
      FreshDirect(w.tags, segs, c, c + size + DIRECT_FOOT_PAD, d);
      forall b | b in t'.direct && b != d
        ensures b in t'.head && Apart(b, Next(t', b) + DIRECT_FOOT_PAD, d, Next(t', d) + DIRECT_FOOT_PAD)
      {
        if b != c { assert b in w.tags.direct; }
      }
    }
  }

  /** Freeing a directly mapped chunk unmaps its region. */
  lemma UnmapDirectHeap(w: World, segs: seq<Seg>, c: int)
    requires HeapOk(w, segs) && c in w.tags.direct
    ensures c in w.tags.head && HeapOk(Unmap(w, c, Next(w.tags, c) + DIRECT_FOOT_PAD), segs)
  {
    hide Books, Mapped, Tiles, Truthful, Dropped, CanUnmap, Closed;
    TopFacts(w);
    DirectOkAt(w.tags, w.pinned, segs, c);
    var lo, hi := c, Next(w.tags, c) + DIRECT_FOOT_PAD;
    ChunkAt(w.tags, c);
    DirectRegion(w, segs, c);
    assert CanUnmap(w, lo, hi) by { CanUnmapIntro(w, lo, hi); }
    UnmapOk(w, lo, hi);
    DroppedParts(w.tags, lo, hi);
    UnmapDirectMapped(w, segs, c);
  }

  lemma DirectAlone(w: World, segs: seq<Seg>, c: int, d: int)
    requires HeapOk(w, segs) && c in w.tags.direct && c in w.tags.head && d in w.tags.head
    ensures c <= d < Next(w.tags, c) + DIRECT_FOOT_PAD <==> d == c
    ensures c <= Next(w.tags, d) < Next(w.tags, c) + DIRECT_FOOT_PAD <==> d == c
  {
    hide Books, Mapped, Tiles, Truthful;
    BooksTags(w);
    DirectOkAt(w.tags, w.pinned, segs, c);
    ChunkAt(w.tags, c);
    ChunkAt(w.tags, d);
    if d in w.tags.direct {
      DirectOkAt(w.tags, w.pinned, segs, d);
      if d != c { assert Apart(d, Next(w.tags, d) + DIRECT_FOOT_PAD, c, Next(w.tags, c) + DIRECT_FOOT_PAD); }
    } else {
      var k := OwnerAt(w.tags, w.pinned, segs, d);
      SegAt(w.tags, w.pinned, segs, k);
      assert Apart(segs[k].base, End(segs[k]), c, Next(w.tags, c) + DIRECT_FOOT_PAD);
    }
  }

  lemma DirectRegion(w: World, segs: seq<Seg>, c: int)
    requires HeapOk(w, segs) && c in w.tags.direct && c in w.tags.head
    ensures var hi := Next(w.tags, c) + DIRECT_FOOT_PAD;
      && Closed(w.tags, c, hi) && !(c <= w.top < hi)
      && (forall d :: d in w.tags.head && c <= d < hi ==> d == c && d != w.dv && d !in w.binned)
  {
    hide Books, Mapped, Tiles, Truthful;
    TopFacts(w);
    KindAt(w, c);
    DirectAt(w.tags, c);
    DirectAlone(w, segs, c, w.top);
    forall d | d in w.tags.head
      ensures c <= d < Next(w.tags, c) + DIRECT_FOOT_PAD <==> c <= Next(w.tags, d) < Next(w.tags, c) + DIRECT_FOOT_PAD
      ensures c <= d < Next(w.tags, c) + DIRECT_FOOT_PAD ==> d == c
    {
      DirectAlone(w, segs, c, d);
    }
  }

  lemma UnmapDirectMapped(w: World, segs: seq<Seg>, c: int)
    requires HeapOk(w, segs) && c in w.tags.direct && c in w.tags.head
    ensures var w' := Unmap(w, c, Next(w.tags, c) + DIRECT_FOOT_PAD); Mapped(w'.tags, w'.pinned, segs)
  {
    hide Books, Mapped, Tiles, Truthful, Dropped, DirectOk, Owned, LimOwned, SegOk;
    TopFacts(w);
    var hi := Next(w.tags, c) + DIRECT_FOOT_PAD;
    var w' := Unmap(w, c, hi);
    var t' := w'.tags;
    DroppedParts(w.tags, c, hi);
    forall k | 0 <= k < |segs|
      ensures SegOk(t', w'.pinned, segs[k], k == 0)
    {
      UnmapDirectSeg(w, segs, c, k);
    }
    forall i, j | 0 <= i < j < |segs|
      ensures Apart(segs[i].base, End(segs[i]), segs[j].base, End(segs[j]))
    {
      ApartAt(w.tags, w.pinned, segs, i, j);
    }
    forall d | d in t'.head && d !in t'.direct
      ensures Owned(t', segs, d)
    {
      UnmapDirectOwner(w, segs, c, d);
    }
    forall e | e in t'.lims
      ensures LimOwned(t', segs, e)
    {
      UnmapDirectLim(w, segs, c, e);
    }
    forall d | d in t'.direct
      ensures DirectOk(t', segs, d)
    {
      UnmapDirectDirect(w, segs, c, d);
    }
    MappedIntro(t', w'.pinned, segs);
  }

  lemma UnmapDirectSeg(w: World, segs: seq<Seg>, c: int, k: nat)
    requires HeapOk(w, segs) && c in w.tags.direct && c in w.tags.head && k < |segs|
    ensures var w' := Unmap(w, c, Next(w.tags, c) + DIRECT_FOOT_PAD); SegOk(w'.tags, w'.pinned, segs[k], k == 0)
  {
    hide Books, Mapped, Tiles, Truthful, Dropped;
    DroppedParts(w.tags, c, Next(w.tags, c) + DIRECT_FOOT_PAD);
    SegAt(w.tags, w.pinned, segs, k);
    DirectAlone(w, segs, c, segs[k].base);
    DirectOkAt(w.tags, w.pinned, segs, c);
    assert Apart(segs[k].base, End(segs[k]), c, Next(w.tags, c) + DIRECT_FOOT_PAD);
    BooksTags(w);
    ChunkAt(w.tags, c);
    if k != 0 { DirectAlone(w, segs, c, segs[k].rec); }
  }

  lemma UnmapDirectOwner(w: World, segs: seq<Seg>, c: int, d: int)
    requires HeapOk(w, segs) && c in w.tags.direct && c in w.tags.head && d in w.tags.head && d !in w.tags.direct
    ensures d in Unmap(w, c, Next(w.tags, c) + DIRECT_FOOT_PAD).tags.head
    ensures Owned(Unmap(w, c, Next(w.tags, c) + DIRECT_FOOT_PAD).tags, segs, d)
  {
    hide Books, Mapped, Tiles, Truthful, Dropped;
    DroppedParts(w.tags, c, Next(w.tags, c) + DIRECT_FOOT_PAD);
    DirectAlone(w, segs, c, d);
    var k := OwnerAt(w.tags, w.pinned, segs, d);
    assert InSeg(Unmap(w, c, Next(w.tags, c) + DIRECT_FOOT_PAD).tags, segs[k], d);
  }

  lemma UnmapDirectLim(w: World, segs: seq<Seg>, c: int, e: int)
    requires HeapOk(w, segs) && c in w.tags.direct && c in w.tags.head && e in w.tags.lims
      && !(c <= e < Next(w.tags, c) + DIRECT_FOOT_PAD)
    ensures LimOwned(Unmap(w, c, Next(w.tags, c) + DIRECT_FOOT_PAD).tags, segs, e)
  {
    hide Books, Mapped, Tiles, Truthful, Dropped;
    BooksTags(w);
    DroppedParts(w.tags, c, Next(w.tags, c) + DIRECT_FOOT_PAD);
    LimAt(w.tags, w.pinned, segs, e);
    ChunkAt(w.tags, c);
    var t' := Unmap(w, c, Next(w.tags, c) + DIRECT_FOOT_PAD).tags;
    if !(exists j :: 0 <= j < |segs| && segs[j].lim == e) {
      var d :| d in w.tags.direct && d in w.tags.head && Next(w.tags, d) == e;
      DirectAlone(w, segs, c, d);
      assert d in t'.direct && d in t'.head && Next(t', d) == e;
    }
  }

  lemma UnmapDirectDirect(w: World, segs: seq<Seg>, c: int, d: int)
    requires HeapOk(w, segs) && c in w.tags.direct && c in w.tags.head && d in w.tags.direct
      && !(c <= d < Next(w.tags, c) + DIRECT_FOOT_PAD)
    ensures DirectOk(Unmap(w, c, Next(w.tags, c) + DIRECT_FOOT_PAD).tags, segs, d)
  {
    hide Books, Mapped, Tiles, Truthful, Dropped;
    DroppedParts(w.tags, c, Next(w.tags, c) + DIRECT_FOOT_PAD);
    DirectOkAt(w.tags, w.pinned, segs, d);
  }
}
