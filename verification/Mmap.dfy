/** The pages the operating system has given to the allocator (CALL_MMAP and CALL_MUNMAP,
    lj_alloc.c:98-262), and which part of the heap uses each of them. */
module Mmap {
  import opened BoundaryTags
  import opened HeapWorld
  import opened HeapEdge
  import opened HeapSegments

  const PAGE: nat := 4096
  const MFAIL: int := -1

  /** Page number q lies in the region. */
  predicate InPages(base: int, size: nat, q: int) {
    base <= q * PAGE < base + size
  }

  predicate PageAligned(base: int, size: nat) {
    base % PAGE == 0 && size % PAGE == 0
  }

  function Pages(base: int, size: nat): set<int> {
    set q | base / PAGE <= q <= (base + size) / PAGE && InPages(base, size, q)
  }

  lemma PagesAre(base: int, size: nat, q: int)
    requires PageAligned(base, size)
    ensures q in Pages(base, size) <==> InPages(base, size, q)
  {
  }

  /** The system: `offer` says where it would place the n-th region asked for, `refuse`
      which unmappings fail, `stretch` which regions it would resize in place; it never hands
      out a page twice. */
  class System {
    const offer: (nat, nat) -> int
    const refuse: nat -> bool
    const stretch: nat -> bool
    var calls: nat
    var pages: set<int>

    constructor (offer: (nat, nat) -> int, refuse: nat -> bool, stretch: nat -> bool)
      ensures pages == {}
    {
      this.offer, this.refuse, this.stretch := offer, refuse, stretch;
      calls, pages := 0, {};
    }

    method Map(size: nat) returns (base: int)
      modifies this
      ensures calls == old(calls) + 1
      ensures base == MFAIL ==> pages == old(pages)
      ensures base != MFAIL ==> base == offer(old(calls), size)
      ensures base != MFAIL ==>
        && 0 < base && PageAligned(base, size) && size > 0 && base + size <= ADDRESS_LIMIT
        && Pages(base, size) !! old(pages) && pages == old(pages) + Pages(base, size)
    {
      base := offer(calls, size);
      calls := calls + 1;
      if 0 < base && PageAligned(base, size) && size > 0 && base + size <= ADDRESS_LIMIT && Pages(base, size) !! pages {
        pages := pages + Pages(base, size);
      } else {
        base := MFAIL;
      }
    }

    /** mremap without moving succeeds. */
    predicate CanRemap(base: int, oldsize: nat, newsize: nat)
      reads this
    {
      && stretch(calls) && newsize > 0 && PageAligned(base, newsize) && base + newsize <= ADDRESS_LIMIT
      && Pages(base, newsize) !! pages - Pages(base, oldsize)
    }

    method Remap(base: int, oldsize: nat, newsize: nat) returns (ok: bool)
      modifies this
      ensures ok == old(CanRemap(base, oldsize, newsize)) && calls == old(calls) + 1
      ensures pages == if ok then old(pages) - Pages(base, oldsize) + Pages(base, newsize) else old(pages)
    {
      ok := CanRemap(base, oldsize, newsize);
      calls := calls + 1;
      if ok { pages := pages - Pages(base, oldsize) + Pages(base, newsize); }
    }

    method Unmap(base: int, size: nat) returns (ok: bool)
      modifies this
      ensures ok == !refuse(old(calls)) && calls == old(calls) + 1
      ensures pages == if ok then old(pages) - Pages(base, size) else old(pages)
    {
      ok := !refuse(calls);
      calls := calls + 1;
      if ok { pages := pages - Pages(base, size); }
    }
  }

  /** How much memory the segments cover. */
  function Total(segs: seq<Seg>): nat {
    if segs == [] then 0 else Total(segs[..|segs| - 1]) + segs[|segs| - 1].size
  }

  lemma {:induction false} TotalWithout(segs: seq<Seg>, k: nat)
    requires k < |segs|
    ensures Total(segs) == Total(segs[..k] + segs[k + 1..]) + segs[k].size
    decreases |segs|
  {
    var n := |segs| - 1;
    if k == n {
      assert segs[..k] + segs[k + 1..] == segs[..n];
    } else {
      TotalWithout(segs[..n], k);
      assert (segs[..k] + segs[k + 1..])[..n - 1] == segs[..n][..k] + segs[..n][k + 1..];
    }
  }

  lemma {:induction false} TotalResized(segs: seq<Seg>, g: Seg)
    requires segs != []
    ensures Total(segs[0 := g]) == Total(segs) - segs[0].size + g.size
    decreases |segs|
  {
    var n := |segs| - 1;
    if n > 0 {
      TotalResized(segs[..n], g);
      assert segs[0 := g][..n] == segs[..n][0 := g];
    }
  }

  // ----- which page belongs to what

  ghost predicate SegUses(segs: seq<Seg>, q: int) {
    exists k :: 0 <= k < |segs| && InPages(segs[k].base, segs[k].size, q)
  }

  ghost predicate DirectUses(t: Tags, q: int) {
    exists d :: d in t.direct && d in t.head && InPages(d, t.head[d].size + DIRECT_FOOT_PAD, q)
  }

  ghost predicate Aligned(t: Tags, segs: seq<Seg>) {
    && (forall k :: 0 <= k < |segs| ==> segs[k].base % PAGE == 0 && segs[k].size % GRANULARITY == 0)
    && (forall d :: d in t.direct && d in t.head ==> PageAligned(d, t.head[d].size + DIRECT_FOOT_PAD))
  }

  /** The allocator holds exactly the pages of its segments and directly mapped chunks,
      and the leaked ones, which the system refused to take back. */
  ghost predicate Holds(t: Tags, segs: seq<Seg>, pages: set<int>, leaked: set<int>) {
    && Aligned(t, segs)
    && (forall q :: q in pages <==> SegUses(segs, q) || DirectUses(t, q) || q in leaked)
    && (forall q :: q in leaked ==> !SegUses(segs, q) && !DirectUses(t, q))
  }

  /** The directly mapped chunks of t are untouched in t'. */
  ghost predicate SameDirect(t: Tags, t': Tags) {
    && t'.direct == t.direct
    && forall d :: d in t.direct ==> d in t.head && d in t'.head && t'.head[d].size == t.head[d].size
  }

  lemma SameUses(t: Tags, t': Tags, q: int)
    requires SameDirect(t, t')
    ensures DirectUses(t', q) <==> DirectUses(t, q)
  {
  }

  lemma HoldsKept(t: Tags, t': Tags, segs: seq<Seg>, pages: set<int>, leaked: set<int>)
    requires Holds(t, segs, pages, leaked) && SameDirect(t, t')
    ensures Holds(t', segs, pages, leaked)
  {
    hide DirectUses, SegUses;
    forall q ensures DirectUses(t', q) <==> DirectUses(t, q) { SameUses(t, t', q); }
  }

  lemma AlignedSeg(t: Tags, segs: seq<Seg>, k: nat)
    requires Aligned(t, segs) && k < |segs|
    ensures PageAligned(segs[k].base, segs[k].size)
  {
  }

  /** A page starts in any two overlapping page-aligned regions. */
  lemma ApartPages(lo: int, n: nat, lo': int, n': nat)
    requires PageAligned(lo, n) && PageAligned(lo', n') && n > 0 && n' > 0
    requires forall q :: InPages(lo, n, q) ==> !InPages(lo', n', q)
    ensures Apart(lo, lo + n, lo', lo' + n')
  {
    if !Apart(lo, lo + n, lo', lo' + n') {
      var q := (if lo < lo' then lo' else lo) / PAGE;
      assert InPages(lo, n, q) && InPages(lo', n', q);
    }
  }

  /** What the system has just mapped is fresh for the heap. */
  lemma MappedIsFresh(t: Tags, pinned: set<int>, segs: seq<Seg>, pages: set<int>, leaked: set<int>, base: int,
                      size: nat)
    requires Holds(t, segs, pages, leaked) && Mapped(t, pinned, segs)
    requires 0 < base && PageAligned(base, size) && size > 0 && base + size <= ADDRESS_LIMIT
      && Pages(base, size) !! pages
    ensures Fresh(t, segs, base, base + size)
  {
    hide Mapped, Pages;
    forall q | InPages(base, size, q)
      ensures !SegUses(segs, q) && !DirectUses(t, q)
    {
      PagesAre(base, size, q);
    }
    forall k | 0 <= k < |segs|
      ensures Apart(segs[k].base, End(segs[k]), base, base + size)
    {
      AlignedSeg(t, segs, k);
      SegSize(t, pinned, segs, k);
      ApartPages(segs[k].base, segs[k].size, base, size);
    }
    forall d | d in t.direct && d in t.head
      ensures Apart(d, Next(t, d) + DIRECT_FOOT_PAD, base, base + size)
    {
      ApartPages(d, t.head[d].size + DIRECT_FOOT_PAD, base, size);
    }
  }

  /** More memory for the segments. */
  lemma HoldsMore(t: Tags, t': Tags, segs: seq<Seg>, segs': seq<Seg>, pages: set<int>, leaked: set<int>, base: int,
                  size: nat)
    requires Holds(t, segs, pages, leaked) && SameDirect(t, t') && Aligned(t', segs')
    requires PageAligned(base, size) && Pages(base, size) !! pages
    requires forall q :: SegUses(segs', q) <==> SegUses(segs, q) || InPages(base, size, q)
    ensures Holds(t', segs', pages + Pages(base, size), leaked)
  {
    hide SegUses, DirectUses, Pages;
    forall q
      ensures DirectUses(t', q) <==> DirectUses(t, q)
      ensures q in Pages(base, size) <==> InPages(base, size, q)
    {
      SameUses(t, t', q);
      PagesAre(base, size, q);
    }
  }

  /** Memory given back by the segments. */
  lemma HoldsLess(t: Tags, t': Tags, segs: seq<Seg>, segs': seq<Seg>, pages: set<int>, leaked: set<int>, base: int,
                  size: nat)
    requires Holds(t, segs, pages, leaked) && SameDirect(t, t') && Aligned(t', segs')
    requires PageAligned(base, size)
    requires forall q :: SegUses(segs', q) <==> SegUses(segs, q) && !InPages(base, size, q)
    requires forall q :: InPages(base, size, q) ==> SegUses(segs, q) && !DirectUses(t, q)
    ensures Holds(t', segs', pages - Pages(base, size), leaked)
  {
    hide SegUses, DirectUses, Pages;
    forall q
      ensures DirectUses(t', q) <==> DirectUses(t, q)
      ensures q in Pages(base, size) <==> InPages(base, size, q)
    {
      SameUses(t, t', q);
      PagesAre(base, size, q);
    }
  }

  /** A directly mapped chunk comes. */
  lemma HoldsDirect(t: Tags, segs: seq<Seg>, pages: set<int>, leaked: set<int>, c: int, size: nat)
    requires Holds(t, segs, pages, leaked) && c !in t.head && (forall d :: d in t.direct ==> d in t.head)
    requires PageAligned(c, size + DIRECT_FOOT_PAD) && Pages(c, size + DIRECT_FOOT_PAD) !! pages
    ensures Holds(AddDirect(t, c, size), segs, pages + Pages(c, size + DIRECT_FOOT_PAD), leaked)
  {
    hide SegUses, Pages;
    var t' := AddDirect(t, c, size);
    forall q
      ensures DirectUses(t', q) <==> DirectUses(t, q) || InPages(c, size + DIRECT_FOOT_PAD, q)
      ensures q in Pages(c, size + DIRECT_FOOT_PAD) <==> InPages(c, size + DIRECT_FOOT_PAD, q)
    {
      PagesAre(c, size + DIRECT_FOOT_PAD, q);
      if DirectUses(t, q) {
        var d :| d in t.direct && d in t.head && InPages(d, t.head[d].size + DIRECT_FOOT_PAD, q);
        assert d in t'.direct && d in t'.head && InPages(d, t'.head[d].size + DIRECT_FOOT_PAD, q);
      }
      if InPages(c, size + DIRECT_FOOT_PAD, q) {
        assert c in t'.direct && c in t'.head && InPages(c, t'.head[c].size + DIRECT_FOOT_PAD, q);
      }
    }
  }

  /** A directly mapped chunk goes; its pages may leak. */
  lemma HoldsUndirect(t: Tags, t': Tags, segs: seq<Seg>, pinned: set<int>, pages: set<int>, leaked: set<int>, c: int,
                      ok: bool)
    requires Holds(t, segs, pages, leaked) && Mapped(t, pinned, segs) && c in t.direct && c in t.head
    requires t'.direct == t.direct - {c} && forall d :: d in t'.direct && d in t.head ==>
        d in t'.head && t'.head[d] == t.head[d]
    ensures var p := Pages(c, t.head[c].size + DIRECT_FOOT_PAD);
      if ok then Holds(t', segs, pages - p, leaked) else Holds(t', segs, pages, leaked + p)
  {
    hide SegUses, Pages, Mapped;
    var n := t.head[c].size + DIRECT_FOOT_PAD;
    forall q
      ensures DirectUses(t', q) <==> DirectUses(t, q) && !InPages(c, n, q)
      ensures InPages(c, n, q) ==> DirectUses(t, q) && !SegUses(segs, q)
      ensures q in Pages(c, n) <==> InPages(c, n, q)
    {
      UndirectUses(t, t', segs, pinned, c, q);
      PagesAre(c, n, q);
      if InPages(c, n, q) { DirectNotSeg(t, segs, pinned, c, q); }
    }
    hide DirectUses;
    forall d | d in t'.direct && d in t'.head
      ensures PageAligned(d, t'.head[d].size + DIRECT_FOOT_PAD)
    {
      DirectOkAt(t, pinned, segs, d);
    }
  }

  lemma DirectNotSeg(t: Tags, segs: seq<Seg>, pinned: set<int>, c: int, q: int)
    requires Mapped(t, pinned, segs) && c in t.direct && c in t.head && InPages(c, t.head[c].size + DIRECT_FOOT_PAD, q)
    ensures DirectUses(t, q) && !SegUses(segs, q)
  {
    hide Mapped;
    DirectOkAt(t, pinned, segs, c);
  }

  lemma UndirectUses(t: Tags, t': Tags, segs: seq<Seg>, pinned: set<int>, c: int, q: int)
    requires Mapped(t, pinned, segs) && c in t.direct && c in t.head
    requires t'.direct == t.direct - {c} && forall d :: d in t'.direct && d in t.head ==>
        d in t'.head && t'.head[d] == t.head[d]
    ensures DirectUses(t', q) <==> DirectUses(t, q) && !InPages(c, t.head[c].size + DIRECT_FOOT_PAD, q)
  {
    hide Mapped;
    DirectOkAt(t, pinned, segs, c);
    if DirectUses(t', q) {
      var d :| d in t'.direct && d in t'.head && InPages(d, t'.head[d].size + DIRECT_FOOT_PAD, q);
      assert d in t.head;
      assert Apart(d, Next(t, d) + DIRECT_FOOT_PAD, c, Next(t, c) + DIRECT_FOOT_PAD);
    }
    if DirectUses(t, q) && !InPages(c, t.head[c].size + DIRECT_FOOT_PAD, q) {
      var d :| d in t.direct && d in t.head && InPages(d, t.head[d].size + DIRECT_FOOT_PAD, q);
      assert d in t'.direct && d in t'.head && InPages(d, t'.head[d].size + DIRECT_FOOT_PAD, q);
    }
  }
}
