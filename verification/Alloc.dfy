/** malloc, free and realloc (lj_alloc.c:820-1382). */
module Alloc {
  import opened Words
  import opened BoundaryTags
  import opened HeapWorld
  import opened HeapEdge
  import opened HeapSegments
  import opened HeapSteps
  import opened HeapCalls
  import opened SegmentCalls
  import opened Mmap
  import opened Bins

  const MIN_REQUEST: nat := 23
  const MAX_SMALL_REQUEST: nat := 240
  const MAX_REQUEST: nat := WORD - 128
  const TWO_WORDS: nat := 16

  /** pad_request, in 64-bit arithmetic. */
  function PadRequest(req: nat): nat {
    (req + 15) % WORD / 8 * 8
  }

  function RequestToSize(req: nat): nat {
    if req < MIN_REQUEST then MIN_CHUNK_SIZE else PadRequest(req)
  }

  lemma PadsEnough(req: nat)
    requires req < MAX_REQUEST
    ensures var nb := RequestToSize(req);
      MIN_CHUNK_SIZE <= nb < WORD && nb % 8 == 0 && nb - CHUNK_OVERHEAD >= req
        && nb <= (if req < MIN_REQUEST then 32 else req + 15)
    ensures var nb := RequestToSize(req);
      forall n :: MIN_CHUNK_SIZE <= n && n % 8 == 0 && n - 8 >= req ==> nb <= n
    ensures req <= MAX_SMALL_REQUEST <==> RequestToSize(req) < MIN_LARGE_SIZE
  {
  }

  /** No free chunk of the heap is big enough. */
  ghost predicate NoRoom(w: World, nb: nat) {
    (forall c :: c in w.binned ==> w.binned[c] < nb) && w.dvsize < nb && w.topsize <= nb
  }

  /** A binned chunk is to serve a request of nb bytes: for a small one a chunk of a small bin
      that leaves no remainder, or any when the victim has no room; for a large one a chunk
      that fits better than the victim. */
  ghost predicate BinsServe(w: World, nb: nat) {
    exists c :: c in w.binned && w.binned[c] >= nb && (w.dvsize < nb ||
      if nb < 256 then w.binned[c] <= nb + 8 && w.binned[c] < 256 else w.binned[c] < w.dvsize)
  }

  /** Best fit: p is a smallest binned chunk of at least nb bytes. */
  ghost predicate FromBins(w: World, w': World, nb: nat, p: int) {
    && p in w.binned && w.binned[p] >= nb
    && (forall c :: c in w.binned && w.binned[c] >= nb ==> w.binned[p] <= w.binned[c])
    && Cut(w, w', nb, p)
  }

  /** The binned chunk p serves nb bytes, whole if its rest is no chunk of its own.  The rest is
      the new victim after a small request and binned after a large one. */
  ghost predicate Cut(w: World, w': World, nb: nat, p: int) {
    && p in w.binned && w.binned[p] >= nb && p in w'.tags.head && w'.top == w.top && w'.topsize == w.topsize
    && var rest := w.binned[p] - nb;
    if rest < 32 then
      w'.tags.head[p].size == w.binned[p] && w'.binned == w.binned - {p} && w'.dv == w.dv && w'.dvsize == w.dvsize
    else if nb < 256 then
      && w'.tags.head[p].size == nb && w'.dv == p + nb && w'.dvsize == rest
      && w'.binned == if w.dvsize == 0 then w.binned - {p} else (w.binned - {p})[w.dv := w.dvsize]
    else
      && w'.tags.head[p].size == nb && w'.binned == (w.binned - {p})[p + nb := rest]
      && w'.dv == w.dv && w'.dvsize == w.dvsize
  }

  /** p is the victim; its rest, if that makes a chunk, is the new one. */
  ghost predicate FromVictim(w: World, w': World, nb: nat, p: int) {
    && p == w.dv && nb <= w.dvsize && p in w'.tags.head && w'.binned == w.binned
    && w'.top == w.top && w'.topsize == w.topsize
    && if w.dvsize - nb < 32 then w'.tags.head[p].size == w.dvsize && w'.dv == 0 && w'.dvsize == 0
       else w'.tags.head[p].size == nb && w'.dv == p + nb && w'.dvsize == w.dvsize - nb
  }

  /** p is the front of the top chunk. */
  ghost predicate FromTop(w: World, w': World, nb: nat, p: int) {
    && p == w.top && nb < w.topsize && p in w'.tags.head && w'.tags.head[p].size == nb
    && w'.top == p + nb && w'.topsize == w.topsize - nb
    && w'.binned == w.binned && w'.dv == w.dv && w'.dvsize == w.dvsize
  }

  /** Where a block of nb bytes comes from: the bins, else the victim, else the top chunk, and
      only without room there from the system. */
  ghost predicate Places(w: World, w': World, nb: nat, p: int) {
    if BinsServe(w, nb) then FromBins(w, w', nb, p)
    else if nb <= w.dvsize then FromVictim(w, w', nb, p)
    else if nb < w.topsize then FromTop(w, w', nb, p)
    else NoRoom(w, nb)
  }

  function AlignOffset(a: int): nat {
    (8 - a % 8) % 8
  }

  function PageAlign(s: nat): nat {
    (s + (PAGE - 1)) % WORD / PAGE * PAGE
  }

  function GranularityAlign(s: nat): nat {
    (s + (GRANULARITY - 1)) % WORD / GRANULARITY * GRANULARITY
  }

  lemma PageRounds(s: nat)
    ensures s <= (s + (PAGE - 1)) / PAGE * PAGE && (s + (PAGE - 1)) / PAGE * PAGE % PAGE == 0
  {
  }

  lemma GranuleRounds(s: nat)
    ensures s <= (s + (GRANULARITY - 1)) / GRANULARITY * GRANULARITY
      && (s + (GRANULARITY - 1)) / GRANULARITY * GRANULARITY % GRANULARITY == 0
  {
  }

  /** direct_alloc's test catches every wrap around zero. */
  lemma DirectRequest(nb: nat)
    requires nb < WORD
    ensures var mmsize := PageAlign((nb + 55) % WORD); mmsize > nb ==> mmsize >= nb + 55 && mmsize % PAGE == 0
    ensures nb + 2 * GRANULARITY < WORD ==> PageAlign((nb + 55) % WORD) > nb
  {
    PageRounds((nb + 55) % WORD);
    if nb + 55 < WORD - PAGE { assert (nb + 55) % WORD == nb + 55; }
  }

  /** direct_resize has no such test, but what wraps around there is zero. */
  lemma RemapRequest(nb: nat)
    requires nb + 55 < WORD
    ensures var mmsize := PageAlign((nb + 55) % WORD); (mmsize == 0 || mmsize >= nb + 55) && mmsize % PAGE == 0
  {
    assert (nb + 55) % WORD == nb + 55;
    PageRounds(nb + 55);
    if nb + 55 + (PAGE - 1) < WORD {
      assert (nb + 55 + (PAGE - 1)) % WORD == nb + 55 + (PAGE - 1);
    } else {
      assert (nb + 55 + (PAGE - 1)) % WORD == nb + 55 + (PAGE - 1) - WORD;
    }
  }

  /** alloc_sys's test catches every wrap around zero. */
  /** How much alloc_sys asks for. */
  function SystemSize(nb: nat): nat {
    GranularityAlign((nb + TOP_FOOT_SIZE + 1) % WORD)
  }

  /** That is the least number of whole granules with room for the block and a top chunk behind
      it. */
  lemma SystemSizeIs(nb: nat)
    requires nb + 2 * GRANULARITY < WORD
    ensures var n := SystemSize(nb);
      && n % 0x2_0000 == 0 && n > nb + TOP_FOOT_SIZE
      && forall k :: k % 0x2_0000 == 0 && k > nb + TOP_FOOT_SIZE ==> n <= k
  {
    assert (nb + TOP_FOOT_SIZE + 1) % WORD == nb + TOP_FOOT_SIZE + 1;
    GranuleRounds(nb + TOP_FOOT_SIZE + 1);
  }

  lemma SystemRequest(nb: nat)
    requires nb < WORD
    ensures var rsize := GranularityAlign((nb + TOP_FOOT_SIZE + 1) % WORD); rsize > nb ==>
        rsize > nb + TOP_FOOT_SIZE && rsize % GRANULARITY == 0
    ensures nb + 2 * GRANULARITY < WORD ==> GranularityAlign((nb + TOP_FOOT_SIZE + 1) % WORD) > nb
  {
    GranuleRounds((nb + TOP_FOOT_SIZE + 1) % WORD);
    if nb + TOP_FOOT_SIZE + 1 < WORD - GRANULARITY { assert (nb + TOP_FOOT_SIZE + 1) % WORD == nb + TOP_FOOT_SIZE + 1; }
  }

  const STATE_SIZE: nat := 872
  const SEG_OFFSET: nat := 856
  const DEFAULT_TRIM_THRESHOLD: nat := 0x20_0000
  const MAX_RELEASE_CHECK_RATE: int := 255
  const DEFAULT_MMAP_THRESHOLD: nat := 0x2_0000

  function FirstWorld(tbase: int): World {
    var mn, psize := tbase + STATE_SIZE, GRANULARITY - STATE_SIZE - TOP_FOOT_SIZE;
    World(Tags(map[tbase := Head(STATE_SIZE, true, true), mn := Head(psize, false, true)], map[], {mn + psize}, {}),
          mn, psize, 0, 0, map[], map[], {tbase}, {})
  }

  lemma Initially(tbase: int)
    requires 0 < tbase && tbase % PAGE == 0 && tbase + GRANULARITY <= ADDRESS_LIMIT
    ensures InOrder(FirstWorld(tbase), [Seg(tbase, GRANULARITY, tbase + GRANULARITY - TOP_FOOT_SIZE, 0)],
      Pages(tbase, GRANULARITY), {})
  {
    hide Books, Mapped, Holds, Tiles, Truthful;
    FirstTags(tbase);
    FirstBooks(tbase);
    FirstMapped(tbase);
    FirstHolds(tbase);
  }

  lemma FirstTags(tbase: int)
    requires 0 < tbase && tbase % PAGE == 0
    ensures Tiles(FirstWorld(tbase).tags) && Truthful(FirstWorld(tbase).tags)
  {
    Eights(tbase, PAGE / 8);
    var t := FirstWorld(tbase).tags;
    TwoTile(t, tbase, STATE_SIZE, GRANULARITY - STATE_SIZE - TOP_FOOT_SIZE);
    TwoTruthful(t, tbase, STATE_SIZE, GRANULARITY - STATE_SIZE - TOP_FOOT_SIZE);
  }

  /** A chunk in use and a free one behind it, up to a limit. */
  ghost predicate TwoChunks(t: Tags, a: int, m: nat, n: nat) {
    0 < a && 0 < m && 0 < n
      && t == Tags(map[a := Head(m, true, true), a + m := Head(n, false, true)], map[], {a + m + n}, {})
  }

  lemma TwoTile(t: Tags, a: int, m: nat, n: nat)
    requires TwoChunks(t, a, m, n) && a % 8 == 0 && m % 8 == 0 && n % 8 == 0
    ensures Tiles(t)
  {
    assert (a + m) % 8 == 0;
    assert t.head.Keys == {a, a + m} && Next(t, a) == a + m && Next(t, a + m) == a + m + n;
  }

  lemma TwoTruthful(t: Tags, a: int, m: nat, n: nat)
    requires TwoChunks(t, a, m, n)
    ensures Truthful(t)
  {
    assert t.head.Keys == {a, a + m} && Next(t, a) == a + m && Next(t, a + m) == a + m + n;
    assert TrueAfter(t, a);
  }

  lemma FirstBooks(tbase: int)
    requires 0 < tbase && tbase % PAGE == 0 && Tiles(FirstWorld(tbase).tags) && Truthful(FirstWorld(tbase).tags)
    ensures Books(FirstWorld(tbase))
  {
    hide Tiles, Truthful;
  }

  lemma FirstMapped(tbase: int)
    requires 0 < tbase && tbase % PAGE == 0 && tbase + GRANULARITY <= ADDRESS_LIMIT
    ensures var w := FirstWorld(tbase);
      Mapped(w.tags, w.pinned, [Seg(tbase, GRANULARITY, tbase + GRANULARITY - TOP_FOOT_SIZE, 0)])
  {
    var w, segs := FirstWorld(tbase), [Seg(tbase, GRANULARITY, tbase + GRANULARITY - TOP_FOOT_SIZE, 0)];
    forall c | c in w.tags.head ensures Owned(w.tags, segs, c) { assert InSeg(w.tags, segs[0], c); }
    assert segs[0].lim == tbase + GRANULARITY - TOP_FOOT_SIZE;
    assert tbase % 8 == 0;
    hide Owned, LimOwned;
    assert LimOwned(w.tags, segs, segs[0].lim);
  }

  lemma FirstHolds(tbase: int)
    requires 0 < tbase && tbase % PAGE == 0
    ensures Holds(FirstWorld(tbase).tags, [Seg(tbase, GRANULARITY, tbase + GRANULARITY - TOP_FOOT_SIZE, 0)],
      Pages(tbase, GRANULARITY), {})
  {
    hide Pages;
    var segs := [Seg(tbase, GRANULARITY, tbase + GRANULARITY - TOP_FOOT_SIZE, 0)];
    forall q
      ensures q in Pages(tbase, GRANULARITY) <==> SegUses(segs, q)
    {
      PagesAre(tbase, GRANULARITY, q);
      if InPages(tbase, GRANULARITY, q) { assert InPages(segs[0].base, segs[0].size, q); }
    }
  }

  /** A system that takes back every region. */
  ghost predicate Willing(sys: System) {
    forall n :: !sys.refuse(n)
  }

  class MState {
    const bins: BinTable
    const sys: System
    const state: int
    var head: map<int, Head>
    var foot: map<int, Foot>
    var dv: int
    var dvsize: nat
    var top: int
    var topsize: nat
    var trimCheck: nat
    var releaseChecks: int
    var segs: seq<Seg>
    ghost var lims: set<int>
    ghost var direct: set<int>
    ghost var live: map<int, nat>
    ghost var pinned: set<int>
    ghost var loose: set<int>
    ghost var leaked: set<int>

    /** lj_alloc_create, once the first region has been mapped: its first chunk is
        malloc_state itself. */
    constructor (sys: System, tbase: int)
      requires 0 < tbase && tbase % PAGE == 0 && tbase + GRANULARITY <= ADDRESS_LIMIT
        && sys.pages == Pages(tbase, GRANULARITY)
      ensures Valid() && this.sys == sys && fresh(bins) && live == map[] && leaked == {}
    {
      hide InOrder, Ok, Pages;
      this.sys, state := sys, tbase;
      bins := new BinTable();
      var mn := tbase + STATE_SIZE;
      var psize := GRANULARITY - STATE_SIZE - TOP_FOOT_SIZE;
      head := map[tbase := Head(STATE_SIZE, true, true), mn := Head(psize, false, true)];
      foot, dv, dvsize, top, topsize := map[], 0, 0, mn, psize;
      trimCheck, releaseChecks := DEFAULT_TRIM_THRESHOLD, MAX_RELEASE_CHECK_RATE;
      segs := [Seg(tbase, GRANULARITY, mn + psize, 0)];
      lims, direct, live, pinned, loose, leaked := {mn + psize}, {}, map[], {tbase}, {}, {};
      new;
      Initially(tbase);
    }

    ghost function W(): World
      reads this, bins
    {
      World(Tags(head, foot, lims, direct), top, topsize, dv, dvsize, bins.binned, live, pinned, loose)
    }

    /** The invariant inside an operation: some free chunks may be in no bin. */
    ghost predicate Ready()
      reads this, bins, sys
    {
      bins.Valid() && InOrder(W(), segs, sys.pages, leaked)
    }

    /** The invariant between operations. */
    ghost predicate Valid()
      reads this, bins, sys
    {
      Ready() && loose == {}
    }

    function Sizes(): (r: map<int, nat>)
      reads this
    {
      map c | c in head :: head[c].size
    }

    lemma SizesAgree()
      requires Ready()
      ensures forall c :: c in bins.binned ==> c in Sizes() && Sizes()[c] == bins.binned[c]
    {
      hide Books, Mapped, Holds, Ok;
      forall c | c in bins.binned
        ensures c in head && head[c].size == bins.binned[c]
      {
        BinnedSize(W(), c);
      }
    }

    /** unlink_chunk. */
    method UnlinkChunk(p: int, s: nat)
      requires Ready() && p in bins.binned && bins.binned[p] == s
      modifies this`loose, bins
      ensures Ready() && W() == Unbin(old(W()), p) && Moves(old(W()), W()) && loose == old(loose) + {p} && p in head
        && head[p].size == s && p > 0
    {
      hide Books, Mapped, Holds, Ok, Kept;
      ghost var w := W();
      UnbinOk(w, segs, p);
      SizeBelowLimit(w, segs, p);
      StepInOrder(w, Unbin(w, p), segs, sys.pages, leaked, 0);
      if s < MIN_LARGE_SIZE {
        bins.UnlinkSmall(p, s);
      } else {
        bins.UnlinkLarge(p);
      }
      loose := loose + {p};
    }

    /** insert_chunk. */
    method InsertChunk(p: int, s: nat)
      requires Ready() && p in loose && p in head && head[p].size == s
      modifies this`loose, bins
      ensures Ready() && W() == Bin(old(W()), p) && Moves(old(W()), W())
    {
      hide Books, Mapped, Holds, Ok, Kept;
      ghost var w := W();
      LooseFacts(w, p);
      SizeBelowLimit(w, segs, p);
      BinOk(w, segs, p);
      StepInOrder(w, Bin(w, p), segs, sys.pages, leaked, 0);
      if s < MIN_LARGE_SIZE {
        bins.InsertSmall(p, s);
      } else {
        SizesAgree();
        bins.InsertLarge(p, s, Sizes());
      }
      loose := loose - {p};
    }

    // ----- handing out

    /** set_inuse_and_pinuse on a loose chunk. */
    method TakeWhole(p: int, s: nat, nsize: nat)
      requires Ready() && p in loose && p in head && head[p].size == s && s - CHUNK_OVERHEAD >= nsize
      modifies this`head, this`loose, this`live
      ensures Ready() && Gives(old(W()), W(), p, nsize) && loose == old(loose) - {p}
      ensures p in head && head[p].size == s
    {
      hide InOrder, Gives, Ok;
      WholeCall(W(), segs, sys.pages, leaked, p, nsize);
      head := head[p := Head(s, true, true)];
      head := head[p + s := head[p + s].(pinuse := true)];
      loose, live := loose - {p}, live[p := nsize];
    }

    /** The front of a loose chunk is handed out, its rest r is loose. */
    method TakeFront(p: int, nb: nat, rsize: nat, nsize: nat) returns (r: int)
      requires Ready() && p in loose && p in head && head[p].size == nb + rsize && rsize >= MIN_CHUNK_SIZE
      requires MIN_CHUNK_SIZE <= nb && nb % 8 == 0 && nb - CHUNK_OVERHEAD >= nsize
      modifies this`head, this`foot, this`loose, this`live
      ensures Ready() && Gives(old(W()), W(), p, nsize) && loose == old(loose) - {p} + {r}
      ensures r == p + nb && r !in old(loose) && r in head && head[r].size == rsize && p in head && head[p].size == nb
    {
      hide InOrder, Gives, Ok;
      FrontCall(W(), segs, sys.pages, leaked, p, nb, nsize);
      r := p + nb;
      head := head[p := Head(nb, true, true)];
      head := head[r := Head(rsize, false, true)];
      foot := foot[r + rsize := PrevSize(rsize)];
      loose, live := loose - {p} + {r}, live[p := nsize];
    }

    /** A loose chunk is handed out, whole unless its rest r makes a chunk of its own. */
    method Carve(p: int, s: nat, nb: nat, nsize: nat) returns (r: int)
      requires Ready() && loose == {p} && p in head && head[p].size == s && MIN_CHUNK_SIZE <= nb <= s && nb % 8 == 0
        && nb - CHUNK_OVERHEAD >= nsize
      modifies this`head, this`foot, this`loose, this`live
      ensures Ready() && Gives(old(W()), W(), p, nsize)
      ensures loose == if r == 0 then {} else {r}
      ensures r == 0 <==> s - nb < MIN_CHUNK_SIZE
      ensures r != 0 ==> r == p + nb && r in head && head[r].size == s - nb
      ensures p in head && head[p].size == if r == 0 then s else nb
    {
      hide InOrder, Gives, Ok;
      SizeFacts(W(), segs, sys.pages, leaked, p);
      if s - nb < MIN_CHUNK_SIZE {
        TakeWhole(p, s, nsize);
        r := 0;
      } else {
        r := TakeFront(p, nb, s - nb, nsize);
      }
    }

    /** replace_dv. */
    method ReplaceDv(p: int, s: nat)
      requires Ready() && loose == {p} && p in head && head[p].size == s && dvsize < MIN_LARGE_SIZE
      modifies this`loose, this`dv, this`dvsize, bins
      ensures Valid() && Moves(old(W()), W()) && dv == p && dvsize == s
      ensures bins.binned == if old(dvsize) == 0 then old(bins.binned) else old(bins.binned)[old(dv) := old(dvsize)]
    {
      hide InOrder, Moves, Ok;
      ghost var w := W();
      var dvs := dvsize;
      DropDvCall(w, segs, sys.pages, leaked);
      if dvs != 0 {
        var old_dv := dv;
        ghost var w1 := DropDv(w);
        loose, dv, dvsize := loose + {old_dv}, 0, 0;
        assert W() == w1;
        InsertChunk(old_dv, dvs);
        MovesTrans(w, w1, W());
      }
      ghost var w2 := W();
      SetDvCall(w2, segs, sys.pages, leaked, p);
      dv, dvsize, loose := p, s, loose - {p};
      MovesTrans(w, w2, W());
    }

    /** The designated victim is used: split, or handed out whole. */
    method TakeVictim(nb: nat, nsize: nat) returns (p: int)
      requires Valid() && MIN_CHUNK_SIZE <= nb <= dvsize && nb % 8 == 0 && nb - CHUNK_OVERHEAD >= nsize
      modifies this`head, this`foot, this`dv, this`dvsize, this`live
      ensures Valid() && p > 0 && Gives(old(W()), W(), p, nsize) && FromVictim(old(W()), W(), nb, p)
    {
      hide InOrder, Gives, Ok, Moves, Kept;
      DropDvCall(W(), segs, sys.pages, leaked);
      var rsize := dvsize - nb;
      p := dv;
      if rsize >= MIN_CHUNK_SIZE {
        VictimFront(W(), segs, sys.pages, leaked, nb, nsize);
        var r := p + nb;
        dv, dvsize := r, rsize;
        head, foot := head[r := Head(rsize, false, true)], foot[r + rsize := PrevSize(rsize)];
        head := head[p := Head(nb, true, true)];
        assert head == old(head)[p := Head(nb, true, true)][r := Head(rsize, false, true)];
        live := live[p := nsize];
        assert Valid() && Gives(old(W()), W(), p, nsize);
      } else {
        VictimWhole(W(), segs, sys.pages, leaked, nsize);
        var dvs := dvsize;
        dvsize, dv := 0, 0;
        head := head[p := Head(dvs, true, true)];
        head := head[p + dvs := head[p + dvs].(pinuse := true)];
        live := live[p := nsize];
        assert W() == UseWhole(DropDv(old(W())), p, nsize);
      }
    }

    /** The front of the top chunk is used. */
    method SplitTop(nb: nat, nsize: nat) returns (p: int)
      requires Valid() && MIN_CHUNK_SIZE <= nb < topsize && nb % 8 == 0 && nb - CHUNK_OVERHEAD >= nsize
      modifies this`head, this`top, this`topsize, this`live
      ensures Valid() && p > 0 && Gives(old(W()), W(), p, nsize) && FromTop(old(W()), W(), nb, p)
    {
      hide InOrder, Gives, Ok;
      TopCall(W(), segs, sys.pages, leaked, nb, nsize);
      topsize := topsize - nb;
      p := top;
      top := p + nb;
      head := head[top := Head(topsize, false, true)];
      head := head[p := Head(nb, true, true)];
      assert head == old(head)[p := Head(nb, true, true)][top := Head(topsize, false, true)];
      live := live[p := nsize];
    }

    /** A chunk of a small bin that fits without remainder. */
    method TakeSmall(idx: nat, nsize: nat) returns (p: int)
      requires Valid() && idx in bins.smallmap && 8 * idx - CHUNK_OVERHEAD >= nsize
      modifies this`head, this`loose, this`live, bins
      ensures Valid() && p > 0 && Gives(old(W()), W(), p, nsize)
      ensures p in old(bins.binned) && old(bins.binned)[p] == 8 * idx && bins.binned == old(bins.binned) - {p}
      ensures p in head && head[p].size == 8 * idx
    {
      p := UnlinkFirst(idx);
      hide InOrder, Moves, Gives, Ok;
      ghost var w1 := W();
      TakeWhole(p, 8 * idx, nsize);
      MovesGives(old(W()), w1, W(), p, nsize);
    }

    /** unlink_first_small_chunk. */
    method UnlinkFirst(idx: nat) returns (p: int)
      requires Valid() && idx in bins.smallmap
      modifies this`loose, bins
      ensures Ready() && Moves(old(W()), W()) && loose == {p} && p > 0 && p in head && head[p].size == 8 * idx
      ensures p in old(bins.binned) && old(bins.binned)[p] == 8 * idx && bins.binned == old(bins.binned) - {p}
    {
      hide Books, Mapped, Holds, Ok, Kept;
      ghost var w := W();
      p := bins.UnlinkFirstSmall(idx);
      UnbinOk(w, segs, p);
      StepInOrder(w, Unbin(w, p), segs, sys.pages, leaked, 0);
      SizeBelowLimit(w, segs, p);
      loose := loose + {p};
    }

    /** A chunk of a bigger small bin: its rest becomes the designated victim. */
    method TakeBiggerSmall(i: nat, nb: nat, nsize: nat) returns (p: int)
      requires Valid() && i in bins.smallmap && nb < 8 * i && MIN_CHUNK_SIZE <= nb && nb % 8 == 0
        && nb - CHUNK_OVERHEAD >= nsize
      requires dvsize < MIN_LARGE_SIZE && nb < MIN_LARGE_SIZE
      modifies this`head, this`foot, this`loose, this`live, this`dv, this`dvsize, bins
      ensures Valid() && p > 0 && Gives(old(W()), W(), p, nsize) && Cut(old(W()), W(), nb, p)
      ensures p in old(bins.binned) && old(bins.binned)[p] == 8 * i
    {
      hide InOrder, Moves, Gives, Ok;
      var r;
      p, r := CarveFirst(i, nb, nsize);
      ghost var w2 := W();
      if r != 0 {
        ReplaceDv(r, 8 * i - nb);
        GivesMoves(old(W()), w2, W(), p, nsize);
      }
    }

    method CarveFirst(i: nat, nb: nat, nsize: nat) returns (p: int, r: int)
      requires Valid() && i in bins.smallmap && nb < 8 * i && MIN_CHUNK_SIZE <= nb && nb % 8 == 0
        && nb - CHUNK_OVERHEAD >= nsize
      modifies this`head, this`foot, this`loose, this`live, bins
      ensures Ready() && p > 0 && Gives(old(W()), W(), p, nsize)
      ensures loose == if r == 0 then {} else {r}
      ensures r == 0 <==> 8 * i - nb < MIN_CHUNK_SIZE
      ensures r != 0 ==> r == p + nb && r in head && head[r].size == 8 * i - nb
      ensures p in head && head[p].size == if r == 0 then 8 * i else nb
      ensures p in old(bins.binned) && old(bins.binned)[p] == 8 * i && bins.binned == old(bins.binned) - {p}
    {
      hide InOrder, Moves, Gives, Ok;
      p := UnlinkFirst(i);
      ghost var w1 := W();
      r := Carve(p, 8 * i, nb, nsize);
      MovesGives(old(W()), w1, W(), p, nsize);
    }

    /** tmalloc_small: the smallest chunk of all tree bins. */
    method TmallocSmall(nb: nat, nsize: nat) returns (v: int)
      requires Valid() && bins.treemap != {} && MIN_CHUNK_SIZE <= nb < MIN_LARGE_SIZE && nb % 8 == 0
        && nb - CHUNK_OVERHEAD >= nsize
      requires dvsize < MIN_LARGE_SIZE
      modifies this`head, this`foot, this`loose, this`live, this`dv, this`dvsize, bins
      ensures Valid() && v > 0 && Gives(old(W()), W(), v, nsize) && Cut(old(W()), W(), nb, v)
      ensures IsBest(old(bins.binned), MIN_LARGE_SIZE, v)
    {
      hide InOrder, Moves, Gives, Ok, IsBest, Sizes;
      SizesAgree();
      var rsize;
      v, rsize := bins.FindSmallest(nb, Sizes());
      BestFacts(bins.binned, MIN_LARGE_SIZE, v);
      BinnedFacts(W(), segs, sys.pages, leaked, v);
      var r := TakeBinned(v, rsize, nb, nsize);
      ghost var w2 := W();
      if r != 0 {
        ReplaceDv(r, rsize);
        GivesMoves(old(W()), w2, W(), v, nsize);
      }
    }

    /** tmalloc_large: the best fitting chunk of all tree bins, unless the designated
        victim fits better. */
    method TmallocLarge(nb: nat, nsize: nat) returns (v: int)
      requires Valid() && MIN_LARGE_SIZE <= nb < WORD && nb % 8 == 0 && nb - CHUNK_OVERHEAD >= nsize
      modifies this`head, this`foot, this`loose, this`live, bins
      ensures Valid()
      ensures v == 0 ==> W() == old(W()) && (NoneFits(bins.binned, nb) || nb <= dvsize)
      ensures v != 0 ==> v > 0 && Gives(old(W()), W(), v, nsize) && IsBest(old(bins.binned), nb, v)
      ensures v != 0 && nb <= old(dvsize) ==> old(bins.binned)[v] < old(dvsize)
      ensures v != 0 ==> Cut(old(W()), W(), nb, v)
      ensures v == 0 && nb <= dvsize ==>
          forall c :: c in bins.binned && bins.binned[c] >= nb ==> dvsize <= bins.binned[c]
    {
      hide InOrder, Moves, Gives, Ok, IsBest, NoneFits, Sizes, Slack;
      SizesAgree();
      var rsize;
      v, rsize := bins.FindBest(nb, Sizes());
      if v != 0 {
        BestFacts(bins.binned, nb, v);
        BinnedFacts(W(), segs, sys.pages, leaked, v);
        SlackIs(dvsize, nb, rsize);
        if rsize < Slack(dvsize, nb) {
          TakeLarge(v, rsize, nb, nsize);
        } else {
          v := 0;
        }
      } else {
        NoneFacts(bins.binned, nb);
      }
    }

    /** A chunk of a tree bin is used; its rest goes to a bin. */
    method TakeLarge(v: int, rsize: nat, nb: nat, nsize: nat)
      requires Valid() && v in bins.binned && bins.binned[v] == rsize + nb && MIN_LARGE_SIZE <= nb && nb % 8 == 0
        && nb - CHUNK_OVERHEAD >= nsize
      modifies this`head, this`foot, this`loose, this`live, bins
      ensures Valid() && Gives(old(W()), W(), v, nsize) && Cut(old(W()), W(), nb, v)
    {
      hide InOrder, Moves, Gives, Ok;
      var r := TakeBinned(v, rsize, nb, nsize);
      ghost var w2 := W();
      if r != 0 {
        InsertChunk(r, rsize);
        GivesMoves(old(W()), w2, W(), v, nsize);
      }
    }

    /** A binned chunk is handed out, its rest r if any is loose. */
    method TakeBinned(v: int, rsize: nat, nb: nat, nsize: nat) returns (r: int)
      requires Valid() && v in bins.binned && bins.binned[v] == rsize + nb && MIN_CHUNK_SIZE <= nb && nb % 8 == 0
        && nb - CHUNK_OVERHEAD >= nsize
      modifies this`head, this`foot, this`loose, this`live, bins
      ensures Ready() && Gives(old(W()), W(), v, nsize)
      ensures loose == if r == 0 then {} else {r}
      ensures r == 0 <==> rsize < MIN_CHUNK_SIZE
      ensures r != 0 ==> r == v + nb && r in head && head[r].size == rsize
      ensures v in head && (head[v].size == if r == 0 then rsize + nb else nb) && bins.binned == old(bins.binned) - {v}
    {
      hide InOrder, Moves, Gives, Ok;
      UnlinkChunk(v, rsize + nb);
      ghost var w1 := W();
      r := Carve(v, rsize + nb, nb, nsize);
      MovesGives(old(W()), w1, W(), v, nsize);
    }

    // ----- memory from the system

    /** direct_alloc: a region of its own for a large block. */
    method DirectAlloc(nb: nat, nsize: nat) returns (mem: int)
      requires Valid() && nb < WORD && (nb == WORD - 1 || nb - CHUNK_OVERHEAD >= nsize)
      modifies this`head, this`foot, this`live, this`lims, this`direct, sys
      ensures Valid()
      ensures mem == 0 ==> W() == old(W()) && sys.pages == old(sys.pages)
      ensures sys.calls <= old(sys.calls) + 1 && sys.calls >= old(sys.calls)
      ensures mem != 0 || nb + 2 * GRANULARITY < WORD ==> sys.calls == old(sys.calls) + 1
      ensures mem != 0 ==> mem > TWO_WORDS && Gives(old(W()), W(), mem - TWO_WORDS, nsize)
      ensures mem != 0 ==> direct == old(direct) + {mem - TWO_WORDS}
    {
      hide InOrder, Gives, Ok, Pages, PageAlign;
      mem := 0;
      var mmsize := PageAlign((nb + 55) % WORD);
      DirectRequest(nb);
      if mmsize > nb {
        var mm := sys.Map(mmsize);
        if mm != MFAIL {
          var offset := AlignOffset(mm + TWO_WORDS);
          PageOffset(mm, mmsize);
          var psize := mmsize - offset - DIRECT_FOOT_PAD;
          var p := mm + offset;
          DirectCall(W(), segs, old(sys.pages), leaked, p, psize, nsize);
          foot := foot[p := Direct(offset)];
          head := head[p := Head(psize, true, false)];
          lims, direct, live := lims + {p + psize}, direct + {p}, live[p := nsize];
          mem := p + TWO_WORDS;
        }
      }
    }

    /** The segment that ends at this address, if any. */
    method FindEnd(tbase: int) returns (k: nat)
      ensures k <= |segs| && (k < |segs| ==> End(segs[k]) == tbase) && forall i :: 0 <= i < k ==> End(segs[i]) != tbase
    {
      k := 0;
      while k < |segs| && tbase != End(segs[k])
        invariant k <= |segs| && forall i :: 0 <= i < k ==> End(segs[i]) != tbase
      {
        k := k + 1;
      }
    }

    /** The segment that begins at this address, if any. */
    method FindBase(base: int) returns (k: nat)
      ensures k <= |segs| && (k < |segs| ==> segs[k].base == base) && forall i :: 0 <= i < k ==> segs[i].base != base
    {
      k := 0;
      while k < |segs| && segs[k].base != base
        invariant k <= |segs| && forall i :: 0 <= i < k ==> segs[i].base != base
      {
        k := k + 1;
      }
    }

    /** The region is a segment of its own, the first one; all others cover what they covered. */
    twostate predicate NewFirst(tbase: int, tsize: nat)
      reads this`segs
    {
      && |segs| == |old(segs)| + 1 && segs[0].base == tbase && segs[0].size == tsize
      && (forall i :: 0 <= i < |old(segs)| ==>
            segs[i + 1].base == old(segs)[i].base && segs[i + 1].size == old(segs)[i].size)
    }

    /** What becomes of a new region: it extends the segment of the top chunk at its end, or
        another one at its base, or is a segment of its own. */
    twostate predicate Extended(tbase: int, tsize: nat)
      reads this`segs
    {
      old(segs) != [] &&
      if End(old(segs)[0]) == tbase then
        && |segs| == |old(segs)| && segs == old(segs)[0 := segs[0]] && segs[0].base == old(segs)[0].base
        && segs[0].size == old(segs)[0].size + tsize
      else if exists j :: 0 <= j < |old(segs)| && old(segs)[j].base == tbase + tsize then
        exists j :: 0 <= j < |old(segs)| && old(segs)[j].base == tbase + tsize
          && segs == old(segs)[j := old(segs)[j].(base := tbase, size := old(segs)[j].size + tsize)]
      else NewFirst(tbase, tsize)
    }

    /** append: the segment of the top chunk grows. */
    method Append(tbase: int, tsize: nat, ghost pages: set<int>)
      requires bins.Valid() && InOrder(W(), segs, pages, leaked) && loose == {} && segs != [] && End(segs[0]) == tbase
      requires GRANULARITY <= tsize && Granular(tbase, tsize) && Pages(tbase, tsize) !! pages
        && sys.pages == pages + Pages(tbase, tsize)
      modifies this`head, this`top, this`topsize, this`segs, this`trimCheck, this`lims
      ensures Valid() && Moves(old(W()), W()) && top == old(top) && topsize == old(topsize) + tsize
      ensures |segs| == |old(segs)| && segs == old(segs)[0 := segs[0]] && segs[0].base == old(segs)[0].base
        && segs[0].size == old(segs)[0].size + tsize
    {
      hide InOrder, Moves, Ok, Pages, Granular;
      AppendCall(W(), segs, pages, leaked, tbase, tsize);
      TopHead(W(), segs, pages, leaked);
      lims := lims - {top + head[top].size} + {top + topsize + tsize};
      segs := segs[0 := segs[0].(size := segs[0].size + tsize, lim := top + topsize + tsize)];
      InitTop(top, topsize + tsize);
    }

    /** init_top on an aligned address. */
    method InitTop(p: int, psize: nat)
      modifies this`head, this`top, this`topsize, this`trimCheck
      ensures top == p && topsize == psize && trimCheck == DEFAULT_TRIM_THRESHOLD
        && head == old(head)[p := Head(psize, false, true)]
    {
      top, topsize := p, psize;
      head := head[p := Head(psize, false, true)];
      trimCheck := DEFAULT_TRIM_THRESHOLD;
    }

    /** add_segment: a new top chunk; what was left of the old one goes to a bin. */
    method AddSegment(tbase: int, tsize: nat, ghost pages: set<int>)
      requires bins.Valid() && InOrder(W(), segs, pages, leaked) && loose == {}
      requires GRANULARITY <= tsize && Granular(tbase, tsize) && Pages(tbase, tsize) !! pages
        && sys.pages == pages + Pages(tbase, tsize)
      modifies this`head, this`foot, this`top, this`topsize, this`segs, this`trimCheck, this`lims, this`pinned,
        this`loose, bins
      ensures Valid() && Moves(old(W()), W()) && topsize == tsize - TOP_FOOT_SIZE && NewFirst(tbase, tsize)
    {
      hide InOrder, Moves, Ok, Pages, Granular;
      var oldTop := top;
      var csp := PushSegment(tbase, tsize, pages);
      if csp != oldTop {
        ghost var w1 := W();
        InsertChunk(oldTop, csp - oldTop);
        MovesTrans(old(W()), w1, W());
      }
    }

    /** The record chunk, and what is left of the old top chunk as a free chunk. */
    method WriteRecord(oldTop: int, csp: int)
      requires oldTop <= csp
      modifies this`head, this`foot
      ensures head == if csp == oldTop then old(head)[csp := Head(RECORD_SIZE, true, true)]
                      else old(head)[csp := Head(RECORD_SIZE, true, false)][oldTop := Head(csp - oldTop, false, true)]
      ensures foot == if csp == oldTop then old(foot) else old(foot)[csp := PrevSize(csp - oldTop)]
    {
      head := head[csp := Head(RECORD_SIZE, true, true)];
      if csp != oldTop {
        var psize := csp - oldTop;
        head := head[csp := Head(RECORD_SIZE, true, false)];
        head, foot := head[oldTop := Head(psize, false, true)], foot[csp := PrevSize(psize)];
      }
    }

    /** The part of add_segment before the old top chunk goes to a bin: it is loose. */
    method PushSegment(tbase: int, tsize: nat, ghost pages: set<int>) returns (csp: int)
      requires bins.Valid() && InOrder(W(), segs, pages, leaked) && loose == {}
      requires GRANULARITY <= tsize && Granular(tbase, tsize) && Pages(tbase, tsize) !! pages
        && sys.pages == pages + Pages(tbase, tsize)
      modifies this`head, this`foot, this`top, this`topsize, this`segs, this`trimCheck, this`lims, this`pinned,
        this`loose
      ensures Ready() && Moves(old(W()), W()) && topsize == tsize - TOP_FOOT_SIZE && NewFirst(tbase, tsize)
      ensures if csp == old(top) then loose == {}
        else csp > old(top) && loose == {old(top)} && old(top) in head && head[old(top)].size == csp - old(top)
    {
      hide InOrder, Moves, Ok, Pages, Granular, NewTop;
      ghost var w := W();
      NewTopCall(w, segs, pages, leaked, tbase, tsize);
      TopHead(w, segs, pages, leaked);
      NewTopApart(w, segs, pages, leaked, tbase, tsize);
      NewTopLoose(w, tbase, tsize - TOP_FOOT_SIZE);
      csp := WriteSegment(tbase, tsize);
      segs := [Seg(tbase, tsize, tbase + (tsize - TOP_FOOT_SIZE), 0)] +
        [segs[0].(lim := csp + RECORD_SIZE, rec := csp)] + segs[1..];
    }

    /** The old segment gets its record chunk at csp, where its top chunk ended or began. */
    method WriteSegment(tbase: int, tsize: nat) returns (csp: int)
      requires GRANULARITY <= tsize && loose == {}
      requires top in head && head[top] == Head(topsize, false, true) && topsize > 0 && tbase != top
        && tbase != RecordAt(W())
      modifies this`head, this`foot, this`top, this`topsize, this`trimCheck, this`lims, this`pinned, this`loose
      ensures W() == NewTop(old(W()), tbase, tsize - TOP_FOOT_SIZE)
      ensures csp == old(RecordAt(W()))
    {
      hide NewTop;
      ghost var w := W();
      var oldTop, asp := top, top + topsize;
      csp := if asp < oldTop + MIN_CHUNK_SIZE then oldTop else asp;
      InitTop(tbase, tsize - TOP_FOOT_SIZE);
      WriteRecord(oldTop, csp);
      loose := if csp == oldTop then loose else loose + {oldTop};
      pinned := pinned + {csp};
      lims := lims - {asp} + {csp + RECORD_SIZE} + {tbase + (tsize - TOP_FOOT_SIZE)};
      NewTopIs(w, tbase, tsize - TOP_FOOT_SIZE, W());
    }

    // ----- free

    /** The chunk before p, if free: out of its bin. */
    method UnlinkPrev(p: int) returns (a: int)
      requires Valid() && p in live && p !in direct
      modifies this`loose, bins
      ensures Ready() && Moves(old(W()), W())
      ensures p in head && if head[p].pinuse then a == p && loose == {}
        else IsPrev(W(), p, a) && a !in bins.binned && loose == if a == dv then {} else {a}
      ensures (!head[p].pinuse ==> p in foot && foot[p].PrevSize?) && a == FreeStart(W(), p)
      ensures bins.binned == old(bins.binned) - {a} && a != top
    {
      hide InOrder, Moves, Ok;
      ReadyFacts(W(), segs, sys.pages, leaked, p);
      NextUnbinned(p);
      MovesItself();
      a := p;
      if !head[p].pinuse {
        var prevsize := foot[p].n;
        a := p - prevsize;
        if a != dv {
          BinnedNot(W(), segs, sys.pages, leaked, a);
          UnlinkChunk(a, prevsize);
        } else {
          DvUnbinned();
        }
      }
    }

    lemma MovesItself()
      requires Ready()
      ensures Moves(W(), W())
    {
      hide Books, Mapped, Holds, Kept, Ok;
      MovesRefl(W());
    }

    lemma DvUnbinned()
      requires Ready()
      ensures dv !in bins.binned
    {
      hide InOrder, Ok;
      if dv in bins.binned { BinnedNot(W(), segs, sys.pages, leaked, dv); }
    }

    /** The chunk after p, if free and neither top chunk nor victim: out of its bin. */
    method UnlinkNext(p: int, a: int)
      requires Ready() && p in live && p !in direct && p in head
      requires if head[p].pinuse then a == p && loose == {} else IsPrev(W(), p, a) && loose == if a == dv then {}
        else {a}
      modifies this`loose, bins
      ensures Ready() && Moves(old(W()), W()) && ReadyToMerge(W(), p, a)
      ensures bins.binned == old(bins.binned) - {p + head[p].size}
    {
      hide InOrder, Moves, Ok;
      ReadyFacts(W(), segs, sys.pages, leaked, p);
      MovesItself();
      var next := p + head[p].size;
      if !head[next].cinuse && next != top && next != dv {
        NextBinned(p, a);
        UnlinkChunk(next, head[next].size);
      } else {
        NextUnbinned(next);
      }
    }

    lemma NextBinned(p: int, a: int)
      requires Ready() && p in live && p !in direct && p in head && p + head[p].size in head && a <= p && loose <= {a}
      requires p + head[p].size == top || p + head[p].size == dv || p + head[p].size in bins.binned
        || p + head[p].size in loose
      ensures p + head[p].size != top && p + head[p].size != dv ==>
          p + head[p].size in bins.binned && bins.binned[p + head[p].size] == head[p + head[p].size].size
    {
      hide InOrder, Ok;
      var nx := p + head[p].size;
      if nx in bins.binned { BinnedNot(W(), segs, sys.pages, leaked, nx); }
      SizeFacts(W(), segs, sys.pages, leaked, p);
    }

    lemma NextUnbinned(c: int)
      requires Ready() && c in head && (head[c].cinuse || c == top || c == dv)
      ensures c !in bins.binned
    {
      hide Books, Mapped, Holds, Ok;
      if c in bins.binned { BinnedSize(W(), c); BinnedNot(W(), segs, sys.pages, leaked, c); }
    }

    /** set_free_with_pinuse: one free chunk a .. x, the chunk at x told. */
    method SetFree(a: int, x: int)
      requires a in head && a < x
      modifies this`head, this`foot
      ensures Tags(head, foot, lims, direct) == Freed(old(Tags(head, foot, lims, direct)), a, x)
    {
      if x in head { head := head[x := head[x].(pinuse := false)]; }
      head := Forget(head, a, x)[a := Head(x - a, false, true)];
      foot := foot[x := PrevSize(x - a)];
    }

    /** The block p and its free neighbours become more of the top chunk, the designated
        victim, or a free chunk that is to go to a bin. */
    method Merge(p: int, a: int) returns (toBin: bool)
      requires Ready() && ReadyToMerge(W(), p, a)
      modifies this`head, this`foot, this`top, this`topsize, this`dv, this`dvsize, this`live, this`loose
      ensures Ready() && Takes(old(W()), W(), p)
      ensures loose == if toBin then {a} else {}
      ensures toBin ==> a in head
      ensures p in old(head) && a in old(head) && Next(old(W()).tags, p) in old(head) && a < old(FreeEnd(W(), p))
      ensures W() == FreeResult(old(W()), p, a, old(FreeEnd(W(), p)))
      ensures toBin <==> Next(old(W()).tags, p) != old(top) && Next(old(W()).tags, p) != old(dv) && a != old(dv)
    {
      hide InOrder, Takes, Ok, FreeResult, ReadyToMerge;
      MergeCall(W(), segs, sys.pages, leaked, p, a);
      var next := p + head[p].size;
      toBin := false;
      if next == top {
        MergeTop(p, a);
      } else if next == dv {
        MergeVictim(p, a);
      } else {
        toBin := MergeAlone(p, a);
      }
    }

    /** Consolidation with the top chunk. */
    method MergeTop(p: int, a: int)
      requires p in head && p + head[p].size == top && a in head && p + head[p].size in head && a < top
        && FreeEnd(W(), p) == top + topsize && top + topsize !in head
      modifies this`head, this`top, this`topsize, this`dv, this`dvsize, this`live, this`loose
      ensures W() == FreeResult(old(W()), p, a, old(FreeEnd(W(), p)))
    {
      hide Forget;
      var next := top;
      topsize := topsize + (next - a);
      top := a;
      head := Forget(head, a, a + topsize)[a := Head(topsize, false, true)];
      if a == dv { dv, dvsize := 0, 0; }
      live, loose := live - {p}, loose - {a, next};
    }

    /** Consolidation with the designated victim behind the block. */
    method MergeVictim(p: int, a: int)
      requires p in head && a in head && p + head[p].size in head && a <= p < dv && p + head[p].size == dv != top
        && FreeEnd(W(), p) == dv + dvsize
      modifies this`head, this`foot, this`dv, this`dvsize, this`live, this`loose
      ensures W() == FreeResult(old(W()), p, a, old(FreeEnd(W(), p)))
    {
      hide Freed;
      var next := dv;
      dvsize := dvsize + (next - a);
      dv := a;
      SetFree(a, a + dvsize);
      live, loose := live - {p}, loose - {a, next};
    }

    /** Consolidation with the chunks before and behind the block; a victim before it grows. */
    method MergeAlone(p: int, a: int) returns (toBin: bool)
      requires p in head && a in head && p + head[p].size in head && a <= p < p + head[p].size != top
        && p + head[p].size != dv && a < FreeEnd(W(), p)
      modifies this`head, this`foot, this`dvsize, this`live, this`loose
      ensures W() == FreeResult(old(W()), p, a, old(FreeEnd(W(), p)))
      ensures toBin <==> a != dv
    {
      hide Freed;
      var next := p + head[p].size;
      var psize := next - a;
      if !head[next].cinuse { psize := psize + head[next].size; }
      SetFree(a, a + psize);
      toBin := a != dv;
      if !toBin { dvsize := psize; }
      live, loose := live - {p}, loose - {a, next} + (if toBin then {a} else {});
    }

    // ----- giving memory back

    /** The first chunk of a segment that holds nothing else leaves its bin. */
    method Vacate(p: int, psize: nat)
      requires Valid() && p in head && head[p].size == psize >= MIN_LARGE_SIZE
      requires (p == dv && p != 0) || (p != dv && p in bins.binned && bins.binned[p] == psize)
      modifies this`dv, this`dvsize, this`loose, bins
      ensures Ready() && Moves(old(W()), W()) && loose == {p}
    {
      hide InOrder, Moves, Ok;
      if p == dv {
        DropDvCall(W(), segs, sys.pages, leaked);
        dv, dvsize := 0, 0;
        loose := loose + {p};
      } else {
        UnlinkChunk(p, psize);
      }
    }

    /** CALL_MUNMAP of a segment: on success its record and its headers are gone. */
    method UnmapSegment(k: nat) returns (ok: bool)
      requires Ready() && 0 < k < |segs| && loose == {segs[k].base} && Unused(W(), segs, k)
      modifies this`head, this`segs, this`lims, this`direct, this`live, this`pinned, this`loose, sys
      ensures Ready() && Moves(old(W()), W())
      ensures if ok then loose == {} && segs == HeapSegments.Without(old(segs), k)
        else segs == old(segs) && W() == old(W())
      ensures ok == !sys.refuse(old(sys.calls))
      ensures ok ==> W() == Unmap(old(W()), old(segs[k].base), old(End(segs[k])))
    {
      hide InOrder, Moves, Ok, Pages, Unused;
      ghost var w := W();
      MovesItself();
      UnmapCall(w, segs, sys.pages, leaked, k);
      var base, size := segs[k].base, segs[k].size;
      ok := sys.Unmap(base, size);
      if ok {
        ForgetRegion(base, base + size);
        segs := segs[..k] + segs[k + 1..];
        assert W() == Unmap(w, base, base + size);
      }
    }

    /** Memory that is not mapped any more holds no chunks. */
    method ForgetRegion(lo: int, hi: int)
      modifies this`head, this`lims, this`direct, this`live, this`pinned, this`loose
      ensures W() == Unmap(old(W()), lo, hi)
    {
      head := map c | c in head && !(lo <= c < hi) :: head[c];
      lims, direct := set e | e in lims && !(lo <= e < hi), set c | c in direct && !(lo <= c < hi);
      live := map c | c in live && !(lo <= c < hi) :: live[c];
      pinned, loose := set c | c in pinned && !(lo <= c < hi), set c | c in loose && !(lo <= c < hi);
    }

    /** The first chunk of segment k is free and reaches up to the segment's record. */
    predicate Vacant(k: nat)
      reads this`head, this`segs
      requires k < |segs|
    {
      segs[k].base in head && !head[segs[k].base].cinuse
        && segs[k].base + head[segs[k].base].size >= End(segs[k]) - TOP_FOOT_SIZE
    }

    /** One round of release_unused_segments: the segment goes if it is vacant and the system
        takes it. */
    method ReleaseSegment(k: nat) returns (ok: bool)
      requires Valid() && 0 < k < |segs|
      modifies this`head, this`segs, this`lims, this`direct, this`live, this`pinned, this`loose, this`dv, this`dvsize,
        bins, sys
      ensures Valid() && Moves(old(W()), W()) && segs == if ok then HeapSegments.Without(old(segs), k) else old(segs)
      ensures ok <==> old(Vacant(k)) && !sys.refuse(old(sys.calls))
      ensures forall j :: 0 <= j < |segs| && (j < k || !ok) ==> Vacant(j) == old(Vacant(j))
    {
      hide InOrder, Moves, Ok;
      MovesItself();
      ghost var w := W();
      FirstChunk(W(), segs, sys.pages, leaked, k);
      var p := segs[k].base;
      var psize := head[p].size;
      ok := false;
      if !head[p].cinuse && p + psize >= segs[k].base + segs[k].size - TOP_FOOT_SIZE {
        Vacate(p, psize);
        ghost var w1 := W();
        ok := UnmapSegment(k);
        MovesTrans(old(W()), w1, W());
        if ok {
          forall j: nat | j < k ensures Vacant(j) == old(Vacant(j)) {
            OtherSegment(w, old(segs), old(sys.pages), old(leaked), k, j);
          }
        }
        if !ok {
          InsertChunk(p, psize);
          MovesTrans(old(W()), w1, W());
        }
      }
    }

    /** release_unused_segments: segments that hold no block go back to the system. */
    method ReleaseUnused() returns (released: nat)
      requires Valid()
      modifies this`head, this`segs, this`lims, this`direct, this`live, this`pinned, this`loose, this`dv, this`dvsize,
        this`releaseChecks, bins, sys
      ensures Valid() && Moves(old(W()), W()) && releaseChecks >= MAX_RELEASE_CHECK_RATE
      ensures Total(segs) == Total(old(segs)) - released && |segs| > 0 && segs[0] == old(segs)[0] && |old(segs)| > 0
      ensures Willing(sys) ==> forall k :: 1 <= k < |segs| ==> !Vacant(k)
    {
      hide InOrder, Moves, Ok, Vacant;
      MovesItself();
      SegsThere(W(), segs, sys.pages, leaked);
      released := 0;
      var nsegs, k := 0, 1;
      while k < |segs|
        invariant Valid() && Moves(old(W()), W()) && 1 <= k <= |segs| && segs[0] == old(segs)[0]
        invariant Total(segs) == Total(old(segs)) - released
        invariant Willing(sys) ==> forall j :: 1 <= j < k ==> !Vacant(j)
        decreases |segs| - k
      {
        ghost var w1 := W();
        var size := segs[k].size;
        nsegs := nsegs + 1;
        TotalWithout(segs, k);
        var ok := ReleaseSegment(k);
        MovesTrans(old(W()), w1, W());
        if ok { released := released + size; } else { k := k + 1; }
      }
      releaseChecks := if nsegs > MAX_RELEASE_CHECK_RATE then nsegs else MAX_RELEASE_CHECK_RATE;
    }

    /** The address of the record that describes segment j: inside malloc_state for the first. */
    function LinkOf(j: nat): int
      requires j < |segs|
      reads this`segs
    {
      if j == 0 then state + SEG_OFFSET else segs[j].rec + TWO_WORDS
    }

    /** The first segment holds the record of some segment. */
    ghost predicate FirstLinked()
      reads this`segs
    {
      exists j :: 0 <= j < |segs| && segs[0].base <= LinkOf(j) < End(segs[0])
    }

    /** has_segment_link for the first segment. */
    method HasSegmentLink() returns (linked: bool)
      requires segs != []
      ensures linked <==> FirstLinked()
    {
      var j := 0;
      linked := false;
      while j < |segs| && !linked
        invariant j <= |segs|
        invariant linked <==> exists i :: 0 <= i < j && segs[0].base <= LinkOf(i) < End(segs[0])
      {
        linked := segs[0].base <= LinkOf(j) < End(segs[0]);
        j := j + 1;
      }
    }

    /** The end of the top chunk goes back to the system, in whole granules. */
    method ShrinkTop(extra: nat) returns (released: nat)
      requires Valid() && extra % GRANULARITY == 0 && extra < topsize
      modifies this`head, this`top, this`topsize, this`trimCheck, this`segs, this`lims, sys
      ensures Valid() && Moves(old(W()), W()) && topsize == old(topsize) - released && |old(segs)| > 0
      ensures released == if old(segs)[0].size >= extra && !old(FirstLinked()) && !sys.refuse(old(sys.calls)) then extra
        else 0
      ensures Total(segs) == Total(old(segs)) - released
    {
      hide InOrder, Moves, Ok, Pages, Total, FirstLinked;
      MovesItself();
      released := 0;
      SegsThere(W(), segs, sys.pages, leaked);
      TrimCall(W(), segs, sys.pages, leaked, extra);
      TopHead(W(), segs, sys.pages, leaked);
      var linked := HasSegmentLink();
      if segs[0].size >= extra && !linked {
        var newsize := segs[0].size - extra;
        var ok := sys.Unmap(segs[0].base + newsize, extra);
        if ok {
          released := extra;
          TotalResized(segs, segs[0].(size := newsize, lim := top + (topsize - extra)));
          lims := lims - {top + head[top].size} + {top + (topsize - extra)};
          segs := segs[0 := segs[0].(size := newsize, lim := top + (topsize - extra))];
          InitTop(top, topsize - extra);
        }
      }
    }

    /** alloc_trim: all granules of the top chunk but the padding, when no record is in the
        way, and all vacant segments, when the system takes them. */
    method Trim(pad0: nat) returns (any: bool)
      requires Valid()
      modifies this`head, this`segs, this`lims, this`direct, this`live, this`pinned, this`loose, this`dv, this`dvsize,
        this`releaseChecks, bins, sys
      modifies this`top, this`topsize, this`trimCheck
      ensures Valid() && Moves(old(W()), W()) && |old(segs)| > 0
      ensures Total(segs) <= Total(old(segs)) && (any <==> Total(segs) < Total(old(segs)))
      ensures Willing(sys) && pad0 < MAX_REQUEST ==> forall k :: 1 <= k < |segs| ==> !Vacant(k)
      ensures var pad := pad0 + TOP_FOOT_SIZE;
        if Willing(sys) && pad0 < MAX_REQUEST && old(topsize) > pad && old(segs)[0].size >= Extra(old(topsize), pad)
          && !old(FirstLinked())
        then topsize == old(topsize) - Extra(old(topsize), pad) && pad < topsize <= pad + GRANULARITY
        else Willing(sys) ==> topsize == old(topsize)
    {
      hide InOrder, Moves, Ok, Vacant, FirstLinked;
      MovesItself();
      SegsThere(W(), segs, sys.pages, leaked);
      var released := 0;
      if pad0 < MAX_REQUEST {
        var pad := pad0 + TOP_FOOT_SIZE;
        if topsize > pad {
          var extra := Extra(topsize, pad);
          released := ShrinkTop(extra);
        }
        ghost var w1 := W();
        var more := ReleaseUnused();
        MovesTrans(old(W()), w1, W());
        released := released + more;
        if released == 0 && topsize > trimCheck { trimCheck := WORD - 1; }
      }
      any := released != 0;
    }

    /** The consolidating part of free. */
    method Consolidate(p: int) returns (toBin: bool, a: int)
      requires Valid() && p in live && p !in direct
      modifies this`head, this`foot, this`top, this`topsize, this`dv, this`dvsize, this`live, this`loose, bins
      ensures Ready() && Takes(old(W()), W(), p)
      ensures loose == if toBin then {a} else {}
      ensures toBin ==> a in head
      ensures p in old(head) && (!old(head)[p].pinuse ==> p in old(foot) && old(foot)[p].PrevSize?)
        && Next(old(W()).tags, p) in old(head)
      ensures var w := old(W()); var x, nx := FreeEnd(w, p), Next(w.tags, p);
        && a == FreeStart(w, p) && a < x && a != w.top && bins.binned == w.binned - {a, nx}
        && (toBin <==> nx != w.top && nx != w.dv && a != w.dv) && (toBin ==> head[a].size == x - a)
        && (if nx == w.top then top == a && topsize == x - a else top == w.top && topsize == w.topsize)
        && (if nx != w.top && (nx == w.dv || a == w.dv) then dv == a && dvsize == x - a
            else if a == w.dv then dv == 0 && dvsize == 0 else dv == w.dv && dvsize == w.dvsize)
    {
      hide FreeResult, InOrder, Moves, Takes, Ok, ReadyToMerge, Books, HeapOk, Tiles, Listed;
      ghost var w := W();
      OrderBooks(w, segs, sys.pages, leaked);
      a := UnlinkPrev(p);
      ghost var w1 := W();
      MovesLive(w, w1);
      UnlinkNext(p, a);
      ghost var w2 := W();
      MovesTrans(w, w1, w2);
      toBin := Merge(p, a);
      FreeParts(w2, p, a, FreeEnd(w2, p));
      MovesTakes(w, w2, W(), p);
    }

    /** What free makes of the block at p: with the free chunks right before and behind it, it
        becomes more of the top chunk, which is trimmed when it is too long; or the victim; or a
        binned chunk, and every so many large ones the vacant segments are released. */
    twostate predicate Placed(p: int)
      reads this, bins, sys
    {
      p in old(head) && Next(old(W()).tags, p) in old(head)
      && (!old(head)[p].pinuse ==> p in old(foot) && old(foot)[p].PrevSize?) &&
      var w := old(W());
      var a, x, nx := FreeStart(w, p), FreeEnd(w, p), Next(w.tags, p);
      a < x &&
      if nx == w.top then
        if x - a <= old(trimCheck) then
          && top == a && topsize == x - a && segs == old(segs) && sys.calls == old(sys.calls)
          && bins.binned == w.binned - {a, nx}
        else
          && (Willing(sys) ==> forall k :: 1 <= k < |segs| ==> !Vacant(k))
          && (Willing(sys) && |old(segs)| > 0 && x - a > TOP_FOOT_SIZE && !old(FirstLinked())
              && old(segs)[0].size >= Extra(x - a, TOP_FOOT_SIZE) ==>
                TOP_FOOT_SIZE < topsize <= TOP_FOOT_SIZE + GRANULARITY)
      else if nx == w.dv || a == w.dv then
        && dv == a && dvsize == x - a && top == w.top && topsize == w.topsize && segs == old(segs)
        && sys.calls == old(sys.calls) && bins.binned == w.binned - {a, nx}
      else
        && top == w.top && topsize == w.topsize
        && if x - a >= 256 && old(releaseChecks) == 1 then
             Willing(sys) ==> forall k :: 1 <= k < |segs| ==> !Vacant(k)
           else
             && bins.binned == (w.binned - {a, nx})[a := x - a] && dv == w.dv && dvsize == w.dvsize
             && segs == old(segs) && sys.calls == old(sys.calls)
             && releaseChecks == if x - a >= 256 then old(releaseChecks) - 1 else old(releaseChecks)
    }

    /** free of a block that is not directly mapped. */
    method FreeBlock(p: int)
      requires Valid() && p in live && p !in direct
      modifies this`head, this`foot, this`segs, this`lims, this`direct, this`live, this`pinned, this`loose, this`dv,
        this`dvsize, this`releaseChecks, bins, sys
      modifies this`top, this`topsize, this`trimCheck
      ensures Valid() && Takes(old(W()), W(), p) && Placed(p)
    {
      hide InOrder, Moves, Takes, Ok, Books, HeapOk, Tiles, Listed, FreeEnd, FreeStart, Vacant, FirstLinked;
      ghost var w := W();
      OrderBooks(w, segs, sys.pages, leaked);
      var toBin, a := Consolidate(p);
      ghost var w1 := W();
      MovesItself();
      if toBin {
        BinAndRelease(a);
      } else if a == top && topsize > trimCheck {
        var _ := Trim(0);
      }
      TakesMoves(w, w1, W(), p);
    }

    /** The last step of free: the chunk goes to its bin, and large ones count down to the
        next release of unused segments. */
    method BinAndRelease(a: int)
      requires Ready() && loose == {a} && a in head
      modifies this`head, this`segs, this`lims, this`direct, this`live, this`pinned, this`loose, this`dv, this`dvsize,
        this`releaseChecks, bins, sys
      ensures Valid() && Moves(old(W()), W())
      ensures var psize := old(head)[a].size;
        if psize >= 256 && old(releaseChecks) == 1 then
          Willing(sys) ==> forall k :: 1 <= k < |segs| ==> !Vacant(k)
        else
          && bins.binned == old(bins.binned)[a := psize] && head == old(head) && segs == old(segs)
          && sys.calls == old(sys.calls) && dv == old(dv) && dvsize == old(dvsize)
          && releaseChecks == if psize >= 256 then old(releaseChecks) - 1 else old(releaseChecks)
    {
      hide InOrder, Moves, Ok, Vacant;
      var psize := head[a].size;
      InsertChunk(a, psize);
      if psize >= MIN_LARGE_SIZE {
        releaseChecks := releaseChecks - 1;
        if releaseChecks == 0 {
          ghost var w1 := W();
          var _ := ReleaseUnused();
          MovesTrans(old(W()), w1, W());
        }
      }
    }

    /** lj_alloc_free. */
    method Free(ptr: int)
      requires Valid() && (ptr != 0 ==> ptr - TWO_WORDS in live)
      modifies this, bins, sys
      ensures Valid()
      ensures if ptr == 0 then W() == old(W()) && sys.pages == old(sys.pages) else Takes(old(W()), W(), ptr - TWO_WORDS)
      ensures ptr != 0 && ptr - TWO_WORDS !in old(direct) ==> Placed(ptr - TWO_WORDS)
      ensures ptr != 0 && ptr - TWO_WORDS in old(direct) ==>
          && sys.calls == old(sys.calls) + 1 && bins.binned == old(bins.binned) && segs == old(segs)
          && dv == old(dv) && dvsize == old(dvsize) && top == old(top) && topsize == old(topsize)
    {
      hide InOrder, Moves, Takes, Ok;
      if ptr != 0 {
        var p := ptr - TWO_WORDS;
        LiveHead(W(), segs, sys.pages, leaked, p);
        if !head[p].pinuse && foot[p].Direct? {
          FreeDirect(p);
        } else {
          FreeBlock(p);
        }
      }
    }

    /** free of a directly mapped block: nobody looks at the result of CALL_MUNMAP. */
    method FreeDirect(p: int)
      requires Valid() && p in direct
      modifies this`head, this`lims, this`direct, this`live, this`pinned, this`loose, this`leaked, sys
      ensures Valid() && Takes(old(W()), W(), p) && sys.calls == old(sys.calls) + 1
    {
      hide InOrder, Takes, Ok, Pages;
      DirectFoot(W(), segs, sys.pages, leaked, p);
      ghost var w, pages := W(), sys.pages;
      var offset := foot[p].offset;
      var psize := head[p].size + offset + DIRECT_FOOT_PAD;
      var ok := sys.Unmap(p - offset, psize);
      UndirectCall(w, segs, pages, leaked, p, ok);
      ForgetRegion(p, p + psize);
      leaked := if ok then leaked else leaked + Pages(p, psize);
    }

    // ----- malloc

    /** prepend_alloc: the block is the front of the new region; its rest is consolidated
        with the first chunk of the segment behind it, as if it were freed. */
    method PrependAlloc(k: nat, tbase: int, tsize: nat, nb: nat, nsize: nat, ghost pages: set<int>)
      requires bins.Valid() && InOrder(W(), segs, pages, leaked) && loose == {} && k < |segs|
        && segs[k].base == tbase + tsize
      requires Granular(tbase, tsize) && Pages(tbase, tsize) !! pages && sys.pages == pages + Pages(tbase, tsize)
      requires MIN_CHUNK_SIZE <= nb && nb + TOP_FOOT_SIZE < tsize && nb % 8 == 0 && nb - CHUNK_OVERHEAD >= nsize
      modifies this`head, this`foot, this`segs, this`live, this`top, this`topsize, this`dv, this`dvsize, this`loose,
        this`releaseChecks, bins
      ensures Valid() && Gives(old(W()), W(), tbase, nsize)
      ensures segs == old(segs)[k := old(segs)[k].(base := tbase, size := old(segs)[k].size + tsize)]
    {
      hide InOrder, Moves, Takes, Gives, Ok, Pages, Granular;
      ghost var w := W();
      PrependCut(w, segs, pages, leaked, k, tbase, tsize, nb, nsize);
      segs := segs[k := segs[k].(base := segs[k].base - tsize, size := segs[k].size + tsize)];
      var q := tbase + nb;
      head := head[tbase := Head(nb, true, true)];
      head := head[q := Head(tsize - nb, true, true)];
      live := live[tbase := nsize][q := 0];
      ghost var w1 := W();
      var toBin, a := Consolidate(q);
      ghost var w2 := W();
      if toBin {
        InsertChunk(a, head[a].size);
      } else {
        MovesItself();
      }
      PrependGives(w, w1, w2, W(), tbase, nsize, q);
    }

    /** alloc_sys. */
    method AllocSys(nb: nat, nsize: nat) returns (mem: int)
      requires Valid() && nb < WORD
        && (nb == WORD - 1 || (MIN_CHUNK_SIZE <= nb && nb % 8 == 0 && nb - CHUNK_OVERHEAD >= nsize))
      modifies this, bins, sys
      ensures Valid()
      ensures if mem == 0 then Moves(old(W()), W()) && sys.pages == old(sys.pages)
        else mem > TWO_WORDS && Gives(old(W()), W(), mem - TWO_WORDS, nsize)
      ensures mem == 0 && nb + 2 * GRANULARITY < WORD ==> sys.calls > old(sys.calls)
      ensures mem != 0 ==>
          || (nb >= DEFAULT_MMAP_THRESHOLD && segs == old(segs) && direct == old(direct) + {mem - TWO_WORDS}
              && sys.calls == old(sys.calls) + 1)
          || (direct == old(direct) && sys.calls > 0
              && Extended(sys.offer(sys.calls - 1, SystemSize(nb)), SystemSize(nb))
              && (nb + 2 * GRANULARITY < WORD ==>
                  sys.calls == old(sys.calls) + if nb >= DEFAULT_MMAP_THRESHOLD then 2 else 1))
    {
      hide InOrder, Moves, Gives, Ok, Pages, GranularityAlign, SystemSize;
      MovesItself();
      mem := 0;
      if nb >= DEFAULT_MMAP_THRESHOLD {
        mem := DirectAlloc(nb, nsize);
      }
      if mem == 0 {
        mem := AllocSegment(nb, nsize);
      }
    }

    /** The rest of alloc_sys: a new region extends a segment at its end or its base, or
        becomes a segment of its own. */
    method AllocSegment(nb: nat, nsize: nat) returns (mem: int)
      requires Valid() && nb < WORD
        && (nb == WORD - 1 || (MIN_CHUNK_SIZE <= nb && nb % 8 == 0 && nb - CHUNK_OVERHEAD >= nsize))
      modifies this, bins, sys
      ensures Valid()
      ensures if mem == 0 then Moves(old(W()), W()) && sys.pages == old(sys.pages)
        else mem > TWO_WORDS && Gives(old(W()), W(), mem - TWO_WORDS, nsize)
      ensures mem == 0 && nb + 2 * GRANULARITY < WORD ==> sys.calls > old(sys.calls)
      ensures sys.calls <= old(sys.calls) + 1 && direct == old(direct)
      ensures mem != 0 ==>
          sys.calls == old(sys.calls) + 1
          && Extended(sys.offer(old(sys.calls), SystemSize(nb)), SystemSize(nb))
    {
      hide InOrder, Moves, Gives, Ok, Pages, GranularityAlign, PageAligned;
      MovesItself();
      mem := 0;
      SystemRequest(nb);
      var tsize := GranularityAlign((nb + TOP_FOOT_SIZE + 1) % WORD);
      if tsize > nb {
        var tbase := sys.Map(tsize);
        if tbase != MFAIL {
          mem := UseRegion(tbase, tsize, nb, nsize, old(sys.pages));
        }
      }
    }

    /** The new region goes to a segment, and the block comes out of it. */
    method UseRegion(tbase: int, tsize: nat, nb: nat, nsize: nat, ghost pages: set<int>) returns (mem: int)
      requires bins.Valid() && InOrder(W(), segs, pages, leaked) && loose == {}
      requires Granular(tbase, tsize) && Pages(tbase, tsize) !! pages && sys.pages == pages + Pages(tbase, tsize)
      requires MIN_CHUNK_SIZE <= nb && nb + TOP_FOOT_SIZE < tsize && nb % 8 == 0 && nb - CHUNK_OVERHEAD >= nsize
      modifies this, bins
      ensures Valid() && mem > TWO_WORDS && Gives(old(W()), W(), mem - TWO_WORDS, nsize)
      ensures Extended(tbase, tsize) && sys.calls == old(sys.calls) && direct == old(direct)
    {
      hide InOrder, Moves, Gives, Ok, Pages, Granular;
      GranularFacts(tbase, tsize);
      SegsThere(W(), segs, pages, leaked);
      var k := FindEnd(tbase);
      var append := k < |segs| && segs[k].base <= top < End(segs[k]);
      var j := FindBase(tbase + tsize);
      if !append && j < |segs| {
        PrependAlloc(j, tbase, tsize, nb, nsize, pages);
        mem := tbase + TWO_WORDS;
      } else {
        if append { TopSegment(W(), segs, pages, leaked, k); }
        NewSpace(append, tbase, tsize, pages);
        ghost var w1 := W();
        var p := SplitTop(nb, nsize);
        MovesGives(old(W()), w1, W(), p, nsize);
        mem := p + TWO_WORDS;
      }
    }

    /** New or extended top space. */
    method NewSpace(append: bool, tbase: int, tsize: nat, ghost pages: set<int>)
      requires bins.Valid() && InOrder(W(), segs, pages, leaked) && loose == {} && segs != []
        && (append ==> End(segs[0]) == tbase)
      requires GRANULARITY <= tsize && Granular(tbase, tsize) && Pages(tbase, tsize) !! pages
        && sys.pages == pages + Pages(tbase, tsize)
      modifies this, bins
      ensures Valid() && Moves(old(W()), W()) && topsize >= tsize - TOP_FOOT_SIZE && direct == old(direct)
      ensures if append then
                && |segs| == |old(segs)| && segs == old(segs)[0 := segs[0]] && segs[0].base == old(segs)[0].base
                && segs[0].size == old(segs)[0].size + tsize
              else NewFirst(tbase, tsize)
    {
      hide InOrder, Moves, Ok, Pages, Granular;
      if append {
        Append(tbase, tsize, pages);
      } else {
        AddSegment(tbase, tsize, pages);
      }
    }

    /** lj_alloc_malloc for a small request: exact fit, next small bin, smallest large chunk. */
    method MallocSmall(nb: nat, nsize: nat) returns (p: int)
      requires Valid() && MIN_CHUNK_SIZE <= nb < MIN_LARGE_SIZE && nb % 8 == 0 && nb - CHUNK_OVERHEAD >= nsize
      modifies this`head, this`foot, this`loose, this`live, this`dv, this`dvsize, bins
      ensures Valid()
      ensures if p == 0 then W() == old(W()) && !BinsServe(W(), nb)
        else p > 0 && Gives(old(W()), W(), p, nsize) && BinsServe(old(W()), nb) && FromBins(old(W()), W(), nb, p)
    {
      hide InOrder, Gives, Ok, IsBest;
      forall i | i in bins.smallmap ensures i < NSMALLBINS { SmallBitsInRange(bins.S(), i); }
      var idx: nat := nb / 8;
      p := 0;
      if idx in bins.smallmap || idx + 1 in bins.smallmap {
        if idx !in bins.smallmap { idx := idx + 1; }
        SmallIsBest(idx, nb);
        p := TakeSmall(idx, nsize);
      } else if nb > dvsize {
        if exists i :: i in bins.smallmap && idx <= i {
          var i := LeastBit(bins.smallmap, idx);
          SmallIsBest(i, nb);
          p := TakeBiggerSmall(i, nb, nsize);
        } else if bins.treemap != {} {
          LargeIsBest(nb);
          p := TmallocSmall(nb, nsize);
          BestFacts(old(bins.binned), MIN_LARGE_SIZE, p);
        } else {
          NothingBinned(nb);
        }
      } else {
        NoSmallFit(nb);
      }
    }

    /** The chunks of a small bin are the smallest that are big enough when all bins between
        are empty. */
    lemma SmallIsBest(i: nat, nb: nat)
      requires bins.Valid() && nb % 8 == 0 && nb / 8 <= i
        && (forall j :: j in bins.smallmap && nb / 8 <= j ==> i <= j)
      ensures forall c :: c in bins.binned && bins.binned[c] >= nb && bins.binned[c] < MIN_LARGE_SIZE ==>
          8 * i <= bins.binned[c]
      ensures i in bins.smallmap ==> i < 32
    {
      hide Ok;
      if i in bins.smallmap { SmallBitsInRange(bins.S(), i); }
      forall c | c in bins.binned && bins.binned[c] >= nb && bins.binned[c] < MIN_LARGE_SIZE
        ensures 8 * i <= bins.binned[c]
      {
        SmallBit(bins.S(), c);
      }
    }

    /** With no small chunk that is big enough only large ones are. */
    lemma LargeIsBest(nb: nat)
      requires bins.Valid() && nb % 8 == 0 && !(exists i :: i in bins.smallmap && nb / 8 <= i)
      ensures forall c :: c in bins.binned && bins.binned[c] >= nb ==> bins.binned[c] >= MIN_LARGE_SIZE
    {
      hide Ok;
      forall c | c in bins.binned && bins.binned[c] >= nb
        ensures bins.binned[c] >= MIN_LARGE_SIZE
      {
        if bins.binned[c] < MIN_LARGE_SIZE { SmallBit(bins.S(), c); }
      }
    }

    /** No chunk fits without remainder. */
    lemma NoSmallFit(nb: nat)
      requires bins.Valid() && nb % 8 == 0 && nb / 8 !in bins.smallmap && nb / 8 + 1 !in bins.smallmap
      ensures forall c :: c in bins.binned && nb <= bins.binned[c] <= nb + 8 ==> bins.binned[c] >= MIN_LARGE_SIZE
    {
      hide Ok;
      forall c | c in bins.binned && nb <= bins.binned[c] <= nb + 8
        ensures bins.binned[c] >= MIN_LARGE_SIZE
      {
        if bins.binned[c] < MIN_LARGE_SIZE { SmallBit(bins.S(), c); }
      }
    }

    lemma NothingBinned(nb: nat)
      requires bins.Valid() && nb < MIN_LARGE_SIZE && nb % 8 == 0 && bins.treemap == {}
        && !(exists i :: i in bins.smallmap && nb / 8 <= i)
      ensures forall c :: c in bins.binned ==> bins.binned[c] < nb
    {
      hide Ok;
      forall c | c in bins.binned
        ensures bins.binned[c] < nb
      {
        if bins.binned[c] < MIN_LARGE_SIZE { SmallBit(bins.S(), c); } else { LargeBit(bins.S(), c); }
      }
    }

    /** lj_alloc_malloc: a block of at least the requested size, or none when the heap has
        no free chunk that is big enough and the system, which was asked, gives no memory. */
    method Malloc(nsize: nat) returns (mem: int)
      requires Valid() && nsize < WORD
      modifies this, bins, sys
      ensures Valid()
      ensures mem != 0 ==> mem > TWO_WORDS && Gives(old(W()), W(), mem - TWO_WORDS, nsize)
      ensures mem != 0 && nsize < MAX_REQUEST ==> Places(old(W()), W(), RequestToSize(nsize), mem - TWO_WORDS)
      ensures mem == 0 ==>
          Moves(old(W()), W()) && sys.pages == old(sys.pages)
          && (nsize >= MAX_REQUEST || NoRoom(old(W()), RequestToSize(nsize)))
      ensures mem == 0 && nsize + 3 * GRANULARITY < WORD ==> sys.calls > old(sys.calls)
    {
      hide InOrder, Moves, Gives, Ok, NoneFits, RequestToSize, FromBins, FromVictim, FromTop;
      MovesItself();
      mem := 0;
      if nsize >= MAX_REQUEST {
        mem := AllocSys(WORD - 1, nsize);
      } else {
        PadsEnough(nsize);
        var nb := RequestToSize(nsize);
        var p := MallocBinned(nb, nsize);
        if p == 0 && nb <= dvsize {
          p := TakeVictim(nb, nsize);
        } else if p == 0 && nb < topsize {
          p := SplitTop(nb, nsize);
        }
        if p != 0 {
          mem := p + TWO_WORDS;
        } else {
          mem := AllocSys(nb, nsize);
        }
      }
    }

    /** The bins are tried first. */
    method MallocBinned(nb: nat, nsize: nat) returns (p: int)
      requires Valid() && MIN_CHUNK_SIZE <= nb < WORD && nb % 8 == 0 && nb - CHUNK_OVERHEAD >= nsize
      modifies this`head, this`foot, this`loose, this`live, this`dv, this`dvsize, bins
      ensures Valid()
      ensures if p == 0 then W() == old(W()) && !BinsServe(W(), nb)
        else p > 0 && Gives(old(W()), W(), p, nsize) && BinsServe(old(W()), nb) && FromBins(old(W()), W(), nb, p)
    {
      hide InOrder, Gives, Ok, IsBest;
      p := 0;
      if nb < MIN_LARGE_SIZE {
        p := MallocSmall(nb, nsize);
      } else if bins.treemap != {} {
        p := TmallocLarge(nb, nsize);
        if p == 0 {
          if nb > dvsize { NoneFacts(bins.binned, nb); }
        } else {
          BestFacts(old(bins.binned), nb, p);
        }
      } else {
        forall c | c in bins.binned ensures bins.binned[c] < nb {
          if bins.binned[c] >= MIN_LARGE_SIZE { LargeBit(bins.S(), c); }
        }
      }
    }

    // ----- realloc

    /** Realloc leaves the block where it is: it is long enough, or the top chunk behind it
        gives what is missing; a directly mapped block must fit without much waste, or the
        system resizes its region. */
    predicate Stays(p: int, nb: nat)
      reads this`head, this`foot, this`top, this`topsize, sys
    {
      p in head &&
      var oldsize := head[p].size;
      if !head[p].pinuse && p in foot && foot[p].Direct? then
        nb >= MIN_LARGE_SIZE && (nb + CHUNK_OVERHEAD <= oldsize <= nb + GRANULARITY / 2
          || sys.CanRemap(p, oldsize + DIRECT_FOOT_PAD, PageAlign((nb + 55) % WORD)))
      else nb <= oldsize || (p + oldsize == top && nb < oldsize + topsize)
    }

    predicate IsDirect(p: int)
      reads this`head, this`foot
    {
      p in head && !head[p].pinuse && p in foot && foot[p].Direct?
    }

    /** How long the chunk of a block is that realloc leaves in place: a rest that makes a chunk
        is split off, and what is missing comes from the top chunk. */
    twostate predicate Fitted(p: int, nb: nat)
      reads this, bins
    {
      p in old(head) && p in head &&
      var oldsize := old(head)[p].size;
      if nb <= oldsize then head[p].size == if oldsize - nb >= 32 then nb else oldsize
      else
        && p + oldsize == old(top) && head[p].size == nb && top == p + nb
        && topsize == old(topsize) - (nb - oldsize) && bins.binned == old(bins.binned) && segs == old(segs)
    }

    /** What realloc can do without moving the block: keep or shrink it, or grow it into the
        top chunk.  Directly mapped blocks are kept when they fit well (direct_resize). */
    method ReallocInPlace(p: int, nb: nat, nsize: nat) returns (done: bool)
      requires Valid() && p in live && MIN_CHUNK_SIZE <= nb && nb + 55 < WORD && nb % 8 == 0
        && nb - CHUNK_OVERHEAD >= nsize
      modifies this, bins, sys
      ensures Valid()
      ensures if done then Resizes(old(W()), W(), p, p, nsize) else W() == old(W()) && sys.pages == old(sys.pages)
      ensures done == old(Stays(p, nb))
      ensures done && !old(IsDirect(p)) ==> Fitted(p, nb)
    {
      hide InOrder, Moves, Takes, Resizes, Ok;
      ghost var w := W();
      LiveHead(w, segs, sys.pages, leaked, p);
      var oldsize := head[p].size;
      var next := p + oldsize;
      done := false;
      if !head[p].pinuse && foot[p].Direct? {
        if nb >= MIN_LARGE_SIZE {
          if oldsize >= nb + CHUNK_OVERHEAD && oldsize - nb <= GRANULARITY / 2 {
            done := true;
            KeepCall(w, segs, sys.pages, leaked, p, nsize);
            live := live[p := nsize];
          } else {
            done := DirectRemap(p, nb, nsize);
          }
        }
      } else if oldsize >= nb {
        done := true;
        if oldsize - nb >= MIN_CHUNK_SIZE {
          Shrink(p, nb, nsize);
        } else {
          KeepCall(w, segs, sys.pages, leaked, p, nsize);
          live := live[p := nsize];
        }
      } else if next == top && oldsize + topsize > nb {
        done := true;
        GrowCall(w, segs, sys.pages, leaked, p, nb, nsize);
        var newtopsize := oldsize + topsize - nb;
        head := (head - {top})[p := Head(nb, true, head[p].pinuse)];
        top, topsize := p + nb, newtopsize;
        head := head[top := Head(newtopsize, false, true)];
        live := live[p := nsize];
      }
    }

    /** The second part of direct_resize: the system resizes the region in place. */
    method DirectRemap(p: int, nb: nat, nsize: nat) returns (done: bool)
      requires Valid() && p in direct && p in head && MIN_CHUNK_SIZE <= nb && nb + 55 < WORD
        && nb - CHUNK_OVERHEAD >= nsize
      modifies this`head, this`foot, this`lims, this`direct, this`live, this`pinned, this`loose, sys
      ensures Valid()
      ensures done == old(sys.CanRemap(p, head[p].size + DIRECT_FOOT_PAD, PageAlign((nb + 55) % WORD)))
      ensures if done then Resizes(old(W()), W(), p, p, nsize) else W() == old(W()) && sys.pages == old(sys.pages)
    {
      hide InOrder, Takes, Gives, Resizes, Ok, Pages, PageAlign;
      ghost var w, pages := W(), sys.pages;
      DirectFoot(w, segs, pages, leaked, p);
      DirectLive(w, segs, pages, leaked, p);
      RemapRequest(nb);
      var offset := foot[p].offset;
      var oldmmsize := head[p].size + offset + DIRECT_FOOT_PAD;
      var newmmsize := PageAlign((nb + 55) % WORD);
      done := sys.Remap(p - offset, oldmmsize, newmmsize);
      if done {
        var psize: nat := newmmsize - offset - DIRECT_FOOT_PAD;
        UndirectCall(w, segs, pages, leaked, p, true);
        ForgetRegion(p, p + oldmmsize);
        ghost var w1 := W();
        DirectCall(w1, segs, pages - Pages(p, oldmmsize), leaked, p, psize, nsize);
        foot := foot[p := Direct(offset)];
        head := head[p := Head(psize, true, false)];
        lims, direct, live := lims + {p + psize}, direct + {p}, live[p := nsize];
        TakesGives(w, w1, W(), p, nsize);
      }
    }

    /** The tail of a block that shrinks is freed. */
    method Shrink(p: int, nb: nat, nsize: nat)
      requires Valid() && p in live && p !in direct && MIN_CHUNK_SIZE <= nb && nb % 8 == 0
        && nb - CHUNK_OVERHEAD >= nsize
      requires p in head && nb + MIN_CHUNK_SIZE <= head[p].size
      modifies this, bins, sys
      ensures Valid() && Resizes(old(W()), W(), p, p, nsize) && p in head && head[p].size == nb
    {
      hide InOrder, Takes, Resizes, Ok, Kept;
      ghost var w := W();
      ShrinkCall(w, segs, sys.pages, leaked, p, nb, nsize);
      var rsize := head[p].size - nb;
      var rem := p + nb;
      head := head[p := Head(nb, true, head[p].pinuse)];
      head := head[rem := Head(rsize, true, true)];
      live := live[p := nsize][rem := 0];
      ghost var w1 := W();
      FreeBlock(rem);
      ShrinkTakes(w, w1, W(), p, rem, nsize);
    }

    /** lj_alloc_realloc; `copied` bytes go from the old block to the new one. */
    method Realloc(ptr: int, nsize: nat) returns (mem: int, copied: nat)
      requires Valid() && ptr - TWO_WORDS in live && nsize < WORD
      modifies this, bins, sys
      ensures Valid()
      ensures mem != 0 ==> mem > TWO_WORDS && Resizes(old(W()), W(), ptr - TWO_WORDS, mem - TWO_WORDS, nsize)
      ensures mem == 0 ==> Moves(old(W()), W()) && (nsize >= MAX_REQUEST || NoRoom(old(W()), RequestToSize(nsize)))
      ensures nsize < MAX_REQUEST ==> (mem == ptr <==> old(Stays(ptr - TWO_WORDS, RequestToSize(nsize))))
      ensures nsize < MAX_REQUEST && mem == ptr && !old(IsDirect(ptr - TWO_WORDS)) ==>
          Fitted(ptr - TWO_WORDS, RequestToSize(nsize))
      ensures mem != ptr && mem != 0 ==> (old(live)[ptr - TWO_WORDS] <= copied || copied == nsize) && copied <= nsize
      ensures mem != ptr && mem != 0 ==> AllCopied(ptr - TWO_WORDS, nsize, copied)
    {
      hide InOrder, Moves, Takes, Gives, Resizes, Ok, NoRoom, RequestToSize, Stays;
      MovesItself();
      var p := ptr - TWO_WORDS;
      BlockFacts(W(), segs, sys.pages, leaked, p);
      mem, copied := 0, 0;
      if nsize < MAX_REQUEST {
        PadsEnough(nsize);
        var done := ReallocInPlace(p, RequestToSize(nsize), nsize);
        if done {
          mem := ptr;
        } else {
          mem, copied := ReallocMove(ptr, nsize);
        }
      }
    }

    /** lj_alloc_f, the allocation function that Lua calls; `copied` bytes go from the old
        block to a new one. */
    method AllocF(ptr: int, nsize: nat) returns (mem: int, copied: nat)
      requires Valid() && (ptr != 0 ==> ptr - TWO_WORDS in live) && nsize < WORD
      modifies this, bins, sys
      ensures Valid()
      ensures nsize == 0 ==> mem == 0
      ensures nsize == 0 ==> if ptr == 0 then W() == old(W()) else Takes(old(W()), W(), ptr - TWO_WORDS)
      ensures nsize > 0 && mem != 0 ==> mem > TWO_WORDS
      ensures nsize > 0 && mem != 0 && ptr == 0 ==> Gives(old(W()), W(), mem - TWO_WORDS, nsize)
      ensures nsize > 0 && mem != 0 && ptr != 0 ==> Resizes(old(W()), W(), ptr - TWO_WORDS, mem - TWO_WORDS, nsize)
      ensures nsize > 0 && mem == 0 ==>
          Moves(old(W()), W()) && (nsize >= MAX_REQUEST || NoRoom(old(W()), RequestToSize(nsize)))
      ensures 0 < nsize < MAX_REQUEST && ptr != 0 ==>
          (mem == ptr <==> old(Stays(ptr - TWO_WORDS, RequestToSize(nsize))))
      ensures nsize > 0 && ptr != 0 && mem != ptr && mem != 0 ==>
        (old(live)[ptr - TWO_WORDS] <= copied || copied == nsize) && copied <= nsize
      ensures 0 < nsize < MAX_REQUEST && ptr == 0 && mem != 0 ==>
          Places(old(W()), W(), RequestToSize(nsize), mem - TWO_WORDS)
      ensures nsize == 0 && ptr != 0 && ptr - TWO_WORDS !in old(direct) ==> Placed(ptr - TWO_WORDS)
      ensures nsize > 0 && ptr != 0 && mem != ptr && mem != 0 ==> AllCopied(ptr - TWO_WORDS, nsize, copied)
      ensures 0 < nsize < MAX_REQUEST && ptr != 0 && mem == ptr && !old(IsDirect(ptr - TWO_WORDS)) ==>
          Fitted(ptr - TWO_WORDS, RequestToSize(nsize))
    {
      hide InOrder, Moves, Takes, Gives, Resizes, Ok, NoRoom, RequestToSize, Stays, Places;
      mem, copied := 0, 0;
      if nsize == 0 {
        Free(ptr);
      } else if ptr == 0 {
        mem := Malloc(nsize);
      } else {
        mem, copied := Realloc(ptr, nsize);
      }
    }

    /** As many bytes are copied as the old block has room for, or the new one was asked for. */
    twostate predicate AllCopied(p: int, nsize: nat, copied: nat)
      reads this
    {
      p in old(head) &&
      var room := old(head)[p].size - (if old(IsDirect(p)) then 16 else 8);
      copied == if room < nsize then room else nsize
    }

    /** malloc, copy, free. */
    method ReallocMove(ptr: int, nsize: nat) returns (mem: int, copied: nat)
      requires Valid() && ptr - TWO_WORDS in live && nsize < MAX_REQUEST
      modifies this, bins, sys
      ensures Valid()
      ensures mem != 0 ==>
          mem > TWO_WORDS && mem != ptr && Resizes(old(W()), W(), ptr - TWO_WORDS, mem - TWO_WORDS, nsize)
      ensures mem == 0 ==> Moves(old(W()), W()) && NoRoom(old(W()), RequestToSize(nsize))
      ensures mem != 0 ==> (old(live)[ptr - TWO_WORDS] <= copied || copied == nsize) && copied <= nsize
      ensures mem != 0 ==> AllCopied(ptr - TWO_WORDS, nsize, copied)
    {
      hide InOrder, Moves, Takes, Gives, Resizes, Ok, NoRoom, RequestToSize;
      ghost var w := W();
      var p := ptr - TWO_WORDS;
      BlockFacts(w, segs, sys.pages, leaked, p);
      LiveHead(w, segs, sys.pages, leaked, p);
      var oc := head[p].size - (if !head[p].pinuse && foot[p].Direct? then DIRECT_CHUNK_OVERHEAD else CHUNK_OVERHEAD);
      copied := 0;
      mem := Malloc(nsize);
      if mem != 0 {
        copied := if oc < nsize then oc else nsize;
        GivesLive(w, W(), mem - TWO_WORDS, nsize);
        ghost var w1 := W();
        Free(ptr);
        GivesTakes(w, w1, W(), p, mem - TWO_WORDS, nsize);
      }
    }
  }

  // ----- what the invariant means for the blocks

  predicate Disjoint(lo: int, n: nat, lo': int, n': nat) {
    lo + n <= lo' || lo' + n' <= lo
  }

  /** Blocks handed out never overlap, and lie in pages the system has given. */
  lemma BlocksApart(m: MState, p: int, q: int)
    requires m.Valid() && p in m.live && q in m.live && p != q
    ensures Disjoint(p + TWO_WORDS, m.live[p], q + TWO_WORDS, m.live[q])
  {
    hide InOrder, Ok;
    if p < q {
      BlockBefore(m.W(), m.segs, m.sys.pages, m.leaked, p, q);
    } else { BlockBefore(m.W(), m.segs, m.sys.pages, m.leaked, q, p); }
  }

  /** A block keeps clear of the allocator's own data: of the header of every chunk, and of
      the links inside a free chunk and the size behind it, and of what the allocator keeps
      in chunks of its own (malloc_state, segment records). */
  lemma BlockClear(m: MState, p: int, c: int)
    requires m.Valid() && p in m.live && c in m.head
    ensures Disjoint(p + TWO_WORDS, m.live[p], c + 8, 8)
    ensures !m.head[c].cinuse || c in m.pinned ==> Disjoint(p + TWO_WORDS, m.live[p], c + 8, m.head[c].size)
  {
    hide Books, Mapped, Holds, Tiles, Truthful, Ok;
    var w := m.W();
    HeapParts(w, m.segs);
    BlockFacts(w, m.segs, m.sys.pages, m.leaked, p);
    ListedAt(w, p);
    KindAt(w, p);
    ChunkAt(w.tags, p);
    ChunkAt(w.tags, c);
    if p < c { PairAt(w.tags, p, c); } else if c < p { PairAt(w.tags, c, p); }
  }

  lemma BlockBefore(w: World, segs: seq<Seg>, pages: set<int>, leaked: set<int>, p: int, q: int)
    requires InOrder(w, segs, pages, leaked) && p in w.live && q in w.live && p < q
    ensures p + TWO_WORDS + w.live[p] <= q + TWO_WORDS
  {
    hide Books, Mapped, Holds, Tiles, Truthful;
    HeapParts(w, segs);
    BlockFacts(w, segs, pages, leaked, p);
    BlockFacts(w, segs, pages, leaked, q);
    PairAt(w.tags, p, q);
  }

  /** Every byte of a block lies in a page that the system has mapped and not taken back. */
  lemma BlockMapped(m: MState, p: int, x: int)
    requires m.Valid() && p in m.live && p + TWO_WORDS <= x < p + TWO_WORDS + m.live[p]
    ensures x / PAGE in m.sys.pages
  {
    hide Books, Mapped, Tiles, Truthful, Ok;
    var w := m.W();
    HeapParts(w, m.segs);
    BlockFacts(w, m.segs, m.sys.pages, m.leaked, p);
    ChunkAt(w.tags, p);
    if p in w.tags.direct {
      DirectPage(w.tags, m.segs, p, x);
    } else {
      var k := OwnerAt(w.tags, w.pinned, m.segs, p);
      SegAt(w.tags, w.pinned, m.segs, k);
      SegPage(w.tags, m.segs, k, x);
    }
  }

  lemma DirectPage(t: Tags, segs: seq<Seg>, d: int, x: int)
    requires Aligned(t, segs) && d in t.direct && d in t.head && d <= x < Next(t, d) + DIRECT_FOOT_PAD
    ensures DirectUses(t, x / PAGE)
  {
    assert InPages(d, t.head[d].size + DIRECT_FOOT_PAD, x / PAGE);
  }

  lemma SegPage(t: Tags, segs: seq<Seg>, k: nat, x: int)
    requires Aligned(t, segs) && k < |segs| && segs[k].base <= x < End(segs[k])
    ensures SegUses(segs, x / PAGE)
  {
    assert InPages(segs[k].base, segs[k].size, x / PAGE);
  }

  /** Chunks tile each segment: every address before its overhead area is in exactly one. */
  lemma Tiling(m: MState, k: nat, x: int) returns (c: int)
    requires m.Valid() && k < |m.segs| && m.segs[k].base <= x < m.segs[k].lim
    ensures c in m.head && m.segs[k].base <= c <= x < c + m.head[c].size <= m.segs[k].lim
    ensures forall d :: d in m.head && d <= x < d + m.head[d].size ==> d == c
  {
    hide Books, Mapped, Tiles, Truthful, Ok, Holds, TopOk, Listed, IsRecord;
    var w := m.W();
    HeapParts(w, m.segs);
    SegAt(w.tags, w.pinned, m.segs, k);
    c := WalkTo(w.tags, w.pinned, m.segs, k, x);
    forall d | d in m.head && d <= x < d + m.head[d].size
      ensures d == c
    {
      if d < c { PairAt(w.tags, d, c); } else if c < d { PairAt(w.tags, c, d); }
    }
  }

  /** The walk from the base of a segment over next chunks comes to every address. */
  lemma WalkTo(t: Tags, pinned: set<int>, segs: seq<Seg>, k: nat, x: int) returns (c: int)
    requires Mapped(t, pinned, segs) && Tiles(t) && k < |segs| && segs[k].base in t.head
      && segs[k].base <= x < segs[k].lim
    ensures c in t.head && segs[k].base <= c <= x < Next(t, c) <= segs[k].lim
  {
    hide Mapped, Tiles;
    c := segs[k].base;
    WalkFrom(t, pinned, segs, k, c, x);
    while Next(t, c) <= x
      invariant c in t.head && segs[k].base <= c <= x && Next(t, c) <= segs[k].lim
      decreases x - c
    {
      WalkFrom(t, pinned, segs, k, c, x);
      c := Next(t, c);
      WalkFrom(t, pinned, segs, k, c, x);
    }
  }

  /** From a chunk of a segment the walk over next chunks stays in the segment. */
  lemma WalkFrom(t: Tags, pinned: set<int>, segs: seq<Seg>, k: nat, c: int, x: int)
    requires Mapped(t, pinned, segs) && Tiles(t) && k < |segs| && c in t.head && segs[k].base <= c <= x < segs[k].lim
    ensures t.head[c].size > 0 && Next(t, c) <= segs[k].lim && c !in t.direct
    ensures Next(t, c) <= x ==> Next(t, c) in t.head
  {
    hide Mapped, Tiles;
    SegAt(t, pinned, segs, k);
    ChunkAt(t, c);
    PairAt(t, c, segs[k].lim);
    BaseIsFirst(t, pinned, segs, c, k);
    if Next(t, c) in t.lims { WalkLim(t, pinned, segs, k, Next(t, c)); }
  }

  /** A segment has no limit but its own. */
  lemma WalkLim(t: Tags, pinned: set<int>, segs: seq<Seg>, k: nat, e: int)
    requires Mapped(t, pinned, segs) && k < |segs| && e in t.lims
    ensures !(segs[k].base < e < segs[k].lim)
  {
    hide Mapped;
    SegAt(t, pinned, segs, k);
    LimAt(t, pinned, segs, e);
    if j :| 0 <= j < |segs| && segs[j].lim == e {
      SegAt(t, pinned, segs, j);
      if j != k { ApartAt(t, pinned, segs, j, k); }
    } else {
      var d :| d in t.direct && d in t.head && Next(t, d) == e;
      DirectOkAt(t, pinned, segs, d);
      DirectApart(t, segs, d, k);
    }
  }

  lemma DirectApart(t: Tags, segs: seq<Seg>, d: int, k: nat)
    requires DirectOk(t, segs, d) && k < |segs|
    ensures Apart(segs[k].base, End(segs[k]), d, Next(t, d) + DIRECT_FOOT_PAD)
  {
  }

  /** Every free chunk is exactly one of top chunk, designated victim and binned chunk; its
      neighbours are in use, and its size is known behind it. */
  lemma FreeChunks(m: MState, c: int)
    requires m.Valid() && c in m.head && !m.head[c].cinuse
    ensures c == m.top || c == m.dv || c in m.bins.binned
    ensures c == m.top ==> c != m.dv && c !in m.bins.binned && m.head[c].size == m.topsize
    ensures c == m.dv ==> c !in m.bins.binned && m.head[c].size == m.dvsize
    ensures c in m.bins.binned ==> m.bins.binned[c] == m.head[c].size
    ensures m.head[c].pinuse && c !in m.live && c !in m.pinned
    ensures c != m.top ==>
        var n := c + m.head[c].size;
        n in m.head && m.head[n].cinuse && !m.head[n].pinuse && n in m.foot && m.foot[n] == PrevSize(m.head[c].size)
  {
    hide Books, Mapped, Tiles, Truthful, Ok, Holds;
    var w := m.W();
    HeapParts(w, m.segs);
    KindAt(w, c);
    FreePinuse(w.tags, c);
    if c != m.top { AfterAt(w.tags, c); }
  }

  // ----- runs

  /** What a program may ask of the allocator. */
  datatype Request = DoMalloc(n: nat) | DoFree(ptr: int) | DoRealloc(ptr: int, n: nat)

  /** lj_alloc_create: the first region, if the system has one. */
  method Create(sys: System) returns (m: MState?)
    requires sys.pages == {}
    modifies sys
    ensures m != null ==> fresh(m) && fresh(m.bins) && m.sys == sys && m.Valid() && m.live == map[]
  {
    hide InOrder, Ok, Pages;
    m := null;
    var tbase := sys.Map(GRANULARITY);
    if tbase != MFAIL {
      m := new MState(sys, tbase);
    }
  }

  /** The program's own list of its blocks agrees with the allocator's. */
  ghost predicate Agree(m: MState, held: map<int, nat>)
    reads m
  {
    && (forall h :: h in held ==> h - TWO_WORDS in m.live && m.live[h - TWO_WORDS] == held[h])
    && (forall p :: p in m.live ==> p + TWO_WORDS in held)
  }

  /** Over every run the heap stays in order and each block stays what the program was
      given; what the program does not hold it does not pass to free or realloc. */
  method Run(sys: System, requests: seq<Request>) returns (m: MState?, held: map<int, nat>)
    requires sys.pages == {}
    modifies sys
    ensures m != null ==> m.Valid() && Agree(m, held)
  {
    hide InOrder, Ok, Moves, Gives, Takes, Resizes, NoRoom;
    m := Create(sys);
    held := map[];
    if m == null { return; }
    for i := 0 to |requests|
      invariant m.sys == sys && fresh(m) && fresh(m.bins)
      invariant m.Valid() && Agree(m, held)
    {
      held := Serve(m, requests[i], held);
    }
  }

  method Serve(m: MState, request: Request, held0: map<int, nat>) returns (held: map<int, nat>)
    requires m.Valid() && Agree(m, held0)
    modifies m, m.bins, m.sys
    ensures m.Valid() && Agree(m, held)
  {
    hide InOrder, Ok, Moves, Gives, Takes, Resizes, NoRoom, Places, RequestToSize, FreeStart, FreeEnd, Extra, Next;
    held := held0;
    ghost var w := m.W();
    match request
    case DoMalloc(n) =>
      if n < WORD {
        var mem := m.Malloc(n);
        LiveAfter(w, m.W(), 0, mem - TWO_WORDS, n);
        if mem != 0 { held := held[mem := n]; }
      }
    case DoFree(ptr) =>
      if ptr in held {
        HeldFacts(m, held, ptr);
        m.Free(ptr);
        LiveAfter(w, m.W(), ptr - TWO_WORDS, 0, 0);
        held := held - {ptr};
      }
    case DoRealloc(ptr, n) =>
      if ptr in held && n < WORD {
        var mem, _ := m.Realloc(ptr, n);
        LiveAfter(w, m.W(), ptr - TWO_WORDS, mem - TWO_WORDS, n);
        if mem != 0 { held := (held - {ptr})[mem := n]; }
      }
  }

  lemma HeldFacts(m: MState, held: map<int, nat>, ptr: int)
    requires m.Valid() && Agree(m, held) && ptr in held
    ensures ptr > TWO_WORDS
  {
    hide InOrder, Ok;
    BlockFacts(m.W(), m.segs, m.sys.pages, m.leaked, ptr - TWO_WORDS);
  }

  lemma LiveAfter(w: World, w': World, p: int, q: int, n: nat)
    ensures Moves(w, w') ==> w'.live == w.live
    ensures Gives(w, w', q, n) ==> w'.live == w.live[q := n]
    ensures Takes(w, w', p) ==> w'.live == w.live - {p}
    ensures Resizes(w, w', p, q, n) ==> w'.live == (w.live - {p})[q := n]
  {
  }

  lemma GivesLive(w: World, w': World, p: int, nsize: nat)
    requires Gives(w, w', p, nsize)
    ensures w'.live == w.live[p := nsize] && p !in w.live
  {
  }

  /** A block handed out is aligned, and its chunk holds what was asked for. */
  lemma BlockFacts(w: World, segs: seq<Seg>, pages: set<int>, leaked: set<int>, p: int)
    requires InOrder(w, segs, pages, leaked) && p in w.live
    ensures p in w.tags.head && p > 0 && p % 8 == 0 && 0 !in w.live
    ensures w.tags.head[p].size >= w.live[p] + (if p in w.tags.direct then DIRECT_CHUNK_OVERHEAD else CHUNK_OVERHEAD)
    ensures p !in w.tags.direct ==> w.tags.head[p].size >= MIN_CHUNK_SIZE
  {
    hide Books, Mapped, Holds, Tiles, Truthful;
    HeapParts(w, segs);
    ListedAt(w, p);
    KindAt(w, p);
    ChunkAt(w.tags, p);
    LivePositive(w);
  }

  /** Unmapping one segment leaves the first chunks of the others. */
  lemma OtherSegment(w: World, segs: seq<Seg>, pages: set<int>, leaked: set<int>, k: nat, j: nat)
    requires InOrder(w, segs, pages, leaked) && k < |segs| && j < |segs| && j != k
    ensures !(segs[k].base <= segs[j].base < End(segs[k]))
  {
    hide Books, Mapped, Tiles, Truthful, Holds;
    HeapParts(w, segs);
    SegSize(w.tags, w.pinned, segs, j);
    SegSize(w.tags, w.pinned, segs, k);
    ApartAt(w.tags, w.pinned, segs, j, k);
  }

  /** The top chunk lies in the first segment only. */
  lemma TopSegment(w: World, segs: seq<Seg>, pages: set<int>, leaked: set<int>, k: nat)
    requires InOrder(w, segs, pages, leaked) && k < |segs| && segs[k].base <= w.top < End(segs[k])
    ensures k == 0
  {
    hide Books, Mapped, Holds, Tiles, Truthful;
    SegsThere(w, segs, pages, leaked);
    if k != 0 { ApartAt(w.tags, w.pinned, segs, 0, k); }
  }

  lemma SegsThere(w: World, segs: seq<Seg>, pages: set<int>, leaked: set<int>)
    requires InOrder(w, segs, pages, leaked)
    ensures segs != [] && w.top + w.topsize == segs[0].lim && segs[0].base <= w.top < End(segs[0])
  {
    hide Books, Mapped, Holds, Tiles, Truthful;
    OrderParts(w, segs, pages, leaked);
    TopFacts(w);
    FirstSeg(w, segs);
  }

  lemma MovesLive(w: World, w': World)
    requires Moves(w, w')
    ensures w'.live == w.live
  {
  }

  lemma LiveHead(w: World, segs: seq<Seg>, pages: set<int>, leaked: set<int>, p: int)
    requires InOrder(w, segs, pages, leaked) && p in w.live
    ensures p in w.tags.head && (!w.tags.head[p].pinuse ==> p in w.tags.foot)
    ensures !w.tags.head[p].pinuse && w.tags.foot[p].Direct? <==> p in w.tags.direct
  {
    hide Books, Mapped, Holds, Tiles, Truthful;
    HeapParts(w, segs);
    ListedAt(w, p);
    if p in w.tags.direct { DirectAt(w.tags, p); }
    else if !w.tags.head[p].pinuse { PrevFacts(w, segs, p); }
  }

  lemma DirectLive(w: World, segs: seq<Seg>, pages: set<int>, leaked: set<int>, p: int)
    requires InOrder(w, segs, pages, leaked) && p in w.tags.direct
    ensures p in w.live && 0 !in w.live
  {
    hide Books, Mapped, Holds, Tiles, Truthful;
    HeapParts(w, segs);
    DirectAt(w.tags, p);
    KindAt(w, p);
    LivePositive(w);
  }

  lemma DirectFoot(w: World, segs: seq<Seg>, pages: set<int>, leaked: set<int>, p: int)
    requires InOrder(w, segs, pages, leaked) && p in w.tags.direct
    ensures p in w.tags.head && p in w.tags.foot && w.tags.foot[p] == Direct(0) && p > 0
  {
    hide Books, Mapped, Holds, Tiles, Truthful;
    HeapParts(w, segs);
    DirectAt(w.tags, p);
    SizeBelowLimit(w, segs, p);
  }

  /** The granules of the top chunk that are not needed. */
  function Extra(topsize: nat, pad: nat): (extra: nat)
    requires topsize > pad
    ensures extra % GRANULARITY == 0 && extra < topsize - pad && topsize - pad <= extra + GRANULARITY
  {
    ((topsize - pad + (GRANULARITY - 1)) / GRANULARITY - 1) * GRANULARITY
  }

  lemma PrependCut(w: World, segs: seq<Seg>, pages: set<int>, leaked: set<int>, k: nat, tbase: int, tsize: nat, nb: nat,
                   nsize: nat)
    requires InOrder(w, segs, pages, leaked) && k < |segs| && segs[k].base == tbase + tsize
    requires Granular(tbase, tsize) && Pages(tbase, tsize) !! pages
    requires MIN_CHUNK_SIZE <= nb && nb + TOP_FOOT_SIZE < tsize && nb % 8 == 0 && nb - CHUNK_OVERHEAD >= nsize
    ensures var w' := w.(tags := w.tags.(head := w.tags.head[tbase := Head(nb, true, true)][tbase +
      nb := Head(tsize - nb, true, true)]),
                         live := w.live[tbase := nsize][tbase + nb := 0]);
      && InOrder(w', Grown(segs, k, tsize), pages + Pages(tbase, tsize), leaked)
      && tbase !in w.live && tbase + nb !in w.live && tbase + nb !in w.tags.direct && Kept(w, w', 0) && tbase > 0
  {
    hide Books, Mapped, Holds, Tiles, Truthful, Pages, Granular, Kept, Split;
    GranularFacts(tbase, tsize);
    PrependCall(w, segs, pages, leaked, k, tbase, tsize, nsize);
    var w1, segs' := Prepend(w, tbase, tsize, nsize), Grown(segs, k, tsize);
    CutLiveHeap(w1, segs', tbase, nb, nsize);
    var w2 := CutLive(w1, tbase, nb, nsize);
    StepInOrder(w1, w2, segs', pages + Pages(tbase, tsize), leaked, tbase);
    PrependKept(w, w1, w2, tbase);
    HeapParts(w1, segs');
    NotDirectInside(w1.tags, tbase + nb);
    assert w1.tags.head[tbase := Head(nb, true, true)] == w.tags.head[tbase := Head(nb, true, true)];
    assert w1.live[tbase := nsize] == w.live[tbase := nsize];
  }

  lemma PrependKept(w: World, w1: World, w2: World, p: int)
    requires Kept(w, w1, 0) && Kept(w1, w2, p) && p !in w.live
    ensures Kept(w, w2, 0)
  {
    forall x | x in w.live && x != 0
      ensures KeptAt(w, w2, x)
    {
      assert KeptAt(w, w1, x);
      assert KeptAt(w1, w2, x);
    }
  }

  lemma PrependGives(w: World, w1: World, w2: World, w': World, p: int, nsize: nat, q: int)
    requires p !in w.live && q !in w.live && p != q && w1.live == w.live[p := nsize][q := 0] && Kept(w, w1, 0)
      && Takes(w1, w2, q) && Moves(w2, w')
    ensures Gives(w, w', p, nsize)
  {
    forall x | x in w.live && x != 0
      ensures KeptAt(w, w', x)
    {
      assert KeptAt(w, w1, x);
      assert KeptAt(w1, w2, x);
      assert KeptAt(w2, w', x);
    }
    assert w'.live == w.live[p := nsize];
  }

  lemma PageOffset(mm: int, mmsize: nat)
    requires PageAligned(mm, mmsize)
    ensures AlignOffset(mm + TWO_WORDS) == 0
  {
  }

  lemma TopHead(w: World, segs: seq<Seg>, pages: set<int>, leaked: set<int>)
    requires InOrder(w, segs, pages, leaked)
    ensures w.top in w.tags.head && w.tags.head[w.top].size == w.topsize
      && w.tags.head[w.top] == Head(w.topsize, false, true)
  {
    hide Books, Mapped, Holds;
    TopFacts(w);
    TopPinuse(w);
  }

  /** The headers add_segment writes: the new top chunk, the record, the old top chunk. */
  function SegmentHeads(w: World, tbase: int, n: nat): map<int, Head> {
    var csp := RecordAt(w);
    var h := w.tags.head[tbase := Head(n, false, true)];
    if csp == w.top then h[csp := Head(RECORD_SIZE, true, true)]
    else h[csp := Head(RECORD_SIZE, true, false)][w.top := Head(csp - w.top, false, true)]
  }

  lemma NewTopLoose(w: World, tbase: int, n: nat)
    requires w.top in w.tags.head && w.tags.head[w.top] == Head(w.topsize, false, true) && tbase != w.top
      && w.topsize > 0
    ensures var w' := NewTop(w, tbase, n); var csp := RecordAt(w);
      && w'.topsize == n
      && (csp == w.top ==> w'.loose == w.loose)
      && (csp != w.top ==>
          csp > w.top && w'.loose == w.loose + {w.top} && w.top in w'.tags.head
          && w'.tags.head[w.top].size == csp - w.top)
  {
  }

  lemma NewTopIs(w: World, tbase: int, n: nat, w': World)
    requires w.top in w.tags.head && w.tags.head[w.top] == Head(w.topsize, false, true) && w.topsize > 0
      && tbase != w.top && tbase != RecordAt(w)
    requires var csp := RecordAt(w);
      && w'.tags.head == SegmentHeads(w, tbase, n) && w'.tags.direct == w.tags.direct
      && w'.tags.foot == (if csp == w.top then w.tags.foot else w.tags.foot[csp := PrevSize(csp - w.top)])
      && w'.tags.lims == w.tags.lims - {w.top + w.topsize} + {csp + RECORD_SIZE} + {tbase + n}
      && w'.loose == (if csp == w.top then w.loose else w.loose + {w.top})
      && w'.top == tbase && w'.topsize == n && w'.pinned == w.pinned + {csp}
      && w'.dv == w.dv && w'.dvsize == w.dvsize && w'.binned == w.binned && w'.live == w.live
    ensures w' == NewTop(w, tbase, n)
  {
    var h, h' := SegmentHeads(w, tbase, n), NewTop(w, tbase, n).tags.head;
    assert h.Keys == h'.Keys;
    assert h == h';
    assert w'.tags == NewTop(w, tbase, n).tags;
  }

  lemma NewTopApart(w: World, segs: seq<Seg>, pages: set<int>, leaked: set<int>, tbase: int, tsize: nat)
    requires InOrder(w, segs, pages, leaked) && Granular(tbase, tsize) && Pages(tbase, tsize) !! pages
    ensures w.topsize > 0 && tbase != w.top && tbase != RecordAt(w)
  {
    hide Books, Mapped, Holds, Pages, Fresh;
    OrderParts(w, segs, pages, leaked);
    TopFacts(w);
    FirstSeg(w, segs);
    GranularFacts(tbase, tsize);
    MappedIsFresh(w.tags, w.pinned, segs, pages, leaked, tbase, tsize);
    FreshAt(w.tags, segs, tbase, tbase + tsize, 0);
  }

  /** The unsigned difference that is compared with a remainder. */
  function Slack(dvsize: nat, nb: nat): nat {
    (dvsize - nb) % WORD
  }

  lemma SlackIs(dvsize: nat, nb: nat, rsize: nat)
    requires dvsize < ADDRESS_LIMIT && nb + rsize < ADDRESS_LIMIT
    ensures rsize < Slack(dvsize, nb) <==> nb > dvsize || nb + rsize < dvsize
  {
  }

  lemma BestFacts(binned: map<int, nat>, nb: nat, v: int)
    requires IsBest(binned, nb, v)
    ensures v in binned && binned[v] >= nb && forall c :: c in binned && binned[c] >= nb ==> binned[v] <= binned[c]
  {
  }

  lemma NoneFacts(binned: map<int, nat>, nb: nat)
    requires NoneFits(binned, nb)
    ensures forall c :: c in binned ==> binned[c] < nb
  {
  }

  lemma BinnedFacts(w: World, segs: seq<Seg>, pages: set<int>, leaked: set<int>, c: int)
    requires InOrder(w, segs, pages, leaked) && c in w.binned
    ensures c in w.tags.head && w.tags.head[c].size == w.binned[c] && MIN_CHUNK_SIZE <= w.binned[c] < ADDRESS_LIMIT
      && w.binned[c] % 8 == 0 && c > 0
    ensures w.dvsize < ADDRESS_LIMIT
  {
    hide Books, Mapped, Holds;
    BinnedSize(w, c);
    SizeBelowLimit(w, segs, c);
    DropDvOk(w, segs);
    if w.dv != 0 { SizeBelowLimit(w, segs, w.dv); }
  }
}