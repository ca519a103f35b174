/** Chunk headers and boundary tags (lj_alloc.c:319-397, 560-592).

    A chunk is an address with a header: its size and the two in-use bits, of the
    chunk itself and of the one before it.  The word before the header of a chunk
    holds the size of the previous chunk while that one is free, and marks directly
    mapped chunks. */
module BoundaryTags {
  datatype Head = Head(size: nat, cinuse: bool, pinuse: bool)
  datatype Foot = PrevSize(n: nat) | Direct(offset: nat)

  /** `lims` are the addresses at which the chunks of a segment, or a directly mapped
      chunk, end; `direct` are the directly mapped chunks. */
  datatype Tags = Tags(head: map<int, Head>, foot: map<int, Foot>, lims: set<int>, direct: set<int>)

  function Next(t: Tags, c: int): int
    requires c in t.head
  {
    c + t.head[c].size
  }

  /** Chunks are aligned, do not overlap, and follow one another up to a limit. */
  ghost predicate Tiles(t: Tags) {
    && (forall c :: c in t.head ==> c > 0 && c % 8 == 0 && t.head[c].size % 8 == 0 && t.head[c].size > 0)
    && (forall c, d :: c in t.head && d in t.head && c < d ==> Next(t, c) <= d)
    && (forall c, e :: c in t.head && e in t.lims && c < e ==> Next(t, c) <= e)
    && (forall c :: c in t.head ==> Next(t, c) in t.head || Next(t, c) in t.lims)
    && t.head.Keys !! t.lims
  }

  /** The tags tell the truth: pinuse is cinuse of the previous chunk, the foot of a
      free chunk is its size and leads back to it, and free chunks are not adjacent. */
  ghost predicate Truthful(t: Tags) {
    && (forall c :: c in t.head && Next(t, c) in t.head ==> TrueAfter(t, c))
    && (forall c :: c in t.head && !t.head[c].pinuse && c !in t.direct ==> FreeBefore(t, c))
    && (forall c :: c in t.direct ==> IsDirect(t, c))
  }

  ghost predicate TrueAfter(t: Tags, c: int)
    requires c in t.head && Next(t, c) in t.head
  {
    var n := Next(t, c);
    && n !in t.direct
    && t.head[n].pinuse == t.head[c].cinuse
    && (!t.head[c].cinuse ==> n in t.foot && t.foot[n] == PrevSize(t.head[c].size) && t.head[n].cinuse)
  }

  ghost predicate FreeBefore(t: Tags, c: int) {
    && c in t.foot && t.foot[c].PrevSize?
    && var p := c - t.foot[c].n;
    && p in t.head && Next(t, p) == c && !t.head[p].cinuse
  }

  ghost predicate IsDirect(t: Tags, c: int) {
    && c in t.head && t.head[c].cinuse && !t.head[c].pinuse && Next(t, c) in t.lims
    && c in t.foot && t.foot[c] == Direct(0)
  }

  /** a .. a+n is covered exactly by chunks, none of them directly mapped. */
  ghost predicate IsRun(t: Tags, a: int, n: nat) {
    && a in t.head && n > 0 && n % 8 == 0
    && (a + n in t.head || a + n in t.lims)
    && (forall c :: c in t.head && a <= c < a + n ==> c !in t.direct)
    && (forall e :: e in t.lims ==> !(a < e < a + n))
  }

  /** The run becomes a single chunk; the chunk after it is told. */
  function Merged(t: Tags, a: int, n: nat, cinuse: bool): Tags
    requires a in t.head
  {
    var h := map c | c in t.head && (c <= a || a + n <= c) ::
               if c == a then Head(n, cinuse, t.head[a].pinuse)
               else if c == a + n then t.head[c].(pinuse := cinuse)
               else t.head[c];
    t.(head := h, foot := if cinuse then t.foot else t.foot[a + n := PrevSize(n)])
  }

  // ----- the invariants, one chunk at a time

  lemma ChunkAt(t: Tags, c: int)
    requires Tiles(t) && c in t.head
    ensures c > 0 && c % 8 == 0 && t.head[c].size % 8 == 0 && t.head[c].size > 0 && c !in t.lims
    ensures Next(t, c) in t.head || Next(t, c) in t.lims
    ensures Next(t, c) in t.lims ==> Next(t, c) !in t.head
  {
  }

  lemma PairAt(t: Tags, c: int, d: int)
    requires Tiles(t) && c in t.head && (d in t.head || d in t.lims) && c < d
    ensures Next(t, c) <= d
  {
  }

  lemma AfterAt(t: Tags, c: int)
    requires Truthful(t) && c in t.head && Next(t, c) in t.head
    ensures TrueAfter(t, c)
  {
  }

  lemma BeforeAt(t: Tags, c: int)
    requires Truthful(t) && c in t.head && !t.head[c].pinuse && c !in t.direct
    ensures FreeBefore(t, c)
  {
  }

  lemma DirectAt(t: Tags, c: int)
    requires Truthful(t) && c in t.direct
    ensures IsDirect(t, c)
  {
  }

  /** No chunk of the heap lies strictly between the ends of another or of a run. */
  lemma MergedHead(t: Tags, a: int, n: nat, cinuse: bool, c: int)
    requires a in t.head && n > 0
    ensures c in Merged(t, a, n, cinuse).head <==> c in t.head && (c <= a || a + n <= c)
    ensures c in t.head && (c <= a || a + n <= c) ==>
      Merged(t, a, n, cinuse).head[c] ==
        if c == a then Head(n, cinuse, t.head[a].pinuse)
        else if c == a + n then t.head[c].(pinuse := cinuse)
        else t.head[c]
  {
  }

  lemma MergedNext(t: Tags, a: int, n: nat, cinuse: bool, c: int)
    requires Tiles(t) && IsRun(t, a, n) && c in Merged(t, a, n, cinuse).head
    ensures var t' := Merged(t, a, n, cinuse);
      && Next(t', c) == (if c == a then a + n else Next(t, c))
      && (Next(t', c) in t'.head || Next(t', c) in t'.lims)
      && (Next(t', c) in t'.head ==> Next(t', c) in t.head)
      && (c != a ==> Next(t, c) <= a || a + n < Next(t, c))
  {
    hide Tiles;
    ChunkAt(t, c);
    ChunkAt(t, a);
    if c != a {
      var d := Next(t, c);
      if c < a {
        PairAt(t, c, a);
      }
      MergedHead(t, a, n, cinuse, d);
    } else {
      MergedHead(t, a, n, cinuse, a + n);
    }
  }

  lemma MergedPair(t: Tags, a: int, n: nat, cinuse: bool, c: int, d: int)
    requires Tiles(t) && IsRun(t, a, n)
    requires var t' := Merged(t, a, n, cinuse); c in t'.head && (d in t'.head || d in t'.lims) && c < d
    ensures Next(Merged(t, a, n, cinuse), c) <= d
  {
    MergedNext(t, a, n, cinuse, c);
    MergedHead(t, a, n, cinuse, d);
    PairAt(t, c, d);
  }

  lemma MergedTiles(t: Tags, a: int, n: nat, cinuse: bool)
    requires Tiles(t) && IsRun(t, a, n)
    ensures Tiles(Merged(t, a, n, cinuse))
  {
    var t' := Merged(t, a, n, cinuse);
    forall c | c in t'.head
      ensures c > 0 && c % 8 == 0 && t'.head[c].size % 8 == 0 && t'.head[c].size > 0 && c !in t'.lims
      ensures Next(t', c) in t'.head || Next(t', c) in t'.lims
    {
      ChunkAt(t, c);
      MergedNext(t, a, n, cinuse, c);
    }
    forall c, d | c in t'.head && d in t'.head && c < d
      ensures Next(t', c) <= d
    {
      MergedPair(t, a, n, cinuse, c, d);
    }
    forall c, e | c in t'.head && e in t'.lims && c < e
      ensures Next(t', c) <= e
    {
      MergedPair(t, a, n, cinuse, c, e);
    }
    hide Next, Merged;
  }

  lemma MergedTruthful(t: Tags, a: int, n: nat, cinuse: bool)
    requires Tiles(t) && Truthful(t) && IsRun(t, a, n)
    requires cinuse || (t.head[a].pinuse && (a + n in t.head ==> t.head[a + n].cinuse))
    ensures Truthful(Merged(t, a, n, cinuse))
  {
    var t' := Merged(t, a, n, cinuse);
    AfterRun(t, a, n);
    forall c | c in t'.head && Next(t', c) in t'.head
      ensures TrueAfter(t', c)
    {
      MergedAfter(t, a, n, cinuse, c);
    }
    forall c | c in t'.head && !t'.head[c].pinuse && c !in t'.direct
      ensures FreeBefore(t', c)
    {
      MergedBefore(t, a, n, cinuse, c);
    }
    forall c | c in t'.direct
      ensures IsDirect(t', c)
    {
      MergedDirect(t, a, n, cinuse, c);
    }
  }

  lemma MergedAfter(t: Tags, a: int, n: nat, cinuse: bool, c: int)
    requires Tiles(t) && Truthful(t) && IsRun(t, a, n) && a + n !in t.direct
    requires cinuse || (t.head[a].pinuse && (a + n in t.head ==> t.head[a + n].cinuse))
    requires c in Merged(t, a, n, cinuse).head && Next(Merged(t, a, n, cinuse), c) in Merged(t, a, n, cinuse).head
    ensures TrueAfter(Merged(t, a, n, cinuse), c)
  {
    var t' := Merged(t, a, n, cinuse);
    MergedNext(t, a, n, cinuse, c);
    MergedHead(t, a, n, cinuse, c);
    MergedHead(t, a, n, cinuse, Next(t', c));
    hide Tiles, Truthful;
    if c != a {
      AfterAt(t, c);
    }
  }

  lemma MergedBefore(t: Tags, a: int, n: nat, cinuse: bool, c: int)
    requires Tiles(t) && Truthful(t) && IsRun(t, a, n) && a + n !in t.direct
    requires cinuse || (t.head[a].pinuse && (a + n in t.head ==> t.head[a + n].cinuse))
    requires var t' := Merged(t, a, n, cinuse); c in t'.head && !t'.head[c].pinuse && c !in t'.direct
    ensures FreeBefore(Merged(t, a, n, cinuse), c)
  {
    var t' := Merged(t, a, n, cinuse);
    MergedHead(t, a, n, cinuse, c);
    MergedFoot(t, a, n, cinuse, c);
    RunPositive(t, a, n);
    hide Tiles, Truthful, Merged, IsRun;
    if c == a + n {
      MergedHead(t, a, n, cinuse, a);
      MergedNext(t, a, n, cinuse, a);
    } else {
      MergedBeforeOther(t, a, n, cinuse, c);
    }
  }

  lemma MergedBeforeOther(t: Tags, a: int, n: nat, cinuse: bool, c: int)
    requires Tiles(t) && Truthful(t) && IsRun(t, a, n)
    requires c in t.head && !t.head[c].pinuse && c !in t.direct && (c <= a || a + n < c)
    ensures FreeBefore(Merged(t, a, n, cinuse), c)
  {
    BeforeAt(t, c);
    RunPositive(t, a, n);
    MergedFoot(t, a, n, cinuse, c);
    var p := c - t.foot[c].n;
    hide Tiles, Truthful, Merged, IsRun;
    ChunkAt(t, p);
    if a <= p < a + n {
      PairAt(t, p, a + n);
    }
    MergedHead(t, a, n, cinuse, p);
    MergedNext(t, a, n, cinuse, p);
  }

  lemma RunPositive(t: Tags, a: int, n: nat)
    requires IsRun(t, a, n)
    ensures a in t.head && n > 0 && (a + n in t.head || a + n in t.lims)
  {
  }

  lemma MergedDirect(t: Tags, a: int, n: nat, cinuse: bool, c: int)
    requires Tiles(t) && Truthful(t) && IsRun(t, a, n) && a + n !in t.direct && c in t.direct
    ensures IsDirect(Merged(t, a, n, cinuse), c)
  {
    hide Tiles, Truthful, Merged, IsRun;
    DirectAt(t, c);
    RunPositive(t, a, n);
    RunExcludes(t, a, n, c);
    MergedHead(t, a, n, cinuse, c);
    MergedFoot(t, a, n, cinuse, c);
    MergedNext(t, a, n, cinuse, c);
  }

  lemma RunExcludes(t: Tags, a: int, n: nat, c: int)
    requires IsRun(t, a, n) && c in t.direct && c in t.head
    ensures c < a || a + n <= c
  {
  }

  lemma MergedFoot(t: Tags, a: int, n: nat, cinuse: bool, c: int)
    requires a in t.head
    ensures var t' := Merged(t, a, n, cinuse);
      && t'.lims == t.lims && t'.direct == t.direct
      && (c != a + n || cinuse ==> (c in t'.foot <==> c in t.foot) && (c in t.foot ==> t'.foot[c] == t.foot[c]))
      && (c == a + n && !cinuse ==> c in t'.foot && t'.foot[c] == PrevSize(n))
  {
  }

  /** The chunk after a run has a predecessor in it, so it is not directly mapped. */
  lemma AfterRun(t: Tags, a: int, n: nat)
    requires Tiles(t) && Truthful(t) && IsRun(t, a, n)
    ensures a + n !in t.direct
  {
    if a + n in t.direct {
      DirectAt(t, a + n);
      LastOfRun(t, a, n, a);
    }
  }

  /** Some chunk of a run that starts anywhere in it ends where the run ends; if a chunk
      follows, it is not directly mapped. */
  lemma {:induction false} LastOfRun(t: Tags, a: int, n: nat, c: int)
    requires Tiles(t) && Truthful(t) && IsRun(t, a, n) && c in t.head && a <= c < a + n && a + n in t.head
    ensures a + n !in t.direct
    decreases a + n - c
  {
    hide Tiles, Truthful;
    ChunkAt(t, c);
    PairAt(t, c, a + n);
    if Next(t, c) == a + n {
      AfterAt(t, c);
    } else {
      RunStep(t, a, n, c);
      LastOfRun(t, a, n, Next(t, c));
    }
  }

  lemma RunStep(t: Tags, a: int, n: nat, c: int)
    requires Tiles(t) && IsRun(t, a, n) && c in t.head && a <= c < a + n && Next(t, c) < a + n
    ensures Next(t, c) in t.head
  {
  }

  /** A chunk is cut in two, the first part in use. */
  function Split(t: Tags, a: int, nb: nat, cinuse: bool): Tags
    requires a in t.head && nb < t.head[a].size
  {
    var n, b := t.head[a].size, a + nb;
    var h := t.head[a := Head(nb, true, t.head[a].pinuse)][b := Head(n - nb, cinuse, true)];
    t.(head := if a + n in t.head then h[a + n := t.head[a + n].(pinuse := cinuse)] else h,
       foot := if cinuse then t.foot else t.foot[a + n := PrevSize(n - nb)])
  }

  lemma SplitHead(t: Tags, a: int, nb: nat, cinuse: bool, c: int)
    requires a in t.head && 0 < nb < t.head[a].size
    ensures var t', n := Split(t, a, nb, cinuse), t.head[a].size;
      && (c in t'.head <==> c in t.head || c == a + nb)
      && (c == a ==> t'.head[c] == Head(nb, true, t.head[a].pinuse))
      && (c == a + nb ==> t'.head[c] == Head(n - nb, cinuse, true))
      && (c == a + n && c in t.head ==> t'.head[c] == t.head[c].(pinuse := cinuse))
      && (c in t.head && c != a && c != a + nb && c != a + n ==> t'.head[c] == t.head[c])
      && t'.lims == t.lims && t'.direct == t.direct
      && (c != a + n || cinuse ==> (c in t'.foot <==> c in t.foot) && (c in t.foot ==> t'.foot[c] == t.foot[c]))
      && (c == a + n && !cinuse ==> c in t'.foot && t'.foot[c] == PrevSize(n - nb))
  {
  }

  /** The cut falls strictly inside the chunk. */
  lemma SplitInside(t: Tags, a: int, nb: nat)
    requires Tiles(t) && a in t.head && 0 < nb < t.head[a].size
    ensures a + nb !in t.head && a + nb !in t.lims
  {
    if a + nb in t.head || a + nb in t.lims {
      PairAt(t, a, a + nb);
    }
  }

  lemma SplitNext(t: Tags, a: int, nb: nat, cinuse: bool, c: int)
    requires Tiles(t) && a in t.head && 0 < nb < t.head[a].size && c in Split(t, a, nb, cinuse).head
    ensures var t' := Split(t, a, nb, cinuse);
      && Next(t', c) == (if c == a then a + nb else if c == a + nb then Next(t, a) else Next(t, c))
      && (Next(t', c) in t'.head || Next(t', c) in t'.lims)
      && (c != a && c != a + nb ==> c in t.head && (Next(t, c) <= a || Next(t, a) < Next(t, c)))
  {
    SplitInside(t, a, nb);
    hide Tiles, Split;
    ChunkAt(t, a);
    SplitHead(t, a, nb, cinuse, c);
    SplitHead(t, a, nb, cinuse, a + nb);
    SplitHead(t, a, nb, cinuse, Next(t, a));
    if c != a && c != a + nb {
      ChunkAt(t, c);
      if c < a {
        PairAt(t, c, a);
      } else {
        PairAt(t, a, c);
      }
      SplitHead(t, a, nb, cinuse, Next(t, c));
    }
  }

  lemma SplitTiles(t: Tags, a: int, nb: nat, cinuse: bool)
    requires Tiles(t) && a in t.head && 0 < nb < t.head[a].size && nb % 8 == 0
    ensures Tiles(Split(t, a, nb, cinuse))
  {
    var t' := Split(t, a, nb, cinuse);
    forall c | c in t'.head
      ensures c > 0 && c % 8 == 0 && t'.head[c].size % 8 == 0 && t'.head[c].size > 0 && c !in t'.lims
      ensures Next(t', c) in t'.head || Next(t', c) in t'.lims
    {
      SplitChunk(t, a, nb, cinuse, c);
      SplitNext(t, a, nb, cinuse, c);
    }
    forall c, d | c in t'.head && d in t'.head && c < d
      ensures Next(t', c) <= d
    {
      SplitPair(t, a, nb, cinuse, c, d);
    }
    forall c, e | c in t'.head && e in t'.lims && c < e
      ensures Next(t', c) <= e
    {
      SplitPair(t, a, nb, cinuse, c, e);
    }
    hide Next, Split;
  }

  lemma SplitChunk(t: Tags, a: int, nb: nat, cinuse: bool, c: int)
    requires Tiles(t) && a in t.head && 0 < nb < t.head[a].size && nb % 8 == 0 && c in Split(t, a, nb, cinuse).head
    ensures var t' := Split(t, a, nb, cinuse);
      c > 0 && c % 8 == 0 && t'.head[c].size % 8 == 0 && t'.head[c].size > 0 && c !in t'.lims
  {
    SplitInside(t, a, nb);
    hide Tiles, Split;
    ChunkAt(t, a);
    SplitHead(t, a, nb, cinuse, c);
    if c != a + nb {
      ChunkAt(t, c);
    }
  }

  lemma SplitPair(t: Tags, a: int, nb: nat, cinuse: bool, c: int, d: int)
    requires Tiles(t) && a in t.head && 0 < nb < t.head[a].size
    requires var t' := Split(t, a, nb, cinuse); c in t'.head && (d in t'.head || d in t'.lims) && c < d
    ensures Next(Split(t, a, nb, cinuse), c) <= d
  {
    SplitNext(t, a, nb, cinuse, c);
    SplitHead(t, a, nb, cinuse, c);
    SplitHead(t, a, nb, cinuse, d);
    hide Tiles, Split;
    if d == a + nb {
      if c != a {
        PairAt(t, c, a);
      }
    } else if c == a + nb {
      PairAt(t, a, d);
    } else {
      PairAt(t, c, d);
    }
  }

  lemma SplitTruthful(t: Tags, a: int, nb: nat, cinuse: bool)
    requires Tiles(t) && Truthful(t) && a in t.head && a !in t.direct && 0 < nb < t.head[a].size
    requires cinuse || (Next(t, a) in t.head ==> t.head[Next(t, a)].cinuse)
    ensures Truthful(Split(t, a, nb, cinuse))
  {
    var t' := Split(t, a, nb, cinuse);
    forall c | c in t'.head && Next(t', c) in t'.head
      ensures TrueAfter(t', c)
    {
      SplitAfter(t, a, nb, cinuse, c);
    }
    forall c | c in t'.head && !t'.head[c].pinuse && c !in t'.direct
      ensures FreeBefore(t', c)
    {
      SplitBefore(t, a, nb, cinuse, c);
    }
    forall c | c in t'.direct
      ensures IsDirect(t', c)
    {
      SplitDirect(t, a, nb, cinuse, c);
    }
  }

  lemma SplitAfter(t: Tags, a: int, nb: nat, cinuse: bool, c: int)
    requires Tiles(t) && Truthful(t) && a in t.head && a !in t.direct && 0 < nb < t.head[a].size
    requires cinuse || (Next(t, a) in t.head ==> t.head[Next(t, a)].cinuse)
    requires var t' := Split(t, a, nb, cinuse); c in t'.head && Next(t', c) in t'.head
    ensures TrueAfter(Split(t, a, nb, cinuse), c)
  {
    var t' := Split(t, a, nb, cinuse);
    SplitInside(t, a, nb);
    SplitNext(t, a, nb, cinuse, c);
    NotDirectInside(t, a + nb);
    hide Tiles, Truthful, Split;
    SplitHead(t, a, nb, cinuse, c);
    SplitHead(t, a, nb, cinuse, Next(t', c));
    if c == a + nb {
      AfterAt(t, a);
    } else if c != a {
      AfterAt(t, c);
    }
  }

  lemma NotDirectInside(t: Tags, c: int)
    requires Truthful(t) && c !in t.head
    ensures c !in t.direct
  {
    if c in t.direct {
      DirectAt(t, c);
    }
  }

  lemma SplitBefore(t: Tags, a: int, nb: nat, cinuse: bool, c: int)
    requires Tiles(t) && Truthful(t) && a in t.head && a !in t.direct && 0 < nb < t.head[a].size
    requires var t' := Split(t, a, nb, cinuse); c in t'.head && !t'.head[c].pinuse && c !in t'.direct
    ensures FreeBefore(Split(t, a, nb, cinuse), c)
  {
    SplitInside(t, a, nb);
    SplitHead(t, a, nb, cinuse, c);
    hide Tiles, Truthful, Split;
    if c == Next(t, a) {
      SplitHead(t, a, nb, cinuse, a + nb);
    } else {
      SplitBeforeOther(t, a, nb, cinuse, c);
    }
  }

  lemma SplitBeforeOther(t: Tags, a: int, nb: nat, cinuse: bool, c: int)
    requires Tiles(t) && Truthful(t) && a in t.head && 0 < nb < t.head[a].size
    requires c in t.head && !t.head[c].pinuse && c !in t.direct && c != Next(t, a) && c != a + nb
    ensures FreeBefore(Split(t, a, nb, cinuse), c)
  {
    BeforeAt(t, c);
    SplitInside(t, a, nb);
    var p := c - t.foot[c].n;
    SplitHead(t, a, nb, cinuse, c);
    SplitHead(t, a, nb, cinuse, p);
    SplitNext(t, a, nb, cinuse, p);
    hide Tiles, Truthful, Split;
    assert p != a && p != a + nb;
    if p == Next(t, a) {
      assert Split(t, a, nb, cinuse).head[p].cinuse == t.head[p].cinuse;
    }
  }

  lemma SplitDirect(t: Tags, a: int, nb: nat, cinuse: bool, c: int)
    requires Tiles(t) && Truthful(t) && a in t.head && a !in t.direct && 0 < nb < t.head[a].size && c in t.direct
    ensures IsDirect(Split(t, a, nb, cinuse), c)
  {
    DirectAt(t, c);
    SplitInside(t, a, nb);
    SplitHead(t, a, nb, cinuse, c);
    SplitNext(t, a, nb, cinuse, c);
    hide Tiles, Truthful, Split;
    if c == Next(t, a) {
      AfterAt(t, a);
    }
  }

  // ----- chunks at the edge of a segment

  /** The last chunk before a limit gets a new size, and the limit moves with it. */
  function Resized(t: Tags, p: int, n: nat, cinuse: bool): Tags
    requires p in t.head
  {
    t.(head := t.head[p := Head(n, cinuse, t.head[p].pinuse)], lims := t.lims - {Next(t, p)} + {p + n})
  }

  /** Nothing else begins or ends in lo .. hi. */
  ghost predicate Vacant(t: Tags, lo: int, hi: int) {
    && (forall c :: c in t.head ==> (c < lo && Next(t, c) < lo) || hi < c)
    && (forall e :: e in t.lims ==> e < lo || hi < e)
  }

  ghost predicate CanResize(t: Tags, p: int, n: nat) {
    && p in t.head && p !in t.direct && Next(t, p) in t.lims && n > 0 && n % 8 == 0
    && (forall c :: c in t.head && c != p ==> c < p || p + n < c)
    && (forall c :: c in t.head && c != p ==> Next(t, c) != Next(t, p))
    && (forall e :: e in t.lims && e != Next(t, p) ==> e < p || p + n < e)
  }

  lemma ResizedTiles(t: Tags, p: int, n: nat, cinuse: bool)
    requires Tiles(t) && CanResize(t, p, n)
    ensures Tiles(Resized(t, p, n, cinuse))
  {
    var t' := Resized(t, p, n, cinuse);
    forall c | c in t'.head
      ensures c > 0 && c % 8 == 0 && t'.head[c].size % 8 == 0 && t'.head[c].size > 0 && c !in t'.lims
      ensures Next(t', c) in t'.head || Next(t', c) in t'.lims
    {
      ResizedChunk(t, p, n, cinuse, c);
    }
    forall c, d | c in t'.head && d in t'.head && c < d
      ensures Next(t', c) <= d
    {
      ResizedPair(t, p, n, cinuse, c, d);
    }
    forall c, e | c in t'.head && e in t'.lims && c < e
      ensures Next(t', c) <= e
    {
      ResizedPair(t, p, n, cinuse, c, e);
    }
    hide Next, Resized;
  }

  lemma ResizedChunk(t: Tags, p: int, n: nat, cinuse: bool, c: int)
    requires Tiles(t) && CanResize(t, p, n) && c in t.head
    ensures var t' := Resized(t, p, n, cinuse);
      && c > 0 && c % 8 == 0 && t'.head[c].size % 8 == 0 && t'.head[c].size > 0 && c !in t'.lims
      && (Next(t', c) in t'.head || Next(t', c) in t'.lims)
  {
    ChunkAt(t, c);
    ChunkAt(t, p);
    hide Tiles;
  }

  lemma ResizedPair(t: Tags, p: int, n: nat, cinuse: bool, c: int, d: int)
    requires Tiles(t) && CanResize(t, p, n) && c in t.head && c < d
    requires var t' := Resized(t, p, n, cinuse); d in t'.head || d in t'.lims
    ensures Next(Resized(t, p, n, cinuse), c) <= d
  {
    var t' := Resized(t, p, n, cinuse);
    if d == p + n {
      if c != p {
        PairAt(t, c, p);
      }
    } else if d in t.head || d in t.lims {
      if c != p {
        PairAt(t, c, d);
      }
    }
  }

  lemma ResizedTruthful(t: Tags, p: int, n: nat, cinuse: bool)
    requires Tiles(t) && Truthful(t) && CanResize(t, p, n) && !t.head[p].cinuse
    ensures Truthful(Resized(t, p, n, cinuse))
  {
    var t' := Resized(t, p, n, cinuse);
    forall c | c in t'.head && Next(t', c) in t'.head
      ensures TrueAfter(t', c)
    {
      ResizedAfter(t, p, n, cinuse, c);
    }
    forall c | c in t'.head && !t'.head[c].pinuse && c !in t'.direct
      ensures FreeBefore(t', c)
    {
      ResizedBefore(t, p, n, cinuse, c);
    }
    forall c | c in t'.direct
      ensures IsDirect(t', c)
    {
      DirectAt(t, c);
    }
  }

  lemma ResizedAfter(t: Tags, p: int, n: nat, cinuse: bool, c: int)
    requires Tiles(t) && Truthful(t) && CanResize(t, p, n) && !t.head[p].cinuse
    requires var t' := Resized(t, p, n, cinuse); c in t'.head && Next(t', c) in t'.head
    ensures TrueAfter(Resized(t, p, n, cinuse), c)
  {
    ResizedChunk(t, p, n, cinuse, p);
    ChunkAt(t, p);
    assert p + n !in t.head;
    assert c != p;
    AfterAt(t, c);
  }

  lemma ResizedBefore(t: Tags, p: int, n: nat, cinuse: bool, c: int)
    requires Tiles(t) && Truthful(t) && CanResize(t, p, n)
    requires c in t.head && !t.head[c].pinuse && c !in t.direct
    ensures FreeBefore(Resized(t, p, n, cinuse), c)
  {
    BeforeAt(t, c);
    ChunkAt(t, p);
  }

  lemma TilesIntro(t: Tags)
    requires forall c :: c in t.head ==> GoodChunk(t, c)
    requires forall c, d :: c in t.head && d in t.head && c < d ==> Next(t, c) <= d
    requires forall c, e :: c in t.head && e in t.lims && c < e ==> Next(t, c) <= e
    ensures Tiles(t)
  {
    assert t.head.Keys !! t.lims by {
      forall c | c in t.head ensures c !in t.lims { assert GoodChunk(t, c); }
    }
    assert forall c :: c in t.head ==> GoodChunk(t, c);
  }

  ghost predicate GoodChunk(t: Tags, d: int) {
    && d in t.head && d > 0 && d % 8 == 0 && t.head[d].size % 8 == 0 && t.head[d].size > 0 && d !in t.lims
    && (Next(t, d) in t.head || Next(t, d) in t.lims)
  }

  lemma TruthfulIntro(t: Tags)
    requires forall c :: c in t.head && Next(t, c) in t.head ==> TrueAfter(t, c)
    requires forall c :: c in t.head && !t.head[c].pinuse && c !in t.direct ==> FreeBefore(t, c)
    requires forall c :: c in t.direct ==> IsDirect(t, c)
    ensures Truthful(t)
  {
  }

  lemma VacantAt(t: Tags, lo: int, hi: int, c: int)
    requires Vacant(t, lo, hi)
    ensures c in t.head ==> (c < lo && Next(t, c) < lo) || hi < c
    ensures c in t.lims ==> c < lo || hi < c
  {
  }

  /** A chunk by itself in a new region. */
  function AddAlone(t: Tags, c: int, h: Head): Tags {
    t.(head := t.head[c := h], lims := t.lims + {c + h.size})
  }

  lemma AddAloneTiles(t: Tags, c: int, h: Head)
    requires Tiles(t) && c > 0 && c % 8 == 0 && h.size > 0 && h.size % 8 == 0
    requires Vacant(t, c, c + h.size)
    ensures Tiles(AddAlone(t, c, h)) && c !in t.head
  {
    hide Tiles, Vacant;
    var t' := AddAlone(t, c, h);
    VacantAt(t, c, c + h.size, c);
    forall d | d in t'.head
      ensures GoodChunk(t', d)
    {
      VacantAt(t, c, c + h.size, d);
      if d != c {
        ChunkAt(t, d);
      } else {
        VacantAt(t, c, c + h.size, c + h.size);
      }
    }
    forall d, e | d in t'.head && (e in t'.head || e in t'.lims) && d < e
      ensures Next(t', d) <= e
    {
      VacantAt(t, c, c + h.size, d);
      VacantAt(t, c, c + h.size, e);
      if d != c && e != c && e != c + h.size {
        PairAt(t, d, e);
      }
    }
    TilesIntro(t');
  }

  lemma AddAloneOk(t: Tags, c: int, h: Head)
    requires Tiles(t) && Truthful(t) && c > 0 && c % 8 == 0 && h.size > 0 && h.size % 8 == 0 && h.pinuse
    requires Vacant(t, c, c + h.size)
    ensures Tiles(AddAlone(t, c, h)) && Truthful(AddAlone(t, c, h))
  {
    hide Tiles, Truthful, Vacant;
    var t' := AddAlone(t, c, h);
    AddAloneTiles(t, c, h);
    VacantAt(t, c, c + h.size, c + h.size);
    forall d | d in t'.head && Next(t', d) in t'.head
      ensures TrueAfter(t', d)
    {
      VacantAt(t, c, c + h.size, d);
      if d != c {
        AfterAt(t, d);
      }
    }
    forall d | d in t'.head && !t'.head[d].pinuse && d !in t'.direct
      ensures FreeBefore(t', d)
    {
      BeforeAt(t, d);
    }
    forall d | d in t'.direct
      ensures IsDirect(t', d)
    {
      DirectAt(t, d);
    }
    TruthfulIntro(t');
  }

  /** direct_alloc: a chunk in a region of its own, marked by its foot. */
  function AddDirect(t: Tags, c: int, size: nat): Tags {
    AddAlone(t, c, Head(size, true, false)).(foot := t.foot[c := Direct(0)], direct := t.direct + {c})
  }

  lemma AddDirectOk(t: Tags, c: int, size: nat)
    requires Tiles(t) && Truthful(t) && c > 0 && c % 8 == 0 && size > 0 && size % 8 == 0
    requires Vacant(t, c, c + size)
    ensures Tiles(AddDirect(t, c, size)) && Truthful(AddDirect(t, c, size))
  {
    hide Tiles, Truthful, Vacant;
    var t' := AddDirect(t, c, size);
    AddAloneTiles(t, c, Head(size, true, false));
    assert Tiles(t') by {
      SameTiles(AddAlone(t, c, Head(size, true, false)), t');
    }
    VacantAt(t, c, c + size, c + size);
    forall d | d in t'.head && Next(t', d) in t'.head
      ensures TrueAfter(t', d)
    {
      VacantAt(t, c, c + size, d);
      if d != c {
        AfterAt(t, d);
      }
    }
    forall d | d in t'.head && !t'.head[d].pinuse && d !in t'.direct
      ensures FreeBefore(t', d)
    {
      BeforeAt(t, d);
    }
    forall d | d in t'.direct
      ensures IsDirect(t', d)
    {
      if d != c {
        DirectAt(t, d);
      }
    }
    TruthfulIntro(t');
  }

  lemma SameTiles(t: Tags, t': Tags)
    requires Tiles(t) && t'.head == t.head && t'.lims == t.lims
    ensures Tiles(t')
  {
    forall c | c in t.head ensures GoodChunk(t', c) { ChunkAt(t, c); }
    forall c, d | c in t.head && (d in t.head || d in t.lims) && c < d ensures Next(t', c) <= d { PairAt(t, c, d); }
    hide Tiles;
    TilesIntro(t');
  }

  /** An in-use chunk right in front of the first chunk of a segment. */
  function AddBefore(t: Tags, c: int, n: nat): Tags {
    t.(head := t.head[c := Head(n, true, true)])
  }

  /** Nothing begins or ends in c .. c+n except the chunk at c+n. */
  ghost predicate VacantBefore(t: Tags, c: int, n: nat) {
    && (forall d :: d in t.head ==> (d < c && Next(t, d) < c) || c + n <= d)
    && (forall e :: e in t.lims ==> e < c || c + n < e)
  }

  lemma VacantBeforeAt(t: Tags, c: int, n: nat, d: int)
    requires VacantBefore(t, c, n)
    ensures d in t.head ==> (d < c && Next(t, d) < c) || c + n <= d
    ensures d in t.lims ==> d < c || c + n < d
  {
  }

  lemma AddBeforeOk(t: Tags, c: int, n: nat)
    requires Tiles(t) && Truthful(t) && c > 0 && c % 8 == 0 && n > 0 && n % 8 == 0
    requires c + n in t.head && t.head[c + n].pinuse && c + n !in t.direct
    requires VacantBefore(t, c, n)
    ensures Tiles(AddBefore(t, c, n)) && Truthful(AddBefore(t, c, n))
  {
    hide Tiles, Truthful, VacantBefore;
    var t' := AddBefore(t, c, n);
    VacantBeforeAt(t, c, n, c);
    AddBeforeTiles(t, c, n);
    forall d | d in t'.head && Next(t', d) in t'.head
      ensures TrueAfter(t', d)
    {
      AddBeforeAfter(t, c, n, d);
    }
    forall d | d in t'.head && !t'.head[d].pinuse && d !in t'.direct
      ensures FreeBefore(t', d)
    {
      AddBeforeBefore(t, c, n, d);
    }
    forall d | d in t'.direct
      ensures IsDirect(t', d)
    {
      DirectAt(t, d);
    }
    TruthfulIntro(t');
  }

  lemma AddBeforeTiles(t: Tags, c: int, n: nat)
    requires Tiles(t) && c > 0 && c % 8 == 0 && n > 0 && n % 8 == 0 && c + n in t.head && VacantBefore(t, c, n)
    ensures Tiles(AddBefore(t, c, n))
  {
    hide Tiles, VacantBefore;
    var t' := AddBefore(t, c, n);
    VacantBeforeAt(t, c, n, c);
    ChunkAt(t, c + n);
    forall d | d in t'.head
      ensures GoodChunk(t', d)
    {
      if d != c {
        ChunkAt(t, d);
      }
    }
    forall d, e | d in t'.head && (e in t'.head || e in t'.lims) && d < e
      ensures Next(t', d) <= e
    {
      VacantBeforeAt(t, c, n, d);
      VacantBeforeAt(t, c, n, e);
      if d != c && e != c {
        PairAt(t, d, e);
      }
    }
    TilesIntro(t');
  }

  lemma AddBeforeAfter(t: Tags, c: int, n: nat, d: int)
    requires Tiles(t) && Truthful(t) && VacantBefore(t, c, n) && c !in t.head && n > 0
    requires c + n in t.head && t.head[c + n].pinuse && c + n !in t.direct
    requires var t' := AddBefore(t, c, n); d in t'.head && Next(t', d) in t'.head
    ensures TrueAfter(AddBefore(t, c, n), d)
  {
    hide Tiles, Truthful, VacantBefore;
    if d != c {
      VacantBeforeAt(t, c, n, d);
      ChunkAt(t, d);
      AfterAt(t, d);
    }
  }

  lemma AddBeforeBefore(t: Tags, c: int, n: nat, d: int)
    requires Truthful(t) && c !in t.head && d in t.head && !t.head[d].pinuse && d !in t.direct
    ensures FreeBefore(AddBefore(t, c, n), d)
  {
    hide Truthful;
    BeforeAt(t, d);
  }

  /** All chunks of lo .. hi disappear. */
  function Dropped(t: Tags, lo: int, hi: int): Tags {
    t.(head := (map c | c in t.head && !(lo <= c < hi) :: t.head[c]),
       lims := (set e | e in t.lims && !(lo <= e < hi)),
       direct := (set c | c in t.direct && !(lo <= c < hi)))
  }

  /** No chunk reaches into or out of lo .. hi. */
  ghost predicate Closed(t: Tags, lo: int, hi: int) {
    forall c :: c in t.head ==> (lo <= c < hi <==> lo <= Next(t, c) < hi)
  }

  lemma DroppedOk(t: Tags, lo: int, hi: int)
    requires Tiles(t) && Truthful(t) && Closed(t, lo, hi)
    ensures Tiles(Dropped(t, lo, hi)) && Truthful(Dropped(t, lo, hi))
  {
    DroppedTiles(t, lo, hi);
    hide Tiles, Truthful, Closed, Dropped, TrueAfter, FreeBefore, IsDirect, Next;
    var t' := Dropped(t, lo, hi);
    DroppedParts(t, lo, hi);
    forall d | d in t'.head && Next(t', d) in t'.head
      ensures TrueAfter(t', d)
    {
      DroppedAfter(t, lo, hi, d);
    }
    forall d | d in t'.head && !t'.head[d].pinuse && d !in t'.direct
      ensures FreeBefore(t', d)
    {
      DroppedBefore(t, lo, hi, d);
    }
    forall d | d in t'.direct
      ensures IsDirect(t', d)
    {
      DroppedDirect(t, lo, hi, d);
    }
    TruthfulIntro(t');
  }

  lemma DroppedDirect(t: Tags, lo: int, hi: int, d: int)
    requires Truthful(t) && Closed(t, lo, hi) && d in t.direct && !(lo <= d < hi)
    ensures IsDirect(Dropped(t, lo, hi), d)
  {
    hide Truthful, Closed;
    DirectAt(t, d);
    ClosedAt(t, lo, hi, d);
  }

  lemma DroppedAfter(t: Tags, lo: int, hi: int, d: int)
    requires Truthful(t) && var t' := Dropped(t, lo, hi); d in t'.head && Next(t', d) in t'.head
    ensures TrueAfter(Dropped(t, lo, hi), d)
  {
    hide Truthful;
    AfterAt(t, d);
  }

  lemma DroppedBefore(t: Tags, lo: int, hi: int, d: int)
    requires Truthful(t) && Closed(t, lo, hi)
    requires d in t.head && !(lo <= d < hi) && !t.head[d].pinuse && d !in t.direct
    ensures FreeBefore(Dropped(t, lo, hi), d)
  {
    hide Truthful, Closed;
    BeforeAt(t, d);
    ClosedAt(t, lo, hi, d - t.foot[d].n);
  }

  lemma DroppedParts(t: Tags, lo: int, hi: int)
    ensures var t' := Dropped(t, lo, hi);
      && t'.foot == t.foot
      && (forall c :: c in t'.head <==> c in t.head && !(lo <= c < hi))
      && (forall c :: c in t'.head ==> t'.head[c] == t.head[c])
      && (forall c :: c in t'.lims <==> c in t.lims && !(lo <= c < hi))
      && (forall c :: c in t'.direct <==> c in t.direct && !(lo <= c < hi))
  {
  }

  lemma DroppedTiles(t: Tags, lo: int, hi: int)
    requires Tiles(t) && Closed(t, lo, hi)
    ensures Tiles(Dropped(t, lo, hi))
  {
    hide Tiles, Closed, Dropped;
    var t' := Dropped(t, lo, hi);
    DroppedParts(t, lo, hi);
    forall d | d in t'.head
      ensures GoodChunk(t', d)
    {
      ChunkAt(t, d);
      ClosedAt(t, lo, hi, d);
    }
    forall d, e | d in t'.head && (e in t'.head || e in t'.lims) && d < e
      ensures Next(t', d) <= e
    {
      PairAt(t, d, e);
    }
    TilesIntro(t');
  }

  lemma ClosedAt(t: Tags, lo: int, hi: int, c: int)
    requires Closed(t, lo, hi) && c in t.head
    ensures lo <= c < hi <==> lo <= Next(t, c) < hi
  {
  }
}
