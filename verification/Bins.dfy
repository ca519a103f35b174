/** The free-chunk bins of the allocator: small bins as circular lists around a
    sentinel, tree bins as tries, and the two bitmaps (lj_alloc.c:425-448, 593-740,
    1048-1150).  A bitmap is the set of its set bits. */
module Bins {
  import opened Words
  import opened Trie
  import opened Links
  import opened TreeRep
  import opened TreeCut
  import opened BestFit
  import TreeIndex

  const NSMALLBINS: nat := 32
  const MIN_LARGE_SIZE: nat := 256

  /** The addresses of the list heads inside malloc_state. */
  function SmallBinAt(i: nat): int { -1 - i }
  function TreeBinAt(i: nat): int { -101 - i }

  /** Small bin i holds chunks of size 8 i in the order of its list. */
  ghost predicate SmallOk(mem: Memory, smallmap: set<nat>, small: seq<int>, binned: map<int, nat>, i: nat) {
    && (i in smallmap <==> small != [])
    && (small != [] ==> IsRing(mem, [SmallBinAt(i)] + small))
    && forall x :: x in small ==> x > 0 && x in binned && binned[x] == 8 * i && 8 * i < MIN_LARGE_SIZE
  }

  /** Tree bin i is a sound trie in memory of chunks whose size selects bin i. */
  ghost predicate TreeOk(mem: Memory, treemap: set<nat>, root: int, tree: Tree, index: map<int, nat>, binned: map<int,
                         nat>, i: nat)
    requires i < TreeIndex.NTREEBINS
  {
    && (i in treemap <==> tree.Node?)
    && Rep(mem, tree, root, TreeBinAt(i))
    && Sound(tree, TreeIndex.BinLo(i), TreeIndex.BinBits(i))
    && forall x :: Has(tree, x) ==>
         x in binned && binned[x] == SizeOf(tree, x) && LargeIn(binned[x], i) && x in index && index[x] == i
  }

  /** A size of a large chunk that belongs into tree bin i. */
  ghost predicate LargeIn(s: nat, i: nat) {
    MIN_LARGE_SIZE <= s < SIZE_LIMIT && TreeIndex.IndexOf(s) == i
  }

  /** Every binned chunk is in the one bin that its size selects. */
  ghost predicate Located(smalls: seq<seq<int>>, trees: seq<Tree>, x: int, s: nat)
    requires |smalls| == NSMALLBINS && |trees| == TreeIndex.NTREEBINS
  {
    && x > 0 && s % 8 == 0 && s < SIZE_LIMIT
    && (if s < MIN_LARGE_SIZE then x in smalls[s / 8] else InTree(trees, x, s))
  }

  ghost predicate InTree(trees: seq<Tree>, x: int, s: nat)
    requires |trees| == TreeIndex.NTREEBINS
  {
    var i := TreeIndex.IndexOf(s);
    i < TreeIndex.NTREEBINS && Has(trees[i], x) && SizeOf(trees[i], x) == s
  }

  /** A small bin is not disturbed by writes to other addresses. */
  lemma SmallFrame(mem: Memory, mem': Memory, smallmap: set<nat>, smallmap': set<nat>, small: seq<int>,
                   binned: map<int, nat>, binned': map<int, nat>, i: nat)
    requires SmallOk(mem, smallmap, small, binned, i)
    requires i in smallmap <==> i in smallmap'
    requires SameAt(mem, mem', SmallBinAt(i)) && forall x :: x in small ==> SameAt(mem, mem', x)
    requires forall x :: x in small ==> x in binned' && binned'[x] == binned[x]
    ensures SmallOk(mem', smallmap', small, binned', i)
  {
    if small != [] {
      RingFrame(mem, mem', [SmallBinAt(i)] + small);
    }
  }

  lemma TreeFrame(mem: Memory, mem': Memory, treemap: set<nat>, treemap': set<nat>, root: int, tree: Tree,
                  index: map<int, nat>, index': map<int, nat>, binned: map<int, nat>, binned': map<int, nat>, i: nat)
    requires i < TreeIndex.NTREEBINS && TreeOk(mem, treemap, root, tree, index, binned, i)
    requires i in treemap <==> i in treemap'
    requires forall x :: Has(tree, x) ==> SameAt(mem, mem', x)
    requires forall x :: Has(tree, x) ==>
        x in binned' && binned'[x] == binned[x] && x in index' && index'[x] == index[x]
    ensures TreeOk(mem', treemap', root, tree, index', binned', i)
  {
    RepFrame(mem, mem', tree, root, TreeBinAt(i));
  }

  datatype State = State(mem: Memory, smallmap: set<nat>, treemap: set<nat>, treebins: seq<int>, index: map<int, nat>,
                         smalls: seq<seq<int>>, trees: seq<Tree>, binned: map<int, nat>)

  /** The bins as a whole: `binned` says which chunks of which size are in them. */
  ghost predicate Ok(s: State) {
    && |s.treebins| == TreeIndex.NTREEBINS && |s.trees| == TreeIndex.NTREEBINS && |s.smalls| == NSMALLBINS
    && (forall i :: i in s.smallmap ==> i < NSMALLBINS)
    && (forall i :: i in s.treemap ==> i < TreeIndex.NTREEBINS)
    && (forall i :: 0 <= i < NSMALLBINS ==> SmallOk(s.mem, s.smallmap, s.smalls[i], s.binned, i))
    && (forall i :: 0 <= i < TreeIndex.NTREEBINS ==>
        TreeOk(s.mem, s.treemap, s.treebins[i], s.trees[i], s.index, s.binned, i))
    && (forall x :: x in s.binned ==> Located(s.smalls, s.trees, x, s.binned[x]))
  }

  /** A step that works on small bin i alone keeps all bins in order. */
  lemma SmallStep(s: State, s': State, i: nat)
    requires Ok(s) && i < NSMALLBINS
    requires s'.treemap == s.treemap && s'.treebins == s.treebins && s'.index == s.index && s'.trees == s.trees
    requires |s'.smalls| == NSMALLBINS && forall j :: 0 <= j < NSMALLBINS && j != i ==> s'.smalls[j] == s.smalls[j]
    requires forall j :: j != i ==> (j in s'.smallmap <==> j in s.smallmap)
    requires SmallOk(s'.mem, s'.smallmap, s'.smalls[i], s'.binned, i)
    requires forall y :: y != SmallBinAt(i) && y !in s.smalls[i] && y !in s'.smalls[i] ==> SameAt(s.mem, s'.mem, y)
    requires forall y :: y in s.binned && y !in s.smalls[i] ==>
        y in s'.binned && s'.binned[y] == s.binned[y] && y !in s'.smalls[i]
    requires forall y :: y in s'.binned ==>
        if y in s'.smalls[i] then s'.binned[y] == 8 * i
        else y in s.binned && y !in s.smalls[i] && s'.binned[y] == s.binned[y]
    ensures Ok(s')
  {
    hide IsRing, Sound, Rep, SameAt, InTree, TreeIndex.IndexOf, TreeIndex.BinLo, TreeIndex.BinBits;
    forall j | 0 <= j < NSMALLBINS
      ensures SmallOk(s'.mem, s'.smallmap, s'.smalls[j], s'.binned, j)
    {
      if j != i {
        forall x | x in s.smalls[j]
          ensures x in s.binned && x > 0 && x !in s.smalls[i]
        {
          assert s.binned[x] == 8 * j;
        }
        SmallFrame(s.mem, s'.mem, s.smallmap, s'.smallmap, s.smalls[j], s.binned, s'.binned, j);
      }
    }
    forall j | 0 <= j < TreeIndex.NTREEBINS
      ensures TreeOk(s'.mem, s'.treemap, s'.treebins[j], s'.trees[j], s'.index, s'.binned, j)
    {
      assert TreeOk(s.mem, s.treemap, s.treebins[j], s.trees[j], s.index, s.binned, j);
      forall x | Has(s.trees[j], x)
        ensures x in s.binned && x !in s.smalls[i] && x > 0
      {
        RepPositive(s.mem, s.trees[j], s.treebins[j], TreeBinAt(j), x);
      }
      TreeFrame(s.mem, s'.mem, s.treemap, s'.treemap, s.treebins[j], s.trees[j], s.index, s'.index, s.binned, s'.binned,
        j);
    }
    forall x | x in s'.binned
      ensures Located(s'.smalls, s'.trees, x, s'.binned[x])
    {
      if x !in s'.smalls[i] {
        assert Located(s.smalls, s.trees, x, s.binned[x]);
      }
    }
  }

  /** A step that works on tree bin i alone keeps all bins in order. */
  lemma TreeStep(s: State, s': State, i: nat)
    requires Ok(s) && i < TreeIndex.NTREEBINS
    requires s'.smallmap == s.smallmap && s'.smalls == s.smalls
    requires |s'.trees| == |s'.treebins| == TreeIndex.NTREEBINS
    requires forall j :: 0 <= j < TreeIndex.NTREEBINS && j != i ==>
        s'.trees[j] == s.trees[j] && s'.treebins[j] == s.treebins[j]
    requires forall j :: j != i ==> (j in s'.treemap <==> j in s.treemap)
    requires TreeOk(s'.mem, s'.treemap, s'.treebins[i], s'.trees[i], s'.index, s'.binned, i)
    requires forall y :: !Has(s.trees[i], y) && !Has(s'.trees[i], y) ==> SameAt(s.mem, s'.mem, y)
    requires forall y :: y in s.index && !Has(s'.trees[i], y) ==> y in s'.index && s'.index[y] == s.index[y]
    requires forall y :: y in s.binned && !Has(s.trees[i], y) ==>
        y in s'.binned && s'.binned[y] == s.binned[y] && !Has(s'.trees[i], y)
    requires forall y :: y in s'.binned && !Has(s'.trees[i], y) ==>
        y in s.binned && !Has(s.trees[i], y) && s'.binned[y] == s.binned[y]
    requires forall y :: Has(s'.trees[i], y) ==> y > 0 && y in s'.binned && s'.binned[y] % 8 == 0
    ensures Ok(s')
  {
    forall j | 0 <= j < NSMALLBINS
      ensures SmallOk(s'.mem, s'.smallmap, s'.smalls[j], s'.binned, j)
    {
      forall x | x in s.smalls[j]
        ensures x in s.binned && !Has(s.trees[i], x)
      {
        assert TreeOk(s.mem, s.treemap, s.treebins[i], s.trees[i], s.index, s.binned, i);
      }
      SentinelOutside(s, s', j, i);
      SmallFrame(s.mem, s'.mem, s.smallmap, s'.smallmap, s.smalls[j], s.binned, s'.binned, j);
    }
    forall j | 0 <= j < TreeIndex.NTREEBINS
      ensures TreeOk(s'.mem, s'.treemap, s'.treebins[j], s'.trees[j], s'.index, s'.binned, j)
    {
      if j != i {
        assert TreeOk(s.mem, s.treemap, s.treebins[j], s.trees[j], s.index, s.binned, j);
        assert TreeOk(s.mem, s.treemap, s.treebins[i], s.trees[i], s.index, s.binned, i);
        TreeFrame(s.mem, s'.mem, s.treemap, s'.treemap, s.treebins[j], s.trees[j], s.index, s'.index, s.binned,
          s'.binned, j);
      }
    }
    forall x | x in s'.binned
      ensures Located(s'.smalls, s'.trees, x, s'.binned[x])
    {
      if !Has(s'.trees[i], x) {
        assert Located(s.smalls, s.trees, x, s.binned[x]);
      }
    }
  }

  lemma SentinelOutside(s: State, s': State, j: nat, i: nat)
    requires Ok(s) && i < TreeIndex.NTREEBINS && |s'.trees| == TreeIndex.NTREEBINS
    requires forall y :: Has(s'.trees[i], y) ==> y > 0
    ensures !Has(s.trees[i], SmallBinAt(j)) && !Has(s'.trees[i], SmallBinAt(j))
  {
    assert TreeOk(s.mem, s.treemap, s.treebins[i], s.trees[i], s.index, s.binned, i);
    if Has(s.trees[i], SmallBinAt(j)) {
      RepPositive(s.mem, s.trees[i], s.treebins[i], TreeBinAt(i), SmallBinAt(j));
    }
  }

  class BinTable {
    var mem: Memory
    var smallmap: set<nat>
    var treemap: set<nat>
    var treebins: seq<int>
    var index: map<int, nat>
    ghost var smalls: seq<seq<int>>
    ghost var trees: seq<Tree>
    ghost var binned: map<int, nat>

    ghost function S(): State
      reads this
    {
      State(mem, smallmap, treemap, treebins, index, smalls, trees, binned)
    }

    ghost predicate Valid()
      reads this
    {
      Ok(S())
    }

    /** init_bins: all bins empty. */
    constructor ()
      ensures Valid() && binned == map[]
    {
      mem := Memory(map[], map[], map[], map[], map[]);
      smallmap, treemap, index := {}, {}, map[];
      treebins := seq(TreeIndex.NTREEBINS, _ => 0);
      smalls := seq(NSMALLBINS, _ => []);
      trees := seq(TreeIndex.NTREEBINS, _ => Leaf);
      binned := map[];
    }

    /** insert_small_chunk: the chunk becomes the first of its list. */
    method InsertSmall(p: int, s: nat)
      requires Valid()
      requires p > 0 && p !in binned && s % 8 == 0 && s < MIN_LARGE_SIZE
      modifies this
      ensures Valid() && binned == old(binned)[p := s]
      ensures smalls == old(smalls)[s / 8 := [p] + old(smalls)[s / 8]] && trees == old(trees)
    {
      ghost var old0 := S();
      var i := s / 8;
      var b := SmallBinAt(i);
      assert SmallOk(mem, smallmap, smalls[i], binned, i);
      var f := b;
      if i !in smallmap {
        smallmap := smallmap + {i};
      } else {
        RingFields(mem, [b] + smalls[i], 0);
        f := mem.fd[b];
      }
      ghost var m0 := mem;
      mem := mem.(fd := mem.fd[b := p]);
      mem := mem.(bk := mem.bk[f := p]);
      mem := mem.(fd := mem.fd[p := f]);
      mem := mem.(bk := mem.bk[p := b]);
      smalls := smalls[i := [p] + smalls[i]];
      binned := binned[p := s];
      SmallInserted(old0, S(), i, p, f);
    }

    /** unlink_small_chunk: the chunk leaves its list wherever it is. */
    method UnlinkSmall(p: int, s: nat)
      requires Valid()
      requires p in binned && binned[p] == s && s < MIN_LARGE_SIZE
      modifies this
      ensures Valid() && binned == old(binned) - {p} && trees == old(trees)
    {
      ghost var old0 := S();
      SmallLinks(old0, p);
      var f, b := mem.fd[p], mem.bk[p];
      var i := s / 8;
      if f == b {
        smallmap := smallmap - {i};
      } else {
        mem := mem.(bk := mem.bk[f := b]);
        mem := mem.(fd := mem.fd[b := f]);
      }
      smalls := smalls[i := Without(smalls[i], p)];
      binned := binned - {p};
      SmallRemoved(old0, S(), p);
    }

    /** The first chunk of a small bin. */
    method FirstSmall(i: nat) returns (p: int)
      requires Valid() && i in smallmap
      ensures i < |smalls| && smalls[i] != [] && p == smalls[i][0] && p in binned && binned[p] == 8 * i
    {
      assert SmallOk(mem, smallmap, smalls[i], binned, i);
      RingFields(mem, [SmallBinAt(i)] + smalls[i], 0);
      p := mem.fd[SmallBinAt(i)];
      assert p in smalls[i];
    }

    /** unlink_first_small_chunk, together with the read of the first chunk before it:
        the chunk that was inserted last. */
    method UnlinkFirstSmall(i: nat) returns (p: int)
      requires Valid()
      requires i in smallmap
      modifies this
      ensures Valid() && old(smalls)[i] != [] && p == old(smalls)[i][0]
      ensures p in old(binned) && old(binned)[p] == 8 * i && binned == old(binned) - {p} && trees == old(trees)
    {
      ghost var old0 := S();
      hide Located, TreeOk, P;
      var b := SmallBinAt(i);
      p := FirstSmall(i);
      SmallLinks(old0, p);
      FirstLink(old0, i);
      var f := mem.fd[p];
      if b == f {
        smallmap := smallmap - {i};
      } else {
        mem := mem.(fd := mem.fd[b := f]);
        mem := mem.(bk := mem.bk[f := b]);
      }
      smalls := smalls[i := Without(smalls[i], p)];
      binned := binned - {p};
      SmallRemoved(old0, S(), p);
    }

    /** insert_large_chunk. */
    method InsertLarge(x: int, s: nat, size: map<int, nat>)
      requires Valid()
      requires x > 0 && x !in binned && s % 8 == 0 && MIN_LARGE_SIZE <= s < SIZE_LIMIT
      requires forall y :: y in binned ==> y in size && size[y] == binned[y]
      modifies this
      ensures Valid() && binned == old(binned)[x := s] && smalls == old(smalls)
      ensures trees == InsertedInBin(old(trees), s, x)
    {
      ghost var old0 := S();
      hide Ok, Located, SmallOk, TreeOk, Sound, Insert, Rep, SameAt, TreeIndex.IndexOf, TreeIndex.BinLo,
        TreeIndex.BinBits, P, TreeIndex.OnPath, TreeIndex.StartWord;
      var i := TreeIndex.IndexOf(s);
      BinRange(s);
      LargeAbsent(old0, i, x);
      ghost var tree := trees[i];
      index := index[x := i];
      mem := mem.(c0 := mem.c0[x := 0]);
      mem := mem.(c1 := mem.c1[x := 0]);
      if i !in treemap {
        treemap := treemap + {i};
        treebins := treebins[i := x];
        mem := mem.(parent := mem.parent[x := TreeBinAt(i)]);
        mem := mem.(bk := mem.bk[x := x]);
        mem := mem.(fd := mem.fd[x := x]);
        FirstFrame(old0.mem, mem, x, s, TreeBinAt(i), old0.trees[i], TreeIndex.BinLo(i), TreeIndex.BinBits(i));
      } else {
        TreeIndex.PathStart(s, i);
        TreeSizes(old0, i, size);
        Attach(treebins[i], x, s, TreeIndex.StartWord(s, i), size, old0.mem, tree, TreeIndex.BinLo(i),
          TreeIndex.BinBits(i), TreeBinAt(i));
      }
      trees := trees[i := Insert(tree, TreeIndex.BinLo(i), TreeIndex.BinBits(i), s, x)];
      binned := binned[x := s];
      LargeInserted(old0, S(), i, x, s);
    }

    /** The chunk becomes the missing child of the node that t heads. */
    method LinkChild(t: int, x: int, s: nat, upper: bool, ghost m0: Memory, ghost u: Tree)
      requires mem == m0.(c0 := m0.c0[x := 0], c1 := m0.c1[x := 0])
      requires u.Node? && u.ring != [] && u.ring[0] == t && t in m0.fd && t != x && u.size != s
      modifies this`mem
      ensures mem == TreeRep.Attach(m0, u, upper, s, x)
    {
      if upper {
        mem := mem.(c1 := mem.c1[t := x]);
      } else {
        mem := mem.(c0 := mem.c0[t := x]);
      }
      mem := mem.(parent := mem.parent[x := t]);
      mem := mem.(bk := mem.bk[x := x]);
      mem := mem.(fd := mem.fd[x := x]);
    }

    /** The chunk goes into the ring of the node that t heads. */
    method LinkBehindFirst(t: int, x: int, s: nat, ghost m0: Memory, ghost u: Tree)
      requires mem == m0.(c0 := m0.c0[x := 0], c1 := m0.c1[x := 0])
      requires u.Node? && u.ring != [] && u.ring[0] == t && t in m0.fd && t != x && u.size == s
      modifies this`mem
      ensures mem == TreeRep.Attach(m0, u, false, s, x)
    {
      var f := mem.fd[t];
      mem := mem.(bk := mem.bk[f := x]);
      mem := mem.(fd := mem.fd[t := x]);
      mem := mem.(fd := mem.fd[x := f]);
      mem := mem.(bk := mem.bk[x := t]);
      mem := mem.(parent := mem.parent[x := 0]);
    }

    /** The loop of insert_large_chunk: walks the trie, taking the next bit of the size
        at every step, and links x where the walk ends. */
    method Attach(root: int, x: int, s: nat, start: nat, size: map<int, nat>,
                  ghost m0: Memory, ghost tree: Tree, ghost lo: nat, ghost k: nat, ghost p: int)
      requires mem == m0.(c0 := m0.c0[x := 0], c1 := m0.c1[x := 0])
      requires tree.Node? && Rep(m0, tree, root, p) && Sound(tree, lo, k) && TreeIndex.OnPath(start, s, lo, k)
      requires x > 0 && !Has(tree, x)
      requires forall y :: Has(tree, y) ==> y in size && size[y] == SizeOf(tree, y)
      modifies this`mem
      ensures Rep(mem, Insert(tree, lo, k, s, x), root, p)
      ensures forall y :: !Has(tree, y) && y != x ==> SameAt(m0, mem, y)
    {
      hide Walking, Insert, Rep, Sound, SameAt, TreeRep.Attach, TreeIndex.OnPath;
      WalkStart(m0, tree, lo, k, root, p, start, s, x, size);
      var t := root;
      var word: nat := start;
      ghost var cur, cp, clo: nat, ck: nat := tree, p, lo, k;
      while true
        invariant mem == m0.(c0 := m0.c0[x := 0], c1 := m0.c1[x := 0])
        invariant Walking(m0, tree, lo, k, cur, clo, ck, t, cp, word, s, x, size)
        decreases cur
      {
        WalkFacts(m0, tree, lo, k, cur, clo, ck, t, cp, word, s, x, size);
        if size[t] != s {
          var bit := (word / HALF) % 2;
          var c := if bit == 1 then mem.c1[t] else mem.c0[t];
          if c != 0 {
            WalkOn(m0, tree, lo, k, cur, clo, ck, t, cp, word, s, x, size);
            if bit == 1 {
              cur, clo := cur.r, clo + P(ck - 1);
            } else {
              cur := cur.l;
            }
            cp, ck := t, ck - 1;
            t := c;
          } else {
            LinkChild(t, x, s, bit == 1, m0, cur);
            WalkEnd(m0, mem, tree, lo, k, root, p, cur, clo, ck, t, cp, word, s, x, size);
            return;
          }
          word := (word * 2) % WORD;
        } else {
          LinkBehindFirst(t, x, s, m0, cur);
          WalkEnd(m0, mem, tree, lo, k, root, p, cur, clo, ck, t, cp, word, s, x, size);
          return;
        }
      }
    }

    /** unlink_large_chunk. */
    method UnlinkLarge(x: int)
      requires Valid()
      requires x in binned && MIN_LARGE_SIZE <= binned[x]
      modifies this
      ensures Valid() && binned == old(binned) - {x} && smalls == old(smalls)
      ensures var i := TreeIndex.IndexOf(old(binned)[x]);
        && i < |old(trees)| && Has(old(trees)[i], x) && trees == old(trees)[i := Remove(old(trees)[i], x)]
    {
      ghost var old0 := S();
      hide Ok, Located, SmallOk, TreeOk, Sound, Remove, Rep, SameAt, TreeIndex.IndexOf, TreeIndex.BinLo,
        TreeIndex.BinBits, Redirect, Adopt, Redirected, RemoveHere, NodeOf, ParentOf, Tidy, Last, LastSlot, ClearSlot,
          Unlink, P, Has;
      ghost var i := TreeIndex.IndexOf(binned[x]);
      LargeLinks(old0, x, i);
      ghost var tree := trees[i];
      ghost var u, pu := NodeOf(tree, x), ParentOf(tree, TreeBinAt(i), x);
      var xp := mem.parent[x];
      var r := FindReplacement(x, u, pu);
      if xp != 0 {
        var j := index[x];
        var isRoot := x == treebins[j];
        if isRoot {
          treebins := treebins[j := r];
          if r == 0 {
            treemap := treemap - {j};
          }
        }
        ReplaceFacts(old0.mem, u, pu, x, isRoot);
        mem := Redirect(mem, xp, x, r, isRoot);
        if r != 0 {
          mem := Adopt(mem, x, r, xp);
        }
        LargeHeadCut(old0, mem, x, r, i);
      } else {
        LargeMemberCut(old0, mem, x, i);
      }
      trees := trees[i := Remove(tree, x)];
      binned := binned - {x};
      LargeRemoved(old0, S(), x, i);
    }

    /** The first part of unlink_large_chunk: takes x out of its ring, or detaches the
        last node below x, and says which chunk is to replace x. */
    method FindReplacement(x: int, ghost u: Tree, ghost pu: int) returns (r: int)
      requires u.Node? && Tidy(u) && x in u.ring && Rep(mem, u, u.ring[0], pu)
      modifies this`mem
      ensures x in old(mem).fd && x in old(mem).bk
      ensures |u.ring| > 1 ==> r == old(mem).bk[x] && mem == Unlink(old(mem), x)
      ensures |u.ring| == 1 && u.l.Leaf? && u.r.Leaf? ==> r == 0 && mem == old(mem)
      ensures |u.ring| == 1 && (u.l.Node? || u.r.Node?) ==>
        && Last(u).ring != [] && r == Last(u).ring[0] && mem == ClearSlot(old(mem), LastSlot(u))
    {
      RingOfNode(mem, u, pu, x);
      if mem.bk[x] != x {
        var f := mem.fd[x];
        r := mem.bk[x];
        mem := mem.(bk := mem.bk[f := r]);
        mem := mem.(fd := mem.fd[r := f]);
      } else {
        RepChildren(mem, u, x, pu);
        hide Rep;
        r := mem.c1[x];
        var slot := (x, true);
        if r == 0 {
          r := mem.c0[x];
          slot := (x, false);
        }
        if r != 0 {
          ghost var cur, cp := if u.r.Node? then u.r else u.l, x;
          while true
            invariant cur.Node? && Tidy(cur) && Rep(mem, cur, r, cp)
            invariant mem == old(mem) && Last(u) == Last(cur)
            invariant LastSlot(u) == if cur.l.Leaf? && cur.r.Leaf? then slot else LastSlot(cur)
            decreases cur
          {
            RepChildren(mem, cur, r, cp);
            var c, b := mem.c1[r], true;
            if c == 0 {
              c, b := mem.c0[r], false;
            }
            if c == 0 {
              break;
            }
            slot := (r, b);
            cur, cp := if cur.r.Node? then cur.r else cur.l, r;
            r := c;
          }
          if slot.1 {
            mem := mem.(c1 := mem.c1[slot.0 := 0]);
          } else {
            mem := mem.(c0 := mem.c0[slot.0 := 0]);
          }
        }
      }
    }

    /** The search part of tmalloc_large: the best fit among all binned chunks, or 0.
        A request that no binned chunk can satisfy is not excluded. */
    method FindBest(nb: nat, size: map<int, nat>) returns (v: int, rsize: nat)
      requires Valid()
      requires MIN_LARGE_SIZE <= nb < WORD
      requires forall y :: y in binned ==> y in size && size[y] == binned[y]
      ensures v == 0 ==> NoneFits(binned, nb)
      ensures v != 0 ==> IsBest(binned, nb, v) && rsize == binned[v] - nb
    {
      hide Ok, TreeOk, Located, SmallOk, Rep, Sound, Fit, Covered, Searchable, Within, IsBest, NoneFits,
        TreeIndex.IndexOf, TreeIndex.BinLo, TreeIndex.BinBits, P, TreeIndex.OnPath, TreeIndex.StartWord;
      v, rsize := 0, WORD - nb;
      TreeIndex.IndexInRange(nb);
      var idx := TreeIndex.IndexOf(nb);
      BinFacts(S(), idx, size);
      ghost var tree := trees[idx];
      var t := treebins[idx];
      if t != 0 {
        if nb < SIZE_LIMIT {
          BinRange(nb);
          TreeIndex.PathStart(nb, idx);
        }
        ghost var sub, lo, k, p;
        t, v, rsize, sub, lo, k,
          p := SearchBin(t, nb, TreeIndex.StartWord(nb, idx), size, tree, TreeIndex.BinLo(idx), TreeIndex.BinBits(idx),
          TreeBinAt(idx));
        if t != 0 || v != 0 {
          ghost var v0, rsize0 := v, rsize;
          v, rsize := Leftmost(t, v, rsize, nb, size, tree, sub, lo, k, p);
          BestInBin(S(), idx, nb, v0, rsize0, v, rsize, t, sub, lo, k, p);
          return;
        }
        NothingFound(mem, tree, nb, v, rsize, sub, lo, k, p);
      } else {
        EmptyBin(tree, nb);
      }
      v, rsize := FindNext(idx, nb, size);
    }

    /** The part of tmalloc_large for an empty-handed search: the smallest chunk of the
        next non-empty tree bin. */
    method FindNext(idx: nat, nb: nat, size: map<int, nat>) returns (v: int, rsize: nat)
      requires Valid()
      requires MIN_LARGE_SIZE <= nb < WORD && idx == TreeIndex.IndexOf(nb) && idx < TreeIndex.NTREEBINS == |trees|
      requires forall y :: y in binned ==> y in size && size[y] == binned[y]
      requires forall x :: Has(trees[idx], x) ==> SizeOf(trees[idx], x) < nb
      ensures v == 0 ==> NoneFits(binned, nb)
      ensures v != 0 ==> IsBest(binned, nb, v) && rsize == binned[v] - nb
    {
      hide Ok, TreeOk, Located, SmallOk, Rep, Sound, Fit, Covered, Searchable, Within, IsBest, NoneFits,
        TreeIndex.IndexOf, TreeIndex.BinLo, TreeIndex.BinBits, P;
      v, rsize := 0, WORD - nb;
      MapInRange(S());
      var leftbits := set j | j in treemap && j > idx;
      assert forall i :: i in treemap && i > idx ==> i in leftbits;
      if leftbits != {} {
        var j := LeastBit(leftbits, 0);
        BinFacts(S(), j, size);
        var t := treebins[j];
        NextBin(S(), idx, j, nb);
        v, rsize := Leftmost(t, v, rsize, nb, size, trees[j], trees[j], TreeIndex.BinLo(j), TreeIndex.BinBits(j),
          TreeBinAt(j));
        BestInNext(S(), idx, j, nb, v, rsize);
      } else {
        NothingLeft(S(), idx, nb);
      }
    }

    /** The search part of tmalloc_small: the smallest binned large chunk. */
    method FindSmallest(nb: nat, size: map<int, nat>) returns (v: int, rsize: nat)
      requires Valid()
      requires nb < MIN_LARGE_SIZE && treemap != {}
      requires forall y :: y in binned ==> y in size && size[y] == binned[y]
      ensures IsBest(binned, MIN_LARGE_SIZE, v) && rsize == binned[v] - nb
    {
      hide Ok, TreeOk, Rep, Sound, IsBest, TreeIndex.IndexOf, TreeIndex.BinLo, TreeIndex.BinBits, P, Within;
      MapInRange(S());
      var i := LeastBit(treemap, 0);
      BinFacts(S(), i, size);
      ghost var tree, lo, k := trees[i], TreeIndex.BinLo(i), TreeIndex.BinBits(i);
      forall y | Has(tree, y) ensures size[y] >= MIN_LARGE_SIZE { BinOrder(S(), i, y); }
      v, rsize := SmallestWalk(treebins[i], nb, size, tree, lo, k, TreeBinAt(i));
      SmallestOverall(S(), i, v);
    }

    /** The walk of tmalloc_small down the leftmost path. */
    method SmallestWalk(root: int, nb: nat, size: map<int, nat>, ghost tree: Tree, ghost lo: nat, ghost k: nat,
                        ghost p: int)
      returns (v: int, rsize: nat)
      requires tree.Node? && Rep(mem, tree, root, p) && Sound(tree, lo, k) && Within(tree, tree) && nb < MIN_LARGE_SIZE
      requires forall y :: Has(tree, y) ==> y in size && MIN_LARGE_SIZE <= size[y] == SizeOf(tree, y) < SIZE_LIMIT
      ensures Has(tree, v) && rsize == SizeOf(tree, v) - nb && forall x :: Has(tree, x) ==>
          SizeOf(tree, v) <= SizeOf(tree, x)
    {
      hide Rep, Sound, P, Within, Covered, Searchable;
      var t := root;
      v := t;
      ghost var cur, cp := tree, p;
      ghost var clo: nat, ck: nat := lo, k;
      NodeFacts(mem, tree, cur, t, cp, clo, ck, size);
      rsize := size[t] - nb;
      SmallestStart(tree, t, clo, ck);
      while true
        invariant cur.Node? && Rep(mem, cur, t, cp) && Sound(cur, clo, ck) && Within(tree, cur)
        invariant Has(tree, v) && rsize == SizeOf(tree, v) - nb && rsize + nb <= cur.size
        invariant Covered(tree, 0, rsize + nb, cur, cur, clo, ck)
        decreases cur
      {
        NodeFacts(mem, tree, cur, t, cp, clo, ck, size);
        SearchableAll(rsize + nb, cur);
        LeftDown(mem, tree, 0, rsize + nb, cur, t, clo, ck);
        cp := t;
        if mem.c0[t] != 0 {
          cur := cur.l;
          t := mem.c0[t];
        } else {
          clo := clo + (if ck > 0 then P(ck - 1) else 0);
          cur := cur.r;
          t := mem.c1[t];
        }
        ck := if ck > 0 then ck - 1 else 0;
        if t == 0 {
          break;
        }
        NodeOfPointer(mem, cur, t, cp);
        NodeFacts(mem, tree, cur, t, cp, clo, ck, size);
        var trem := Sub(size[t], nb);
        SubSmall(size[t], nb);
        CoveredLess(tree, rsize + nb, if trem < rsize then trem + nb else rsize + nb, cur, clo, ck);
        if trem < rsize {
          rsize := trem;
          v := t;
        }
      }
      LeftEnd(mem, tree, 0, rsize + nb, cur, cp, clo, ck);
    }

    /** The walk of tmalloc_large down its own bin.  On return t points at the subtree
        still to be searched: the deepest right subtree not taken, or the node with
        the exact size. */
    method SearchBin(root: int, nb: nat, start: nat, size: map<int, nat>, ghost tree: Tree, ghost lo0: nat,
                     ghost k0: nat, ghost p0: int)
      returns (t: int, v: int, rsize: nat, ghost sub: Tree, ghost lo: nat, ghost k: nat, ghost p: int)
      requires MIN_LARGE_SIZE <= nb < WORD
      requires tree.Node? && Rep(mem, tree, root, p0) && Sound(tree, lo0, k0)
      requires nb < SIZE_LIMIT ==> TreeIndex.OnPath(start, nb, lo0, k0)
      requires forall y :: Has(tree, y) ==> y in size && size[y] == SizeOf(tree, y) < SIZE_LIMIT
      ensures Rep(mem, sub, t, p) && Sound(sub, lo, k) && Within(tree, sub)
      ensures Fit(tree, nb, v, rsize) && Covered(tree, nb, rsize, Leaf, sub, lo, k)
      ensures Searchable(nb, rsize, sub)
    {
      hide Rep, Sound, Fit, Covered, TreeIndex.OnPath, Searchable, P;
      t, v, rsize := root, 0, WORD - nb;
      var sizebits: nat := start;
      var rst := 0;
      ghost var rt, rlo: nat, rk: nat, rp := Leaf, 0, 0, 0;
      ghost var cur, clo: nat, ck: nat, cp := tree, lo0, k0, p0;
      FitStart(tree, nb);
      SearchStart(mem, tree, nb, rsize, lo0, k0);
      while true
        invariant cur.Node? && Rep(mem, cur, t, cp) && Sound(cur, clo, ck) && Within(tree, cur)
        invariant Rep(mem, rt, rst, rp) && Sound(rt, rlo, rk) && Within(tree, rt)
        invariant nb < SIZE_LIMIT ==> TreeIndex.OnPath(sizebits, nb, clo, ck) && (rt.Node? ==> clo + P(ck) <= rlo)
        invariant Fit(tree, nb, v, rsize) && Covered(tree, nb, rsize, cur, rt, rlo, rk) && rsize > 0
        decreases cur
      {
        NodeFacts(mem, tree, cur, t, cp, clo, ck, size);
        var trem := Sub(size[t], nb);
        NodeFits(tree, nb, cur, clo, ck, v, rsize, t, rt, rlo, rk);
        if trem < rsize {
          v := t;
          rsize := trem;
          if rsize == 0 {
            sub, lo, k, p := cur, clo, ck, cp;
            ExactFound(tree, nb, cur, clo, ck);
            return;
          }
        }
        var r := mem.c1[t];
        var bit := (sizebits / HALF) % 2;
        var next := if bit == 1 then mem.c1[t] else mem.c0[t];
        StepDown(mem, tree, nb, rsize, cur, t, clo, ck, sizebits, rt, rlo, rk);
        ghost var here := t;
        if r != 0 && r != next {
          rst := r;
          rt, rlo, rk, rp := cur.r, clo + P(ck - 1), ck - 1, t;
        }
        t := next;
        if bit == 1 {
          clo := clo + (if ck > 0 then P(ck - 1) else 0);
          cur := cur.r;
        } else {
          cur := cur.l;
        }
        ck, cp := if ck > 0 then ck - 1 else 0, here;
        assert Rep(mem, cur, t, cp);
        if t == 0 {
          assert Rep(mem, cur, 0, cp);
          t := rst;
          sub, lo, k, p := rt, rlo, rk, rp;
          SearchEnd(mem, tree, nb, rsize, cur, cp, clo, ck, (sizebits * 2) % WORD, rt, rlo, rk);
          return;
        }
        sizebits := (sizebits * 2) % WORD;
      }
    }

    /** The last loop of tmalloc_large: down the leftmost path of a subtree. */
    method Leftmost(t0: int, v0: int, rsize0: nat, nb: nat, size: map<int, nat>,
                    ghost tree: Tree, ghost sub: Tree, ghost lo: nat, ghost k: nat, ghost p: int)
      returns (v: int, rsize: nat)
      requires MIN_LARGE_SIZE <= nb < WORD
      requires Rep(mem, sub, t0, p) && Sound(sub, lo, k) && Within(tree, sub)
      requires forall y :: Has(tree, y) ==> y in size && size[y] == SizeOf(tree, y) < SIZE_LIMIT
      requires Fit(tree, nb, v0, rsize0) && Covered(tree, nb, rsize0, Leaf, sub, lo, k) && Searchable(nb, rsize0, sub)
      ensures Fit(tree, nb, v, rsize) && (v == 0 ==> v0 == 0)
      ensures forall x :: Has(tree, x) && SizeOf(tree, x) >= nb ==> rsize + nb <= SizeOf(tree, x)
    {
      hide Rep, Sound, Fit, Covered, Searchable, P;
      v, rsize := v0, rsize0;
      var t := t0;
      ghost var cur, clo: nat, ck: nat, cp := sub, lo, k, p;
      CoveredTurn(tree, nb, rsize, sub, lo, k);
      while t != 0
        invariant Rep(mem, cur, t, cp) && Sound(cur, clo, ck) && Within(tree, cur)
        invariant Fit(tree, nb, v, rsize) && (v == 0 ==> v0 == 0) && Covered(tree, nb, rsize, cur, cur, clo, ck)
          && Searchable(nb, rsize, cur)
        decreases cur
      {
        NodeOfPointer(mem, cur, t, cp);
        NodeFacts(mem, tree, cur, t, cp, clo, ck, size);
        var trem := Sub(size[t], nb);
        NodeFits(tree, nb, cur, clo, ck, v, rsize, t, cur, clo, ck);
        SearchableLess(nb, rsize, if trem < rsize then trem else rsize, cur);
        if trem < rsize {
          rsize := trem;
          v := t;
        }
        LeftDown(mem, tree, nb, rsize, cur, t, clo, ck);
        cp := t;
        if mem.c0[t] != 0 {
          cur := cur.l;
          t := mem.c0[t];
        } else {
          clo := clo + (if ck > 0 then P(ck - 1) else 0);
          cur := cur.r;
          t := mem.c1[t];
        }
        ck := if ck > 0 then ck - 1 else 0;
      }
      LeftEnd(mem, tree, nb, rsize, cur, cp, clo, ck);
    }
  }

  /** v is a smallest chunk among those of at least the given size. */
  ghost predicate IsBest(binned: map<int, nat>, nb: nat, v: int) {
    v in binned && binned[v] >= nb && forall x :: x in binned && binned[x] >= nb ==> binned[v] <= binned[x]
  }

  ghost predicate NoneFits(binned: map<int, nat>, nb: nat) {
    forall x :: x in binned ==> binned[x] < nb
  }

  /** The least set bit that is not below `from`, as lj_ffs finds it. */
  function LeastBit(s: set<nat>, from: nat): (r: nat)
    requires exists x :: x in s && from <= x
    ensures r in s && from <= r && forall x :: x in s && from <= x ==> r <= x
    requires forall x :: x in s ==> x < 32
    decreases 32 - from
  {
    if from in s then from else LeastBit(s, from + 1)
  }

  ghost function InsertedInBin(trees: seq<Tree>, s: nat, x: int): seq<Tree>
    requires MIN_LARGE_SIZE <= s < SIZE_LIMIT && |trees| == TreeIndex.NTREEBINS
  {
    BinRange(s);
    var i := TreeIndex.IndexOf(s);
    if Sound(trees[i], TreeIndex.BinLo(i), TreeIndex.BinBits(i)) then
      trees[i := Insert(trees[i], TreeIndex.BinLo(i), TreeIndex.BinBits(i), s, x)]
    else trees
  }

  function Without(s: seq<int>, x: int): seq<int>
    requires x in s
  {
    var i := Trie.IndexOf(s, x); s[..i] + s[i + 1..]
  }

  /** The writes of insert_small_chunk, on the whole table. */
  lemma SmallInserted(s: State, s': State, i: nat, p: int, f: int)
    requires Ok(s) && i < NSMALLBINS && 8 * i < MIN_LARGE_SIZE && p > 0 && p !in s.binned
    requires if i in s.smallmap then SmallBinAt(i) in s.mem.fd && f == s.mem.fd[SmallBinAt(i)] else f == SmallBinAt(i)
    requires var b := SmallBinAt(i);
             s'.mem == s.mem.(fd := s.mem.fd[b := p][p := f], bk := s.mem.bk[f := p][p := b])
    requires s' == s.(mem := s'.mem, smallmap := s.smallmap + {i}, smalls := s.smalls[i := [p] + s.smalls[i]],
      binned := s.binned[p := 8 * i])
    ensures Ok(s')
  {
    var b, small := SmallBinAt(i), s.smalls[i];
    assert SmallOk(s.mem, s.smallmap, small, s.binned, i);
    SmallInsertedRing(s.mem, s'.mem, small, b, p, f);
    assert [b] + ([p] + small) == [b, p] + small;
    hide Located, TreeOk, SameAt, IsRing;
    SmallStep(s, s', i);
  }

  lemma SmallInsertedRing(m: Memory, m': Memory, small: seq<int>, b: int, p: int, f: int)
    requires b < 0 < p && p !in small && forall y :: y in small ==> y > 0
    requires if small == [] then f == b else IsRing(m, [b] + small) && b in m.fd && f == m.fd[b]
    requires m' == m.(fd := m.fd[b := p][p := f], bk := m.bk[f := p][p := b])
    ensures IsRing(m', [b, p] + small)
    ensures forall y :: y != b && y !in small && y != p ==> SameAt(m, m', y)
  {
    if small == [] {
      assert [b, p] + small == [b, p];
    } else {
      var ring := [b] + small;
      LinkBehindRing(m, ring, p);
      assert [b, p] + ring[1..] == [b, p] + small;
      RingFields(m, ring, 0);
      assert f == small[0] && f in small;
    }
  }

  lemma SmallLinks(s: State, p: int)
    requires Ok(s) && p in s.binned && s.binned[p] < MIN_LARGE_SIZE
    ensures var i := s.binned[p] / 8;
      && i < NSMALLBINS && s.binned[p] == 8 * i && p in s.smalls[i] && p in s.mem.fd && p in s.mem.bk
      && IsRing(s.mem, [SmallBinAt(i)] + s.smalls[i])
      && (s.mem.fd[p] == s.mem.bk[p] <==> s.smalls[i] == [p])
  {
    assert Located(s.smalls, s.trees, p, s.binned[p]);
    var i := s.binned[p] / 8;
    assert SmallOk(s.mem, s.smallmap, s.smalls[i], s.binned, i);
    var ring := [SmallBinAt(i)] + s.smalls[i];
    var j := Trie.IndexOf(s.smalls[i], p);
    assert ring[j + 1] == p;
    RingFields(s.mem, ring, j + 1);
  }

  lemma FirstLink(s: State, i: nat)
    requires Ok(s) && i in s.smallmap
    ensures i < NSMALLBINS && s.smalls[i] != [] && s.smalls[i][0] in s.mem.bk
      && s.mem.bk[s.smalls[i][0]] == SmallBinAt(i)
  {
    assert SmallOk(s.mem, s.smallmap, s.smalls[i], s.binned, i);
    RingFields(s.mem, [SmallBinAt(i)] + s.smalls[i], 1);
  }

  /** The writes of the small unlink macros, on the whole table. */
  lemma SmallRemoved(s: State, s': State, p: int)
    requires Ok(s) && p in s.binned && s.binned[p] < MIN_LARGE_SIZE && s.binned[p] / 8 < NSMALLBINS
      && p in s.smalls[s.binned[p] / 8]
    requires p in s.mem.fd && p in s.mem.bk
    requires var i := s.binned[p] / 8;
      && s' == s.(mem := s'.mem, smallmap := s'.smallmap, smalls := s.smalls[i := Without(s.smalls[i], p)],
        binned := s.binned - {p})
      && (if s.mem.fd[p] == s.mem.bk[p] then s'.smallmap == s.smallmap - {i} && s'.mem == s.mem
          else s'.smallmap == s.smallmap && s'.mem == Unlink(s.mem, p))
    ensures Ok(s')
  {
    var i := s.binned[p] / 8;
    SmallRemovedOk(s, s', i, p);
    forall y | y in s.binned && y !in s.smalls[i]
      ensures y in s'.binned && s'.binned[y] == s.binned[y] && y !in s'.smalls[i]
    {
    }
    forall y | y in s'.binned
      ensures if y in s'.smalls[i] then s'.binned[y] == 8 * i
        else y in s.binned && y !in s.smalls[i] && s'.binned[y] == s.binned[y]
    {
    }
    hide Without, Located, TreeOk, SmallOk, SameAt;
    SmallStep(s, s', i);
  }

  lemma SmallRemovedOk(s: State, s': State, i: nat, p: int)
    requires Ok(s) && p in s.binned && s.binned[p] < MIN_LARGE_SIZE && s.binned[p] / 8 == i < NSMALLBINS
      && p in s.smalls[i]
    requires p in s.mem.fd && p in s.mem.bk
    requires
      && s' == s.(mem := s'.mem, smallmap := s'.smallmap, smalls := s.smalls[i := Without(s.smalls[i], p)],
        binned := s.binned - {p})
      && (if s.mem.fd[p] == s.mem.bk[p] then s'.smallmap == s.smallmap - {i} && s'.mem == s.mem
          else s'.smallmap == s.smallmap && s'.mem == Unlink(s.mem, p))
    ensures SmallOk(s'.mem, s'.smallmap, s'.smalls[i], s'.binned, i)
    ensures forall y :: y in s'.smalls[i] <==> y in s.smalls[i] && y != p
    ensures forall y :: y != SmallBinAt(i) && y !in s.smalls[i] ==> SameAt(s.mem, s'.mem, y)
    ensures forall y :: y in s.smalls[i] ==> y in s.binned && s.binned[y] == 8 * i
  {
    hide TreeOk, Located, RingDrop;
    SmallLinks(s, p);
    var b, small := SmallBinAt(i), s.smalls[i];
    assert SmallOk(s.mem, s.smallmap, small, s.binned, i);
    WithoutRing(b, small, p);
    SmallRemovedRing(s.mem, s'.mem, small, i, p);
    hide Unlink, Without, RingDrop;
    SmallRemovedFrame(s.mem, s'.mem, p, [b] + small);
    assert forall y :: y in [b] + small <==> y == b || y in small;
  }

  lemma SmallRemovedRing(m: Memory, m': Memory, small: seq<int>, i: nat, p: int)
    requires IsRing(m, [SmallBinAt(i)] + small) && p in small && p in m.fd && p in m.bk
    requires if small == [p] then m' == m else m' == Unlink(m, p)
    ensures Without(small, p) != [] ==> IsRing(m', [SmallBinAt(i)] + Without(small, p))
  {
    WithoutRing(SmallBinAt(i), small, p);
    if small != [p] {
      assert |[SmallBinAt(i)] + small| > 1;
      UnlinkRing(m, [SmallBinAt(i)] + small, p);
    }
  }

  lemma SmallRemovedFrame(m: Memory, m': Memory, p: int, ring: seq<int>)
    requires IsRing(m, ring) && p in ring && p in m.fd && p in m.bk && (m' == m || m' == Unlink(m, p))
    ensures forall y :: y !in ring ==> SameAt(m, m', y)
  {
    forall y | y !in ring
      ensures SameAt(m, m', y)
    {
      UnlinkFrame(m, p, ring, y);
    }
  }

  lemma UnlinkFrame(m: Memory, p: int, ring: seq<int>, y: int)
    requires IsRing(m, ring) && p in ring && p in m.fd && p in m.bk && y !in ring
    ensures SameAt(m, Unlink(m, p), y)
  {
    RingFields(m, ring, Trie.IndexOf(ring, p));
  }

  lemma WithoutRing(b: int, small: seq<int>, p: int)
    requires p in small && Distinct([b] + small)
    ensures b != p && b !in small && p in [b] + small
    ensures [b] + Without(small, p) == RingDrop([b] + small, p)
    ensures forall y :: y in Without(small, p) <==> y in small && y != p
    ensures Without(small, p) == [] <==> small == [p]
  {
    TailApart(b, small);
    WithoutIsDrop(b, small, p);
    RingDropDistinct([b] + small, p);
    var d, w := RingDrop([b] + small, p), Without(small, p);
    hide RingDrop, Without;
    forall y
      ensures y in w <==> y in small && y != p
    {
      assert y in d <==> y == b || y in w;
      assert y in [b] + small <==> y == b || y in small;
      if y == b {
        TailApart(b, w);
      }
    }
    if w == [] {
      assert forall i :: 0 <= i < |small| ==> small[i] == p;
    }
  }

  lemma TailApart(b: int, small: seq<int>)
    requires Distinct([b] + small)
    ensures b !in small && Distinct(small)
  {
    var ring := [b] + small;
    assert ring[0] == b && forall i :: 0 <= i < |small| ==> small[i] == ring[i + 1];
    forall i | 0 <= i < |small|
      ensures small[i] != b
    {
      assert ring[i + 1] == small[i] && ring[0] != ring[i + 1];
    }
  }

  lemma WithoutIsDrop(b: int, small: seq<int>, p: int)
    requires p in small && b != p
    ensures |[b] + small| > 1 && p in [b] + small && [b] + Without(small, p) == RingDrop([b] + small, p)
    ensures Without(small, p) == [] ==> |small| == 1
  {
    IndexBehind(b, small, p);
    CutBehind(b, small, Trie.IndexOf(small, p));
    hide Trie.IndexOf;
    DropLater([b] + small, p);
    WithoutLength(small, p);
    hide Without, RingDrop;
    WithoutIs(small, p);
  }

  lemma DropLater(ring: seq<int>, p: int)
    requires |ring| > 1 && p in ring && ring[0] != p
    ensures RingDrop(ring, p) == ring[..Trie.IndexOf(ring, p)] + ring[Trie.IndexOf(ring, p) + 1..]
  {
    hide Trie.IndexOf;
  }

  lemma WithoutIs(small: seq<int>, p: int)
    requires p in small
    ensures Without(small, p) == small[..Trie.IndexOf(small, p)] + small[Trie.IndexOf(small, p) + 1..]
  {
    hide Trie.IndexOf;
  }

  lemma WithoutLength(small: seq<int>, p: int)
    requires p in small
    ensures |Without(small, p)| == |small| - 1
  {
    hide Trie.IndexOf;
  }

  lemma CutBehind(b: int, small: seq<int>, j: nat)
    requires j < |small|
    ensures [b] + (small[..j] + small[j + 1..]) == ([b] + small)[..j + 1] + ([b] + small)[j + 2..]
  {
  }

  lemma IndexBehind(b: int, small: seq<int>, p: int)
    requires p in small && b != p
    ensures p in [b] + small && Trie.IndexOf([b] + small, p) == Trie.IndexOf(small, p) + 1 && ([b] + small)[0] == b
  {
    assert ([b] + small)[1..] == small && p in [b] + small;
  }

  // ----- tree bins

  lemma BinRange(s: nat)
    requires MIN_LARGE_SIZE <= s < SIZE_LIMIT
    ensures var i := TreeIndex.IndexOf(s);
      && i < TreeIndex.NTREEBINS && TreeIndex.Bracketed(s, i)
      && TreeIndex.BinLo(i) <= s < TreeIndex.BinLo(i) + P(TreeIndex.BinBits(i))
  {
    hide TreeIndex.IndexOf, TreeIndex.Bracketed, TreeIndex.BinLo, TreeIndex.BinBits;
    TreeIndex.IndexBrackets(s);
    BinHolds(s, TreeIndex.IndexOf(s));
  }

  lemma BinHolds(s: nat, i: nat)
    requires MIN_LARGE_SIZE <= s < SIZE_LIMIT && TreeIndex.Bracketed(s, i)
    ensures i < TreeIndex.NTREEBINS && TreeIndex.BinLo(i) <= s < TreeIndex.BinLo(i) + P(TreeIndex.BinBits(i))
  {
    if i < TreeIndex.NTREEBINS - 1 {
      hide P;
      TreeIndex.MinSizeStep(i);
    } else {
      PValues();
    }
  }

  lemma LargeAbsent(s: State, i: nat, x: int)
    requires Ok(s) && i < TreeIndex.NTREEBINS && x !in s.binned
    ensures |s.trees| == |s.treebins| == TreeIndex.NTREEBINS
    ensures TreeOk(s.mem, s.treemap, s.treebins[i], s.trees[i], s.index, s.binned, i) && !Has(s.trees[i], x)
    ensures Rep(s.mem, s.trees[i], s.treebins[i], TreeBinAt(i))
      && Sound(s.trees[i], TreeIndex.BinLo(i), TreeIndex.BinBits(i))
    ensures i in s.treemap <==> s.trees[i].Node?
  {
  }

  /** The writes that make x the first chunk of an empty tree bin. */
  lemma FirstFrame(m: Memory, m': Memory, x: int, s: nat, p: int, t: Tree, lo: nat, k: nat)
    requires x > 0 && p != 0 && t.Leaf? && lo <= s < lo + P(k) && Sound(t, lo, k)
    requires m' == Memory(m.fd[x := x], m.bk[x := x], m.c0[x := 0], m.c1[x := 0], m.parent[x := p])
    ensures Rep(m', Insert(t, lo, k, s, x), x, p)
    ensures forall y :: y != x ==> SameAt(m, m', y)
  {
    assert [x][0] == x;
    assert Rep(m', Node([x], s, Leaf, Leaf), x, p);
  }

  lemma TreeSizes(s: State, i: nat, size: map<int, nat>)
    requires Ok(s) && i < TreeIndex.NTREEBINS
    requires forall y :: y in s.binned ==> y in size && size[y] == s.binned[y]
    ensures forall y :: Has(s.trees[i], y) ==> y in size && size[y] == SizeOf(s.trees[i], y)
  {
    assert TreeOk(s.mem, s.treemap, s.treebins[i], s.trees[i], s.index, s.binned, i);
  }

  /** What the walk may read at the node it stands on, and where it may go. */
  /** The walk of insert_large_chunk has come to the node cur of the trie: word steers it
      on, and it ends where the walk from the root ends. */
  ghost predicate Walking(m: Memory, tree: Tree, lo: nat, k: nat, cur: Tree, clo: nat, ck: nat, t: int, cp: int,
                          word: nat,
                    s: nat, x: int, size: map<int, nat>) {
    tree.Node? && Sound(tree, lo, k) && lo <= s < lo + P(k)
    && cur.Node? && Rep(m, cur, t, cp) && Sound(cur, clo, ck) && TreeIndex.OnPath(word, s, clo, ck)
    && clo <= s < clo + P(ck) && Spot(cur, clo, ck, s) == Spot(tree, lo, k, s)
    && !Has(cur, x) && forall y :: Has(cur, y) ==> y in size && size[y] == SizeOf(cur, y)
  }

  lemma WalkStart(m: Memory, tree: Tree, lo: nat, k: nat, root: int, p: int, start: nat, s: nat, x: int,
                  size: map<int, nat>)
    requires tree.Node? && Rep(m, tree, root, p) && Sound(tree, lo, k) && TreeIndex.OnPath(start, s, lo, k)
    requires !Has(tree, x) && forall y :: Has(tree, y) ==> y in size && size[y] == SizeOf(tree, y)
    ensures Walking(m, tree, lo, k, tree, lo, k, root, p, start, s, x, size)
  {
    hide Rep, Sound, Spot;
    TreeIndex.OnPathRange(start, s, lo, k);
  }

  lemma WalkFacts(m: Memory, tree: Tree, lo: nat, k: nat, cur: Tree, clo: nat, ck: nat, t: int, cp: int, word: nat,
                  s: nat, x: int, size: map<int, nat>)
    requires Walking(m, tree, lo, k, cur, clo, ck, t, cp, word, s, x, size)
    ensures cur.Node? && cur.ring != [] && t == cur.ring[0] && t != x && t > 0 && t in size && size[t] == cur.size
    ensures t in m.c0 && t in m.c1 && t in m.fd
    ensures cur.size != s ==> ck > 0
  {
    hide Spot, TreeIndex.OnPath;
    assert t in cur.ring && Has(cur, t) && SizeOf(cur, t) == cur.size;
    RingFields(m, cur.ring, 0);
    Parts(cur);
  }

  /** One more step down, into the child that the top bit of the word selects. */
  lemma WalkOn(m: Memory, tree: Tree, lo: nat, k: nat, cur: Tree, clo: nat, ck: nat, t: int, cp: int, word: nat,
               s: nat, x: int, size: map<int, nat>)
    requires Walking(m, tree, lo, k, cur, clo, ck, t, cp, word, s, x, size)
    requires cur.Node? && cur.size != s && ck > 0 && t in m.c0 && t in m.c1
    requires (if (word / HALF) % 2 == 1 then m.c1[t] else m.c0[t]) != 0
    ensures if (word / HALF) % 2 == 1
            then Walking(m, tree, lo, k, cur.r, clo + P(ck - 1), ck - 1, m.c1[t], t, (word * 2) % WORD, s, x, size)
            else Walking(m, tree, lo, k, cur.l, clo, ck - 1, m.c0[t], t, (word * 2) % WORD, s, x, size)
  {
    hide P, TreeIndex.OnPath;
    TreeIndex.PathStep(word, s, clo, ck);
    var upper := (word / HALF) % 2 == 1;
    TreeIndex.OnPathRange((word * 2) % WORD, s, if upper then clo + P(ck - 1) else clo, ck - 1);
    RootIn(m, cur.l, m.c0[t], t);
    RootIn(m, cur.r, m.c1[t], t);
    Parts(cur);
  }

  /** The walk is over: the writes at its end represent the trie with x inserted. */
  lemma WalkEnd(m: Memory, m': Memory, tree: Tree, lo: nat, k: nat, root: int, p: int, cur: Tree, clo: nat, ck: nat,
                t: int, cp: int, word: nat, s: nat, x: int, size: map<int, nat>)
    requires Rep(m, tree, root, p) && x > 0 && !Has(tree, x)
    requires Walking(m, tree, lo, k, cur, clo, ck, t, cp, word, s, x, size)
    requires cur.Node? && cur.ring != [] && cur.ring[0] in m.fd && t in m.c0 && t in m.c1
    requires cur.size == s || (if (word / HALF) % 2 == 1 then m.c1[t] else m.c0[t]) == 0
    requires m' == Attach(m, cur, cur.size != s && (word / HALF) % 2 == 1, s, x)
    ensures Rep(m', Insert(tree, lo, k, s, x), root, p)
    ensures forall y :: !Has(tree, y) && y != x ==> SameAt(m, m', y)
  {
    hide P, TreeIndex.OnPath, Attach, Insert, SameAt;
    WalkFacts(m, tree, lo, k, cur, clo, ck, t, cp, word, s, x, size);
    if cur.size != s {
      TreeIndex.PathStep(word, s, clo, ck);
      RootIn(m, cur.l, m.c0[t], t);
      RootIn(m, cur.r, m.c1[t], t);
    }
    Attached(m, m', tree, root, p, lo, k, s, x);
  }

  lemma Attached(m: Memory, m': Memory, tree: Tree, root: int, p: int, lo: nat, k: nat, s: nat, x: int)
    requires tree.Node? && Rep(m, tree, root, p) && Sound(tree, lo, k) && lo <= s < lo + P(k)
    requires x > 0 && !Has(tree, x)
    requires Spot(tree, lo, k, s).0.ring != [] && Spot(tree, lo, k, s).0.ring[0] in m.fd
    requires var (u, upper) := Spot(tree, lo, k, s);
             m' == Attach(m, u, if u.size == s then false else upper, s, x)
    ensures Rep(m', Insert(tree, lo, k, s, x), root, p)
    ensures forall y :: !Has(tree, y) && y != x ==> SameAt(m, m', y)
  {
    var (u, upper) := Spot(tree, lo, k, s);
    AttachRep(m, tree, root, p, lo, k, s, x);
    AttachSpot(m, tree, root, p, lo, k, s);
    forall y | !Has(tree, y) && y != x
      ensures SameAt(m, m', y)
    {
      assert u.ring[0] in u.ring;
      AttachFrame(m, u, upper, s, x, y);
    }
  }

  lemma LargeInserted(s: State, s': State, i: nat, x: int, size: nat)
    requires Ok(s) && x > 0 && x !in s.binned && size % 8 == 0 && MIN_LARGE_SIZE <= size < SIZE_LIMIT
      && i == TreeIndex.IndexOf(size)
    requires i < TreeIndex.NTREEBINS && Sound(s.trees[i], TreeIndex.BinLo(i), TreeIndex.BinBits(i))
    requires TreeIndex.BinLo(i) <= size < TreeIndex.BinLo(i) + P(TreeIndex.BinBits(i))
    requires var t' := Insert(s.trees[i], TreeIndex.BinLo(i), TreeIndex.BinBits(i), size, x);
      && s' == s.(mem := s'.mem, treemap := s.treemap + {i}, treebins := s'.treebins, index := s.index[x := i],
                  trees := s.trees[i := t'], binned := s.binned[x := size])
      && |s'.treebins| == TreeIndex.NTREEBINS && s'.treebins == s.treebins[i := s'.treebins[i]]
      && Rep(s'.mem, t', s'.treebins[i], TreeBinAt(i))
    requires forall y :: !Has(s.trees[i], y) && y != x ==> SameAt(s.mem, s'.mem, y)
    ensures Ok(s')
  {
    hide Insert, Sound, Rep, SameAt, SmallOk, TreeOk, Located, TreeIndex.BinLo, TreeIndex.BinBits, TreeIndex.IndexOf, P;
    LargeInsertedOk(s, s', i, x, size);
    forall y | y in s.binned ensures s.binned[y] % 8 == 0 { BinnedAligned(s, y); }
    LargeStepFacts(s, s', i);
    TreeStep(s, s', i);
  }

  lemma LargeInsertedOk(s: State, s': State, i: nat, x: int, size: nat)
    requires Ok(s) && x > 0 && x !in s.binned && MIN_LARGE_SIZE <= size < SIZE_LIMIT && i == TreeIndex.IndexOf(size)
    requires i < TreeIndex.NTREEBINS && Sound(s.trees[i], TreeIndex.BinLo(i), TreeIndex.BinBits(i))
    requires TreeIndex.BinLo(i) <= size < TreeIndex.BinLo(i) + P(TreeIndex.BinBits(i))
    requires |s'.trees| == |s'.treebins| == TreeIndex.NTREEBINS
    requires var t' := Insert(s.trees[i], TreeIndex.BinLo(i), TreeIndex.BinBits(i), size, x);
      && s'.treemap == s.treemap + {i} && s'.index == s.index[x := i] && s'.binned == s.binned[x := size]
      && s'.trees[i] == t' && Rep(s'.mem, t', s'.treebins[i], TreeBinAt(i))
    ensures TreeOk(s'.mem, s'.treemap, s'.treebins[i], s'.trees[i], s'.index, s'.binned, i)
    ensures Adds(s.trees[i], s'.trees[i], x, size)
    ensures forall y :: Has(s.trees[i], y) ==> y in s.binned
  {
    LargeAbsent(s, i, x);
    InsertSound(s.trees[i], TreeIndex.BinLo(i), TreeIndex.BinBits(i), size, x);
    assert s'.trees[i].Node?;
    AddedFacts(s, s', i, x, size);
  }

  lemma AddedFacts(s: State, s': State, i: nat, x: int, size: nat)
    requires i < TreeIndex.NTREEBINS && |s.trees| == |s.treebins| == |s'.trees| == |s'.treebins| == TreeIndex.NTREEBINS
    requires TreeOk(s.mem, s.treemap, s.treebins[i], s.trees[i], s.index, s.binned, i)
    requires Adds(s.trees[i], s'.trees[i], x, size) && LargeIn(size, i)
    requires s'.index == s.index[x := i] && s'.binned == s.binned[x := size]
    ensures forall y :: Has(s'.trees[i], y) ==>
      y in s'.binned && s'.binned[y] == SizeOf(s'.trees[i], y) && LargeIn(s'.binned[y], i) && y in s'.index
        && s'.index[y] == i
  {
  }

  lemma BinnedAligned(s: State, y: int)
    requires Ok(s)
    ensures y in s.binned ==> s.binned[y] % 8 == 0 && y > 0
  {
    assert y in s.binned ==> Located(s.smalls, s.trees, y, s.binned[y]);
  }

  lemma LargeStepFacts(s: State, s': State, i: nat)
    requires Ok(s) && i < TreeIndex.NTREEBINS && |s'.trees| == |s'.treebins| == TreeIndex.NTREEBINS
    requires TreeOk(s'.mem, s'.treemap, s'.treebins[i], s'.trees[i], s'.index, s'.binned, i)
    requires forall y :: y in s'.binned ==> s'.binned[y] % 8 == 0
    ensures forall y :: Has(s'.trees[i], y) ==> y > 0 && y in s'.binned && s'.binned[y] % 8 == 0
  {
    forall y | Has(s'.trees[i], y)
      ensures y > 0
    {
      RepPositive(s'.mem, s'.trees[i], s'.treebins[i], TreeBinAt(i), y);
    }
  }

  // ----- unlinking from a tree bin

  lemma RingOfNode(m: Memory, u: Tree, pu: int, x: int)
    requires u.Node? && Tidy(u) && x in u.ring && Rep(m, u, u.ring[0], pu)
    ensures x in m.fd && x in m.bk && (m.bk[x] == x <==> |u.ring| == 1)
    ensures |u.ring| == 1 ==> x == u.ring[0]
  {
    RingFields(m, u.ring, Trie.IndexOf(u.ring, x));
  }

  lemma RepChildren(m: Memory, u: Tree, x: int, p: int)
    requires u.Node? && Rep(m, u, x, p) && Tidy(u)
    ensures x == u.ring[0] && x in m.c0 && x in m.c1
    ensures Rep(m, u.l, m.c0[x], x) && Rep(m, u.r, m.c1[x], x)
    ensures (m.c0[x] == 0 <==> u.l.Leaf?) && (m.c1[x] == 0 <==> u.r.Leaf?)
    ensures Tidy(u.l) && Tidy(u.r)
  {
    RootIn(m, u.l, m.c0[x], x);
    RootIn(m, u.r, m.c1[x], x);
  }

  /** All that unlink_large_chunk relies on about the chunk x. */
  lemma LargeLinks(s: State, x: int, i: nat)
    requires Ok(s) && x in s.binned && MIN_LARGE_SIZE <= s.binned[x] && i == TreeIndex.IndexOf(s.binned[x])
    ensures i < TreeIndex.NTREEBINS == |s.trees| == |s.treebins| && Has(s.trees[i], x) && Tidy(s.trees[i])
      && x in s.index && s.index[x] == i
    ensures Rep(s.mem, s.trees[i], s.treebins[i], TreeBinAt(i)) && i in s.treemap
    ensures var u, pu := NodeOf(s.trees[i], x), ParentOf(s.trees[i], TreeBinAt(i), x);
      && Tidy(u) && Rep(s.mem, u, u.ring[0], pu) && pu != 0 && !Has(u, pu)
      && x in s.mem.parent && s.mem.parent[x] == (if x == u.ring[0] then pu else 0)
      && (x == s.treebins[i] <==> x == u.ring[0] && x in s.trees[i].ring)
      && (x in s.trees[i].ring ==> u == s.trees[i] && pu == TreeBinAt(i))
      && (x !in s.trees[i].ring ==>
          pu in s.mem.c0 && pu in s.mem.c1 && (s.mem.c0[pu] == u.ring[0] || s.mem.c1[pu] == u.ring[0]))
  {
    assert Located(s.smalls, s.trees, x, s.binned[x]);
    var tree, root := s.trees[i], s.treebins[i];
    assert TreeOk(s.mem, s.treemap, root, tree, s.index, s.binned, i);
    SoundTidy(tree, TreeIndex.BinLo(i), TreeIndex.BinBits(i));
    RepNodeOf(s.mem, tree, root, TreeBinAt(i), x);
    NodeOfIn(tree, TreeBinAt(i), x);
    var u, pu := NodeOf(tree, x), ParentOf(tree, TreeBinAt(i), x);
    if Has(tree, TreeBinAt(i)) {
      RepPositive(s.mem, tree, root, TreeBinAt(i), TreeBinAt(i));
    }
    assert Has(u, pu) ==> Has(tree, pu);
    hide Ok, Located, TreeOk, Sound;
    ParentField(s.mem, u, pu, x);
    assert tree.ring[0] in tree.ring && root == tree.ring[0];
    if x == root {
      assert u == tree;
    }
  }

  lemma ParentField(m: Memory, u: Tree, pu: int, x: int)
    requires u.Node? && Tidy(u) && Rep(m, u, u.ring[0], pu) && x in u.ring
    ensures x in m.parent && m.parent[x] == (if x == u.ring[0] then pu else 0)
  {
    var j := Trie.IndexOf(u.ring, x);
    if j > 0 {
      assert Detached(m, u.ring[j]);
    }
  }

  /** The three ways x can leave as the first chunk of its node. */
  lemma ReplaceFacts(m: Memory, u: Tree, pu: int, x: int, isRoot: bool)
    requires u.Node? && Tidy(u) && x == u.ring[0] && Rep(m, u, x, pu) && !Has(u, pu) && pu != 0
    requires !isRoot ==> pu in m.c0 && pu in m.c1 && (m.c0[pu] == x || m.c1[pu] == x)
    requires x in m.fd && x in m.bk
    ensures |u.ring| == 1 && (u.l.Node? || u.r.Node?) ==> Last(u).ring != []
    ensures var m1 := Taken(m, u, x); var r := Replacement(m, u, x);
      && (!isRoot ==> pu in m1.c0)
      && var m2 := Redirect(m1, pu, x, r, isRoot);
      && x in m2.c0 && x in m2.c1
      && var m3 := if r == 0 then m2 else Adopt(m2, x, r, pu);
      && Rep(m3, RemoveHere(u, x), r, pu)
      && (!isRoot ==> Redirected(m, m3, pu, x, r))
      && forall y :: !Has(u, y) && (y != pu || isRoot) ==> SameAt(m, m3, y)
  {
    if |u.ring| > 1 {
      UnlinkHead(m, u, pu, x, isRoot);
    } else {
      assert u.ring == [x];
      if u.l.Leaf? && u.r.Leaf? {
        RepChildren(m, u, x, pu);
        UnlinkLeaf(m, u, pu, x, isRoot);
      } else {
        UnlinkInner(m, u, pu, x, isRoot);
      }
    }
  }

  /** Memory and replacement after the first part of unlink_large_chunk. */
  ghost function Taken(m: Memory, u: Tree, x: int): Memory
    requires u.Node? && Tidy(u) && x in m.fd && x in m.bk
  {
    if |u.ring| > 1 then Unlink(m, x)
    else if u.l.Leaf? && u.r.Leaf? then m
    else ClearSlot(m, LastSlot(u))
  }

  ghost function Replacement(m: Memory, u: Tree, x: int): int
    requires u.Node? && Tidy(u) && x in m.bk
    requires |u.ring| == 1 && (u.l.Node? || u.r.Node?) ==> Last(u).ring != []
  {
    if |u.ring| > 1 then m.bk[x]
    else if u.l.Leaf? && u.r.Leaf? then 0
    else Last(u).ring[0]
  }

  /** The whole tree after the chunk x left as the first of its node. */
  lemma LargeHeadCut(s: State, m': Memory, x: int, r: int, i: nat)
    requires Ok(s) && x in s.binned && MIN_LARGE_SIZE <= s.binned[x] && i == TreeIndex.IndexOf(s.binned[x])
    requires i < TreeIndex.NTREEBINS && Has(s.trees[i], x) && Tidy(s.trees[i])
    requires var u, pu := NodeOf(s.trees[i], x), ParentOf(s.trees[i], TreeBinAt(i), x);
      var isRoot := x == s.treebins[i];
      && x in u.ring && Tidy(u) && x == u.ring[0]
      && Rep(m', RemoveHere(u, x), r, pu)
      && (!isRoot ==> pu in s.mem.c0 && pu in s.mem.c1 && Redirected(s.mem, m', pu, x, r))
      && (forall y :: !Has(u, y) && (y != pu || isRoot) ==> SameAt(s.mem, m', y))
    ensures Rep(m', Remove(s.trees[i], x), if x == s.treebins[i] then r else s.treebins[i], TreeBinAt(i))
    ensures forall y :: !Has(s.trees[i], y) ==> SameAt(s.mem, m', y)
    ensures x == s.treebins[i] ==> (Remove(s.trees[i], x).Leaf? <==> r == 0)
    ensures x != s.treebins[i] ==> Remove(s.trees[i], x).Node?
  {
    LargeLinks(s, x, i);
    var tree, p := s.trees[i], TreeBinAt(i);
    var u, pu := NodeOf(tree, x), ParentOf(tree, p, x);
    NodeOfIn(tree, p, x);
    hide Ok, Located, TreeOk, SmallOk;
    CutRep(s.mem, m', tree, s.treebins[i], p, x, r);
    forall y | !Has(tree, y)
      ensures SameAt(s.mem, m', y)
    {
      assert !Has(u, y);
    }
    RootIn(m', Remove(tree, x), if x in tree.ring then r else s.treebins[i], p);
    assert x !in tree.ring ==> Remove(tree, x).Node?;
  }

  /** The whole tree after a later member x left its ring. */
  lemma LargeMemberCut(s: State, m': Memory, x: int, i: nat)
    requires Ok(s) && x in s.binned && MIN_LARGE_SIZE <= s.binned[x] && i == TreeIndex.IndexOf(s.binned[x])
    requires i < TreeIndex.NTREEBINS && Has(s.trees[i], x) && Tidy(s.trees[i])
    requires var u := NodeOf(s.trees[i], x);
      && x in u.ring && Tidy(u) && x != u.ring[0] && x in s.mem.fd && x in s.mem.bk
      && m' == Unlink(s.mem, x)
    ensures Rep(m', Remove(s.trees[i], x), s.treebins[i], TreeBinAt(i))
    ensures forall y :: !Has(s.trees[i], y) ==> SameAt(s.mem, m', y)
    ensures Remove(s.trees[i], x).Node?
  {
    LargeLinks(s, x, i);
    var tree, p := s.trees[i], TreeBinAt(i);
    var u, pu := NodeOf(tree, x), ParentOf(tree, p, x);
    NodeOfIn(tree, p, x);
    hide Ok, Located, TreeOk, SmallOk;
    UnlinkMember(s.mem, u, pu, x);
    assert forall y :: y in u.ring ==> Has(u, y);
    if x !in tree.ring {
      assert SameAt(s.mem, m', pu);
      assert Redirected(s.mem, m', pu, u.ring[0], u.ring[0]);
    } else {
      assert u == tree && s.treebins[i] == u.ring[0];
    }
    CutRep(s.mem, m', tree, s.treebins[i], p, x, u.ring[0]);
    assert Remove(tree, x).Node?;
  }

  lemma LargeRemoved(s: State, s': State, x: int, i: nat)
    requires Ok(s) && x in s.binned && MIN_LARGE_SIZE <= s.binned[x] && i == TreeIndex.IndexOf(s.binned[x])
    requires i < TreeIndex.NTREEBINS && Has(s.trees[i], x)
    requires var t' := Remove(s.trees[i], x);
      && s' == s.(mem := s'.mem, treemap := s'.treemap, treebins := s'.treebins, trees := s.trees[i := t'],
        binned := s.binned - {x})
      && |s'.treebins| == TreeIndex.NTREEBINS && s'.treebins == s.treebins[i := s'.treebins[i]]
      && s'.treemap == (if t'.Leaf? then s.treemap - {i} else s.treemap)
      && Rep(s'.mem, t', s'.treebins[i], TreeBinAt(i))
    requires forall y :: !Has(s.trees[i], y) ==> SameAt(s.mem, s'.mem, y)
    ensures Ok(s')
  {
    LargeRemovedOk(s, s', x, i);
    hide Remove, Sound, Rep, SameAt, SmallOk, TreeOk, Located, TreeIndex.BinLo, TreeIndex.BinBits;
    forall y | y in s.binned ensures s.binned[y] % 8 == 0 { BinnedAligned(s, y); }
    LargeStepFacts(s, s', i);
    TreeStep(s, s', i);
  }

  lemma LargeRemovedOk(s: State, s': State, x: int, i: nat)
    requires Ok(s) && x in s.binned && MIN_LARGE_SIZE <= s.binned[x] && i == TreeIndex.IndexOf(s.binned[x])
    requires i < TreeIndex.NTREEBINS && Has(s.trees[i], x)
    requires |s'.trees| == |s'.treebins| == TreeIndex.NTREEBINS
    requires var t' := Remove(s.trees[i], x);
      && s'.treemap == (if t'.Leaf? then s.treemap - {i} else s.treemap)
      && s'.index == s.index && s'.binned == s.binned - {x}
      && s'.trees[i] == t' && Rep(s'.mem, t', s'.treebins[i], TreeBinAt(i))
    ensures TreeOk(s'.mem, s'.treemap, s'.treebins[i], s'.trees[i], s'.index, s'.binned, i)
    ensures Drops(s.trees[i], s'.trees[i], [x])
    ensures forall y :: Has(s.trees[i], y) ==> y in s.binned
  {
    assert TreeOk(s.mem, s.treemap, s.treebins[i], s.trees[i], s.index, s.binned, i);
    RemoveSound(s.trees[i], TreeIndex.BinLo(i), TreeIndex.BinBits(i), x);
    assert i in s.treemap;
    RemovedFacts(s, s', x, i);
  }

  lemma RemovedFacts(s: State, s': State, x: int, i: nat)
    requires i < TreeIndex.NTREEBINS && |s.trees| == |s.treebins| == |s'.trees| == |s'.treebins| == TreeIndex.NTREEBINS
    requires TreeOk(s.mem, s.treemap, s.treebins[i], s.trees[i], s.index, s.binned, i)
    requires Drops(s.trees[i], s'.trees[i], [x])
    requires s'.index == s.index && s'.binned == s.binned - {x}
    ensures forall y :: Has(s'.trees[i], y) ==>
      y in s'.binned && s'.binned[y] == SizeOf(s'.trees[i], y) && LargeIn(s'.binned[y], i) && y in s'.index
        && s'.index[y] == i
  {
    assert x in [x];
  }

  // ----- best fit over all bins

  lemma BinFacts(s: State, i: nat, size: map<int, nat>)
    requires Ok(s) && i < TreeIndex.NTREEBINS
    requires forall y :: y in s.binned ==> y in size && size[y] == s.binned[y]
    ensures |s.trees| == |s.treebins| == TreeIndex.NTREEBINS && forall j :: j in s.treemap ==> j < TreeIndex.NTREEBINS
    ensures var tree := s.trees[i];
      && Rep(s.mem, tree, s.treebins[i], TreeBinAt(i)) && Sound(tree, TreeIndex.BinLo(i), TreeIndex.BinBits(i))
        && Within(tree, tree)
      && (i in s.treemap <==> tree.Node?) && (s.treebins[i] == 0 <==> tree.Leaf?)
      && forall y :: Has(tree, y) ==>
          y in size && size[y] == SizeOf(tree, y) < SIZE_LIMIT && y in s.binned && s.binned[y] == SizeOf(tree, y)
  {
    assert TreeOk(s.mem, s.treemap, s.treebins[i], s.trees[i], s.index, s.binned, i);
    RootIn(s.mem, s.trees[i], s.treebins[i], TreeBinAt(i));
  }

  /** Chunks of different tree bins are ordered like the bins. */
  lemma BinOrder(s: State, i: nat, x: int)
    requires Ok(s) && i < TreeIndex.NTREEBINS && Has(s.trees[i], x)
    ensures x in s.binned && SizeOf(s.trees[i], x) == s.binned[x] && TreeIndex.Bracketed(s.binned[x], i)
    ensures MIN_LARGE_SIZE <= s.binned[x] < SIZE_LIMIT
  {
    assert TreeOk(s.mem, s.treemap, s.treebins[i], s.trees[i], s.index, s.binned, i);
    TreeIndex.IndexBrackets(s.binned[x]);
  }

  lemma WhichBin(s: State, x: int)
    requires Ok(s) && x in s.binned && s.binned[x] >= MIN_LARGE_SIZE
    ensures var i := TreeIndex.IndexOf(s.binned[x]);
      i < TreeIndex.NTREEBINS == |s.trees| && Has(s.trees[i], x) && SizeOf(s.trees[i], x) == s.binned[x]
        && i in s.treemap
  {
    assert Located(s.smalls, s.trees, x, s.binned[x]);
    var i := TreeIndex.IndexOf(s.binned[x]);
    assert TreeOk(s.mem, s.treemap, s.treebins[i], s.trees[i], s.index, s.binned, i);
  }

  lemma Smaller(a: nat, i: nat, b: nat, j: nat)
    requires TreeIndex.Bracketed(a, i) && TreeIndex.Bracketed(b, j) && i < j
    ensures a < b
  {
    TreeIndex.MinSizeMono(i + 1, j);
  }

  lemma EmptyBin(tree: Tree, nb: nat)
    requires tree.Leaf?
    ensures forall x :: Has(tree, x) ==> SizeOf(tree, x) < nb
  {
  }

  lemma NothingFound(m: Memory, tree: Tree, nb: nat, v: int, rsize: nat, sub: Tree, lo: nat, k: nat, p: int)
    requires Rep(m, sub, 0, p) && Fit(tree, nb, v, rsize) && v == 0 && nb < WORD
      && Covered(tree, nb, rsize, Leaf, sub, lo, k)
    requires forall y :: Has(tree, y) ==> SizeOf(tree, y) < SIZE_LIMIT
    ensures forall x :: Has(tree, x) ==> SizeOf(tree, x) < nb
    ensures rsize == WORD - nb
  {
  }

  /** The candidate of the request's own bin is best among all bins. */
  lemma BestInBin(s: State, idx: nat, nb: nat, v0: int, rsize0: nat, v: int, rsize: nat, t: int, sub: Tree, lo: nat,
                  k: nat, p: int)
    requires Ok(s) && idx < TreeIndex.NTREEBINS && idx == TreeIndex.IndexOf(nb) && MIN_LARGE_SIZE <= nb < WORD
    requires var tree := s.trees[idx];
      && Fit(tree, nb, v0, rsize0) && Fit(tree, nb, v, rsize) && (v == 0 ==> v0 == 0)
      && (forall x :: Has(tree, x) && SizeOf(tree, x) >= nb ==> rsize + nb <= SizeOf(tree, x))
      && Rep(s.mem, sub, t, p) && Sound(sub, lo, k) && Within(tree, sub) && Searchable(nb, rsize0, sub)
    requires t != 0 || v0 != 0
    ensures v == 0 ==> NoneFits(s.binned, nb)
    ensures v != 0 ==> IsBest(s.binned, nb, v) && rsize == s.binned[v] - nb
  {
    var tree := s.trees[idx];
    forall y | Has(tree, y) ensures SizeOf(tree, y) < SIZE_LIMIT { BinOrder(s, idx, y); }
    if nb < SIZE_LIMIT {
      WalkFinds(tree, nb, v0, rsize0, v, rsize, sub);
      assert v != 0;
      BinOrder(s, idx, v);
      forall x | x in s.binned && s.binned[x] >= nb
        ensures s.binned[v] <= s.binned[x]
      {
        WhichBin(s, x);
        var i := TreeIndex.IndexOf(s.binned[x]);
        BinOrder(s, i, x);
        TreeIndex.IndexBrackets(nb);
        if i < idx {
          Smaller(s.binned[x], i, nb, idx);
        } else if idx < i {
          Smaller(s.binned[v], idx, s.binned[x], i);
        }
      }
    } else {
      HugeRequest(s, nb);
    }
  }

  lemma HugeRequest(s: State, nb: nat)
    requires Ok(s) && nb >= SIZE_LIMIT
    ensures NoneFits(s.binned, nb)
  {
    forall x | x in s.binned
      ensures s.binned[x] < nb
    {
      assert Located(s.smalls, s.trees, x, s.binned[x]);
    }
  }

  /** All chunks of a higher bin fit. */
  lemma NextBin(s: State, idx: nat, j: nat, nb: nat)
    requires Ok(s) && idx == TreeIndex.IndexOf(nb) && idx < j < TreeIndex.NTREEBINS && MIN_LARGE_SIZE <= nb < WORD
    ensures var tree := s.trees[j];
      Fit(tree, nb, 0, WORD - nb) && Searchable(nb, WORD - nb, tree)
      && Covered(tree, nb, WORD - nb, Leaf, tree, TreeIndex.BinLo(j), TreeIndex.BinBits(j))
  {
    var tree := s.trees[j];
    if nb < SIZE_LIMIT {
      TreeIndex.IndexBrackets(nb);
      forall y | Has(tree, y)
        ensures SizeOf(tree, y) >= nb
      {
        BinOrder(s, j, y);
        Smaller(nb, idx, s.binned[y], j);
      }
    }
  }

  lemma BestInNext(s: State, idx: nat, j: nat, nb: nat, v: int, rsize: nat)
    requires Ok(s) && idx == TreeIndex.IndexOf(nb) && MIN_LARGE_SIZE <= nb < WORD
    requires j in s.treemap && idx < j < TreeIndex.NTREEBINS && forall i :: i in s.treemap && i > idx ==> j <= i
    requires forall x :: Has(s.trees[idx], x) ==> SizeOf(s.trees[idx], x) < nb
    requires var tree := s.trees[j];
      Fit(tree, nb, v, rsize) && forall x :: Has(tree, x) && SizeOf(tree, x) >= nb ==> rsize + nb <= SizeOf(tree, x)
    ensures v == 0 ==> NoneFits(s.binned, nb)
    ensures v != 0 ==> IsBest(s.binned, nb, v) && rsize == s.binned[v] - nb
  {
    if nb >= SIZE_LIMIT {
      HugeRequest(s, nb);
      if v != 0 { BinOrder(s, j, v); }
    } else {
      NextFinds(s, idx, j, nb, v, rsize);
      forall x | x in s.binned && s.binned[x] >= nb
        ensures s.binned[v] <= s.binned[x]
      {
        NextBeats(s, idx, j, nb, v, rsize, x);
      }
      BinOrder(s, j, v);
    }
  }

  lemma NextBeats(s: State, idx: nat, j: nat, nb: nat, v: int, rsize: nat, x: int)
    requires Ok(s) && idx == TreeIndex.IndexOf(nb) && MIN_LARGE_SIZE <= nb < SIZE_LIMIT
    requires j in s.treemap && idx < j < TreeIndex.NTREEBINS && forall i :: i in s.treemap && i > idx ==> j <= i
    requires forall x :: Has(s.trees[idx], x) ==> SizeOf(s.trees[idx], x) < nb
    requires Has(s.trees[j], v) && SizeOf(s.trees[j], v) == rsize + nb
    requires forall x :: Has(s.trees[j], x) && SizeOf(s.trees[j], x) >= nb ==> rsize + nb <= SizeOf(s.trees[j], x)
    requires x in s.binned && s.binned[x] >= nb
    ensures rsize + nb <= s.binned[x]
  {
    hide Ok, TreeIndex.IndexOf, TreeIndex.Bracketed;
    WhichBin(s, x);
    var i := TreeIndex.IndexOf(s.binned[x]);
    BinOrder(s, i, x);
    BinOrder(s, j, v);
    TreeIndex.IndexBrackets(nb);
    if i < idx {
      Smaller(s.binned[x], i, nb, idx);
    } else if j < i {
      Smaller(s.binned[v], j, s.binned[x], i);
    }
  }

  lemma NextFinds(s: State, idx: nat, j: nat, nb: nat, v: int, rsize: nat)
    requires Ok(s) && idx == TreeIndex.IndexOf(nb) && MIN_LARGE_SIZE <= nb < SIZE_LIMIT
    requires j in s.treemap && idx < j < TreeIndex.NTREEBINS
    requires var tree := s.trees[j];
      Fit(tree, nb, v, rsize) && forall x :: Has(tree, x) && SizeOf(tree, x) >= nb ==> rsize + nb <= SizeOf(tree, x)
    ensures v != 0
  {
    var tree := s.trees[j];
    assert TreeOk(s.mem, s.treemap, s.treebins[j], tree, s.index, s.binned, j);
    var e := tree.ring[0];
    assert e in tree.ring && Has(tree, e);
    TreeIndex.IndexBrackets(nb);
    BinOrder(s, j, e);
    Smaller(nb, idx, s.binned[e], j);
  }

  lemma NothingLeft(s: State, idx: nat, nb: nat)
    requires Ok(s) && idx == TreeIndex.IndexOf(nb) && idx < TreeIndex.NTREEBINS && MIN_LARGE_SIZE <= nb < WORD
    requires forall i :: i in s.treemap ==> i <= idx
    requires forall x :: Has(s.trees[idx], x) ==> SizeOf(s.trees[idx], x) < nb
    ensures NoneFits(s.binned, nb)
  {
    hide Ok, TreeIndex.IndexOf, TreeIndex.Bracketed;
    if nb >= SIZE_LIMIT {
      HugeRequest(s, nb);
    } else {
      TreeIndex.IndexBrackets(nb);
      forall x | x in s.binned
        ensures s.binned[x] < nb
      {
        if s.binned[x] >= MIN_LARGE_SIZE {
          WhichBin(s, x);
          var i := TreeIndex.IndexOf(s.binned[x]);
          BinOrder(s, i, x);
          if i < idx {
            Smaller(s.binned[x], i, nb, idx);
          }
        }
      }
    }
  }

  lemma SubSmall(a: nat, b: nat)
    requires b < MIN_LARGE_SIZE <= a < SIZE_LIMIT
    ensures Sub(a, b) == a - b
  {
  }

  lemma MapInRange(s: State)
    requires Ok(s)
    ensures forall j :: j in s.treemap ==> j < TreeIndex.NTREEBINS
  {
  }

  lemma SmallestStart(tree: Tree, t: int, lo: nat, k: nat)
    requires Has(tree, t)
    ensures Covered(tree, 0, SizeOf(tree, t), tree, tree, lo, k)
  {
  }

  lemma SearchableAll(best: nat, cur: Tree)
    ensures Searchable(0, best, cur)
  {
  }

  lemma CoveredLess(tree: Tree, best: nat, best': nat, cur: Tree, lo: nat, k: nat)
    requires Covered(tree, 0, best, cur, cur, lo, k) && best' <= best
    ensures Covered(tree, 0, best', cur, cur, lo, k)
  {
  }

  lemma SmallestOverall(s: State, i: nat, v: int)
    requires Ok(s) && i in s.treemap && i < TreeIndex.NTREEBINS && forall j :: j in s.treemap ==> i <= j
    requires Has(s.trees[i], v) && forall x :: Has(s.trees[i], x) ==> SizeOf(s.trees[i], v) <= SizeOf(s.trees[i], x)
    ensures IsBest(s.binned, MIN_LARGE_SIZE, v) && s.binned[v] == SizeOf(s.trees[i], v)
  {
    hide Ok, TreeIndex.IndexOf;
    BinOrder(s, i, v);
    forall x | x in s.binned && s.binned[x] >= MIN_LARGE_SIZE
      ensures s.binned[v] <= s.binned[x]
    {
      WhichBin(s, x);
      var j := TreeIndex.IndexOf(s.binned[x]);
      BinOrder(s, j, x);
      if i < j {
        Smaller(s.binned[v], i, s.binned[x], j);
      }
    }
  }

  // ----- what the bit maps say

  /** smallmap knows every small chunk. */
  lemma SmallBit(s: State, x: int)
    requires Ok(s) && x in s.binned && s.binned[x] < MIN_LARGE_SIZE
    ensures s.binned[x] % 8 == 0 && s.binned[x] / 8 in s.smallmap
  {
    hide TreeOk;
    SmallLinks(s, x);
    assert SmallOk(s.mem, s.smallmap, s.smalls[s.binned[x] / 8], s.binned, s.binned[x] / 8);
  }

  /** treemap knows every large chunk. */
  lemma LargeBit(s: State, x: int)
    requires Ok(s) && x in s.binned && s.binned[x] >= MIN_LARGE_SIZE
    ensures TreeIndex.IndexOf(s.binned[x]) in s.treemap
  {
    hide SmallOk, Rep, Sound;
    assert Located(s.smalls, s.trees, x, s.binned[x]);
    var i := TreeIndex.IndexOf(s.binned[x]);
    assert TreeOk(s.mem, s.treemap, s.treebins[i], s.trees[i], s.index, s.binned, i);
    assert i in s.treemap;
  }

  /** A bit is set exactly when some binned chunk has a size that selects its bin. */
  lemma BitmapsExact(s: State, i: nat)
    requires Ok(s)
    ensures i in s.smallmap <==> exists x :: x in s.binned && s.binned[x] < MIN_LARGE_SIZE && s.binned[x] == 8 * i
    ensures i in s.treemap <==>
        exists x :: x in s.binned && s.binned[x] >= MIN_LARGE_SIZE && TreeIndex.IndexOf(s.binned[x]) == i
  {
    hide Rep, Sound, IsRing, TreeIndex.IndexOf;
    forall x | x in s.binned
      ensures if s.binned[x] < MIN_LARGE_SIZE then s.binned[x] / 8 in s.smallmap && s.binned[x] % 8 == 0
        else TreeIndex.IndexOf(s.binned[x]) in s.treemap
    {
      if s.binned[x] < MIN_LARGE_SIZE { SmallBit(s, x); } else { LargeBit(s, x); }
    }
    if i in s.smallmap {
      assert SmallOk(s.mem, s.smallmap, s.smalls[i], s.binned, i);
      var e := s.smalls[i][0];
      assert e in s.smalls[i] && e in s.binned && s.binned[e] == 8 * i;
    }
    assert forall x :: x in s.binned && s.binned[x] == 8 * i ==> s.binned[x] / 8 == i;
    if i in s.treemap { TreeBitMember(s, i); }
  }

  lemma TreeBitMember(s: State, i: nat)
    requires Ok(s) && i in s.treemap
    ensures exists x :: x in s.binned && s.binned[x] >= MIN_LARGE_SIZE && TreeIndex.IndexOf(s.binned[x]) == i
  {
    hide SmallOk, TreeIndex.IndexOf;
    assert TreeOk(s.mem, s.treemap, s.treebins[i], s.trees[i], s.index, s.binned, i);
    var e := s.trees[i].ring[0];
    assert Has(s.trees[i], e);
  }

  lemma SmallBitsInRange(s: State, i: nat)
    requires Ok(s) && i in s.smallmap
    ensures i < NSMALLBINS
  {
  }
}
