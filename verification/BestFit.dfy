/** Best-fit search over the tries: what each step of the walks keeps
    (lj_alloc.c:1048-1109). */
module BestFit {
  import opened Words
  import opened Trie
  import opened Links
  import opened TreeRep
  import opened TreeCut
  import TreeIndex

  const SIZE_LIMIT: nat := 0x100_0000_0000

  /** Unsigned subtraction of 64-bit words. */
  function Sub(a: nat, b: nat): nat {
    (a - b) % WORD
  }

  lemma SubWraps(a: nat, b: nat)
    requires a < SIZE_LIMIT && 0 < b < WORD
    ensures Sub(a, b) == if a >= b then a - b else WORD - (b - a)
  {
    if a < b {
      assert a - b == -1 * WORD + (WORD - (b - a));
    }
  }

  /** The candidate so far: none, or a chunk of the tree that fits with remainder rsize. */
  ghost predicate Fit(tree: Tree, nb: nat, v: int, rsize: nat) {
    if v == 0 then rsize == WORD - nb
    else Has(tree, v) && SizeOf(tree, v) >= nb && rsize == SizeOf(tree, v) - nb && rsize < WORD - nb
  }

  /** Every chunk that fits is no better than the candidate, or is in `cur` or `sub`,
      or is no smaller than all of `sub`. */
  ghost predicate Covered(tree: Tree, nb: nat, rsize: nat, cur: Tree, sub: Tree, lo: nat, k: nat) {
    forall x :: Has(tree, x) && SizeOf(tree, x) >= nb ==>
      rsize + nb <= SizeOf(tree, x) || Has(cur, x) || Has(sub, x) || (sub.Node? && lo + P(k) <= SizeOf(tree, x))
  }

  /** The subtree is worth a leftmost walk: all of it fits, or nothing better is possible. */
  ghost predicate Searchable(nb: nat, rsize: nat, sub: Tree) {
    nb >= SIZE_LIMIT || rsize == 0 || forall y :: Has(sub, y) ==> SizeOf(sub, y) >= nb
  }

  ghost predicate Within(tree: Tree, t: Tree) {
    forall y :: Has(t, y) ==> Has(tree, y) && SizeOf(t, y) == SizeOf(tree, y)
  }

  lemma WithinParts(tree: Tree, t: Tree, lo: nat, k: nat)
    requires t.Node? && Sound(t, lo, k) && Within(tree, t)
    ensures Within(tree, t.l) && Within(tree, t.r)
    ensures forall y :: y in t.ring ==> Has(tree, y) && SizeOf(tree, y) == t.size
  {
    Parts(t);
  }

  lemma FitStart(tree: Tree, nb: nat)
    requires nb < WORD
    ensures Fit(tree, nb, 0, WORD - nb)
  {
  }

  lemma SearchStart(m: Memory, tree: Tree, nb: nat, rsize: nat, lo: nat, k: nat)
    requires nb < WORD && rsize == WORD - nb
    ensures Within(tree, tree) && Within(tree, Leaf) && Rep(m, Leaf, 0, 0) && Sound(Leaf, 0, 0)
    ensures Covered(tree, nb, rsize, tree, Leaf, 0, 0)
  {
  }

  lemma NodeOfPointer(m: Memory, cur: Tree, t: int, cp: int)
    requires Rep(m, cur, t, cp) && t != 0
    ensures cur.Node?
  {
  }

  lemma NodeFacts(m: Memory, tree: Tree, cur: Tree, t: int, cp: int, lo: nat, k: nat, size: map<int, nat>)
    requires cur.Node? && Rep(m, cur, t, cp) && Sound(cur, lo, k) && Within(tree, cur)
    requires forall y :: Has(tree, y) ==> y in size && size[y] == SizeOf(tree, y) < SIZE_LIMIT
    ensures t in size && size[t] == cur.size < SIZE_LIMIT && t in m.c0 && t in m.c1 && t > 0
    ensures Has(tree, t) && SizeOf(tree, t) == cur.size
    ensures lo <= cur.size < lo + P(k)
    ensures Rep(m, cur.l, m.c0[t], t) && Rep(m, cur.r, m.c1[t], t)
  {
    assert t in cur.ring && Has(cur, t);
  }

  /** Looking at the node: the better of it and the candidate. */
  lemma NodeFits(tree: Tree, nb: nat, cur: Tree, lo: nat, k: nat, v: int, rsize: nat, t: int, rt: Tree, rlo: nat,
                 rk: nat)
    requires 0 < nb < WORD && cur.Node? && cur.size < SIZE_LIMIT && Has(tree, t) && t > 0 && SizeOf(tree, t) == cur.size
    requires Sound(cur, lo, k) && Within(tree, cur)
    requires Fit(tree, nb, v, rsize) && Covered(tree, nb, rsize, cur, rt, rlo, rk)
    ensures var trem := Sub(cur.size, nb);
      var v', rsize' := if trem < rsize then t else v, if trem < rsize then trem else rsize;
      && Fit(tree, nb, v', rsize') && Covered(tree, nb, rsize', cur, rt, rlo, rk)
      && (cur.size >= nb ==> rsize' + nb <= cur.size)
      && (trem < rsize && trem == 0 ==> cur.size == nb)
      && (rsize' != 0 ==> cur.size != nb)
  {
    SubWraps(cur.size, nb);
  }

  lemma ExactFound(tree: Tree, nb: nat, cur: Tree, lo: nat, k: nat)
    ensures Covered(tree, nb, 0, Leaf, cur, lo, k) && Searchable(nb, 0, cur)
  {
  }

  lemma ChildRoots(m: Memory, cur: Tree, t: int, lo: nat, k: nat)
    requires cur.Node? && Sound(cur, lo, k)
    requires t in m.c0 && t in m.c1 && Rep(m, cur.l, m.c0[t], t) && Rep(m, cur.r, m.c1[t], t)
    ensures (m.c0[t] == 0 <==> cur.l.Leaf?) && (m.c1[t] == 0 <==> cur.r.Leaf?)
    ensures m.c0[t] == m.c1[t] ==> m.c0[t] == 0
  {
    RootIn(m, cur.l, m.c0[t], t);
    RootIn(m, cur.r, m.c1[t], t);
  }

  lemma SoundChildren(t: Tree, lo: nat, k: nat)
    requires t.Node? && Sound(t, lo, k)
    ensures k == 0 ==> t.l.Leaf? && t.r.Leaf?
    ensures k > 0 ==> Sound(t.l, lo, k - 1) && Sound(t.r, lo + P(k - 1), k - 1) && P(k) == 2 * P(k - 1)
    ensures k == 0 ==> P(k) == 1 && forall l: nat :: Sound(t.l, l, 0) && Sound(t.r, l, 0)
  {
  }

  /** Requests beyond the size limit are met by no chunk. */
  lemma CoveredHuge(tree: Tree, nb: nat, rsize: nat, cur: Tree, sub: Tree, lo: nat, k: nat)
    requires nb >= SIZE_LIMIT && forall y :: Has(tree, y) ==> SizeOf(tree, y) < SIZE_LIMIT
    ensures Covered(tree, nb, rsize, cur, sub, lo, k)
  {
  }

  /** What remains to be covered after the walk turned left or right at a node. */
  lemma CoveredDown(tree: Tree, nb: nat, rsize: nat, cur: Tree, lo: nat, k: nat, rt: Tree, rlo: nat, rk: nat)
    requires cur.Node? && Sound(cur, lo, k) && Within(tree, cur) && k > 0 && lo <= nb < lo + P(k)
    requires cur.size >= nb ==> rsize + nb <= cur.size
    requires Sound(rt, rlo, rk) && Within(tree, rt) && (rt.Node? ==> lo + P(k) <= rlo)
    requires Covered(tree, nb, rsize, cur, rt, rlo, rk)
    ensures nb >= lo + P(k - 1) ==> Covered(tree, nb, rsize, cur.r, rt, rlo, rk)
    ensures nb < lo + P(k - 1) && cur.r.Leaf? ==> Covered(tree, nb, rsize, cur.l, rt, rlo, rk)
    ensures nb < lo + P(k - 1) && cur.r.Node? ==> Covered(tree, nb, rsize, cur.l, cur.r, lo + P(k - 1), k - 1)
  {
    WithinParts(tree, cur, lo, k);
    forall x | Has(cur.l, x) ensures SizeOf(tree, x) < lo + P(k - 1) { Range(cur.l, lo, k - 1, x); }
    forall x | Has(rt, x) ensures SizeOf(tree, x) >= lo + P(k) { Range(rt, rlo, rk, x); }
    assert P(k) == 2 * P(k - 1);
  }

  /** One step down: what is left behind does not fit, or is remembered as the deepest
      right subtree. */
  lemma StepDown(m: Memory, tree: Tree, nb: nat, rsize: nat, cur: Tree, t: int, lo: nat, k: nat, bits: nat, rt: Tree,
                 rlo: nat, rk: nat)
    requires 0 < nb < WORD && cur.Node? && Sound(cur, lo, k) && Within(tree, cur)
    requires t in m.c0 && t in m.c1 && Rep(m, cur.l, m.c0[t], t) && Rep(m, cur.r, m.c1[t], t)
    requires cur.size >= nb ==> rsize + nb <= cur.size
    requires cur.size != nb && lo <= cur.size < lo + P(k) && (forall y :: Has(tree, y) ==> SizeOf(tree, y) < SIZE_LIMIT)
    requires nb < SIZE_LIMIT ==> TreeIndex.OnPath(bits, nb, lo, k) && (rt.Node? ==> lo + P(k) <= rlo)
    requires Sound(rt, rlo, rk) && Within(tree, rt) && Covered(tree, nb, rsize, cur, rt, rlo, rk)
    ensures Within(tree, cur.l) && Within(tree, cur.r)
    ensures var bit := (bits / HALF) % 2;
      var next := if bit == 1 then cur.r else cur.l;
      var lo' := if bit == 1 && k > 0 then lo + P(k - 1) else lo;
      var k' := if k > 0 then k - 1 else 0;
      var turn := m.c1[t] != 0 && m.c1[t] != (if bit == 1 then m.c1[t] else m.c0[t]);
      && (bit == 0 || bit == 1)
      && Sound(next, lo', k') && Rep(m, next, if bit == 1 then m.c1[t] else m.c0[t], t)
      && (turn ==> k > 0 && Sound(cur.r, lo + P(k - 1), k - 1))
      && var rt', rlo', rk' := if turn then cur.r else rt, if turn then lo + P(k - 1) else rlo, if turn then k - 1
        else rk;
      && Covered(tree, nb, rsize, next, rt', rlo', rk')
      && (nb < SIZE_LIMIT ==> TreeIndex.OnPath((bits * 2) % WORD, nb, lo', k') && (rt'.Node? ==> lo' + P(k') <= rlo'))
  {
    WithinParts(tree, cur, lo, k);
    ChildRoots(m, cur, t, lo, k);
    SoundChildren(cur, lo, k);
    hide Rep, Sound, Covered, Within, TreeIndex.OnPath, P;
    if nb < SIZE_LIMIT {
      TreeIndex.OnPathRange(bits, nb, lo, k);
      TreeIndex.PathStep(bits, nb, lo, k);
      CoveredDown(tree, nb, rsize, cur, lo, k, rt, rlo, rk);
    } else {
      CoveredHuge(tree, nb, rsize, cur.l, rt, rlo, rk);
      CoveredHuge(tree, nb, rsize, cur.r, rt, rlo, rk);
      if k > 0 {
        CoveredHuge(tree, nb, rsize, cur.l, cur.r, lo + P(k - 1), k - 1);
      }
    }
  }

  lemma SearchEnd(m: Memory, tree: Tree, nb: nat, rsize: nat, cur: Tree, cp: int, lo: nat, k: nat, bits: nat, rt: Tree,
                  rlo: nat, rk: nat)
    requires Rep(m, cur, 0, cp) && Covered(tree, nb, rsize, cur, rt, rlo, rk)
    requires Sound(rt, rlo, rk)
    requires nb < SIZE_LIMIT ==> TreeIndex.OnPath(bits, nb, lo, k) && (rt.Node? ==> lo + P(k) <= rlo)
    ensures Covered(tree, nb, rsize, Leaf, rt, rlo, rk) && Searchable(nb, rsize, rt)
  {
    if nb < SIZE_LIMIT {
      TreeIndex.OnPathRange(bits, nb, lo, k);
      forall y | Has(rt, y) ensures SizeOf(rt, y) >= nb { Range(rt, rlo, rk, y); }
    }
  }

  // ----- the leftmost walk

  lemma CoveredTurn(tree: Tree, nb: nat, rsize: nat, sub: Tree, lo: nat, k: nat)
    requires Covered(tree, nb, rsize, Leaf, sub, lo, k)
    ensures Covered(tree, nb, rsize, sub, sub, lo, k)
  {
  }

  /** One step to the leftmost child: what is left behind is no better. */
  lemma LeftDown(m: Memory, tree: Tree, nb: nat, rsize: nat, cur: Tree, t: int, lo: nat, k: nat)
    requires cur.Node? && Sound(cur, lo, k) && Within(tree, cur)
    requires t in m.c0 && t in m.c1 && Rep(m, cur.l, m.c0[t], t) && Rep(m, cur.r, m.c1[t], t)
    requires cur.size >= nb ==> rsize + nb <= cur.size
    requires forall y :: Has(tree, y) ==> SizeOf(tree, y) < SIZE_LIMIT
    requires Covered(tree, nb, rsize, cur, cur, lo, k) && Searchable(nb, rsize, cur)
    ensures var left := m.c0[t] != 0;
      var next := if left then cur.l else cur.r;
      var lo' := if left || k == 0 then lo else lo + P(k - 1);
      var k' := if k > 0 then k - 1 else 0;
      && Rep(m, next, if left then m.c0[t] else m.c1[t], t) && Sound(next, lo', k') && Within(tree, next)
      && Covered(tree, nb, rsize, next, next, lo', k') && Searchable(nb, rsize, next)
  {
    WithinParts(tree, cur, lo, k);
    ChildRoots(m, cur, t, lo, k);
    SoundChildren(cur, lo, k);
    SearchableParts(nb, rsize, cur, lo, k);
    LeftCovered(tree, nb, rsize, cur, lo, k);
  }

  lemma SearchableParts(nb: nat, rsize: nat, cur: Tree, lo: nat, k: nat)
    requires cur.Node? && Sound(cur, lo, k) && Searchable(nb, rsize, cur)
    ensures Searchable(nb, rsize, cur.l) && Searchable(nb, rsize, cur.r)
    ensures nb < SIZE_LIMIT && rsize != 0 ==> nb <= cur.size
  {
    assert cur.ring[0] in cur.ring && Has(cur, cur.ring[0]) && SizeOf(cur, cur.ring[0]) == cur.size;
    Parts(cur);
  }

  lemma LeftCovered(tree: Tree, nb: nat, rsize: nat, cur: Tree, lo: nat, k: nat)
    requires cur.Node? && Sound(cur, lo, k) && Within(tree, cur)
    requires cur.size >= nb ==> rsize + nb <= cur.size
    requires forall y :: Has(tree, y) ==> SizeOf(tree, y) < SIZE_LIMIT
    requires Covered(tree, nb, rsize, cur, cur, lo, k) && Searchable(nb, rsize, cur)
    ensures k > 0 && cur.l.Node? ==> Covered(tree, nb, rsize, cur.l, cur.l, lo, k - 1)
    ensures k > 0 && cur.l.Leaf? ==> Covered(tree, nb, rsize, cur.r, cur.r, lo + P(k - 1), k - 1)
    ensures k == 0 ==> Covered(tree, nb, rsize, cur.r, cur.r, lo, 0)
  {
    WithinParts(tree, cur, lo, k);
    SoundChildren(cur, lo, k);
    SearchableParts(nb, rsize, cur, lo, k);
    if k > 0 {
      forall x | Has(cur.r, x) ensures SizeOf(tree, x) >= lo + P(k - 1) { Range(cur.r, lo + P(k - 1), k - 1, x); }
    }
  }

  lemma LeftEnd(m: Memory, tree: Tree, nb: nat, rsize: nat, cur: Tree, cp: int, lo: nat, k: nat)
    requires Rep(m, cur, 0, cp) && Covered(tree, nb, rsize, cur, cur, lo, k)
    ensures forall x :: Has(tree, x) && SizeOf(tree, x) >= nb ==> rsize + nb <= SizeOf(tree, x)
  {
  }

  /** A better candidate keeps the subtree searchable. */
  lemma SearchableLess(nb: nat, rsize: nat, rsize': nat, sub: Tree)
    requires Searchable(nb, rsize, sub) && rsize' <= rsize
    ensures Searchable(nb, rsize', sub)
  {
  }

  /** The leftmost walk finds a candidate if its subtree holds anything. */
  lemma WalkFinds(tree: Tree, nb: nat, v0: int, rsize0: nat, v: int, rsize: nat, sub: Tree)
    requires nb < SIZE_LIMIT && Fit(tree, nb, v0, rsize0) && Fit(tree, nb, v, rsize) && (v == 0 ==> v0 == 0)
    requires Searchable(nb, rsize0, sub) && Within(tree, sub) && (sub.Node? ==> sub.ring != [])
    requires forall y :: Has(tree, y) ==> SizeOf(tree, y) < SIZE_LIMIT
    requires forall x :: Has(tree, x) && SizeOf(tree, x) >= nb ==> rsize + nb <= SizeOf(tree, x)
    ensures v == 0 ==> sub.Leaf?
  {
    if sub.Node? {
      assert sub.ring[0] in sub.ring && Has(sub, sub.ring[0]);
    }
  }
}
