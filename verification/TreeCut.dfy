/** What the pointer writes of unlink_large_chunk do to a trie in memory
    (lj_alloc.c:692-730). */
module TreeCut {
  import opened Trie
  import opened Links
  import opened TreeRep

  /** The node that holds chunk x, and the parent pointer of that node. */
  function NodeOf(t: Tree, x: int): (u: Tree)
    requires Has(t, x)
    ensures u.Node? && x in u.ring
  {
    if x in t.ring then t else if Has(t.l, x) then NodeOf(t.l, x) else NodeOf(t.r, x)
  }

  function ParentOf(t: Tree, p: int, x: int): int
    requires Has(t, x) && Tidy(t)
  {
    if x in t.ring then p
    else if Has(t.l, x) then ParentOf(t.l, t.ring[0], x)
    else ParentOf(t.r, t.ring[0], x)
  }

  lemma {:induction false} NodeOfIn(t: Tree, p: int, x: int)
    requires Has(t, x) && Tidy(t)
    ensures var u := NodeOf(t, x);
            Tidy(u) && (forall y :: Has(u, y) ==> Has(t, y)) && Remove(u, x) == RemoveHere(u, x)
    ensures ParentOf(t, p, x) == p || (Has(t, ParentOf(t, p, x)) && !Has(NodeOf(t, x), ParentOf(t, p, x)))
    ensures x !in t.ring ==> Has(t, ParentOf(t, p, x)) && !Has(NodeOf(t, x), ParentOf(t, p, x))
  {
    if x !in t.ring {
      assert t.ring[0] in t.ring;
      if Has(t.l, x) {
        NodeOfIn(t.l, t.ring[0], x);
      } else {
        NodeOfIn(t.r, t.ring[0], x);
      }
    }
  }

  function RemoveHere(u: Tree, x: int): Tree
    requires u.Node? && x in u.ring
  {
    if |u.ring| > 1 then u.(ring := RingDrop(u.ring, x)) else Promote(u)
  }

  /** If the node of x has been replaced in memory, and only the child pointer to it
      was redirected, then the whole tree in memory has x removed. */
  lemma {:induction false} CutRep(m: Memory, m': Memory, t: Tree, root: int, p: int, x: int, r: int)
    requires Rep(m, t, root, p) && Tidy(t) && Has(t, x)
    requires var u, pu := NodeOf(t, x), ParentOf(t, p, x);
      && u.ring != []
      && Rep(m', RemoveHere(u, x), r, pu)
      && (forall y :: Has(t, y) && !Has(u, y) && y != pu ==> SameAt(m, m', y))
      && (x !in t.ring ==> Redirected(m, m', pu, u.ring[0], r))
    ensures Rep(m', Remove(t, x), if x in t.ring then r else root, p)
    decreases t, 1
  {
    if x !in t.ring {
      assert root in t.ring;
      NodeOfIn(t, p, x);
      if Has(t.l, x) {
        CutLeft(m, m', t, root, p, x, r);
      } else {
        CutRight(m, m', t, root, p, x, r);
      }
    }
  }

  ghost predicate Redirected(m: Memory, m': Memory, pu: int, head: int, r: int) {
    && SameButChildren(m, m', pu)
    && pu in m.c0 && pu in m.c1 && pu in m'.c0 && pu in m'.c1
    && m'.c0[pu] == (if m.c0[pu] == head then r else m.c0[pu])
    && m'.c1[pu] == (if m.c0[pu] != head && m.c1[pu] == head then r else m.c1[pu])
  }

  lemma {:induction false} CutLeft(m: Memory, m': Memory, t: Tree, root: int, p: int, x: int, r: int)
    requires Rep(m, t, root, p) && Tidy(t) && t.Node? && x !in t.ring && Has(t.l, x)
    requires var u, pu := NodeOf(t.l, x), ParentOf(t.l, root, x);
      && u.ring != [] && Rep(m', RemoveHere(u, x), r, pu)
      && (forall y :: Has(t, y) && !Has(u, y) && y != pu ==> SameAt(m, m', y))
      && Redirected(m, m', pu, u.ring[0], r)
    ensures Rep(m', t.(l := Remove(t.l, x)), root, p)
    decreases t, 0
  {
    var u, pu := NodeOf(t.l, x), ParentOf(t.l, root, x);
    NodeOfIn(t.l, root, x);
    assert root in t.ring && !Has(t.l, root);
    CutRep(m, m', t.l, m.c0[root], root, x, r);
    forall y | (y in t.ring && y != root) || Has(t.r, y)
      ensures SameAt(m, m', y)
    {
      assert Has(t, y) && !Has(t.l, y);
    }
    if x in t.l.ring {
      assert u == t.l && pu == root;
      RepPositive(m, t.l, m.c0[root], root, t.l.ring[0]);
      assert m'.c1[root] == m.c1[root];
    } else {
      SameAtImplies(m, m', root);
      RepNonempty(m, t.l, m.c0[root], root);
    }
    RepLeft(m, m', t, Remove(t.l, x), root, p);
  }

  lemma {:induction false} CutRight(m: Memory, m': Memory, t: Tree, root: int, p: int, x: int, r: int)
    requires Rep(m, t, root, p) && Tidy(t) && t.Node? && x !in t.ring && !Has(t.l, x) && Has(t.r, x)
    requires var u, pu := NodeOf(t.r, x), ParentOf(t.r, root, x);
      && u.ring != [] && Rep(m', RemoveHere(u, x), r, pu)
      && (forall y :: Has(t, y) && !Has(u, y) && y != pu ==> SameAt(m, m', y))
      && Redirected(m, m', pu, u.ring[0], r)
    ensures Rep(m', t.(r := Remove(t.r, x)), root, p)
    decreases t, 0
  {
    var u, pu := NodeOf(t.r, x), ParentOf(t.r, root, x);
    NodeOfIn(t.r, root, x);
    assert root in t.ring && !Has(t.r, root);
    CutRep(m, m', t.r, m.c1[root], root, x, r);
    forall y | (y in t.ring && y != root) || Has(t.l, y)
      ensures SameAt(m, m', y)
    {
      assert Has(t, y) && !Has(t.r, y);
    }
    if x in t.r.ring {
      assert u == t.r && pu == root;
      RepPositive(m, t.r, m.c1[root], root, t.r.ring[0]);
      RootNotIn(m, t.l, m.c0[root], root, t.r.ring[0]);
      assert m'.c0[root] == m.c0[root];
    } else {
      SameAtImplies(m, m', root);
    }
    RepRight(m, m', t, Remove(t.r, x), root, p);
  }

  lemma RepNonempty(m: Memory, t: Tree, root: int, p: int)
    requires Rep(m, t, root, p) && t.Node?
    ensures root == t.ring[0]
  {
  }

  /** A chunk outside a tree is not its root. */
  lemma RootNotIn(m: Memory, t: Tree, root: int, p: int, y: int)
    requires Rep(m, t, root, p) && !Has(t, y) && y != 0
    ensures root != y
  {
    if t.Node? {
      assert t.ring[0] in t.ring;
    }
  }

  // ----- taking out a member of a ring of several

  /** The last part of unlink_large_chunk: r takes over parent and children of x. */
  function Adopt(m: Memory, x: int, r: int, xp: int): Memory
    requires x in m.c0 && x in m.c1
  {
    var m1 := m.(parent := m.parent[r := xp]);
    var a := m1.c0[x];
    var m2 := if a != 0 then m1.(c0 := m1.c0[r := a], parent := m1.parent[a := r]) else m1;
    var b := m1.c1[x];
    if b != 0 then m2.(c1 := m2.c1[r := b], parent := m2.parent[b := r]) else m2
  }

  /** A subtree keeps its shape when only its root's parent pointer changes. */
  lemma Reparent(m: Memory, m': Memory, t: Tree, root: int, p: int, p': int)
    requires Rep(m, t, root, p) && Tidy(t) && p' != 0
    requires forall y :: Has(t, y) && y != root ==> SameAt(m, m', y)
    requires t.Node? ==> SameAt(m, m'.(parent := m.parent), root) && root in m'.parent && m'.parent[root] == p'
    ensures Rep(m', t, root, p')
  {
    if t.Node? {
      var ring := t.ring;
      assert root in ring;
      forall i | 0 <= i < |ring| - 1
        ensures Linked(m', ring[i], ring[i + 1])
      {
        assert Linked(m, ring[i], ring[i + 1]) && ring[i] in ring && ring[i + 1] in ring;
        assert Has(t, ring[i]) && Has(t, ring[i + 1]);
      }
      assert ring[|ring| - 1] in ring && Has(t, ring[|ring| - 1]);
      forall k | 1 <= k < |ring|
        ensures Detached(m', ring[k])
      {
        assert ring[k] in ring && ring[k] != ring[0] && Detached(m, ring[k]) && Has(t, ring[k]);
      }
      assert forall y :: Has(t.l, y) || Has(t.r, y) ==> Has(t, y) && y != root;
      RepFrame(m, m', t.l, m.c0[root], root);
      RepFrame(m, m', t.r, m.c1[root], root);
    }
  }

  /** What Adopt changes and what it leaves alone. */
  lemma AdoptAt(m: Memory, x: int, r: int, xp: int)
    requires x in m.c0 && x in m.c1 && r in m.c0 && m.c0[r] == 0 && r in m.c1 && m.c1[r] == 0
    requires x != r && m.c0[x] != r && m.c1[x] != r && (m.c0[x] == m.c1[x] ==> m.c0[x] == 0)
    ensures var m', a, b := Adopt(m, x, r, xp), m.c0[x], m.c1[x];
      && m'.fd == m.fd && m'.bk == m.bk
      && r in m'.c0 && m'.c0[r] == a && r in m'.c1 && m'.c1[r] == b && r in m'.parent && m'.parent[r] == xp
      && (a != 0 ==> a in m'.parent && m'.parent[a] == r && SameAt(m, m'.(parent := m.parent), a))
      && (b != 0 ==> b in m'.parent && m'.parent[b] == r && SameAt(m, m'.(parent := m.parent), b))
      && forall y :: y != r && (y != a || a == 0) && (y != b || b == 0) ==> SameAt(m, m', y)
  {
  }

  /** The new first chunk of a node, still without children, gets those of x. */
  lemma AdoptRep(m: Memory, x: int, ring: seq<int>, size: nat, l: Tree, r: Tree, xp: int)
    requires IsRing(m, ring) && ring[0] > 0 && xp != 0 && x != ring[0]
    requires forall k {:trigger ring[k]} :: 1 <= k < |ring| ==> Detached(m, ring[k])
    requires ring[0] in m.c0 && m.c0[ring[0]] == 0 && ring[0] in m.c1 && m.c1[ring[0]] == 0
    requires x in m.c0 && x in m.c1 && Rep(m, l, m.c0[x], x) && Rep(m, r, m.c1[x], x)
    requires Tidy(l) && Tidy(r) && Unshared(l, r)
    requires forall y :: y in ring ==> !Has(l, y) && !Has(r, y)
    ensures Rep(Adopt(m, x, ring[0], xp), Node(ring, size, l, r), ring[0], xp)
  {
    var m' := Adopt(m, x, ring[0], xp);
    var a, b := m.c0[x], m.c1[x];
    assert ring[0] in ring;
    RootIn(m, l, a, x);
    RootIn(m, r, b, x);
    AdoptAt(m, x, ring[0], xp);
    hide Adopt;
    AdoptNode(m, m', ring, xp, a, b);
    forall y | Has(l, y) && y != a ensures SameAt(m, m', y) { RepPositive(m, l, a, x, y); }
    forall y | Has(r, y) && y != b ensures SameAt(m, m', y) { RepPositive(m, r, b, x, y); }
    hide SameAt;
    Reparent(m, m', l, a, x, ring[0]);
    Reparent(m, m', r, b, x, ring[0]);
  }

  lemma RootIn(m: Memory, t: Tree, root: int, p: int)
    requires Rep(m, t, root, p)
    ensures t.Leaf? ==> root == 0
    ensures t.Node? ==> root > 0 && Has(t, root)
  {
    if t.Node? {
      assert t.ring[0] in t.ring;
    }
  }

  lemma AdoptNode(m: Memory, m': Memory, ring: seq<int>, xp: int, a: int, b: int)
    requires IsRing(m, ring) && ring[0] > 0 && xp != 0
    requires forall k {:trigger ring[k]} :: 1 <= k < |ring| ==> Detached(m, ring[k])
    requires a !in ring && b !in ring
    requires m'.fd == m.fd && m'.bk == m.bk
    requires ring[0] in m'.c0 && ring[0] in m'.c1 && ring[0] in m'.parent && m'.parent[ring[0]] == xp
    requires forall y :: y != ring[0] && (y != a || a == 0) && (y != b || b == 0) ==> SameAt(m, m', y)
    ensures NodeRep(m', ring, xp)
  {
    RingFieldsOnly(m, m', ring);
    forall k | 1 <= k < |ring|
      ensures Detached(m', ring[k])
    {
      assert ring[k] in ring && ring[k] != ring[0] && Detached(m, ring[k]) && SameAt(m, m', ring[k]);
    }
  }

  // ----- the cases of unlink_large_chunk

  /** The pointer to x, in the bin or in x's parent, is set to r. */
  function Redirect(m: Memory, xp: int, x: int, r: int, isRoot: bool): Memory
    requires !isRoot ==> xp in m.c0
  {
    if isRoot then m
    else if m.c0[xp] == x then m.(c0 := m.c0[xp := r])
    else m.(c1 := m.c1[xp := r])
  }

  lemma RedirectAt(m: Memory, xp: int, x: int, r: int, isRoot: bool)
    requires !isRoot ==> xp in m.c0 && xp in m.c1 && (m.c0[xp] == x || m.c1[xp] == x)
    ensures forall y :: y != xp ==> SameAt(m, Redirect(m, xp, x, r, isRoot), y)
    ensures !isRoot ==> Redirected(m, Redirect(m, xp, x, r, isRoot), xp, x, r)
    ensures isRoot ==> Redirect(m, xp, x, r, isRoot) == m
    ensures var m' := Redirect(m, xp, x, r, isRoot); m'.fd == m.fd && m'.bk == m.bk && m'.parent == m.parent
  {
  }

  /** The common end of the cases in which x leaves as the first of its node. */
  lemma ReplaceHead(m: Memory, x: int, ring: seq<int>, size: nat, l: Tree, r: Tree, xp: int, isRoot: bool)
    requires IsRing(m, ring) && ring[0] > 0 && xp != 0 && x !in ring && x != xp
    requires forall k {:trigger ring[k]} :: 1 <= k < |ring| ==> Detached(m, ring[k])
    requires ring[0] in m.c0 && m.c0[ring[0]] == 0 && ring[0] in m.c1 && m.c1[ring[0]] == 0
    requires x in m.c0 && x in m.c1 && Rep(m, l, m.c0[x], x) && Rep(m, r, m.c1[x], x)
    requires Tidy(l) && Tidy(r) && Unshared(l, r)
    requires forall y :: y in ring ==> !Has(l, y) && !Has(r, y)
    requires xp !in ring && !Has(l, xp) && !Has(r, xp)
    requires !isRoot ==> xp in m.c0 && xp in m.c1 && (m.c0[xp] == x || m.c1[xp] == x)
    ensures var m2 := Redirect(m, xp, x, ring[0], isRoot);
      && x in m2.c0 && x in m2.c1
      && var m3 := Adopt(m2, x, ring[0], xp);
      && Rep(m3, Node(ring, size, l, r), ring[0], xp)
      && (!isRoot ==> Redirected(m, m3, xp, x, ring[0]))
      && forall y :: y !in ring && !Has(l, y) && !Has(r, y) && (y != xp || isRoot) ==> SameAt(m, m3, y)
  {
    var m2 := Redirect(m, xp, x, ring[0], isRoot);
    assert ring[0] in ring;
    RedirectAt(m, xp, x, ring[0], isRoot);
    hide Redirect;
    RingFieldsOnly(m, m2, ring);
    assert SameAt(m, m2, x) && SameAt(m, m2, ring[0]);
    forall k | 1 <= k < |ring|
      ensures Detached(m2, ring[k])
    {
      assert ring[k] in ring && Detached(m, ring[k]) && SameAt(m, m2, ring[k]);
    }
    RepFrame(m, m2, l, m.c0[x], x);
    RepFrame(m, m2, r, m.c1[x], x);
    AdoptRep(m2, x, ring, size, l, r, xp);
    RootIn(m2, l, m2.c0[x], x);
    RootIn(m2, r, m2.c1[x], x);
    AdoptAt(m2, x, ring[0], xp);
    var m3 := Adopt(m2, x, ring[0], xp);
    assert xp == m2.c0[x] ==> xp == 0;
    assert SameAt(m2, m3, xp);
    ReplaceFrame(m, m2, m3, ring, l, r, xp, m2.c0[x], m2.c1[x], isRoot);
  }

  lemma ReplaceFrame(m: Memory, m2: Memory, m3: Memory, ring: seq<int>, l: Tree, r: Tree, xp: int, a: int, b: int,
                     isRoot: bool)
    requires isRoot ==> m2 == m
    requires ring != [] && (a != 0 ==> Has(l, a)) && (b != 0 ==> Has(r, b))
    requires forall y :: y != xp ==> SameAt(m, m2, y)
    requires forall y :: y != ring[0] && (y != a || a == 0) && (y != b || b == 0) ==> SameAt(m2, m3, y)
    ensures forall y :: y !in ring && !Has(l, y) && !Has(r, y) && (y != xp || isRoot) ==> SameAt(m, m3, y)
  {
    forall y | y !in ring && !Has(l, y) && !Has(r, y) && (y != xp || isRoot)
      ensures SameAt(m, m3, y)
    {
      assert SameAt(m, m2, y) && SameAt(m2, m3, y);
    }
  }

  /** Taking a later member out of a ring needs no change to the tree. */
  lemma UnlinkMember(m: Memory, u: Tree, pu: int, x: int)
    requires u.Node? && Tidy(u) && Rep(m, u, u.ring[0], pu) && x in u.ring && x != u.ring[0]
    ensures x in m.fd && x in m.bk && m.bk[x] != x
    ensures Rep(Unlink(m, x), RemoveHere(u, x), u.ring[0], pu)
    ensures forall y :: y !in u.ring ==> SameAt(m, Unlink(m, x), y)
  {
    assert |u.ring| > 1;
    UnlinkRing(m, u.ring, x);
    var m' := Unlink(m, x);
    RingDropDistinct(u.ring, x);
    var ring := RingDrop(u.ring, x);
    assert ring[0] == u.ring[0];
    forall k | 1 <= k < |ring|
      ensures Detached(m', ring[k])
    {
      assert ring[k] in ring && ring[k] != ring[0];
      var i := IndexOf(u.ring, ring[k]);
      assert Detached(m, u.ring[i]);
    }
    forall y | y !in u.ring
      ensures SameAt(m, m', y)
    {
    }
    RepFrame(m, m', u.l, m.c0[u.ring[0]], u.ring[0]);
    RepFrame(m, m', u.r, m.c1[u.ring[0]], u.ring[0]);
  }

  /** Where the pointer to the last node sits. */
  function LastSlot(t: Tree): (int, bool)
    requires t.Node? && Tidy(t) && (t.l.Node? || t.r.Node?)
  {
    if t.r.Node? then
      if t.r.l.Leaf? && t.r.r.Leaf? then (t.ring[0], true) else LastSlot(t.r)
    else
      if t.l.l.Leaf? && t.l.r.Leaf? then (t.ring[0], false) else LastSlot(t.l)
  }

  function ClearSlot(m: Memory, slot: (int, bool)): Memory {
    if slot.1 then m.(c1 := m.c1[slot.0 := 0]) else m.(c0 := m.c0[slot.0 := 0])
  }

  /** The node is out of every tree but its ring is whole. */
  ghost predicate Loose(m: Memory, d: Tree) {
    && d.Node? && IsRing(m, d.ring) && d.ring[0] > 0
    && (forall k {:trigger d.ring[k]} :: 1 <= k < |d.ring| ==> Detached(m, d.ring[k]))
    && d.ring[0] in m.c0 && m.c0[d.ring[0]] == 0 && d.ring[0] in m.c1 && m.c1[d.ring[0]] == 0
  }

  lemma ClearSlotAt(m: Memory, slot: (int, bool))
    ensures forall y :: y != slot.0 ==> SameAt(m, ClearSlot(m, slot), y)
    ensures slot.0 in m.c0 && slot.0 in m.c1 ==> SameButChildren(m, ClearSlot(m, slot), slot.0)
    ensures var m' := ClearSlot(m, slot);
      if slot.1 then m'.c0 == m.c0 && slot.0 in m'.c1 && m'.c1[slot.0] == 0
        else m'.c1 == m.c1 && slot.0 in m'.c0 && m'.c0[slot.0] == 0
  {
  }

  /** Clearing the last node's slot drops that node from the tree. */
  lemma {:induction false} DetachRep(m: Memory, t: Tree, root: int, p: int)
    requires t.Node? && Tidy(t) && Rep(m, t, root, p) && (t.l.Node? || t.r.Node?)
    ensures var m' := ClearSlot(m, LastSlot(t));
      && Rep(m', DropLast(t), root, p) && Loose(m', Last(t))
      && Has(t, LastSlot(t).0)
  {
    var slot := LastSlot(t);
    var m' := ClearSlot(m, slot);
    var c := if t.r.Node? then t.r else t.l;
    assert root in t.ring && !Has(t.l, root) && !Has(t.r, root);
    ClearSlotAt(m, slot);
    if c.l.Leaf? && c.r.Leaf? {
      assert c.ring[0] in c.ring && Has(c, c.ring[0]);
      hide ClearSlot;
      LooseFrame(m, m', c, if t.r.Node? then m.c1[root] else m.c0[root], root);
    } else {
      DetachRep(m, c, if t.r.Node? then m.c1[root] else m.c0[root], root);
      assert Has(c, slot.0);
      hide ClearSlot;
      SameAtImplies(m, m', root);
    }
    forall y | (y in t.ring && y != root) || (t.r.Node? && Has(t.l, y))
      ensures SameAt(m, m', y)
    {
      if y in t.ring { assert Has(t, y) && !Has(t.l, y) && !Has(t.r, y); }
    }
    if t.r.Node? {
      RepRight(m, m', t, DropLast(t).r, root, p);
    } else {
      RepLeft(m, m', t, DropLast(t).l, root, p);
    }
  }

  lemma LooseFrame(m: Memory, m': Memory, d: Tree, root: int, p: int)
    requires d.Node? && Rep(m, d, root, p) && d.l.Leaf? && d.r.Leaf?
    requires forall y :: Has(d, y) ==> SameAt(m, m', y)
    ensures Loose(m', d)
  {
    RepFrame(m, m', d, root, p);
  }

  /** The node of x in memory, and the pointer to it. */
  lemma {:induction false} RepNodeOf(m: Memory, t: Tree, root: int, p: int, x: int)
    requires Rep(m, t, root, p) && Tidy(t) && Has(t, x)
    ensures var u, pu := NodeOf(t, x), ParentOf(t, p, x);
      && Tidy(u) && Rep(m, u, u.ring[0], pu) && pu != 0
      && (x in t.ring ==> u == t && pu == p)
      && (x !in t.ring ==>
          u.ring[0] != root && pu in m.c0 && pu in m.c1 && (m.c0[pu] == u.ring[0] || m.c1[pu] == u.ring[0]))
  {
    if x !in t.ring {
      assert t.ring[0] in t.ring;
      var c := if Has(t.l, x) then t.l else t.r;
      var rc := if Has(t.l, x) then m.c0[root] else m.c1[root];
      RootIn(m, c, rc, root);
      RepNodeOf(m, c, rc, root, x);
      NodeOfIn(c, root, x);
      var u := NodeOf(c, x);
      assert u.ring[0] in u.ring && Has(c, u.ring[0]);
      assert NodeOf(t, x) == u && ParentOf(t, p, x) == ParentOf(c, t.ring[0], x);
      hide Tidy, Rep;
    }
  }

  /** The first chunk of a node leaves a ring of several. */
  lemma UnlinkHead(m: Memory, u: Tree, pu: int, x: int, isRoot: bool)
    requires u.Node? && Tidy(u) && |u.ring| > 1 && x == u.ring[0] && Rep(m, u, x, pu) && !Has(u, pu)
    requires !isRoot ==> pu in m.c0 && pu in m.c1 && (m.c0[pu] == x || m.c1[pu] == x)
    ensures x in m.fd && x in m.bk && m.bk[x] != x && m.bk[x] > 0
    ensures var r, m1 := m.bk[x], Unlink(m, x);
      && (!isRoot ==> pu in m1.c0)
      && var m2 := Redirect(m1, pu, x, r, isRoot);
      && x in m2.c0 && x in m2.c1
      && var m3 := Adopt(m2, x, r, pu);
      && Rep(m3, RemoveHere(u, x), r, pu)
      && (!isRoot ==> Redirected(m, m3, pu, x, r))
      && forall y :: !Has(u, y) && (y != pu || isRoot) ==> SameAt(m, m3, y)
  {
    var ring := RingDrop(u.ring, x);
    UnlinkRing(m, u.ring, x);
    RingDropDistinct(u.ring, x);
    var m1 := Unlink(m, x);
    assert x in u.ring;
    forall y | y !in u.ring
      ensures SameAt(m, m1, y)
    {
    }
    forall y | y in ring
      ensures y in u.ring && Has(u, y) && !Has(u.l, y) && !Has(u.r, y) && y > 0
    {
      RepPositive(m, u, x, pu, y);
    }
    assert ring[0] in ring && ring[0] != x;
    UnlinkDetached(m, u.ring, ring, x);
    RepFrame(m, m1, u.l, m.c0[x], x);
    RepFrame(m, m1, u.r, m.c1[x], x);
    hide Unlink, RingDrop, Rep, NodeRep;
    ReplaceHead(m1, x, ring, u.size, u.l, u.r, pu, isRoot);
    var m3 := Adopt(Redirect(m1, pu, x, ring[0], isRoot), x, ring[0], pu);
    HeadFrame(m, m1, m3, u, ring, pu, x, isRoot);
  }

  lemma HeadFrame(m: Memory, m1: Memory, m3: Memory, u: Tree, ring: seq<int>, pu: int, x: int, isRoot: bool)
    requires u.Node? && ring != [] && !Has(u, pu)
    requires forall y :: !Has(u, y) ==> SameAt(m, m1, y)
    requires forall y :: y in ring ==> Has(u, y)
    requires !isRoot ==> pu in m.c0 && pu in m.c1 && Redirected(m1, m3, pu, x, ring[0])
    requires forall y :: y !in ring && !Has(u.l, y) && !Has(u.r, y) && (y != pu || isRoot) ==> SameAt(m1, m3, y)
    ensures !isRoot ==> Redirected(m, m3, pu, x, ring[0])
    ensures forall y :: !Has(u, y) && (y != pu || isRoot) ==> SameAt(m, m3, y)
  {
    assert SameAt(m, m1, pu);
    forall y | !Has(u, y) && (y != pu || isRoot)
      ensures SameAt(m, m3, y)
    {
      assert SameAt(m, m1, y) && SameAt(m1, m3, y);
    }
  }

  /** After x left its ring, the new first chunk has no children and the others are detached. */
  lemma UnlinkDetached(m: Memory, old_: seq<int>, ring: seq<int>, x: int)
    requires old_ != [] && x == old_[0] && x in m.fd && x in m.bk && ring != []
    requires forall k {:trigger old_[k]} :: 1 <= k < |old_| ==> Detached(m, old_[k])
    requires forall y :: y in ring ==> y in old_ && y != x
    ensures var m1 := Unlink(m, x);
      && (forall k {:trigger ring[k]} :: 0 <= k < |ring| ==> Detached(m1, ring[k]))
  {
    var m1 := Unlink(m, x);
    forall k | 0 <= k < |ring|
      ensures Detached(m1, ring[k])
    {
      assert ring[k] in ring;
      var i := IndexOf(old_, ring[k]);
      assert Detached(m, old_[i]);
    }
  }

  /** The only chunk of a node without children leaves. */
  lemma UnlinkLeaf(m: Memory, u: Tree, pu: int, x: int, isRoot: bool)
    requires u.Node? && Tidy(u) && u.ring == [x] && u.l.Leaf? && u.r.Leaf? && Rep(m, u, x, pu) && !Has(u, pu)
    requires !isRoot ==> pu in m.c0 && pu in m.c1 && (m.c0[pu] == x || m.c1[pu] == x)
    ensures x in m.bk && m.bk[x] == x && x in m.c0 && m.c0[x] == 0 && x in m.c1 && m.c1[x] == 0
    ensures var m3 := Redirect(m, pu, x, 0, isRoot);
      && Rep(m3, RemoveHere(u, x), 0, pu)
      && (!isRoot ==> Redirected(m, m3, pu, x, 0))
      && forall y :: !Has(u, y) && (y != pu || isRoot) ==> SameAt(m, m3, y)
  {
    RingFields(m, u.ring, 0);
    RedirectAt(m, pu, x, 0, isRoot);
  }

  /** The only chunk of a node with children leaves, the last node takes its place. */
  lemma UnlinkInner(m: Memory, u: Tree, pu: int, x: int, isRoot: bool)
    requires u.Node? && Tidy(u) && u.ring == [x] && (u.l.Node? || u.r.Node?) && Rep(m, u, x, pu) && !Has(u, pu)
    requires !isRoot ==> pu in m.c0 && pu in m.c1 && (m.c0[pu] == x || m.c1[pu] == x)
    ensures Last(u).ring != []
    ensures x in m.bk && m.bk[x] == x
    ensures var r, m1 := Last(u).ring[0], ClearSlot(m, LastSlot(u));
      && r > 0
      && (!isRoot ==> pu in m1.c0)
      && var m2 := Redirect(m1, pu, x, r, isRoot);
      && x in m2.c0 && x in m2.c1
      && var m3 := Adopt(m2, x, r, pu);
      && Rep(m3, RemoveHere(u, x), r, pu)
      && (!isRoot ==> Redirected(m, m3, pu, x, r))
      && forall y :: !Has(u, y) && (y != pu || isRoot) ==> SameAt(m, m3, y)
  {
    RingFields(m, u.ring, 0);
    DetachRep(m, u, x, pu);
    var slot, d, v := LastSlot(u), Last(u), DropLast(u);
    var m1 := ClearSlot(m, slot);
    ClearSlotAt(m, slot);
    DropLastTidy(u);
    assert x in u.ring;
    assert forall y :: y in d.ring ==> Has(u, y) && y != x;
    assert d.ring[0] in d.ring;
    hide ClearSlot, Rep, NodeRep;
    DropLastRep(m1, u, x, pu);
    ReplaceHead(m1, x, d.ring, d.size, v.l, v.r, pu, isRoot);
    var m3 := Adopt(Redirect(m1, pu, x, d.ring[0], isRoot), x, d.ring[0], pu);
    assert forall y :: Has(v.l, y) || Has(v.r, y) ==> Has(u, y);
    InnerFrame(m, m1, m3, u, v, d.ring, pu, x, isRoot);
  }

  lemma InnerFrame(m: Memory, m1: Memory, m3: Memory, u: Tree, v: Tree, ring: seq<int>, pu: int, x: int, isRoot: bool)
    requires u.Node? && v.Node? && ring != [] && !Has(u, pu)
    requires forall y :: !Has(u, y) ==> SameAt(m, m1, y)
    requires forall y :: y in ring || Has(v.l, y) || Has(v.r, y) ==> Has(u, y)
    requires !isRoot ==> pu in m.c0 && pu in m.c1 && Redirected(m1, m3, pu, x, ring[0])
    requires forall y :: y !in ring && !Has(v.l, y) && !Has(v.r, y) && (y != pu || isRoot) ==> SameAt(m1, m3, y)
    ensures !isRoot ==> Redirected(m, m3, pu, x, ring[0])
    ensures forall y :: !Has(u, y) && (y != pu || isRoot) ==> SameAt(m, m3, y)
  {
    assert SameAt(m, m1, pu);
    forall y | !Has(u, y) && (y != pu || isRoot)
      ensures SameAt(m, m3, y)
    {
      assert SameAt(m, m1, y) && SameAt(m1, m3, y);
    }
  }

  lemma DropLastRep(m: Memory, u: Tree, x: int, p: int)
    requires u.Node? && (u.l.Node? || u.r.Node?) && Rep(m, DropLast(u), x, p)
    ensures var v := DropLast(u);
      v.Node? && x in m.c0 && x in m.c1 && Rep(m, v.l, m.c0[x], x) && Rep(m, v.r, m.c1[x], x)
  {
  }

  lemma {:induction false} DropLastTidy(t: Tree)
    requires t.Node? && Tidy(t)
    ensures Tidy(DropLast(t)) && Last(t).ring != []
    ensures forall y :: Has(DropLast(t), y) ==> Has(t, y) && y !in Last(t).ring
    ensures forall y :: y in Last(t).ring ==> Has(t, y)
    ensures t.l.Node? || t.r.Node? ==> forall y :: y in Last(t).ring ==> y !in t.ring
  {
    if t.r.Node? {
      DropLastTidy(t.r);
    } else if t.l.Node? {
      DropLastTidy(t.l);
    }
  }
}
