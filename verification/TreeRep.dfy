/** Tries in memory: the pointer structure of a tree bin, and what the pointer writes
    of insert_large_chunk and unlink_large_chunk do to it (lj_alloc.c:647-730). */
module TreeRep {
  import opened Words
  import opened Trie
  import opened Links

  /** Chunk x is a ring member that is not linked into the tree itself. */
  predicate Detached(m: Memory, x: int) {
    && x > 0
    && x in m.parent && m.parent[x] == 0
    && x in m.c0 && m.c0[x] == 0 && x in m.c1 && m.c1[x] == 0
  }

  /** The ring of a node is in place and its first chunk has parent pointer p. */
  ghost predicate NodeRep(m: Memory, ring: seq<int>, p: int) {
    && IsRing(m, ring) && ring[0] > 0
    && ring[0] in m.parent && m.parent[ring[0]] == p && p != 0
    && ring[0] in m.c0 && ring[0] in m.c1
    && forall k {:trigger ring[k]} :: 1 <= k < |ring| ==> Detached(m, ring[k])
  }

  /** `root` points at tree t, whose parent pointer is p. */
  ghost predicate Rep(m: Memory, t: Tree, root: int, p: int) {
    match t
    case Leaf => root == 0
    case Node(ring, _, l, r) =>
      NodeRep(m, ring, p) && root == ring[0] && Rep(m, l, m.c0[root], root) && Rep(m, r, m.c1[root], root)
  }

  /** No chunk is linked twice. */
  ghost predicate Tidy(t: Tree) {
    t.Node? ==>
      && t.ring != [] && Distinct(t.ring) && Tidy(t.l) && Tidy(t.r) && Unshared(t.l, t.r)
      && forall x :: x in t.ring ==> !Has(t.l, x) && !Has(t.r, x)
  }

  lemma {:induction false} SoundTidy(t: Tree, lo: nat, k: nat)
    requires Sound(t, lo, k)
    ensures Tidy(t)
  {
    if t.Node? && k > 0 {
      SoundTidy(t.l, lo, k - 1);
      SoundTidy(t.r, lo + P(k - 1), k - 1);
    }
  }

  /** The node is not disturbed by writes elsewhere or to its first chunk's children. */
  lemma NodeFrame(m: Memory, m': Memory, ring: seq<int>, p: int)
    requires NodeRep(m, ring, p)
    requires forall x :: x in ring && x != ring[0] ==> SameAt(m, m', x)
    requires SameButChildren(m, m', ring[0])
    ensures NodeRep(m', ring, p)
  {
    forall i | 0 <= i < |ring| - 1
      ensures Linked(m', ring[i], ring[i + 1])
    {
      assert Linked(m, ring[i], ring[i + 1]) && ring[i] in ring && ring[i + 1] in ring;
    }
    assert ring[|ring| - 1] in ring;
    forall k | 1 <= k < |ring|
      ensures Detached(m', ring[k])
    {
      assert ring[k] in ring && ring[k] != ring[0] && Detached(m, ring[k]);
    }
  }

  ghost predicate SameButChildren(m: Memory, m': Memory, x: int) {
    && (x in m'.fd <==> x in m.fd) && (x in m.fd ==> m'.fd[x] == m.fd[x])
    && (x in m'.bk <==> x in m.bk) && (x in m.bk ==> m'.bk[x] == m.bk[x])
    && (x in m'.parent <==> x in m.parent) && (x in m.parent ==> m'.parent[x] == m.parent[x])
    && (x in m.c0 ==> x in m'.c0) && (x in m.c1 ==> x in m'.c1)
  }

  lemma {:induction false} RepFrame(m: Memory, m': Memory, t: Tree, root: int, p: int)
    requires Rep(m, t, root, p)
    requires forall x :: Has(t, x) ==> SameAt(m, m', x)
    ensures Rep(m', t, root, p)
  {
    if t.Node? {
      forall x | x in t.ring ensures SameAt(m, m', x) { assert Has(t, x); }
      forall x | Has(t.l, x) || Has(t.r, x) ensures SameAt(m, m', x) { assert Has(t, x); }
      assert root in t.ring;
      SameAtImplies(m, m', root);
      NodeFrame(m, m', t.ring, p);
      RepFrame(m, m', t.l, m.c0[root], root);
      RepFrame(m, m', t.r, m.c1[root], root);
    }
  }

  /** A new left subtree in memory, everything else undisturbed. */
  lemma RepLeft(m: Memory, m': Memory, t: Tree, l: Tree, root: int, p: int)
    requires t.Node? && Rep(m, t, root, p)
    requires forall x :: x in t.ring && x != root ==> SameAt(m, m', x)
    requires SameButChildren(m, m', root) && m'.c1[root] == m.c1[root]
    requires forall x :: Has(t.r, x) ==> SameAt(m, m', x)
    requires Rep(m', l, m'.c0[root], root)
    ensures Rep(m', t.(l := l), root, p)
  {
    NodeFrame(m, m', t.ring, p);
    RepFrame(m, m', t.r, m.c1[root], root);
  }

  /** A new right subtree in memory, everything else undisturbed. */
  lemma RepRight(m: Memory, m': Memory, t: Tree, r: Tree, root: int, p: int)
    requires t.Node? && Rep(m, t, root, p)
    requires forall x :: x in t.ring && x != root ==> SameAt(m, m', x)
    requires SameButChildren(m, m', root) && m'.c0[root] == m.c0[root]
    requires forall x :: Has(t.l, x) ==> SameAt(m, m', x)
    requires Rep(m', r, m'.c1[root], root)
    ensures Rep(m', t.(r := r), root, p)
  {
    NodeFrame(m, m', t.ring, p);
    RepFrame(m, m', t.l, m.c0[root], root);
  }

  lemma {:induction false} RepPositive(m: Memory, t: Tree, root: int, p: int, x: int)
    requires Rep(m, t, root, p) && Has(t, x)
    ensures x > 0
  {
    if x in t.ring {
      var i := IndexOf(t.ring, x);
    } else if Has(t.l, x) {
      RepPositive(m, t.l, m.c0[root], root, x);
    } else {
      RepPositive(m, t.r, m.c1[root], root, x);
    }
  }

  // ----- insertion

  /** Where the walk for a size ends: at the node of that size, or at the node whose
      child on that side is missing. */
  function Spot(t: Tree, lo: nat, k: nat, size: nat): (u: (Tree, bool))
    requires t.Node? && Sound(t, lo, k) && lo <= size < lo + P(k)
    ensures u.0.Node?
  {
    if t.size == size then (t, false)
    else if size < lo + P(k - 1) then if t.l.Node? then Spot(t.l, lo, k - 1, size) else (t, false)
    else if t.r.Node? then Spot(t.r, lo + P(k - 1), k - 1, size) else (t, true)
  }

  /** The pointer writes of insert_large_chunk once the walk has ended. */
  function Attach(m: Memory, u: Tree, upper: bool, size: nat, x: int): Memory
    requires u.Node? && u.ring != [] && u.ring[0] in m.fd
  {
    var first := u.ring[0];
    var m0 := m.(c0 := m.c0[x := 0], c1 := m.c1[x := 0]);
    if u.size == size then
      LinkBehind(m0, first, x).(parent := m.parent[x := 0])
    else
      var m1 := m0.(parent := m.parent[x := first], fd := m.fd[x := x], bk := m.bk[x := x]);
      if upper then m1.(c1 := m1.c1[first := x]) else m1.(c0 := m1.c0[first := x])
  }

  lemma {:induction false} AttachSpot(m: Memory, t: Tree, root: int, p: int, lo: nat, k: nat, size: nat)
    requires t.Node? && Sound(t, lo, k) && lo <= size < lo + P(k) && Rep(m, t, root, p)
    ensures var u := Spot(t, lo, k, size).0;
            u.ring != [] && u.ring[0] in m.fd && m.fd[u.ring[0]] in u.ring && forall y :: y in u.ring ==> Has(t, y)
  {
    if t.size == size || (if size < lo + P(k - 1) then t.l.Leaf? else t.r.Leaf?) {
      RingFields(m, t.ring, 0);
    } else if size < lo + P(k - 1) {
      AttachSpot(m, t.l, m.c0[root], root, lo, k - 1, size);
    } else {
      AttachSpot(m, t.r, m.c1[root], root, lo + P(k - 1), k - 1, size);
    }
  }

  lemma AttachFrame(m: Memory, u: Tree, upper: bool, size: nat, x: int, y: int)
    requires u.Node? && u.ring != [] && u.ring[0] in m.fd
    requires y != x && y != u.ring[0] && y != m.fd[u.ring[0]]
    ensures SameAt(m, Attach(m, u, upper, size, x), y)
  {
  }

  lemma SameAtImplies(m: Memory, m': Memory, x: int)
    requires SameAt(m, m', x)
    ensures SameButChildren(m, m', x)
    ensures x in m.c0 ==> m'.c0[x] == m.c0[x]
    ensures x in m.c1 ==> m'.c1[x] == m.c1[x]
  {
  }

  /** The writes turn the tree in memory into the tree with the chunk inserted. */
  lemma {:induction false} AttachRep(m: Memory, t: Tree, root: int, p: int, lo: nat, k: nat, size: nat, x: int)
    requires t.Node? && Sound(t, lo, k) && lo <= size < lo + P(k) && Rep(m, t, root, p) && !Has(t, x) && x > 0
    requires Spot(t, lo, k, size).0.ring != [] && Spot(t, lo, k, size).0.ring[0] in m.fd
    ensures var (u, upper) := Spot(t, lo, k, size);
            Rep(Attach(m, u, upper, size, x), Insert(t, lo, k, size, x), root, p)
    decreases t, 1
  {
    hide Attach, NodeRep, Rep;
    if t.size == size {
      AttachToRing(m, t, root, p, lo, k, x);
    } else if size < lo + P(k - 1) {
      if t.l.Leaf? {
        AttachChild(m, t, root, p, lo, k, size, x, false);
      } else { AttachBelowLeft(m, t, root, p, lo, k, size, x); }
    } else {
      if t.r.Leaf? {
        AttachChild(m, t, root, p, lo, k, size, x, true);
      } else { AttachBelowRight(m, t, root, p, lo, k, size, x); }
    }
  }

  lemma AttachBelowLeft(m: Memory, t: Tree, root: int, p: int, lo: nat, k: nat, size: nat, x: int)
    requires t.Node? && Sound(t, lo, k) && lo <= size < lo + P(k) && Rep(m, t, root, p) && !Has(t, x) && x > 0
    requires Spot(t, lo, k, size).0.ring != [] && Spot(t, lo, k, size).0.ring[0] in m.fd
    requires t.size != size && t.l.Node? && k > 0 && size < lo + P(k - 1)
    ensures var (u, upper) := Spot(t, lo, k, size);
            Rep(Attach(m, u, upper, size, x), Insert(t, lo, k, size, x), root, p)
    decreases t, 0
  {
    assert root in m.c0 && Rep(m, t.l, m.c0[root], root);
    hide Attach, NodeRep, Rep, Distinct, Apart, Unshared;
    SoundTidy(t, lo, k);
    AttachRep(m, t.l, m.c0[root], root, lo, k - 1, size, x);
    AttachLeft(m, t, root, p, lo, k - 1, size, x);
  }

  lemma AttachBelowRight(m: Memory, t: Tree, root: int, p: int, lo: nat, k: nat, size: nat, x: int)
    requires t.Node? && Sound(t, lo, k) && lo <= size < lo + P(k) && Rep(m, t, root, p) && !Has(t, x) && x > 0
    requires Spot(t, lo, k, size).0.ring != [] && Spot(t, lo, k, size).0.ring[0] in m.fd
    requires t.size != size && t.r.Node? && k > 0 && size >= lo + P(k - 1)
    ensures var (u, upper) := Spot(t, lo, k, size);
            Rep(Attach(m, u, upper, size, x), Insert(t, lo, k, size, x), root, p)
    decreases t, 0
  {
    assert root in m.c1 && Rep(m, t.r, m.c1[root], root);
    hide Attach, NodeRep, Rep, Distinct, Apart, Unshared;
    SoundTidy(t, lo, k);
    AttachRep(m, t.r, m.c1[root], root, lo + P(k - 1), k - 1, size, x);
    AttachRight(m, t, root, p, lo + P(k - 1), k - 1, size, x);
  }

  lemma AttachLeft(m: Memory, t: Tree, root: int, p: int, lo: nat, k: nat, size: nat, x: int)
    requires t.Node? && Tidy(t) && Rep(m, t, root, p) && !Has(t, x)
    requires t.l.Node? && Sound(t.l, lo, k) && lo <= size < lo + P(k)
    requires Spot(t.l, lo, k, size).0.ring != [] && Spot(t.l, lo, k, size).0.ring[0] in m.fd
    requires var (u, upper) := Spot(t.l, lo, k, size);
             Rep(Attach(m, u, upper, size, x), Insert(t.l, lo, k, size, x), m.c0[root], root)
    ensures var (u, upper) := Spot(t.l, lo, k, size);
            Rep(Attach(m, u, upper, size, x), t.(l := Insert(t.l, lo, k, size, x)), root, p)
  {
    var (u, upper) := Spot(t.l, lo, k, size);
    AttachSpot(m, t.l, m.c0[root], root, lo, k, size);
    var m' := Attach(m, u, upper, size, x);
    forall y | y in t.ring || Has(t.r, y)
      ensures SameAt(m, m', y)
    {
      assert !Has(t.l, y) && Has(t, y);
      AttachFrame(m, u, upper, size, x, y);
    }
    SameAtImplies(m, m', root);
    hide Attach, SameAt, SameButChildren, Insert, Spot;
    RepLeft(m, m', t, Insert(t.l, lo, k, size, x), root, p);
  }

  lemma AttachRight(m: Memory, t: Tree, root: int, p: int, lo: nat, k: nat, size: nat, x: int)
    requires t.Node? && Tidy(t) && Rep(m, t, root, p) && !Has(t, x)
    requires t.r.Node? && Sound(t.r, lo, k) && lo <= size < lo + P(k)
    requires Spot(t.r, lo, k, size).0.ring != [] && Spot(t.r, lo, k, size).0.ring[0] in m.fd
    requires var (u, upper) := Spot(t.r, lo, k, size);
             Rep(Attach(m, u, upper, size, x), Insert(t.r, lo, k, size, x), m.c1[root], root)
    ensures var (u, upper) := Spot(t.r, lo, k, size);
            Rep(Attach(m, u, upper, size, x), t.(r := Insert(t.r, lo, k, size, x)), root, p)
  {
    var (u, upper) := Spot(t.r, lo, k, size);
    AttachSpot(m, t.r, m.c1[root], root, lo, k, size);
    var m' := Attach(m, u, upper, size, x);
    forall y | y in t.ring || Has(t.l, y)
      ensures SameAt(m, m', y)
    {
      assert !Has(t.r, y) && Has(t, y);
      AttachFrame(m, u, upper, size, x, y);
    }
    SameAtImplies(m, m', root);
    hide Attach, SameAt, SameButChildren, Insert, Spot;
    RepRight(m, m', t, Insert(t.r, lo, k, size, x), root, p);
  }

  lemma AttachToRing(m: Memory, t: Tree, root: int, p: int, lo: nat, k: nat, x: int)
    requires t.Node? && Sound(t, lo, k) && Rep(m, t, root, p) && !Has(t, x) && x > 0 && t.ring[0] in m.fd
    ensures Rep(Attach(m, t, false, t.size, x), t.(ring := [t.ring[0], x] + t.ring[1..]), root, p)
  {
    var m' := Attach(m, t, false, t.size, x);
    RingFields(m, t.ring, 0);
    forall y | Has(t.l, y) || Has(t.r, y)
      ensures SameAt(m, m', y)
    {
      assert y !in t.ring && Has(t, y);
      AttachFrame(m, t, false, t.size, x, y);
    }
    AttachRing(m, t, p, x);
    assert m'.c0[root] == m.c0[root] && m'.c1[root] == m.c1[root];
    hide Attach, SameAt;
    RepFrame(m, m', t.l, m.c0[root], root);
    RepFrame(m, m', t.r, m.c1[root], root);
  }

  lemma AttachRing(m: Memory, t: Tree, p: int, x: int)
    requires t.Node? && NodeRep(m, t.ring, p) && x !in t.ring && x > 0 && t.ring[0] in m.fd
    ensures NodeRep(Attach(m, t, false, t.size, x), [t.ring[0], x] + t.ring[1..], p)
  {
    var m' := Attach(m, t, false, t.size, x);
    var ring' := [t.ring[0], x] + t.ring[1..];
    LinkBehindRing(m, t.ring, x);
    var m1 := LinkBehind(m, t.ring[0], x);
    assert m'.fd == m1.fd && m'.bk == m1.bk;
    RingFieldsOnly(m1, m', ring');
    forall i | 1 <= i < |ring'|
      ensures Detached(m', ring'[i])
    {
      if i >= 2 {
        assert ring'[i] == t.ring[i - 1];
        assert Detached(m, t.ring[i - 1]);
      }
    }
  }

  lemma RingFieldsOnly(m: Memory, m': Memory, ring: seq<int>)
    requires IsRing(m, ring) && m.fd == m'.fd && m.bk == m'.bk
    ensures IsRing(m', ring)
  {
    forall i | 0 <= i < |ring| - 1
      ensures Linked(m', ring[i], ring[i + 1])
    {
      assert Linked(m, ring[i], ring[i + 1]);
    }
  }

  lemma AttachChild(m: Memory, t: Tree, root: int, p: int, lo: nat, k: nat, size: nat, x: int, upper: bool)
    requires t.Node? && Sound(t, lo, k) && Rep(m, t, root, p) && !Has(t, x) && x > 0 && t.ring[0] in m.fd
    requires t.size != size && (if upper then t.r.Leaf? else t.l.Leaf?)
    ensures var c := Node([x], size, Leaf, Leaf);
            Rep(Attach(m, t, upper, size, x), if upper then t.(r := c) else t.(l := c), root, p)
  {
    var m' := Attach(m, t, upper, size, x);
    var c := Node([x], size, Leaf, Leaf);
    assert Rep(m', c, x, root);
    forall y | Has(t, y) && y != root
      ensures SameAt(m, m', y)
    {
    }
    forall y | (y in t.ring && y != root) || Has(t.l, y) || Has(t.r, y) ensures SameAt(m, m', y) { assert Has(t, y); }
    if upper {
      RepRight(m, m', t, c, root, p);
    } else {
      RepLeft(m, m', t, c, root, p);
    }
  }
}
