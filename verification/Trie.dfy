/** The bitwise tries of the large bins, as values (lj_alloc.c:593-730).

    A node stands for all free chunks of one size: `ring` lists their addresses, the
    first one being the chunk that is linked into the tree.  The chunks below a node
    share the leading bits of their sizes; the node's own size may be anything in
    that range. */
module Trie {
  import opened Words

  datatype Tree = Leaf | Node(ring: seq<int>, size: nat, l: Tree, r: Tree)

  /** The tree holds chunk x. */
  predicate Has(t: Tree, x: int) {
    t.Node? && (x in t.ring || Has(t.l, x) || Has(t.r, x))
  }

  function SizeOf(t: Tree, x: int): nat
    requires Has(t, x)
  {
    if x in t.ring then t.size else if Has(t.l, x) then SizeOf(t.l, x) else SizeOf(t.r, x)
  }

  ghost predicate Distinct(s: seq<int>) {
    forall i, j :: 0 <= i < j < |s| ==> s[i] != s[j]
  }

  /** The trie property over the sizes lo .. lo + 2^k: child 0 holds the lower half of
      the range, child 1 the upper half, no two nodes have the same size and no chunk
      is linked twice. */
  ghost predicate Sound(t: Tree, lo: nat, k: nat) {
    t.Leaf? || (
      && t.ring != [] && Distinct(t.ring)
      && lo <= t.size < lo + P(k)
      && (if k == 0 then t.l.Leaf? && t.r.Leaf? else Sound(t.l, lo, k - 1) && Sound(t.r, lo + P(k - 1), k - 1))
      && Apart(t.ring, t.size, t.l) && Apart(t.ring, t.size, t.r)
      && Unshared(t.l, t.r))
  }

  /** Neither the chunks of the ring nor their size occur in t. */
  ghost predicate Apart(ring: seq<int>, size: nat, t: Tree) {
    forall x :: Has(t, x) ==> x !in ring && SizeOf(t, x) != size
  }

  ghost predicate Unshared(t: Tree, u: Tree) {
    forall x :: Has(t, x) ==> !Has(u, x)
  }

  lemma {:induction false} Range(t: Tree, lo: nat, k: nat, x: int)
    requires Sound(t, lo, k) && Has(t, x)
    ensures lo <= SizeOf(t, x) < lo + P(k)
  {
    if x !in t.ring {
      if Has(t.l, x) {
        Range(t.l, lo, k - 1, x);
      } else {
        Range(t.r, lo + P(k - 1), k - 1, x);
      }
    }
  }

  lemma Parts(t: Tree)
    requires t.Node? && Unshared(t.l, t.r)
    ensures forall y :: Has(t, y) <==> y in t.ring || Has(t.l, y) || Has(t.r, y)
    ensures forall y :: Has(t.l, y) && y !in t.ring ==> SizeOf(t, y) == SizeOf(t.l, y)
    ensures forall y :: Has(t.r, y) && y !in t.ring ==> SizeOf(t, y) == SizeOf(t.r, y)
  {
  }

  /** t' is t with the chunk x of the given size put in. */
  ghost predicate Adds(t: Tree, t': Tree, x: int, size: nat) {
    && (forall y :: Has(t', y) <==> Has(t, y) || y == x)
    && (forall y :: Has(t, y) ==> y != x && SizeOf(t', y) == SizeOf(t, y))
    && SizeOf(t', x) == size
  }

  /** t' is t with the chunks `gone` taken out. */
  ghost predicate Drops(t: Tree, t': Tree, gone: seq<int>) {
    && (forall y :: Has(t', y) <==> Has(t, y) && y !in gone)
    && (forall y :: Has(t', y) ==> SizeOf(t', y) == SizeOf(t, y))
    && (forall y :: y in gone ==> Has(t, y))
  }

  // ----- insertion

  /** insert_large_chunk: walk down by the bits of the size; a chunk of a size already
      there goes right behind the first one of its ring. */
  function Insert(t: Tree, lo: nat, k: nat, size: nat, x: int): Tree
    requires Sound(t, lo, k) && lo <= size < lo + P(k)
  {
    if t.Leaf? then Node([x], size, Leaf, Leaf)
    else if t.size == size then t.(ring := [t.ring[0], x] + t.ring[1..])
    else if size < lo + P(k - 1) then t.(l := Insert(t.l, lo, k - 1, size, x))
    else t.(r := Insert(t.r, lo + P(k - 1), k - 1, size, x))
  }

  lemma InsertRing(ring: seq<int>, x: int)
    requires ring != [] && Distinct(ring) && x !in ring
    ensures var ring' := [ring[0], x] + ring[1..];
            Distinct(ring') && forall y :: y in ring' <==> y == x || y in ring
  {
    var ring' := [ring[0], x] + ring[1..];
    assert ring'[1] == x && ring'[0] == ring[0];
    assert forall i :: 2 <= i < |ring'| ==> ring'[i] == ring[i - 1];
    assert ring == [ring[0]] + ring[1..];
  }

  /** Insertion keeps the trie and adds exactly the one chunk. */
  lemma {:induction false} InsertSound(t: Tree, lo: nat, k: nat, size: nat, x: int)
    requires Sound(t, lo, k) && lo <= size < lo + P(k) && !Has(t, x)
    ensures Sound(Insert(t, lo, k, size, x), lo, k)
    ensures Adds(t, Insert(t, lo, k, size, x), x, size)
  {
    if t.Leaf? {
      AddFirst(lo, k, size, x);
    } else if t.size == size {
      AddToRing(t, lo, k, x);
    } else if size < lo + P(k - 1) {
      InsertSound(t.l, lo, k - 1, size, x);
      AddLeft(t, Insert(t.l, lo, k - 1, size, x), lo, k, size, x);
    } else {
      InsertSound(t.r, lo + P(k - 1), k - 1, size, x);
      AddRight(t, Insert(t.r, lo + P(k - 1), k - 1, size, x), lo, k, size, x);
    }
  }

  lemma AddFirst(lo: nat, k: nat, size: nat, x: int)
    requires lo <= size < lo + P(k)
    ensures Sound(Node([x], size, Leaf, Leaf), lo, k) && Adds(Leaf, Node([x], size, Leaf, Leaf), x, size)
  {
    var t' := Node([x], size, Leaf, Leaf);
    assert k > 0 ==> Sound(t'.l, lo, k - 1) && Sound(t'.r, lo + P(k - 1), k - 1);
    assert forall y :: Has(t', y) <==> y in [x];
  }

  lemma AddToRing(t: Tree, lo: nat, k: nat, x: int)
    requires t.Node? && Sound(t, lo, k) && !Has(t, x)
    ensures var t' := t.(ring := [t.ring[0], x] + t.ring[1..]); Sound(t', lo, k) && Adds(t, t', x, t.size)
  {
    InsertRing(t.ring, x);
    assert !Has(t.l, x) && !Has(t.r, x);
  }

  lemma AddLeft(t: Tree, l: Tree, lo: nat, k: nat, size: nat, x: int)
    requires t.Node? && Sound(t, lo, k) && k > 0 && Sound(l, lo, k - 1)
    requires Adds(t.l, l, x, size) && !Has(t, x) && size != t.size
    ensures Sound(t.(l := l), lo, k) && Adds(t, t.(l := l), x, size)
  {
    Parts(t);
    Parts(t.(l := l));
  }

  lemma AddRight(t: Tree, r: Tree, lo: nat, k: nat, size: nat, x: int)
    requires t.Node? && Sound(t, lo, k) && k > 0 && Sound(r, lo + P(k - 1), k - 1)
    requires Adds(t.r, r, x, size) && !Has(t, x) && size != t.size
    ensures Sound(t.(r := r), lo, k) && Adds(t, t.(r := r), x, size)
  {
    Parts(t);
    Parts(t.(r := r));
  }

  // ----- removal

  /** The node that takes the place of a removed one: follow child 1 if there is one,
      else child 0, down to a leaf. */
  function Last(t: Tree): (d: Tree)
    requires t.Node?
    ensures d.Node?
  {
    if t.r.Node? then Last(t.r) else if t.l.Node? then Last(t.l) else t
  }

  function DropLast(t: Tree): Tree
    requires t.Node?
  {
    if t.r.Node? then t.(r := DropLast(t.r)) else if t.l.Node? then t.(l := DropLast(t.l)) else Leaf
  }

  lemma {:induction false} DropLastSound(t: Tree, lo: nat, k: nat)
    requires t.Node? && Sound(t, lo, k)
    ensures var d := Last(t);
            && d.ring != [] && Distinct(d.ring) && lo <= d.size < lo + P(k)
            && (forall x :: x in d.ring ==> Has(t, x) && SizeOf(t, x) == d.size)
            && Sound(DropLast(t), lo, k)
            && Drops(t, DropLast(t), d.ring)
            && Apart(d.ring, d.size, DropLast(t))
  {
    if t.r.Node? {
      DropLastSound(t.r, lo + P(k - 1), k - 1);
      forall x | Has(t.l, x) ensures SizeOf(t.l, x) != Last(t).size { Range(t.l, lo, k - 1, x); }
      assert Has(t.r, Last(t).ring[0]);
      DropRight(t, DropLast(t.r), lo, k, Last(t).ring);
    } else if t.l.Node? {
      DropLastSound(t.l, lo, k - 1);
      assert Has(t.l, Last(t).ring[0]);
      DropLeft(t, DropLast(t.l), lo, k, Last(t).ring);
    }
  }

  lemma DropLeft(t: Tree, l: Tree, lo: nat, k: nat, gone: seq<int>)
    requires t.Node? && Sound(t, lo, k) && k > 0 && Sound(l, lo, k - 1) && Drops(t.l, l, gone)
    ensures Sound(t.(l := l), lo, k) && Drops(t, t.(l := l), gone)
  {
    Parts(t);
    Parts(t.(l := l));
  }

  lemma DropRight(t: Tree, r: Tree, lo: nat, k: nat, gone: seq<int>)
    requires t.Node? && Sound(t, lo, k) && k > 0 && Sound(r, lo + P(k - 1), k - 1) && Drops(t.r, r, gone)
    ensures Sound(t.(r := r), lo, k) && Drops(t, t.(r := r), gone)
  {
    Parts(t);
    Parts(t.(r := r));
  }

  /** unlink_large_chunk takes x out of a ring; when x was the first, its bk takes
      over as the first. */
  function RingDrop(ring: seq<int>, x: int): (r: seq<int>)
    requires x in ring && |ring| > 1
    ensures r != []
  {
    if ring[0] == x then [ring[|ring| - 1]] + ring[1..|ring| - 1]
    else var i := IndexOf(ring, x); ring[..i] + ring[i + 1..]
  }

  function IndexOf(s: seq<int>, x: int): (i: nat)
    requires x in s
    ensures i < |s| && s[i] == x
  {
    if s[0] == x then 0 else 1 + IndexOf(s[1..], x)
  }

  lemma RingDropDistinct(ring: seq<int>, x: int)
    requires x in ring && |ring| > 1 && Distinct(ring)
    ensures Distinct(RingDrop(ring, x))
    ensures forall y :: y in RingDrop(ring, x) <==> y in ring && y != x
  {
    var n := |ring|;
    var d := RingDrop(ring, x);
    if ring[0] == x {
      forall y | y in ring && y != x
        ensures y in d
      {
        var i := IndexOf(ring, y);
        if i == n - 1 { assert d[0] == y; } else { assert d[i] == y; }
      }
    } else {
      var j := IndexOf(ring, x);
      forall y | y in ring && y != x
        ensures y in d
      {
        var i := IndexOf(ring, y);
        if i < j { assert d[i] == y; } else { assert d[i - 1] == y; }
      }
    }
  }

  /** The tree without its root's chunks: the last node becomes the root. */
  function Promote(t: Tree): Tree
    requires t.Node?
  {
    if t.r.Node? then Node(Last(t.r).ring, Last(t.r).size, t.l, DropLast(t.r))
    else if t.l.Node? then Node(Last(t.l).ring, Last(t.l).size, DropLast(t.l), t.r)
    else Leaf
  }

  lemma PromoteSound(t: Tree, lo: nat, k: nat)
    requires Sound(t, lo, k) && t.Node?
    ensures Sound(Promote(t), lo, k)
    ensures Drops(t, Promote(t), t.ring)
  {
    if t.r.Node? {
      DropLastSound(t.r, lo + P(k - 1), k - 1);
      forall x | Has(t.l, x) ensures SizeOf(t.l, x) != Last(t.r).size { Range(t.l, lo, k - 1, x); }
    } else if t.l.Node? {
      DropLastSound(t.l, lo, k - 1);
    }
  }

  function Remove(t: Tree, x: int): Tree
    requires Has(t, x)
  {
    if x in t.ring then
      if |t.ring| > 1 then t.(ring := RingDrop(t.ring, x)) else Promote(t)
    else if Has(t.l, x) then t.(l := Remove(t.l, x))
    else t.(r := Remove(t.r, x))
  }

  /** Removal keeps the trie and takes out exactly the one chunk. */
  lemma {:induction false} RemoveSound(t: Tree, lo: nat, k: nat, x: int)
    requires Sound(t, lo, k) && Has(t, x)
    ensures Sound(Remove(t, x), lo, k)
    ensures Drops(t, Remove(t, x), [x])
  {
    if x in t.ring {
      RemoveRoot(t, lo, k, x);
    } else if Has(t.l, x) {
      RemoveSound(t.l, lo, k - 1, x);
      DropLeft(t, Remove(t.l, x), lo, k, [x]);
    } else {
      RemoveSound(t.r, lo + P(k - 1), k - 1, x);
      DropRight(t, Remove(t.r, x), lo, k, [x]);
    }
  }

  lemma RemoveRoot(t: Tree, lo: nat, k: nat, x: int)
    requires t.Node? && Sound(t, lo, k) && x in t.ring
    ensures Sound(Remove(t, x), lo, k) && Drops(t, Remove(t, x), [x])
  {
    assert forall y :: y in [x] <==> y == x;
    if |t.ring| > 1 {
      RingDropDistinct(t.ring, x);
    } else {
      assert t.ring == [x];
      PromoteSound(t, lo, k);
    }
  }
}
