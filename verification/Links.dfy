/** How rings and tries lie in memory: chunks are addresses, and the fields fd, bk,
    child[0], child[1] and parent of a free chunk are maps from its address
    (lj_alloc.c:404-416, 593-740). */
module Links {
  import opened Trie

  datatype Memory = Memory(fd: map<int, int>, bk: map<int, int>,
                           c0: map<int, int>, c1: map<int, int>, parent: map<int, int>)

  // ----- rings

  predicate Linked(m: Memory, a: int, b: int) {
    a in m.fd && b in m.bk && m.fd[a] == b && m.bk[b] == a
  }

  /** The addresses form a circular doubly-linked list in this order. */
  ghost predicate IsRing(m: Memory, ring: seq<int>) {
    && ring != [] && Distinct(ring)
    && (forall i {:trigger ring[i]} :: 0 <= i < |ring| - 1 ==> Linked(m, ring[i], ring[i + 1]))
    && Linked(m, ring[|ring| - 1], ring[0])
  }

  lemma RingFields(m: Memory, ring: seq<int>, j: nat)
    requires IsRing(m, ring) && j < |ring|
    ensures ring[j] in m.fd && ring[j] in m.bk
    ensures m.fd[ring[j]] == ring[if j == |ring| - 1 then 0 else j + 1]
    ensures m.bk[ring[j]] == ring[if j == 0 then |ring| - 1 else j - 1]
  {
    if j > 0 {
      assert Linked(m, ring[j - 1], ring[j - 1 + 1]);
    }
  }

  /** The four pointer writes that put x right behind the first element. */
  function LinkBehind(m: Memory, first: int, x: int): Memory
    requires first in m.fd
  {
    var f := m.fd[first];
    m.(fd := m.fd[first := x][x := f], bk := m.bk[f := x][x := first])
  }

  lemma LinkBehindRing(m: Memory, ring: seq<int>, x: int)
    requires IsRing(m, ring) && x !in ring
    ensures ring[0] in m.fd && IsRing(LinkBehind(m, ring[0], x), [ring[0], x] + ring[1..])
  {
    RingFields(m, ring, 0);
    InsertRing(ring, x);
    var m' := LinkBehind(m, ring[0], x);
    var ring' := [ring[0], x] + ring[1..];
    forall i | 0 <= i < |ring'| - 1
      ensures Linked(m', ring'[i], ring'[i + 1])
    {
      if i >= 2 {
        assert ring'[i] == ring[i - 1] && ring'[i + 1] == ring[i];
        assert Linked(m, ring[i - 1], ring[i - 1 + 1]);
        assert ring[i] != ring[0] && ring[i] != ring[1] && ring[i - 1] != ring[0];
      }
    }
    if |ring| > 1 {
      assert ring'[|ring'| - 1] == ring[|ring| - 1];
      assert ring[0] != ring[1] && ring[|ring| - 1] != ring[0];
    }
  }

  /** The two pointer writes that take x out of its ring. */
  function Unlink(m: Memory, x: int): Memory
    requires x in m.fd && x in m.bk
  {
    var f, r := m.fd[x], m.bk[x];
    m.(bk := m.bk[f := r], fd := m.fd[r := f])
  }

  lemma UnlinkRing(m: Memory, ring: seq<int>, x: int)
    requires IsRing(m, ring) && x in ring && |ring| > 1
    ensures x in m.fd && x in m.bk && IsRing(Unlink(m, x), RingDrop(ring, x))
    ensures m.fd[x] in ring && m.bk[x] in ring && m.bk[x] != x
    ensures ring[0] == x ==> m.bk[x] == RingDrop(ring, x)[0]
  {
    var j := IndexOf(ring, x);
    RingFields(m, ring, j);
    RingDropDistinct(ring, x);
    if ring[0] == x {
      assert j == 0;
      UnlinkFirst(m, ring);
    } else {
      UnlinkLater(m, ring, j);
    }
  }

  lemma UnlinkFirst(m: Memory, ring: seq<int>)
    requires IsRing(m, ring) && |ring| > 1 && ring[0] in m.fd && ring[0] in m.bk
    requires Distinct(RingDrop(ring, ring[0]))
    ensures IsRing(Unlink(m, ring[0]), RingDrop(ring, ring[0]))
  {
    var n := |ring|;
    var m', ring' := Unlink(m, ring[0]), RingDrop(ring, ring[0]);
    assert |ring'| == n - 1 && ring'[0] == ring[n - 1] && forall i :: 1 <= i < n - 1 ==> ring'[i] == ring[i];
    hide RingDrop, Linked, Unlink;
    forall i | 0 <= i < |ring'| - 1
      ensures Linked(m', ring'[i], ring'[i + 1])
    {
      UnlinkAt(m, ring, 0, if i == 0 then n - 1 else i);
    }
    UnlinkAt(m, ring, 0, if n == 2 then 1 else n - 2);
  }

  lemma UnlinkLater(m: Memory, ring: seq<int>, j: nat)
    requires IsRing(m, ring) && Distinct(ring) && 0 < j < |ring| && j == IndexOf(ring, ring[j]) && ring[j] in m.fd
      && ring[j] in m.bk
    requires Distinct(RingDrop(ring, ring[j]))
    ensures IsRing(Unlink(m, ring[j]), RingDrop(ring, ring[j]))
  {
    var n := |ring|;
    var m', ring' := Unlink(m, ring[j]), RingDrop(ring, ring[j]);
    RingDropAt(ring, j);
    hide RingDrop, Linked, Unlink, IsRing, Distinct, IndexOf;
    forall i | 0 <= i < |ring'| - 1
      ensures Linked(m', ring'[i], ring'[i + 1])
    {
      UnlinkAt(m, ring, j, if i < j then i else i + 1);
    }
    UnlinkAt(m, ring, j, if j == n - 1 then n - 2 else n - 1);
    RingIntro(m', ring');
  }

  lemma RingIntro(m: Memory, ring: seq<int>)
    requires ring != [] && Distinct(ring) && forall i {:trigger ring[i]} :: 0 <= i < |ring| - 1 ==>
        Linked(m, ring[i], ring[i + 1])
    requires Linked(m, ring[|ring| - 1], ring[0])
    ensures IsRing(m, ring)
  {
  }

  /** After taking out ring[j], every other element is linked to the next one left. */
  lemma UnlinkAt(m: Memory, ring: seq<int>, j: nat, i: nat)
    requires IsRing(m, ring) && j < |ring| && i < |ring| && i != j && ring[j] in m.fd && ring[j] in m.bk
    ensures var n := |ring|;
            var next := if i == n - 1 then 0 else i + 1;
            var after := if next == n - 1 then 0 else next + 1;
            Linked(Unlink(m, ring[j]), ring[i], ring[if next == j then after else next])
  {
    var n := |ring|;
    var next := if i == n - 1 then 0 else i + 1;
    RingFields(m, ring, j);
    if next == j {
      UnlinkJoins(m, ring[j]);
    } else {
      assert Linked(m, ring[i], ring[next]);
      UnlinkKeeps(m, ring[j], ring[i], ring[next]);
    }
  }

  lemma RingDropAt(ring: seq<int>, j: nat)
    requires 0 < j < |ring| && Distinct(ring) && j == IndexOf(ring, ring[j])
    ensures |RingDrop(ring, ring[j])| == |ring| - 1
    ensures forall i :: 0 <= i < |ring| - 1 ==> RingDrop(ring, ring[j])[i] == ring[if i < j then i else i + 1]
  {
  }

  lemma UnlinkJoins(m: Memory, x: int)
    requires x in m.fd && x in m.bk
    ensures Linked(Unlink(m, x), m.bk[x], m.fd[x])
  {
  }

  lemma UnlinkKeeps(m: Memory, x: int, a: int, b: int)
    requires x in m.fd && x in m.bk && Linked(m, a, b) && a != m.bk[x] && b != m.fd[x]
    ensures Linked(Unlink(m, x), a, b)
  {
  }

  /** The memories agree on all link fields of chunk x. */
  ghost predicate SameAt(m: Memory, m': Memory, x: int) {
    && (x in m'.fd <==> x in m.fd) && (x in m.fd ==> m'.fd[x] == m.fd[x])
    && (x in m'.bk <==> x in m.bk) && (x in m.bk ==> m'.bk[x] == m.bk[x])
    && (x in m'.c0 <==> x in m.c0) && (x in m.c0 ==> m'.c0[x] == m.c0[x])
    && (x in m'.c1 <==> x in m.c1) && (x in m.c1 ==> m'.c1[x] == m.c1[x])
    && (x in m'.parent <==> x in m.parent) && (x in m.parent ==> m'.parent[x] == m.parent[x])
  }

  lemma RingFrame(m: Memory, m': Memory, ring: seq<int>)
    requires IsRing(m, ring) && forall x :: x in ring ==> SameAt(m, m', x)
    ensures IsRing(m', ring)
  {
    forall i | 0 <= i < |ring| - 1
      ensures Linked(m', ring[i], ring[i + 1])
    {
      assert Linked(m, ring[i], ring[i + 1]) && ring[i] in ring && ring[i + 1] in ring;
    }
    assert ring[|ring| - 1] in ring && ring[0] in ring;
  }
}
