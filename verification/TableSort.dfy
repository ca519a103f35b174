/** table.sort: quicksort with a user-supplied comparison (lib_table.c:170-270).

    Table elements are array elements 1 .. n; slot 0 is not used. */
module TableSort {
  import opened Words

  // ----- ranges of a sequence

  /** s' differs from s by a permutation of the elements l .. u. */
  ghost predicate Shuffled<T>(s: seq<T>, s': seq<T>, l: int, u: int) {
    && |s'| == |s| && 0 <= l && u < |s|
    && (forall x :: 0 <= x < |s| && !(l <= x <= u) ==> s'[x] == s[x])
    && (l <= u ==> multiset(s'[l..u + 1]) == multiset(s[l..u + 1]))
  }

  lemma ShuffledRefl<T>(s: seq<T>, l: int, u: int)
    requires 0 <= l && u < |s|
    ensures Shuffled(s, s, l, u)
  {
  }

  lemma ShuffledTrans<T>(s: seq<T>, s1: seq<T>, s2: seq<T>, l: int, u: int)
    requires Shuffled(s, s1, l, u) && Shuffled(s1, s2, l, u)
    ensures Shuffled(s, s2, l, u)
  {
  }

  /** A permutation of part of a range is one of the range. */
  lemma ShuffledWiden<T>(s: seq<T>, s': seq<T>, l: int, u: int, l0: int, u0: int)
    requires Shuffled(s, s', l, u) && 0 <= l0 <= l && u <= u0 < |s|
    ensures Shuffled(s, s', l0, u0)
  {
    if l <= u {
      assert s[l0..u0 + 1] == s[l0..l] + s[l..u + 1] + s[u + 1..u0 + 1];
      assert s'[l0..u0 + 1] == s'[l0..l] + s'[l..u + 1] + s'[u + 1..u0 + 1];
      assert s[l0..l] == s'[l0..l] && s[u + 1..u0 + 1] == s'[u + 1..u0 + 1];
    } else {
      assert s == s';
    }
  }

  lemma SwapShuffled<T>(s: seq<T>, i: int, j: int, l: int, u: int)
    requires 0 <= l <= i <= u < |s| && l <= j <= u
    ensures Shuffled(s, s[i := s[j]][j := s[i]], l, u)
  {
    var s' := s[i := s[j]][j := s[i]];
    assert multiset(s') == multiset(s);
    SameOutside(s, s', l, u);
  }

  lemma SameOutside<T>(s: seq<T>, s': seq<T>, l: int, u: int)
    requires |s| == |s'| && 0 <= l <= u < |s| && multiset(s) == multiset(s')
    requires forall x :: 0 <= x < |s| && !(l <= x <= u) ==> s'[x] == s[x]
    ensures multiset(s'[l..u + 1]) == multiset(s[l..u + 1])
  {
    assert s == s[..l] + s[l..u + 1] + s[u + 1..];
    assert s' == s'[..l] + s'[l..u + 1] + s'[u + 1..];
    assert s[..l] == s'[..l] && s[u + 1..] == s'[u + 1..];
    assert multiset(s) == multiset(s[..l]) + multiset(s[l..u + 1]) + multiset(s[u + 1..]);
    assert multiset(s') == multiset(s[..l]) + multiset(s'[l..u + 1]) + multiset(s[u + 1..]);
    Cancel(multiset(s[..l]), multiset(s[l..u + 1]), multiset(s'[l..u + 1]), multiset(s[u + 1..]));
  }

  lemma Cancel<T>(a: multiset<T>, b: multiset<T>, b': multiset<T>, c: multiset<T>)
    requires a + b + c == a + b' + c
    ensures b == b'
  {
    assert a + b + c - c - a == b;
    assert a + b' + c - c - a == b';
  }

  /** Every element of the range was in it before. */
  lemma FromRange<T>(s: seq<T>, s': seq<T>, l: int, u: int, y: int) returns (x: int)
    requires Shuffled(s, s', l, u) && l <= y <= u
    ensures l <= x <= u && s'[y] == s[x]
  {
    assert s'[l..u + 1][y - l] == s'[y];
    assert s'[y] in multiset(s'[l..u + 1]);
    var z :| 0 <= z < |s[l..u + 1]| && s[l..u + 1][z] == s'[y];
    x := l + z;
  }

  // ----- orders

  /** A strict weak order: what a comparison must be for sorting to make sense. */
  ghost predicate StrictWeak<T(!new)>(lt: (T, T) -> bool) {
    && (forall x :: !lt(x, x))
    && (forall x, y, z :: lt(x, y) && lt(y, z) ==> lt(x, z))
    && (forall x, y, z :: !lt(x, y) && !lt(y, z) ==> !lt(x, z))
  }

  ghost predicate Sorted<T(!new)>(lt: (T, T) -> bool, s: seq<T>, l: int, u: int)
    requires 0 <= l && u < |s|
  {
    forall x, y :: l <= x < y <= u ==> !lt(s[y], s[x])
  }

  /** In l0 .. u0, only pairs inside l .. u may still be out of order. */
  ghost predicate Settled<T(!new)>(lt: (T, T) -> bool, s: seq<T>, l0: int, u0: int, l: int, u: int)
    requires 0 <= l0 && u0 < |s|
  {
    forall x, y :: l0 <= x < y <= u0 && (x < l || u < y) ==> !lt(s[y], s[x])
  }

  lemma SettledKept<T(!new)>(lt: (T, T) -> bool, s: seq<T>, s': seq<T>, l0: int, u0: int, l: int, u: int)
    requires Shuffled(s, s', l, u) && 0 <= l0 <= l && u <= u0 < |s| && Settled(lt, s, l0, u0, l, u)
    ensures Settled(lt, s', l0, u0, l, u)
  {
    forall x, y | l0 <= x < y <= u0 && (x < l || u < y)
      ensures !lt(s'[y], s'[x])
    {
      var x1, y1 := x, y;
      if l <= x <= u { x1 := FromRange(s, s', l, u, x); }
      if l <= y <= u { y1 := FromRange(s, s', l, u, y); }
    }
  }

  /** The pivot at i parts the range. */
  ghost predicate Parted<T(!new)>(lt: (T, T) -> bool, s: seq<T>, l: int, u: int, i: int)
    requires 0 <= l <= i <= u < |s|
  {
    (forall x :: l <= x < i ==> !lt(s[i], s[x])) && (forall x :: i < x <= u ==> !lt(s[x], s[i]))
  }

  /** Once one half is sorted, only the other one is left. */
  lemma HalfDone<T(!new)>(lt: (T, T) -> bool, s: seq<T>, s': seq<T>, l0: int, u0: int, l: int, u: int, i: int,
                   left: bool)
    requires StrictWeak(lt) && 0 <= l0 <= l <= i <= u <= u0 < |s| && Settled(lt, s, l0, u0, l, u)
      && Parted(lt, s, l, u, i)
    requires Shuffled(s, s', if left then l else i + 1, if left then i - 1 else u)
      && Sorted(lt, s', if left then l else i + 1, if left then i - 1 else u)
    ensures Settled(lt, s', l0, u0, if left then i + 1 else l, if left then u else i - 1)
  {
    ShuffledWiden(s, s', if left then l else i + 1, if left then i - 1 else u, l, u);
    SettledKept(lt, s, s', l0, u0, l, u);
    HalfParted(lt, s, s', l, u, i, left);
    hide Shuffled;
    HalfJoined(lt, s', l0, u0, l, u, i, left);
  }

  /** A partition with one half in order leaves only the other half. */
  lemma HalfJoined<T(!new)>(lt: (T, T) -> bool, s: seq<T>, l0: int, u0: int, l: int, u: int, i: int, left: bool)
    requires StrictWeak(lt) && 0 <= l0 <= l <= i <= u <= u0 < |s| && Settled(lt, s, l0, u0, l, u)
      && Parted(lt, s, l, u, i)
    requires Sorted(lt, s, if left then l else i + 1, if left then i - 1 else u)
    ensures Settled(lt, s, l0, u0, if left then i + 1 else l, if left then u else i - 1)
  {
  }

  /** Sorting one half keeps the partition. */
  lemma HalfParted<T(!new)>(lt: (T, T) -> bool, s: seq<T>, s': seq<T>, l: int, u: int, i: int, left: bool)
    requires 0 <= l <= i <= u < |s| && Parted(lt, s, l, u, i)
    requires Shuffled(s, s', if left then l else i + 1, if left then i - 1 else u)
    ensures |s'| == |s| && Parted(lt, s', l, u, i)
  {
    assert s'[i] == s[i];
    forall x | l <= x < i ensures !lt(s'[i], s'[x]) {
      if left { var z := FromRange(s, s', l, i - 1, x); }
    }
    forall x | i < x <= u ensures !lt(s'[x], s'[i]) {
      if !left { var z := FromRange(s, s', i + 1, u, x); }
    }
  }

  /** The number of binary digits. */
  ghost function Digits(n: nat): (d: nat)
    ensures n < P(d) && (n > 0 ==> d > 0 && P(d - 1) <= n)
  {
    if n == 0 then 0 else Digits(n / 2) + 1
  }

  /** Only places in l .. u have been read besides those before. */
  ghost predicate OnlyIn(seen: set<int>, seen': set<int>, l: int, u: int) {
    seen <= seen' && forall i :: i in seen' && i !in seen ==> l <= i <= u
  }

  lemma OnlyInRefl(seen: set<int>, l: int, u: int)
    ensures OnlyIn(seen, seen, l, u)
  {
  }

  lemma OnlyInTrans(seen: set<int>, seen1: set<int>, seen2: set<int>, l: int, u: int, l0: int, u0: int)
    requires OnlyIn(seen, seen1, l0, u0) && OnlyIn(seen1, seen2, l, u) && l0 <= l && u <= u0
    ensures OnlyIn(seen, seen2, l0, u0)
  {
  }

  class Sorter<T(!new)> {
    /** The n-th call of the comparison; it need not be consistent. */
    const cmp: (nat, T, T) -> bool
    var calls: nat
    /** The places of the table that have been read. */
    ghost var seen: set<int>

    constructor (cmp: (nat, T, T) -> bool)
      ensures this.cmp == cmp && seen == {}
    {
      this.cmp, calls := cmp, 0;
      seen := {};
    }

    /** lua_rawgeti of the table, at a place in l .. u. */
    method Get(a: array<T>, i: nat, ghost from: set<int>, ghost l: int, ghost u: int) returns (x: T)
      requires i < a.Length && l <= i <= u && OnlyIn(from, seen, l, u)
      modifies this`seen
      ensures x == a[i] && i in seen && OnlyIn(from, seen, l, u)
    {
      seen := seen + {i};
      x := a[i];
    }

    ghost function Lt(): (T, T) -> bool {
      (x, y) => cmp(0, x, y)
    }

    /** The comparison is a strict weak order that never changes its mind. */
    ghost predicate Consistent() {
      StrictWeak(Lt()) && forall n, x, y :: cmp(n, x, y) == Lt()(x, y)
    }

    /** Two comparisons put three elements in order. */
    lemma Order3(x: T, y: T, z: T)
      ensures Consistent() ==>
          (cmp(0, x, y) ==> !cmp(0, y, x)) && (cmp(0, x, z) ==> !cmp(0, z, x)) && (cmp(0, y, z) ==> !cmp(0, z, y))
      ensures Consistent() && !cmp(0, z, x) && cmp(0, y, x) ==> !cmp(0, z, y)
      ensures Consistent() && !cmp(0, z, x) && !cmp(0, y, x) && cmp(0, z, y) ==> !cmp(0, z, x)
    {
      if Consistent() {
        var lt := Lt();
        assert lt(x, y) == cmp(0, x, y) && lt(y, x) == cmp(0, y, x) && lt(x, z) == cmp(0, x, z)
          && lt(z, x) == cmp(0, z, x) && lt(y, z) == cmp(0, y, z) && lt(z, y) == cmp(0, z, y);
      }
    }

    /** sort_comp. */
    method Less(x: T, y: T) returns (r: bool)
      modifies this`calls
      ensures Consistent() ==> r == cmp(0, x, y)
    {
      r := cmp(calls, x, y);
      calls := calls + 1;
    }

    /** set2 on two elements that have been read: they change places. */
    method Swap(a: array<T>, i: nat, j: nat, ghost from: set<int>, ghost l: int, ghost u: int)
      requires 0 <= l <= i <= u < a.Length && l <= j <= u && OnlyIn(from, seen, l, u)
      modifies a, this`seen
      ensures a[..] == old(a[..])[i := old(a[j])][j := old(a[i])] && Shuffled(old(a[..]), a[..], l, u)
      ensures OnlyIn(from, seen, l, u)
    {
      hide OnlyIn;
      SwapShuffled(a[..], i, j, l, u);
      var x := Get(a, i, from, l, u);
      var y := Get(a, j, from, l, u);
      a[i], a[j] := y, x;
    }

    /** Sorts a[l], a[(l+u)/2] and a[u]; says whether that was all. */
    method Median(a: array<T>, l: nat, u: nat) returns (done: bool)
      requires 1 <= l < u < a.Length
      modifies a, this
      ensures Shuffled(old(a[..]), a[..], l, u) && OnlyIn(old(seen), seen, l, u)
      ensures done <==> u - l <= 2
      ensures Consistent() ==>
          !cmp(0, a[u], a[l]) && (u - l > 1 ==> !cmp(0, a[(l + u) / 2], a[l]) && !cmp(0, a[u], a[(l + u) / 2]))
    {
      hide Shuffled, Consistent, OnlyIn;
      ghost var s, from := a[..], seen;
      OnlyInRefl(from, l, u);
      Order3(a[l], a[(l + u) / 2], a[u]);
      Order3(a[u], a[(l + u) / 2], a[l]);
      ShuffledRefl(s, l, u);
      var x := Get(a, l, from, l, u);
      var y := Get(a, u, from, l, u);
      var c := Less(y, x);
      if c { Swap(a, l, u, from, l, u); }
      if u - l == 1 { return true; }
      var i := (l + u) / 2;
      ghost var s1 := a[..];
      x := Get(a, i, from, l, u);
      y := Get(a, l, from, l, u);
      c := Less(x, y);
      if c {
        Swap(a, i, l, from, l, u);
        ShuffledTrans(s, s1, a[..], l, u);
      } else {
        y := Get(a, u, from, l, u);
        c := Less(y, x);
        if c {
          Swap(a, i, u, from, l, u);
          ShuffledTrans(s, s1, a[..], l, u);
        }
      }
      done := u - l == 2;
    }

    lemma Asym()
      ensures Consistent() ==> (forall x, y :: cmp(0, x, y) ==> !cmp(0, y, x)) && forall x :: !cmp(0, x, x)
    {
      if Consistent() {
        var lt := Lt();
        forall x, y ensures cmp(0, x, y) == lt(x, y) { }
      }
    }

    /** repeat ++i until a[i] >= P; not ok when i would leave the range. */
    method Up(a: array<T>, l: nat, u: nat, i0: nat, p: T, ghost from: set<int>) returns (ok: bool, i: nat)
      requires 1 <= l <= i0 < u < a.Length && OnlyIn(from, seen, l, u)
      requires Consistent() ==> i0 < u - 1 && a[u - 1] == p
      modifies this
      ensures (ok ==> i0 < i <= u) && OnlyIn(from, seen, l, u)
      ensures Consistent() ==> ok && i <= u - 1 && !cmp(0, a[i], p) && forall x :: i0 < x < i ==> cmp(0, a[x], p)
    {
      hide Consistent, OnlyIn;
      Asym();
      i := i0 + 1;
      var x := Get(a, i, from, l, u);
      var c := Less(x, p);
      while c
        invariant i0 < i <= u && OnlyIn(from, seen, l, u)
        invariant Consistent() ==> i <= u - 1 && c == cmp(0, a[i], p) && forall x :: i0 < x < i ==> cmp(0, a[x], p)
        decreases u - i, c
      {
        if i >= u { return false, i; }
        i := i + 1;
        x := Get(a, i, from, l, u);
        c := Less(x, p);
      }
      ok := true;
    }

    /** repeat --j until a[j] <= P. */
    method Down(a: array<T>, l: nat, u: nat, j0: nat, p: T, ghost from: set<int>) returns (ok: bool, j: nat)
      requires 1 <= l < j0 <= u < a.Length && OnlyIn(from, seen, l, u)
      requires Consistent() ==> !cmp(0, p, a[l])
      modifies this
      ensures (ok ==> l <= j < j0) && OnlyIn(from, seen, l, u)
      ensures Consistent() ==> ok && !cmp(0, p, a[j]) && forall x :: j < x < j0 ==> cmp(0, p, a[x])
    {
      hide Consistent, OnlyIn;
      j := j0 - 1;
      var x := Get(a, j, from, l, u);
      var c := Less(p, x);
      while c
        invariant l <= j < j0 && OnlyIn(from, seen, l, u)
        invariant Consistent() ==> c == cmp(0, p, a[j]) && forall x :: j < x < j0 ==> cmp(0, p, a[x])
        decreases j, c
      {
        if j <= l { return false, j; }
        j := j - 1;
        x := Get(a, j, from, l, u);
        c := Less(p, x);
      }
      ok := true;
    }

    /** Everything up to i is at most P, everything from j on at least P. */
    ghost predicate Around(s: seq<T>, l: nat, u: nat, i: nat, j: nat, p: T)
      requires u < |s|
    {
      && (forall x :: l <= x <= i && x <= u ==> !cmp(0, p, s[x])) && (forall x :: j <= x <= u ==> !cmp(0, s[x], p))
    }

    /** The loop of the partition: exchanges a[i] >= P and a[j] <= P until they meet. */
    method Partition(a: array<T>, l: nat, u: nat, p: T) returns (ok: bool, i: nat)
      requires 1 <= l && l + 2 < u < a.Length && a[u - 1] == p
      requires Consistent() ==> Around(a[..], l, u, l, u - 1, p)
      modifies a, this
      ensures Shuffled(old(a[..]), a[..], l, u) && a[u - 1] == p && OnlyIn(old(seen), seen, l, u)
      ensures ok ==> l < i <= u
      ensures Consistent() ==> ok && i <= u - 1 && Around(a[..], l, u, i - 1, i, p)
    {
      hide Consistent, Shuffled, Around, OnlyIn;
      ghost var s, from := a[..], seen;
      OnlyInRefl(from, l, u);
      ShuffledRefl(s, l, u);
      i := l;
      var j := u - 1;
      while true
        invariant l <= i <= j <= u - 1 && i < u - 1 && a[u - 1] == p && Shuffled(s, a[..], l, u) && l < j
        invariant OnlyIn(from, seen, l, u)
        invariant Consistent() ==> Around(a[..], l, u, i, j, p)
        decreases j - i
      {
        ghost var s1, i1, j1 := a[..], i, j;
        ok, i := Up(a, l, u, i, p, from);
        if !ok { return; }
        AroundLow(s1, l, u, i1, j1, p);
        ok, j := Down(a, l, u, j, p, from);
        if !ok { return; }
        Closer(s1, l, u, i1, j1, i, j, p);
        if j < i { return; }
        Swap(a, i, j, from, l, u);
        ShuffledTrans(s, s1, a[..], l, u);
      }
    }

    /** The partition around the pivot; not ok is the error "invalid order function". */
    method Split(a: array<T>, l: nat, u: nat) returns (ok: bool, i: nat)
      requires 1 <= l && l + 2 < u < a.Length
      requires Consistent() ==> !cmp(0, a[(l + u) / 2], a[l]) && !cmp(0, a[u], a[(l + u) / 2])
      modifies a, this
      ensures Shuffled(old(a[..]), a[..], l, u) && OnlyIn(old(seen), seen, l, u)
      ensures ok ==> l < i <= u
      ensures Consistent() ==> ok && Parted(Lt(), a[..], l, u, i)
    {
      hide Consistent, Shuffled, Parted, Around, OnlyIn;
      ghost var s, from := a[..], seen;
      OnlyInRefl(from, l, u);
      var p := Get(a, (l + u) / 2, from, l, u);
      AroundStart(s, l, u);
      Swap(a, (l + u) / 2, u - 1, from, l, u);
      ghost var s1 := a[..];
      ghost var seen1 := seen;
      ok, i := Partition(a, l, u, p);
      OnlyInTrans(from, seen1, seen, l, u, l, u);
      ShuffledTrans(s, s1, a[..], l, u);
      if !ok { return; }
      ghost var s2 := a[..];
      PivotIn(s2, l, u, i, p);
      Swap(a, u - 1, i, from, l, u);
      ShuffledTrans(s, s2, a[..], l, u);
    }

    lemma AroundStart(s: seq<T>, l: nat, u: nat)
      requires l + 2 < u < |s|
      ensures var m := (l + u) / 2; var s' := s[m := s[u - 1]][u - 1 := s[m]];
        Consistent() && !cmp(0, s[m], s[l]) && !cmp(0, s[u], s[m]) ==> Around(s', l, u, l, u - 1, s[m])
    {
      hide Consistent;
      Asym();
    }

    lemma AroundLow(s: seq<T>, l: nat, u: nat, i: nat, j: nat, p: T)
      requires l <= i && l <= u < |s|
      ensures Around(s, l, u, i, j, p) ==> !cmp(0, p, s[l])
    {
    }

    /** What the two scans have found out. */
    lemma Closer(s: seq<T>, l: nat, u: nat, i0: nat, j0: nat, i: nat, j: nat, p: T)
      requires l <= i0 < i <= u < |s| && l <= j < j0 <= u - 1
      ensures Consistent() && Around(s, l, u, i0, j0, p) && !cmp(0, s[i], p) && !cmp(0, p, s[j])
        && (forall x :: i0 < x < i ==> cmp(0, s[x], p)) && (forall x :: j < x < j0 ==> cmp(0, p, s[x]))
        ==> (j < i ==> Around(s, l, u, i - 1, i, p)) && (i <= j ==> Around(s[i := s[j]][j := s[i]], l, u, i, j, p))
    {
      hide Consistent;
      Asym();
    }

    lemma PivotIn(s: seq<T>, l: nat, u: nat, i: nat, p: T)
      requires l < i <= u < |s| && s[u - 1] == p && l < u - 1
      ensures Consistent() && i <= u - 1 && Around(s, l, u, i - 1, i, p) ==>
          Parted(Lt(), s[u - 1 := s[i]][i := s[u - 1]], l, u, i)
    {
      hide Consistent;
      Asym();
    }

    /** auxsort: the smaller half recursively, the larger one in the loop.  d bounds the
        depth of the recursion by the logarithm of the length. */
    method AuxSort(a: array<T>, l0: nat, u0: nat, ghost d: nat) returns (ok: bool)
      requires 1 <= l0 && u0 < a.Length && l0 <= u0 + 1 && u0 + 1 - l0 < P(d)
      modifies a, this
      ensures Shuffled(old(a[..]), a[..], l0, u0) && OnlyIn(old(seen), seen, l0, u0)
      ensures Consistent() ==> ok && Sorted(Lt(), a[..], l0, u0)
      decreases d
    {
      hide Consistent, Shuffled, Sorted, Settled, Parted, OnlyIn;
      var l, u := l0, u0;
      ghost var s := a[..];
      OnlyInRefl(seen, l0, u0);
      ShuffledRefl(s, l0, u0);
      SettledStart(s, l0, u0);
      while l < u
        invariant l0 <= l <= u + 1 && u <= u0 && Shuffled(s, a[..], l0, u0)
        invariant OnlyIn(old(seen), seen, l0, u0)
        invariant Consistent() ==> Settled(Lt(), a[..], l0, u0, l, u)
        decreases u - l
      {
        ghost var s1, seen1 := a[..], seen;
        var done := Median(a, l, u);
        OnlyInTrans(old(seen), seen1, seen, l, u, l0, u0);
        Within(s, s1, a[..], l, u, l0, u0);
        if done {
          MedianSorts(a[..], l0, u0, l, u);
          return true;
        }
        ghost var s2, seen2 := a[..], seen;
        var i;
        ok, i := Split(a, l, u);
        OnlyInTrans(old(seen), seen2, seen, l, u, l0, u0);
        Within(s, s2, a[..], l, u, l0, u0);
        if !ok { return; }
        ghost var s3, seen3 := a[..], seen;
        var left := i - l < u - i;
        HalfSize(l, u, i, d);
        if left {
          ok := AuxSort(a, l, i - 1, d - 1);
        } else {
          ok := AuxSort(a, i + 1, u, d - 1);
        }
        OnlyInTrans(old(seen), seen3, seen, if left then l else i + 1, if left then i - 1 else u, l0, u0);
        Within(s, s3, a[..], if left then l else i + 1, if left then i - 1 else u, l0, u0);
        if !ok { return; }
        HalfSettled(s3, a[..], l0, u0, l, u, i, left);
        if left { l := i + 1; } else { u := i - 1; }
      }
      SettledEnd(a[..], l0, u0, l, u);
      ok := true;
    }

    /** table.sort of the elements 1 .. n: at most as many nested calls as n has binary digits. */
    method Sort(a: array<T>, n: nat) returns (ok: bool)
      requires n < a.Length
      modifies a, this
      ensures Shuffled(old(a[..]), a[..], 1, n) && OnlyIn(old(seen), seen, 1, n)
      ensures Consistent() ==> ok && Sorted(Lt(), a[..], 1, n)
    {
      hide Shuffled, Sorted, Consistent, OnlyIn;
      ok := AuxSort(a, 1, n, Digits(n));
    }

    lemma SettledStart(s: seq<T>, l: nat, u: nat)
      requires u < |s|
      ensures Settled(Lt(), s, l, u, l, u)
    {
    }

    lemma SettledEnd(s: seq<T>, l0: nat, u0: nat, l: nat, u: nat)
      requires u0 < |s| && l >= u
      ensures Settled(Lt(), s, l0, u0, l, u) ==> Sorted(Lt(), s, l0, u0)
    {
    }

    /** Two or three elements are sorted by that. */
    lemma MedianSorts(s: seq<T>, l0: nat, u0: nat, l: nat, u: nat)
      requires l0 <= l < u <= u0 < |s| && u - l <= 2
      ensures Consistent() && Settled(Lt(), s, l0, u0, l, u) && !cmp(0, s[u], s[l])
        && (u - l > 1 ==> !cmp(0, s[(l + u) / 2], s[l]) && !cmp(0, s[u], s[(l + u) / 2]))
        ==> Sorted(Lt(), s, l0, u0)
    {
    }

    /** The smaller half has at most half of the elements. */
    lemma HalfSize(l: nat, u: nat, i: nat, d: nat)
      requires l < i <= u && l + 2 < u && u + 1 - l < P(d)
      ensures d > 0 && (if i - l < u - i then i - l < P(d - 1) else u - i < P(d - 1))
    {
    }

    lemma HalfSettled(s: seq<T>, s': seq<T>, l0: nat, u0: nat, l: nat, u: nat, i: nat, left: bool)
      requires l0 <= l < i <= u <= u0 < |s| && |s'| == |s|
      requires Shuffled(s, s', if left then l else i + 1, if left then i - 1 else u)
      ensures Consistent() && Settled(Lt(), s, l0, u0, l, u) && Parted(Lt(), s, l, u, i)
        && Sorted(Lt(), s', if left then l else i + 1, if left then i - 1 else u)
        ==> Settled(Lt(), s', l0, u0, if left then i + 1 else l, if left then u else i - 1)
    {
      hide Shuffled, Sorted, Settled, Parted, StrictWeak;
      if Consistent() && Settled(Lt(), s, l0, u0, l, u) && Parted(Lt(), s, l, u, i)
        && Sorted(Lt(), s', if left then l else i + 1, if left then i - 1 else u) {
        HalfDone(Lt(), s, s', l0, u0, l, u, i, left);
      }
    }

    /** What the steps on a part of the range mean for the whole. */
    lemma Within(s: seq<T>, s1: seq<T>, s2: seq<T>, l: int, u: int, l0: int, u0: int)
      requires Shuffled(s, s1, l0, u0) && Shuffled(s1, s2, l, u) && 0 <= l0 <= l && u <= u0 < |s|
      ensures Shuffled(s, s2, l0, u0)
      ensures Settled(Lt(), s1, l0, u0, l, u) ==> Settled(Lt(), s2, l0, u0, l, u)
    {
      hide Settled;
      ShuffledWiden(s1, s2, l, u, l0, u0);
      ShuffledTrans(s, s1, s2, l0, u0);
      if Settled(Lt(), s1, l0, u0, l, u) { SettledKept(Lt(), s1, s2, l0, u0, l, u); }
    }
  }
}
