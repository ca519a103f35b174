/** luaL_ref and luaL_unref (server/3rd/LuaJIT-2.0.5/src/lib_aux.c): the free references of a
    table are a list through the table's own slots, whose head is slot 0. */
module RefTable {
  /** What a slot can hold: a link of the free list, or what the caller stored. */
  datatype Slot<V> = Link(next: nat) | Held(value: V)

  datatype Option<V> = None | Some(value: V)

  const LUA_REFNIL: int := -1

  /** A length the table may report: some n where a run of filled slots ends. */
  predicate Border<V>(t: map<nat, Slot<V>>, n: nat) {
    (n == 0 || n in t) && n + 1 !in t
  }

  /** The free list from reference r on; the last slot of the list is empty (nil). */
  predicate Chain<V>(t: map<nat, Slot<V>>, at: nat, free: seq<nat>)
    decreases |free|
  {
    if free == [] then at !in t
    else at in t && t[at] == Link(free[0]) && free[0] > 0 && Chain(t, free[0], free[1..])
  }

  predicate Distinct(free: seq<nat>) {
    forall i, j :: 0 <= i < j < |free| ==> free[i] != free[j]
  }

  /** The free list and the references in use partition 1..n. */
  predicate Partition<V>(t: map<nat, Slot<V>>, n: nat, free: seq<nat>) {
    && Distinct(free) && (forall r <- free :: 1 <= r <= n)
    && (forall r <- t.Keys :: r <= n)
    && (forall r :: 1 <= r <= n && r !in free ==> r in t && t[r].Held?)
    && Chain(t, 0, free)
  }

  /** The values stored and not yet released. */
  function Live<V>(t: map<nat, Slot<V>>, n: nat, free: seq<nat>): (r: map<nat, V>)
    requires Partition(t, n, free)
  {
    map r: nat | 1 <= r <= n && r !in free :: t[r].value
  }

  /** A slot of the list is a link, and none is a slot in use; the list ends, so no
      reference comes twice. */
  lemma {:induction false} ChainSlots<V>(t: map<nat, Slot<V>>, at: nat, free: seq<nat>)
    requires Chain(t, at, free)
    ensures at in t ==> t[at].Link?
    ensures forall r <- free :: r in t ==> t[r].Link?
    decreases |free|
  {
    if free != [] { ChainSlots(t, free[0], free[1..]); }
  }

  /** A chain does not see changes elsewhere. */
  lemma {:induction false} ChainKept<V>(t: map<nat, Slot<V>>, t': map<nat, Slot<V>>, at: nat, free: seq<nat>)
    requires Chain(t, at, free)
    requires at in t' <==> at in t
    requires at in t ==> t'[at] == t[at]
    requires forall r <- free :: (r in t' <==> r in t) && (r in t ==> t'[r] == t[r])
    ensures Chain(t', at, free)
    decreases |free|
  {
    if free != [] { ChainKept(t, t', free[0], free[1..]); }
  }

  /** The chain behind its head, seen from slot 0 after slot 0 has taken the head's link. */
  lemma ChainMoved<V>(t: map<nat, Slot<V>>, t': map<nat, Slot<V>>, at: nat, to: nat, free: seq<nat>)
    requires Chain(t, at, free) && to !in free && at !in free && Distinct(free)
    requires to in t' <==> at in t
    requires at in t ==> t'[to] == t[at]
    requires forall r <- free :: (r in t' <==> r in t) && (r in t ==> t'[r] == t[r])
    ensures Chain(t', to, free)
  {
    if free != [] { ChainKept(t, t', free[0], free[1..]); }
  }

  /** When no reference is free the slots 1..n are all filled, and the table's length is n
      whichever border it reports. */
  lemma BorderUnique<V>(t: map<nat, Slot<V>>, n: nat, b: nat)
    requires Partition(t, n, [])
    ensures Border(t, b) <==> b == n
  {
    assert 0 !in t;
    if b < n { assert b + 1 in t; }
  }

  ghost function MaxKey<V>(t: map<nat, Slot<V>>): (m: nat)
    ensures forall r :: r in t ==> r <= m
    decreases t
  {
    if t == map[] then 0
    else
      var r :| r in t;
      var m := MaxKey(t - {r});
      assert forall x :: x in t ==> x == r || x in t - {r};
      if r > m then r else m
  }

  class Refs<V> {
    var t: map<nat, Slot<V>>
    ghost var n: nat
    ghost var free: seq<nat>

    ghost predicate Valid()
      reads this
    {
      Partition(t, n, free)
    }

    /** lua_objlen: some border of the table. */
    method Length() returns (length: nat)
      ensures Border(t, length)
    {
      length := 0;
      ghost var max := MaxKey(t);
      while length + 1 in t
        invariant (length == 0 || length in t) && length <= max
        decreases max - length
      {
        length := length + 1;
      }
    }

    constructor ()
      ensures Valid() && Live(t, n, free) == map[]
    {
      t, n, free := map[], 0, [];
    }

    /** luaL_ref of a value or nil; length is what lua_objlen answers. */
    method Ref(v: Option<V>, length: nat) returns (ref: int)
      requires Valid()
      requires 0 !in t ==> Border(t, length)
      modifies this
      ensures Valid()
      ensures v.None? ==> ref == LUA_REFNIL && t == old(t) && n == old(n) && free == old(free)
      ensures v.Some? ==>
          ref > 0 && ref !in old(Live(t, n, free)) && Live(t, n, free) == old(Live(t, n, free))[ref := v.value]
      ensures v.Some? ==> n == if old(free) == [] then old(n) + 1 else old(n)
    {
      if v.None? { return LUA_REFNIL; }
      var r: nat := if 0 in t && t[0].Link? then t[0].next else 0;
      ChainSlots(t, 0, free);
      if r != 0 {
        Pop(t, free);
        Tail(free);
        t := if r in t then t[0 := t[r]] else t - {0};
        free := free[1..];
      } else {
        BorderUnique(t, n, length);
        r := length + 1;
        n := n + 1;
      }
      ghost var was := t;
      t := t[r := Held(v.value)];
      ChainKept(was, t, 0, free);
      ref := r;
    }

    /** luaL_unref.  A negative reference is left alone; a reference in use is released.  What
        any other number does to the table is said by UnrefInOrder. */
    method Unref(ref: int)
      requires Valid()
      modifies this
      ensures t == if ref < 0 then old(t) else AfterUnref(old(t), ref)
      ensures ref < 0 ==> n == old(n) && free == old(free)
      ensures ref in old(Live(t, n, free)) ==>
          Valid() && n == old(n) && Live(t, n, free) == old(Live(t, n, free)) - {ref}
    {
      if ref >= 0 {
        ghost var was, live := t, ref in Live(t, n, free);
        t := if 0 in t then t[ref := t[0]] else t - {ref};
        t := t[0 := Link(ref)];
        if live { Released(was, t, n, free, ref); }
        free := [ref] + free;
      }
    }
  }

  /** The two writes of luaL_unref. */
  function AfterUnref<V>(t: map<nat, Slot<V>>, ref: nat): map<nat, Slot<V>> {
    (if 0 in t then t[ref := t[0]] else t - {ref})[0 := Link(ref)]
  }

  /** luaL_unref leaves a table in order if and only if the reference was in use, or was the
      next one that would have been new. */
  lemma UnrefInOrder<V>(t: map<nat, Slot<V>>, n: nat, free: seq<nat>, ref: nat)
    requires Partition(t, n, free)
    ensures (exists n': nat, free': seq<nat> :: Partition(AfterUnref(t, ref), n', free')) <==>
        ref in Live(t, n, free) || ref == n + 1
  {
    var t' := AfterUnref(t, ref);
    if ref in Live(t, n, free) {
      Released(t, t', n, free, ref);
    } else if ref == n + 1 {
      ReleasedNew(t, n, free);
    } else if n': nat, free': seq<nat> :| Partition(t', n', free') {
      FreeStaysFree(t, n, free, ref, n', free');
      NoGap(t, n, free, ref, n', free');
    }
  }

  /** Releasing reference 1 twice: the free list leads from slot 1 back to slot 1. */
  lemma SecondReleaseBreaks()
    ensures var t: map<nat, Slot<int>> := map[0 := Link(1)];
      && Partition(t, 1, [1]) && AfterUnref(map[1 := Held(7)], 1) == t
      && AfterUnref(t, 1) == map[0 := Link(1), 1 := Link(1)]
      && forall n': nat, free': seq<nat> :: !Partition(AfterUnref(t, 1), n', free')
  {
    var t: map<nat, Slot<int>> := map[0 := Link(1)];
    assert [1][1..] == [] && Chain(t, 1, []) && Chain(t, 0, [1]);
    UnrefInOrder(t, 1, [1], 1);
  }

  lemma ReleasedNew<V>(t: map<nat, Slot<V>>, n: nat, free: seq<nat>)
    requires Partition(t, n, free)
    ensures Partition(AfterUnref(t, n + 1), n + 1, [n + 1] + free)
  {
    var t', free' := AfterUnref(t, n + 1), [n + 1] + free;
    ChainMoved(t, t', 0, n + 1, free);
    assert free'[1..] == free;
    assert forall r :: r in free' <==> r == n + 1 || r in free;
    hide Chain;
  }

  /** Releasing a free reference closes the free list to a circle. */
  lemma FreeStaysFree<V>(t: map<nat, Slot<V>>, n: nat, free: seq<nat>, ref: nat, n': nat, free': seq<nat>)
    requires Partition(t, n, free) && Partition(AfterUnref(t, ref), n', free')
    ensures ref !in free && free' != [] && free'[0] == ref > 0
  {
    var t' := AfterUnref(t, ref);
    assert t'[0] == Link(ref) && free' != [] && free'[0] == ref;
    Tail(free');
    if ref in free { CycleBack(t, t', 0, ref, free, free'[1..], ref); }
  }

  /** Releasing a reference beyond the table leaves slots that are neither free nor in use. */
  lemma NoGap<V>(t: map<nat, Slot<V>>, n: nat, free: seq<nat>, ref: nat, n': nat, free': seq<nat>)
    requires Partition(t, n, free) && Partition(AfterUnref(t, ref), n', free') && ref !in free && free' != []
      && free'[0] == ref > 0
    ensures ref <= n + 1
  {
    var t' := AfterUnref(t, ref);
    if ref > n + 1 {
      ChainMoved(t, t', 0, ref, free);
      ChainUnique(t', ref, free, free'[1..]);
      Tail(free');
      hide Chain;
      BeyondTable(t', n', free', n + 1);
    }
  }

  lemma BeyondTable<V>(t: map<nat, Slot<V>>, n: nat, free: seq<nat>, r: nat)
    requires Partition(t, n, free) && r !in t && r !in free
    ensures r == 0 || r > n
  {
  }

  /** A released free reference is met again on the way along the free list. */
  lemma {:induction false} CycleBack<V>(t: map<nat, Slot<V>>, t': map<nat, Slot<V>>, at: nat, at': nat, free: seq<nat>,
                                        rest: seq<nat>, ref: nat)
    requires Chain(t, at, free) && ref in free && Chain(t', at', rest) && at in t && at' in t' && t'[at'] == t[at]
    requires forall r :: r != 0 && r != ref ==> (r in t' <==> r in t) && (r in t ==> t'[r] == t[r])
    ensures ref in rest
    decreases |free|
  {
    if free[0] != ref {
      assert free[1..] != [];
      CycleBack(t, t', free[0], free[0], free[1..], rest[1..], ref);
    }
  }

  lemma {:induction false} ChainUnique<V>(t: map<nat, Slot<V>>, at: nat, a: seq<nat>, b: seq<nat>)
    requires Chain(t, at, a) && Chain(t, at, b)
    ensures a == b
    decreases |a|
  {
    if a != [] {
      ChainUnique(t, a[0], a[1..], b[1..]);
      assert a == [a[0]] + a[1..] && b == [b[0]] + b[1..];
    }
  }

  // ----- sequences of calls

  datatype Call<V> = DoRef(v: Option<V>) | DoUnref(ref: int)

  /** Over every sequence of luaL_ref, and luaL_unref of references held or negative ones,
      the table holds exactly the values stored and not yet released, each under the
      reference that was handed out for it. */
  method Run<V>(calls: seq<Call<V>>) returns (refs: Refs<V>, held: map<int, V>)
    ensures fresh(refs) && refs.Valid()
      && (forall r :: r in held ==>
        r > 0 && r in Live(refs.t, refs.n, refs.free) && Live(refs.t, refs.n, refs.free)[r] == held[r])
    ensures forall r :: r in Live(refs.t, refs.n, refs.free) ==> r in held
  {
    refs := new Refs<V>();
    held := map[];
    for i := 0 to |calls|
      invariant fresh(refs) && refs.Valid()
      invariant forall r :: r in held ==>
          r > 0 && r in Live(refs.t, refs.n, refs.free) && Live(refs.t, refs.n, refs.free)[r] == held[r]
      invariant forall r :: r in Live(refs.t, refs.n, refs.free) ==> r in held
    {
      hide Partition, Live;
      match calls[i] {
        case DoRef(v) =>
          var length := refs.Length();
          var r := refs.Ref(v, length);
          if v.Some? { held := held[r := v.value]; }
        case DoUnref(r) =>
          if r < 0 || r in held {
            refs.Unref(r);
            held := held - {r};
          }
      }
    }
  }

  /** Putting a reference in use in front of the free list. */
  lemma Released<V>(t: map<nat, Slot<V>>, t': map<nat, Slot<V>>, n: nat, free: seq<nat>, ref: nat)
    requires Partition(t, n, free) && ref in Live(t, n, free)
    requires t' == (if 0 in t then t[ref := t[0]] else t - {ref})[0 := Link(ref)]
    ensures Partition(t', n, [ref] + free)
    ensures Live(t', n, [ref] + free) == Live(t, n, free) - {ref}
  {
    var free' := [ref] + free;
    ReleasedChain(t, t', n, free, ref);
    assert forall r :: r in free' <==> r == ref || r in free;
    hide Chain;
  }

  lemma ReleasedChain<V>(t: map<nat, Slot<V>>, t': map<nat, Slot<V>>, n: nat, free: seq<nat>, ref: nat)
    requires Partition(t, n, free) && ref in Live(t, n, free)
    requires t' == (if 0 in t then t[ref := t[0]] else t - {ref})[0 := Link(ref)]
    ensures Chain(t', 0, [ref] + free)
  {
    ChainMoved(t, t', 0, ref, free);
    assert ([ref] + free)[1..] == free;
  }

  lemma Tail(free: seq<nat>)
    requires free != [] && Distinct(free)
    ensures Distinct(free[1..]) && free[0] !in free[1..]
    ensures forall r :: r in free <==> r == free[0] || r in free[1..]
  {
    assert free == [free[0]] + free[1..];
  }

  /** Taking the head off the free list. */
  lemma Pop<V>(t: map<nat, Slot<V>>, free: seq<nat>)
    requires Chain(t, 0, free) && 0 in t && Distinct(free) && 0 !in free
    ensures free != [] && t[0] == Link(free[0])
    ensures var t' := if free[0] in t then t[0 := t[free[0]]] else t - {0}; Chain(t', 0, free[1..])
  {
    var t' := if free[0] in t then t[0 := t[free[0]]] else t - {0};
    assert forall r <- free[1..] :: r in free && r != 0;
    ChainMoved(t, t', free[0], 0, free[1..]);
  }
}
