/** luaL_Buffer (server/3rd/LuaJIT-2.0.5/src/lib_aux.c): a small buffer, and pieces that did
    not fit on the Lua stack, as one growing string. */
module LuaBuffer {
  const LUA_MINSTACK := 20

  /** Pieces in order, as one string. */
  function Flat(xs: seq<string>): string {
    if xs == [] then "" else xs[0] + Flat(xs[1..])
  }

  lemma {:induction false} FlatSplit(xs: seq<string>, k: nat)
    requires k <= |xs|
    ensures Flat(xs) == Flat(xs[..k]) + Flat(xs[k..])
  {
    if k > 0 {
      FlatSplit(xs[1..], k - 1);
      assert xs[..k][1..] == xs[1..][..k - 1] && xs[1..][k - 1..] == xs[k..];
    } else {
      assert xs[..0] == [] && xs[0..] == xs;
    }
  }

  lemma FlatOne(x: string)
    ensures Flat([x]) == x
  {
  }

  /** Joining the last pieces changes no character. */
  lemma FlatJoin(xs: seq<string>, k: nat)
    requires k <= |xs|
    ensures Flat(xs[..k] + [Flat(xs[k..])]) == Flat(xs)
  {
    var ys := xs[..k] + [Flat(xs[k..])];
    FlatSplit(xs, k);
    FlatSplit(ys, k);
    FlatOne(Flat(xs[k..]));
    assert ys[..k] == xs[..k] && ys[k..] == [Flat(xs[k..])];
  }

  lemma FlatAppend(xs: seq<string>, ys: seq<string>)
    ensures Flat(xs + ys) == Flat(xs) + Flat(ys)
  {
    FlatSplit(xs + ys, |xs|);
    assert (xs + ys)[..|xs|] == xs && (xs + ys)[|xs|..] == ys;
  }

  class Buffer {
    /** LUAL_BUFFERSIZE. */
    const size: nat
    /** The bytes of the buffer before p. */
    var buffer: string
    var lvl: nat
    /** The Lua stack, its top last. */
    var stack: seq<string>
    /** What was on the stack at luaL_buffinit. */
    ghost const base: seq<string>

    /** The lvl pieces, with n more strings above them. */
    ghost predicate Holds(n: nat)
      reads this
    {
      0 < size && |buffer| <= size && |stack| == |base| + lvl + n && base <= stack
    }

    ghost predicate Valid()
      reads this
    {
      Holds(0) && lvl < LUA_MINSTACK / 2
    }

    /** All that has been added. */
    ghost function Added(): string
      reads this
      requires |base| <= |stack|
    {
      Flat(stack[|base|..]) + buffer
    }

    constructor (size: nat, stack: seq<string>)
      requires size > 0
      ensures Valid() && Added() == "" && base == stack && this.size == size
    {
      this.size := size;
      this.stack := stack;
      base := stack;
      buffer := "";
      lvl := 0;
    }

    method EmptyBuffer() returns (pushed: bool)
      requires Holds(0)
      modifies this
      ensures Holds(0) && Added() == old(Added()) && buffer == ""
      ensures pushed == (old(buffer) != "")
      ensures lvl == old(lvl) + (if pushed then 1 else 0)
      ensures stack == old(stack) + (if pushed then [old(buffer)] else [])
    {
      if buffer == "" { return false; }
      pushed := true;
      stack := stack + [buffer];
      ghost var pieces := old(stack)[|base|..];
      FlatAppend(pieces, [buffer]);
      FlatOne(buffer);
      assert stack[|base|..] == pieces + [buffer];
      buffer := "";
      lvl := lvl + 1;
      assert Added() == Flat(pieces + [old(buffer)]);
    }

    /** Joins pieces from the top while there are many or the top is longer than the next. */
    method AdjustStack()
      requires Holds(0)
      modifies this
      ensures Valid() && Added() == old(Added()) && buffer == old(buffer) && lvl <= old(lvl)
      ensures old(lvl) > 0 ==> lvl > 0
      ensures old(lvl) > 1 && lvl > 1 ==> |stack[|stack| - 1]| <= |stack[|stack| - 2]|
    {
      if lvl > 1 {
        var toget := 1;
        var toplen := |stack[|stack| - 1]|;
        FlatOne(stack[|stack| - 1]);
        assert stack[|stack| - 1..] == [stack[|stack| - 1]];
        while toget < lvl
          invariant 1 <= toget <= lvl
          invariant toplen == |Flat(stack[|stack| - toget..])|
          decreases lvl - toget
        {
          var l := |stack[|stack| - (toget + 1)]|;
          if !(lvl - toget + 1 >= LUA_MINSTACK / 2 || toplen > l) { break; }
          assert stack[|stack| - (toget + 1)..] == [stack[|stack| - (toget + 1)]] + stack[|stack| - toget..];
          toplen := toplen + l;
          toget := toget + 1;
        }
        assert toget < lvl ==> lvl - toget + 1 < LUA_MINSTACK / 2 && toplen <= |stack[|stack| - (toget + 1)]|;
        Concat(toget);
        lvl := lvl - toget + 1;
      }
    }

    /** lua_concat of the top pieces. */
    method Concat(n: nat)
      requires Holds(0) && n <= lvl
      modifies this`stack
      ensures stack == old(stack)[..|old(stack)| - n] + [Flat(old(stack)[|old(stack)| - n..])]
      ensures base <= stack && Added() == old(Added())
    {
      ghost var pieces := stack[|base|..];
      var k := |stack| - n;
      FlatJoin(pieces, k - |base|);
      stack := stack[..k] + [Flat(stack[k..])];
      assert pieces[..k - |base|] == stack[|base|..k] && pieces[k - |base|..] == old(stack)[k..];
      assert stack[|base|..] == pieces[..k - |base|] + [Flat(pieces[k - |base|..])];
    }

    method PrepBuffer()
      requires Valid()
      modifies this
      ensures Valid() && Added() == old(Added()) && buffer == ""
    {
      var pushed := EmptyBuffer();
      if pushed { AdjustStack(); }
    }

    method AddChar(c: char)
      requires Valid()
      modifies this
      ensures Valid() && Added() == old(Added()) + [c]
    {
      if |buffer| >= size { PrepBuffer(); }
      buffer := buffer + [c];
    }

    method AddString(s: string)
      requires Valid()
      modifies this
      ensures Valid() && Added() == old(Added()) + s
    {
      for i := 0 to |s|
        invariant Valid() && Added() == old(Added()) + s[..i]
      {
        AddChar(s[i]);
        assert s[..i + 1] == s[..i] + [s[i]];
      }
      assert s[..|s|] == s;
    }

    /** Takes the string on top of the stack. */
    method AddValue()
      requires Holds(1) && lvl < LUA_MINSTACK / 2
      modifies this
      ensures Valid() && Added() == old(Flat(stack[|base|..|stack| - 1]) + buffer + stack[|stack| - 1])
    {
      var s := stack[|stack| - 1];
      ghost var below := stack[..|stack| - 1];
      ghost var pieces := stack[|base|..|stack| - 1];
      if |s| <= size - |buffer| {
        buffer := buffer + s;
        stack := stack[..|stack| - 1];
        assert stack[|base|..] == pieces;
        assert Flat(pieces) + (old(buffer) + s) == Flat(pieces) + old(buffer) + s;
      } else {
        if buffer != "" {
          stack := stack + [buffer];
          lvl := lvl + 1;
          buffer := "";
          var n := |stack|;
          stack := stack[..n - 2] + [stack[n - 1], stack[n - 2]];
        }
        lvl := lvl + 1;
        ghost var both := if old(buffer) == "" then [s] else [old(buffer), s];
        assert stack == below + both;
        assert stack[|base|..] == pieces + both;
        FlatAppend(pieces, both);
        FlatBoth(old(buffer), s);
        assert Flat(pieces) + (old(buffer) + s) == Flat(pieces) + old(buffer) + s;
        AdjustStack();
      }
    }

    /** Leaves all that was added as one string on the stack. */
    method PushResult()
      requires Valid()
      modifies this
      ensures Holds(0) && lvl == 1 && buffer == "" && stack == base + [old(Added())]
    {
      var pushed := EmptyBuffer();
      Concat(lvl);
      lvl := 1;
      FlatOne(stack[|base|]);
      assert stack[|base|..] == [stack[|base|]];
    }
  }

  lemma FlatBoth(b: string, s: string)
    ensures Flat(if b == "" then [s] else [b, s]) == b + s
  {
    FlatOne(s);
    assert [b, s][1..] == [s];
  }

  // ----- sequences of calls

  /** luaL_addchar, luaL_addlstring, or luaL_addvalue of a string that has been pushed. */
  datatype Addition = One(c: char) | Text(s: string) | Pushed(s: string)

  function Sum(xs: seq<Addition>): string {
    if xs == [] then ""
    else
      var x := xs[|xs| - 1];
      Sum(xs[..|xs| - 1]) + match x case One(c) => [c] case Text(s) => s case Pushed(s) => s
  }

  /** Whatever is added in whatever way, the result is one string with all of it in order,
      and the stack below it is as it was. */
  method Build(size: nat, stack: seq<string>, adds: seq<Addition>) returns (stack': seq<string>)
    requires size > 0
    ensures stack' == stack + [Sum(adds)]
  {
    var b := new Buffer(size, stack);
    for i := 0 to |adds|
      invariant fresh(b) && b.Valid() && b.base == stack && b.Added() == Sum(adds[..i])
    {
      assert adds[..i + 1][..i] == adds[..i];
      hide Sum, Flat;
      SumNext(adds[..i + 1]);
      match adds[i] {
        case One(c) => b.AddChar(c);
        case Text(s) => b.AddString(s);
        case Pushed(s) =>
          ghost var was := b.stack;
          b.stack := b.stack + [s];
          assert b.stack[|b.base|..|b.stack| - 1] == was[|b.base|..];
          b.AddValue();
      }
    }
    assert adds[..|adds|] == adds;
    b.PushResult();
    stack' := b.stack;
  }

  lemma SumNext(xs: seq<Addition>)
    requires xs != []
    ensures var x := xs[|xs| - 1];
      Sum(xs) == Sum(xs[..|xs| - 1]) + match x case One(c) => [c] case Text(s) => s case Pushed(s) => s
  {
  }
}
