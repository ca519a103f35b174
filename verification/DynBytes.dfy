/** The bytes that pass 3 of DynASM writes for every action (dasm_x86.h:369-439); the
    displacements of branches are in DynEncode. */
module DynBytes {
  import opened DynAsm
  import opened DynLink
  import opened DynEncode

  /** The operand bytes of an action that is neither a plain byte nor a reference. */
  function Operand(a: Action, n: int, size: nat): seq<nat> {
    match a
    case ImmS => Le(n, 1) case ImmB => Le(n, 1) case ImmW => Le(n, 2) case ImmD => Le(n, 4)
    case ImmWB => Le(n, if Fits8(n) then 1 else 2)
    case ImmDB => Le(n, if Fits8(n) then 1 else 4)
    case Space(fill) => seq(size, _ => fill)
    case Align(_) => seq(size, _ => 0x90)
    case _ => []
  }

  lemma OperandFixed(a: Action, n: int, n': int, size: nat)
    requires !StoresArg(a)
    ensures Operand(a, n, size) == Operand(a, n', size)
  {
  }

  ghost predicate Item(prog: seq<seq<Action>>, l: Layout, x: nat, y: nat) {
    x < |l.cells| && y < |l.cells[x]| && InProgram(prog, l.cells[x][y]) && l.cells[x][y].j >= 0
  }

  /** The cell is a branch in short form that takes sh bytes less. */
  ghost predicate ShortBranch(prog: seq<seq<Action>>, l: Layout, f: Fix, x: nat, y: nat, sh: nat) {
    sh != 0 && Item(prog, l, x, y) && IsRel(ItemOf(prog, l.cells[x][y])) && x < |f.sh| && y < |f.sh[x]|
      && f.sh[x][y] == sh
  }

  /** The cell is an immediate that takes one byte in place of more. */
  ghost predicate ShortImm(prog: seq<seq<Action>>, l: Layout, x: nat, y: nat) {
    Item(prog, l, x, y) && (ItemOf(prog, l.cells[x][y]).ImmWB? || ItemOf(prog, l.cells[x][y]).ImmDB?)
      && Fits8(l.cells[x][y].arg)
  }

  /** The byte of the cell belongs to the opcode of a branch in short form. */
  ghost predicate Replaced(prog: seq<seq<Action>>, l: Layout, f: Fix, x: nat, y: nat, s: nat, i: nat) {
    || (Before(x, y + 1, s, i) && (ShortBranch(prog, l, f, x, y + 1, 3) || ShortBranch(prog, l, f, x, y + 1, 4)))
    || (Before(x, y + 2, s, i) && ShortBranch(prog, l, f, x, y + 2, 4))
  }

  /** The byte of the cell is an opcode whose immediate is short: it grows by two. */
  ghost predicate Bumped(prog: seq<seq<Action>>, l: Layout, x: nat, y: nat, s: nat, i: nat) {
    Before(x, y + 2, s, i) && ShortImm(prog, l, x, y + 2)
  }

  /** What stands in the code for a global label that is not defined here: its address, and
      for a branch the distance to it from `end`. */
  ghost function ExternValue(k: Book, p: int, a: Action, base: int, end: int): int
    requires Extern(k, p) && ExternOf(k, p) in k.globals
  {
    k.globals[ExternOf(k, p)] - if IsRel(a) then base + end else 0
  }

  ghost predicate ExternBytes(k: Book, p: int, a: Action, base: int, at: int, end: int, out: seq<nat>)
    requires Extern(k, p)
  {
    && ExternOf(k, p) in k.globals && 0 <= at <= end <= |out|
    && out[at..end] == Le(ExternValue(k, p, a, base, end), 4)
  }

  /** What the code holds for the cell (x, y) when pass 3 comes to (s, i). */
  ghost predicate CellBytes(prog: seq<seq<Action>>, l: Layout, k: Book, f: Fix, base: int, x: nat, y: nat, s: nat,
                            i: nat, out: seq<nat>)
    requires x < |l.cells| && y < |l.cells[x]|
  {
    var c := l.cells[x][y];
    InProgram(prog, c) && x < |f.fin| && y + 1 < |f.fin[x]| &&
    (c.j >= 0 ==>
      var a, at, end := ItemOf(prog, c), f.fin[x][y], f.fin[x][y + 1];
      if IsPlain(a) then
        Replaced(prog, l, f, x, y, s, i)
          || (0 <= at < |out| && out[at] == if Bumped(prog, l, x, y, s, i) then (LastByte(a) + 2) % 256
          else LastByte(a))
      else if IsRef(a) && Extern(k, c.pos) then ExternBytes(k, c.pos, a, base, at, end, out)
      else if IsRel(a) then true
      else
        0 <= at <= end <= |out| &&
        if IsRef(a) then forall t: nat, j: nat :: Names(k, c.pos, t, j) ==>
            t < |f.fin| && j < |f.fin[t]| && out[at..end] == Le(f.fin[t][j] + base, 4)
        else out[at..end] == Operand(a, c.arg, end - at))
  }

  /** All bytes before (s, i). */
  ghost predicate AllBytes(prog: seq<seq<Action>>, l: Layout, k: Book, f: Fix, base: int, s: nat, i: nat,
                           out: seq<nat>) {
    forall x, y :: 0 <= x < |l.cells| && 0 <= y < |l.cells[x]| && Before(x, y, s, i) ==>
        CellBytes(prog, l, k, f, base, x, y, s, i, out)
  }

  /** How the cell (s, i) may change what has been written. */
  ghost predicate Writes(prog: seq<seq<Action>>, l: Layout, f: Fix, s: nat, i: nat, out: seq<nat>, out': seq<nat>) {
    if ShortBranch(prog, l, f, s, i, 3) then i >= 1 && 1 <= |out| <= |out'| + 1 && forall z :: 0 <= z < |out| - 1 ==>
        out'[z] == out[z]
    else if ShortBranch(prog, l, f, s, i, 4) then
      i >= 2 && 2 <= |out| <= |out'| + 2 && forall z :: 0 <= z < |out| - 2 ==> out'[z] == out[z]
    else if ShortImm(prog, l, s, i) then
      i >= 2 && 2 <= |out| <= |out'| && out'[|out| - 2] == (out[|out| - 2] + 2) % 256 &&
      forall z :: 0 <= z < |out| && z != |out| - 2 ==> out'[z] == out[z]
    else out <= out'
  }

  /** The cells before (s, i) that the cell (s, i) can reach back to are plain bytes. */
  ghost predicate PlainCells(prog: seq<seq<Action>>, l: Layout, s: nat, i: nat, m: nat)
    requires s < |l.cells| && i <= |l.cells[s]| && m <= i
  {
    forall z :: i - m <= z < i ==> Item(prog, l, s, z) && IsPlain(ItemOf(prog, l.cells[s][z]))
  }

  ghost function Reach(prog: seq<seq<Action>>, l: Layout, f: Fix, s: nat, i: nat): nat {
    if ShortBranch(prog, l, f, s, i, 4) || ShortImm(prog, l, s, i) then 2
      else if ShortBranch(prog, l, f, s, i, 3) then 1 else 0
  }

  /** Plain cells take one byte each. */
  lemma PlainEnds(prog: seq<seq<Action>>, l: Layout, f: Fix, s: nat, i: nat, m: nat)
    requires l.cells != [] && FixOk(prog, l, f, |l.cells| - 1, |l.cells[|l.cells| - 1]|)
    requires s < |l.cells| && i <= |l.cells[s]| && m <= i && m <= 2 && PlainCells(prog, l, s, i, m)
    ensures s < |f.fin| && i < |f.fin[s]|
    ensures forall z :: i - m <= z < i ==> f.fin[s][z] == f.fin[s][i] - (i - z)
  {
    if i > 0 { FixStep(prog, l, f, s, i - 1); } else { assert Shaped(l, f, |l.cells| - 1, |l.cells[|l.cells| - 1]|); }
    if m == 2 { FixStep(prog, l, f, s, i - 2); }
  }

  /** One more cell is written. */
  lemma BytesStep(prog: seq<seq<Action>>, l: Layout, k: Book, f: Fix, base: int, s: nat, i: nat, out: seq<nat>,
                  out': seq<nat>)
    requires LayoutOk(prog, l) && l.cells != [] && FixOk(prog, l, f, |l.cells| - 1, |l.cells[|l.cells| - 1]|)
    requires s < |l.cells| && i < |l.cells[s]| && AllBytes(prog, l, k, f, base, s, i, out)
    requires s < |f.fin| && i < |f.fin[s]| && |out| == f.fin[s][i]
    requires Writes(prog, l, f, s, i, out, out') && Reach(prog, l, f, s, i) <= i
      && PlainCells(prog, l, s, i, Reach(prog, l, f, s, i))
    requires CellBytes(prog, l, k, f, base, s, i, s, i + 1, out')
    ensures AllBytes(prog, l, k, f, base, s, i + 1, out')
  {
    hide LayoutOk, FixOk, CellBytes;
    var i' := i + 1;
    forall x, y | 0 <= x < |l.cells| && 0 <= y < |l.cells[x]| && Before(x, y, s, i')
      ensures CellBytes(prog, l, k, f, base, x, y, s, i', out')
    {
      if x != s || y != i {
        assert CellBytes(prog, l, k, f, base, x, y, s, i, out);
        if x == s && y >= i - Reach(prog, l, f, s, i) {
          NearKept(prog, l, k, f, base, s, i, out, out', y);
        } else {
          FarKept(prog, l, k, f, base, s, i, out, out', x, y);
        }
      }
    }
  }

  /** The cells it reaches back to. */
  lemma NearKept(prog: seq<seq<Action>>, l: Layout, k: Book, f: Fix, base: int, s: nat, i: nat, out: seq<nat>,
                 out': seq<nat>, y: nat)
    requires l.cells != [] && FixOk(prog, l, f, |l.cells| - 1, |l.cells[|l.cells| - 1]|)
    requires s < |l.cells| && i < |l.cells[s]| && s < |f.fin| && i < |f.fin[s]| && |out| == f.fin[s][i]
    requires Writes(prog, l, f, s, i, out, out') && Reach(prog, l, f, s, i) <= i
      && PlainCells(prog, l, s, i, Reach(prog, l, f, s, i))
    requires i - Reach(prog, l, f, s, i) <= y < i && CellBytes(prog, l, k, f, base, s, y, s, i, out)
    ensures CellBytes(prog, l, k, f, base, s, y, s, i + 1, out')
  {
    var m := Reach(prog, l, f, s, i);
    PlainEnds(prog, l, f, s, i, m);
    hide FixOk, InProgram, LastByte;
    assert Item(prog, l, s, y) && IsPlain(ItemOf(prog, l.cells[s][y]));
    assert y == i - 2 ==> Item(prog, l, s, y + 1) && IsPlain(ItemOf(prog, l.cells[s][y + 1]));
  }

  /** The others. */
  lemma FarKept(prog: seq<seq<Action>>, l: Layout, k: Book, f: Fix, base: int, s: nat, i: nat, out: seq<nat>,
                out': seq<nat>, x: nat, y: nat)
    requires LayoutOk(prog, l) && l.cells != [] && FixOk(prog, l, f, |l.cells| - 1, |l.cells[|l.cells| - 1]|)
    requires s < |l.cells| && i < |l.cells[s]| && s < |f.fin| && i < |f.fin[s]| && |out| == f.fin[s][i]
    requires Writes(prog, l, f, s, i, out, out') && Reach(prog, l, f, s, i) <= i
      && PlainCells(prog, l, s, i, Reach(prog, l, f, s, i))
    requires x < |l.cells| && y < |l.cells[x]| && (x < s || (x == s && y < i - Reach(prog, l, f, s, i)))
      && CellBytes(prog, l, k, f, base, x, y, s, i, out)
    ensures CellBytes(prog, l, k, f, base, x, y, s, i + 1, out')
  {
    var m := Reach(prog, l, f, s, i);
    PlainEnds(prog, l, f, s, i, m);
    FixStep(prog, l, f, x, y);
    Shrinks(prog, l, f, |l.cells| - 1, |l.cells[|l.cells| - 1]|, x, y + 1, s, i - m);
    assert f.fin[x][y + 1] <= |out| - m;
    hide LayoutOk, FixOk, Operand, LastByte, Pad;
    assert forall z :: 0 <= z < |out| - m ==> out'[z] == out[z];
    var at, end := f.fin[x][y], f.fin[x][y + 1];
    assert 0 <= at <= end ==> out'[at..end] == out[at..end];
  }

  /** What stands before a cell is not changed by its kind alone: the start of a list. */
  lemma StartBytes(prog: seq<seq<Action>>, l: Layout, k: Book, f: Fix, base: int, s: nat, i: nat, out: seq<nat>)
    requires LayoutOk(prog, l) && l.cells != [] && FixOk(prog, l, f, |l.cells| - 1, |l.cells[|l.cells| - 1]|)
    requires s < |l.cells| && i < |l.cells[s]| && AllBytes(prog, l, k, f, base, s, i, out)
    requires s < |f.fin| && i < |f.fin[s]| && |out| == f.fin[s][i] && InProgram(prog, l.cells[s][i])
      && l.cells[s][i].j == -1
    ensures AllBytes(prog, l, k, f, base, s, i + 1, out)
  {
    FixStep(prog, l, f, s, i);
    hide LayoutOk, FixOk, AllBytes;
    BytesStep(prog, l, k, f, base, s, i, out, out);
  }

  /** A branch. */
  lemma RelBytes(prog: seq<seq<Action>>, l: Layout, k: Book, f: Fix, base: int, s: nat, i: nat, out: seq<nat>,
                 out': seq<nat>)
    requires LayoutOk(prog, l) && l.cells != [] && FixOk(prog, l, f, |l.cells| - 1, |l.cells[|l.cells| - 1]|)
    requires s < |l.cells| && i < |l.cells[s]| && AllBytes(prog, l, k, f, base, s, i, out)
    requires s < |f.fin| && i < |f.fin[s]| && |out| == f.fin[s][i] && Item(prog, l, s, i)
      && IsRel(ItemOf(prog, l.cells[s][i]))
    requires s < |f.sh| && i < |f.sh[s]|
    requires var m := if f.sh[s][i] == 4 then 2 else if f.sh[s][i] == 3 then 1 else 0;
      m <= i && PlainCells(prog, l, s, i, m) && m <= |out| <= |out'| + m && forall z :: 0 <= z < |out| - m ==>
          out'[z] == out[z]
    requires var c := l.cells[s][i]; Extern(k, c.pos) ==>
        ExternOf(k, c.pos) in k.globals && i + 1 < |f.fin[s]| && |out'| == f.fin[s][i + 1] && f.sh[s][i] == 0
        && out' == out + Le(ExternValue(k, c.pos, ItemOf(prog, c), base, |out'|), 4)
    ensures AllBytes(prog, l, k, f, base, s, i + 1, out')
  {
    FixStep(prog, l, f, s, i);
    hide LayoutOk, FixOk, AllBytes, PlainCells;
    if f.sh[s][i] == 0 { assert out <= out'; }
    BytesStep(prog, l, k, f, base, s, i, out, out');
  }

  /** The address of the label that the reference at p means. */
  ghost predicate AddressIs(k: Book, f: Fix, base: int, p: int, to: int) {
    if Extern(k, p) then ExternOf(k, p) in k.globals && to == k.globals[ExternOf(k, p)]
    else forall t: nat, j: nat :: Names(k, p, t, j) ==> t < |f.fin| && j < |f.fin[t]| && to == f.fin[t][j] + base
  }

  /** What an action other than a branch adds. */
  ghost predicate Adds(prog: seq<seq<Action>>, l: Layout, k: Book, f: Fix, base: int, s: nat, i: nat, out: seq<nat>,
                       out': seq<nat>)
    requires Item(prog, l, s, i)
  {
    var c := l.cells[s][i]; var a := ItemOf(prog, c);
    if ShortImm(prog, l, s, i) then
      i >= 2 && PlainCells(prog, l, s, i, 2) && 2 <= |out| <= |out'|
      && out' == out[|out| - 2 := (out[|out| - 2] + 2) % 256] + Operand(a, c.arg, |out'| - |out|)
    else if IsPlain(a) then out' == out + [LastByte(a)]
    else if IsRef(a) then exists to :: AddressIs(k, f, base, c.pos, to) && out' == out + Le(to, 4)
    else |out| <= |out'| && out' == out + Operand(a, c.arg, |out'| - |out|)
  }

  lemma AddsCell(prog: seq<seq<Action>>, l: Layout, k: Book, f: Fix, base: int, s: nat, i: nat, out: seq<nat>,
                 out': seq<nat>)
    requires Item(prog, l, s, i) && !IsRel(ItemOf(prog, l.cells[s][i])) && Adds(prog, l, k, f, base, s, i, out, out')
    requires s < |f.fin| && i + 1 < |f.fin[s]| && |out| == f.fin[s][i] && |out'| == f.fin[s][i + 1]
    ensures CellBytes(prog, l, k, f, base, s, i, s, i + 1, out')
  {
    hide Operand, LastByte, PlainCells, Le, Names;
    var a := ItemOf(prog, l.cells[s][i]);
    if IsPlain(a) {
      assert !Bumped(prog, l, s, i, s, i + 1);
    } else if |out| <= |out'| {
      assert ShortImm(prog, l, s, i) || out <= out' ==> out'[|out|..|out'|] == out'[|out|..];
    }
  }

  lemma AddsWrites(prog: seq<seq<Action>>, l: Layout, k: Book, f: Fix, base: int, s: nat, i: nat, out: seq<nat>,
                   out': seq<nat>)
    requires Item(prog, l, s, i) && !IsRel(ItemOf(prog, l.cells[s][i])) && Adds(prog, l, k, f, base, s, i, out, out')
    ensures Writes(prog, l, f, s, i, out, out') && Reach(prog, l, f, s, i) <= i
      && PlainCells(prog, l, s, i, Reach(prog, l, f, s, i))
  {
    hide Operand, LastByte, Le, Names;
  }

  /** Any other action. */
  lemma OtherBytes(prog: seq<seq<Action>>, l: Layout, k: Book, f: Fix, base: int, s: nat, i: nat, out: seq<nat>,
                   out': seq<nat>)
    requires LayoutOk(prog, l) && l.cells != [] && FixOk(prog, l, f, |l.cells| - 1, |l.cells[|l.cells| - 1]|)
    requires s < |l.cells| && i < |l.cells[s]| && AllBytes(prog, l, k, f, base, s, i, out)
    requires s < |f.fin| && i + 1 < |f.fin[s]| && |out| == f.fin[s][i] && |out'| == f.fin[s][i + 1]
      && Item(prog, l, s, i)
    requires !IsRel(ItemOf(prog, l.cells[s][i])) && Adds(prog, l, k, f, base, s, i, out, out')
    ensures AllBytes(prog, l, k, f, base, s, i + 1, out')
  {
    hide *;
    AddsCell(prog, l, k, f, base, s, i, out, out');
    AddsWrites(prog, l, k, f, base, s, i, out, out');
    BytesStep(prog, l, k, f, base, s, i, out, out');
  }

  // ----- global labels

  ghost predicate DefinesGlobal(prog: seq<seq<Action>>, l: Layout, x: nat, y: nat, g: nat) {
    g >= 10 && Item(prog, l, x, y) && ItemOf(prog, l.cells[x][y]) == LabelLG(g)
  }

  ghost predicate NoGlobal(prog: seq<seq<Action>>, l: Layout, s: nat, i: nat, g: nat) {
    forall x: nat, y: nat :: Before(x, y, s, i) ==> !DefinesGlobal(prog, l, x, y, g)
  }

  /** (x, y) is the last definition of the global label before (s, i). */
  ghost predicate LastGlobal(prog: seq<seq<Action>>, l: Layout, x: nat, y: nat, s: nat, i: nat, g: nat) {
    && Before(x, y, s, i) && DefinesGlobal(prog, l, x, y, g)
    && forall u: nat, v: nat :: Before(x, y, u, v) && Before(u, v, s, i) ==> !DefinesGlobal(prog, l, u, v, g)
  }

  /** A global label when pass 3 comes to (s, i): if defined before, it is at the address of
      its last definition, otherwise where it was. */
  ghost predicate GlobalAt(prog: seq<seq<Action>>, l: Layout, k: Book, f: Fix, base: int, s: nat, i: nat,
                           globals: map<nat, int>, g: nat) {
    && (NoGlobal(prog, l, s, i, g) && g in k.globals ==> g in globals && globals[g] == k.globals[g])
    && (forall x: nat, y: nat :: LastGlobal(prog, l, x, y, s, i, g) ==>
          x < |f.fin| && y < |f.fin[x]| && g in globals && globals[g] == base + f.fin[x][y])
  }

  ghost predicate GlobalsAt(prog: seq<seq<Action>>, l: Layout, k: Book, f: Fix, base: int, s: nat, i: nat,
                            globals: map<nat, int>) {
    forall g: nat :: GlobalAt(prog, l, k, f, base, s, i, globals, g)
  }

  lemma GlobalsStart(prog: seq<seq<Action>>, l: Layout, k: Book, f: Fix, base: int)
    ensures GlobalsAt(prog, l, k, f, base, 0, 0, k.globals)
  {
    forall g: nat ensures GlobalAt(prog, l, k, f, base, 0, 0, k.globals, g) { }
  }

  /** One more cell: a label action from 10 on sets its entry, all others none. */
  lemma GlobalsStep(prog: seq<seq<Action>>, l: Layout, k: Book, f: Fix, base: int, s: nat, i: nat,
                    globals: map<nat, int>, globals': map<nat, int>)
    requires GlobalsAt(prog, l, k, f, base, s, i, globals) && s < |f.fin| && i < |f.fin[s]| && s < |l.cells|
      && i < |l.cells[s]| && InProgram(prog, l.cells[s][i])
    requires var c := l.cells[s][i];
      globals' == if c.j >= 0 && ItemOf(prog, c).LabelLG? && ItemOf(prog, c).n >= 10
                  then globals[ItemOf(prog, c).n := base + f.fin[s][i]] else globals
    ensures GlobalsAt(prog, l, k, f, base, s, i + 1, globals')
  {
    var i' := i + 1;
    forall g: nat
      ensures GlobalAt(prog, l, k, f, base, s, i', globals', g)
    {
      assert GlobalAt(prog, l, k, f, base, s, i, globals, g);
      GlobalStep(prog, l, k, f, base, s, i, globals, globals', g);
    }
  }

  lemma GlobalStep(prog: seq<seq<Action>>, l: Layout, k: Book, f: Fix, base: int, s: nat, i: nat,
                   globals: map<nat, int>, globals': map<nat, int>, g: nat)
    requires GlobalAt(prog, l, k, f, base, s, i, globals, g) && s < |f.fin| && i < |f.fin[s]|
    requires if DefinesGlobal(prog, l, s, i, g) then g in globals' && globals'[g] == base + f.fin[s][i]
             else g in globals' <==> g in globals
    requires !DefinesGlobal(prog, l, s, i, g) && g in globals ==> globals'[g] == globals[g]
    ensures GlobalAt(prog, l, k, f, base, s, i + 1, globals', g)
  {
    var i' := i + 1;
    assert Before(s, i, s, i');
    if NoGlobal(prog, l, s, i', g) {
      assert NoGlobal(prog, l, s, i, g);
    }
    forall x: nat, y: nat | LastGlobal(prog, l, x, y, s, i', g)
      ensures x < |f.fin| && y < |f.fin[x]| && g in globals' && globals'[g] == base + f.fin[x][y]
    {
      if x != s || y != i { assert LastGlobal(prog, l, x, y, s, i, g); }
    }
  }

  lemma GlobalsNext(prog: seq<seq<Action>>, l: Layout, k: Book, f: Fix, base: int, s: nat, globals: map<nat, int>)
    requires s < |l.cells| && GlobalsAt(prog, l, k, f, base, s, |l.cells[s]|, globals)
    ensures GlobalsAt(prog, l, k, f, base, s + 1, 0, globals)
  {
    var s' := s + 1;
    forall g: nat
      ensures GlobalAt(prog, l, k, f, base, s', 0, globals, g)
    {
      assert GlobalAt(prog, l, k, f, base, s, |l.cells[s]|, globals, g);
      GlobalNext(prog, l, k, f, base, s, globals, g);
    }
  }

  lemma GlobalNext(prog: seq<seq<Action>>, l: Layout, k: Book, f: Fix, base: int, s: nat, globals: map<nat, int>,
                   g: nat)
    requires s < |l.cells| && GlobalAt(prog, l, k, f, base, s, |l.cells[s]|, globals, g)
    ensures GlobalAt(prog, l, k, f, base, s + 1, 0, globals, g)
  {
    var n, s' := |l.cells[s]|, s + 1;
    if NoGlobal(prog, l, s', 0, g) {
      assert NoGlobal(prog, l, s, n, g);
    }
    forall x: nat, y: nat | LastGlobal(prog, l, x, y, s', 0, g)
      ensures x < |f.fin| && y < |f.fin[x]| && g in globals && globals[g] == base + f.fin[x][y]
    {
      assert LastGlobal(prog, l, x, y, s, n, g);
    }
  }

  /** Nothing that is encoded changes the address of a label that is not defined here. */
  lemma ExternKept(prog: seq<seq<Action>>, l: Layout, k: Book, f: Fix, base: int, s: nat, i: nat,
                   globals: map<nat, int>, p: int)
    requires BookOk(k) && OnlyGlobals(k) && Extern(k, p) && Meant(prog, l.cells, k.kind, k.log)
    requires GlobalsAt(prog, l, k, f, base, s, i, globals)
    ensures var g := ExternOf(k, p);
      && g >= 10 && g in globals && g in k.globals && globals[g] == k.globals[g] && p in k.b && Held(k, p) == Mark(g)
  {
    ExternAt(k, p);
    hide BookOk, Meant;
    var g := ExternOf(k, p);
    forall x: nat, y: nat | Before(x, y, s, i)
      ensures !DefinesGlobal(prog, l, x, y, g)
    {
      if DefinesGlobal(prog, l, x, y, g) {
        MeantRef(prog, l.cells, k.kind, k.log, x, y);
      }
    }
    assert NoGlobal(prog, l, s, i, g) && GlobalAt(prog, l, k, f, base, s, i, globals, g);
  }

  lemma BytesStart(prog: seq<seq<Action>>, l: Layout, k: Book, f: Fix, base: int)
    requires l.cells != []
    ensures AllBytes(prog, l, k, f, base, 0, 0, [])
  {
  }

  /** From the end of a section to the start of the next one. */
  lemma BytesNext(prog: seq<seq<Action>>, l: Layout, k: Book, f: Fix, base: int, s: nat, out: seq<nat>)
    requires s + 1 < |l.cells| && AllBytes(prog, l, k, f, base, s, |l.cells[s]|, out)
    ensures AllBytes(prog, l, k, f, base, s + 1, 0, out)
  {
    var s' := s + 1;
    forall x, y | 0 <= x < |l.cells| && 0 <= y < |l.cells[x]| && Before(x, y, s', 0)
      ensures CellBytes(prog, l, k, f, base, x, y, s', 0, out)
    {
      assert CellBytes(prog, l, k, f, base, x, y, s, |l.cells[s]|, out);
    }
  }
}
