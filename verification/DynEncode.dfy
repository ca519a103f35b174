/** What the code looks like that pass 3 of DynASM writes (dasm_x86.h:369-439). */
module DynEncode {
  import opened DynAsm
  import opened DynLink

  /** n as k bytes, least significant first. */
  function Le(n: int, k: nat): (r: seq<nat>)
    ensures |r| == k
    decreases k
  {
    if k == 0 then [] else [n % 256] + Le(n / 256, k - 1)
  }

  /** The branch (x, y) in the code reaches offset `to`: with a byte, after jmp or jcc in
      short form, or with four bytes. */
  ghost predicate Lands(prog: seq<seq<Action>>, l: Layout, f: Fix, x: nat, y: nat, to: int, out: seq<nat>)
    requires x < |l.cells| && y < |l.cells[x]| && InProgram(prog, l.cells[x][y]) && l.cells[x][y].j > 0
    requires x < |f.fin| && y + 1 < |f.fin[x]| && x < |f.sh| && y < |f.sh[x]|
  {
    var end, c := f.fin[x][y + 1], l.cells[x][y];
    var op := LastByte(prog[c.k][c.j - 1]);
    && (f.sh[x][y] == 0 ==> 4 <= end <= |out| && out[end - 4..end] == Le(to - end, 4))
    && (f.sh[x][y] != 0 ==>
          2 <= end <= |out| && -128 <= to - end <= 127 && out[end - 1] == (to - end) % 256
            && out[end - 2] == (if op == 0xe9 then 0xeb else op - 0x10))
  }

  ghost predicate CellLands(prog: seq<seq<Action>>, l: Layout, k: Book, f: Fix, x: nat, y: nat, out: seq<nat>)
    requires x < |l.cells| && y < |l.cells[x]|
  {
    var c := l.cells[x][y];
    InProgram(prog, c) && x < |f.fin| && y + 1 < |f.fin[x]| && x < |f.sh| && y < |f.sh[x]| &&
    (c.j > 0 && IsRel(ItemOf(prog, c)) ==>
      forall t: nat, j: nat :: Names(k, c.pos, t, j) ==>
          t < |f.fin| && j < |f.fin[t]| && Lands(prog, l, f, x, y, f.fin[t][j], out))
  }

  /** All branches before (s, i) land on their labels. */
  ghost predicate AllLand(prog: seq<seq<Action>>, l: Layout, k: Book, f: Fix, s: nat, i: nat, out: seq<nat>) {
    forall x, y :: 0 <= x < |l.cells| && 0 <= y < |l.cells[x]| && Before(x, y, s, i) ==>
        CellLands(prog, l, k, f, x, y, out)
  }

  /** The byte a plain action has just written is the last one. */
  ghost predicate Tail(prog: seq<seq<Action>>, l: Layout, s: nat, i: nat, out: seq<nat>)
    requires s < |l.cells| && i <= |l.cells[s]|
  {
    i > 0 && InProgram(prog, l.cells[s][i - 1]) && l.cells[s][i - 1].j >= 0
      && IsPlain(ItemOf(prog, l.cells[s][i - 1])) ==>
      out != [] && out[|out| - 1] == LastByte(ItemOf(prog, l.cells[s][i - 1]))
  }

  /** Pass 2 is complete. */
  ghost predicate Complete(prog: seq<seq<Action>>, l: Layout, k: Book, f: Fix, b: map<int, int>) {
    && Base(prog, l, k) && Halfway(prog, l, k, f, |l.cells| - 1, |l.cells[|l.cells| - 1]|, b)
  }

  /** What pass 3 knows when it comes to the cell (s, i). */
  ghost predicate Written(prog: seq<seq<Action>>, l: Layout, k: Book, f: Fix, s: nat, i: nat, b: map<int, int>,
                          pos: int, out: seq<nat>) {
    && Complete(prog, l, k, f, b) && s < |l.cells| && i <= |l.cells[s]| && s < |l.spos| && s < |f.fin| && i < |f.fin[s]|
    && pos == PosAt(l, s, i) && |out| == f.fin[s][i]
    && AllLand(prog, l, k, f, s, i, out) && Tail(prog, l, s, i, out)
  }

  lemma CompleteShape(prog: seq<seq<Action>>, l: Layout, k: Book, f: Fix, b: map<int, int>)
    requires Complete(prog, l, k, f, b)
    ensures LayoutOk(prog, l) && BookOk(k) && OnlyGlobals(k) && l.kind == k.kind
      && |l.spos| == |l.sofs| == |l.cells| == |f.fin| == |f.sh|
    ensures forall x :: 0 <= x < |l.cells| ==> |f.fin[x]| == |l.cells[x]| + 1 && |f.sh[x]| == |l.cells[x]|
    ensures FixOk(prog, l, f, |l.cells| - 1, |l.cells[|l.cells| - 1]|)
    ensures forall x :: 0 <= x < |prog| ==> ListOk(prog[x])
    ensures f.fin[0][0] == 0 && forall x :: 0 <= x < |l.cells| - 1 ==> f.fin[x + 1][0] == f.fin[x][|l.cells[x]|]
  {
    hide BookOk, ListOk;
    SectionStart(prog, l, 0);
  }

  /** What the buffer holds after pass 2 at the cell (s, i). */
  lemma ReadFixed(prog: seq<seq<Action>>, l: Layout, k: Book, f: Fix, b: map<int, int>, s: nat, i: nat)
    requires Complete(prog, l, k, f, b) && s < |l.cells| && i < |l.cells[s]|
    ensures var c := l.cells[s][i];
      && InProgram(prog, c) && ListOk(prog[c.k]) && s < |f.fin| && i + 1 < |f.fin[s]| && s < |f.sh| && i < |f.sh[s]|
      && f.fin[s][i + 1] == f.fin[s][i] + FinalSize(prog, c, f.sh[s][i], f.fin[s][i]) && f.sh[s][i] in {0, 3, 4}
      && (c.j == -1 ==> c.pos in b && b[c.pos] == c.k)
      && (c.j >= 0 ==> ReadItem(ItemOf(prog, c), k, f, b, s, i, c))
  {
    hide LayoutOk, BookOk, ListOk, OnlyGlobals, FixOk, FinalSize;
    CompleteShape(prog, l, k, f, b);
    CellAt(prog, l, s, i);
    BookParts(k);
    FixStep(prog, l, f, s, i);
    forall p | p in k.kind ensures SlotNow(l, k, f, |l.cells| - 1, |l.cells[|l.cells| - 1]|, b, p) { }
  }

  ghost predicate ReadItem(a: Action, k: Book, f: Fix, b: map<int, int>, s: nat, i: nat, c: Cell)
    requires s < |f.sh| && i < |f.sh[s]| && s < |f.fin|
  {
    && (StoresArg(a) ==> c.pos in b && b[c.pos] == c.arg && ArgInRange(a, c.arg) && (a.Space? ==> c.arg >= 0))
    && (IsRef(a) ==>
        c.pos in b && c.pos in k.kind && k.kind[c.pos].RefSlot? && c.pos in k.b && b[c.pos] == Held(k, c.pos))
    && (IsLabel(a) ==> c.pos in b && i < |f.fin[s]| && b[c.pos] == f.fin[s][i])
    && (IsRel(a) ==> c.pos + 1 in b && b[c.pos + 1] == f.sh[s][i])
  }

  lemma FixStep(prog: seq<seq<Action>>, l: Layout, f: Fix, x: nat, y: nat)
    requires l.cells != [] && FixOk(prog, l, f, |l.cells| - 1, |l.cells[|l.cells| - 1]|) && x < |l.cells|
      && y < |l.cells[x]|
    ensures x < |f.fin| && x < |f.sh| && y + 1 < |f.fin[x]| && y < |f.sh[x]| && StepOk(prog, l, f, x, y)
  {
  }

  /** The label of a branch, its final offset, and that a short branch reaches it. */
  lemma ReadTarget(prog: seq<seq<Action>>, l: Layout, k: Book, f: Fix, b: map<int, int>, s: nat, i: nat)
                   returns (t: nat, j: nat)
    requires Complete(prog, l, k, f, b) && s < |l.cells| && i < |l.cells[s]|
    requires InProgram(prog, l.cells[s][i]) && l.cells[s][i].j >= 0 && IsRef(ItemOf(prog, l.cells[s][i]))
      && !Extern(k, l.cells[s][i].pos)
    ensures var c := l.cells[s][i];
      && Names(k, c.pos, t, j) && (forall t', j' :: Names(k, c.pos, t', j') ==> t' == t && j' == j)
      && t < |f.fin| && j < |f.fin[t]| && k.b[c.pos] in b && b[k.b[c.pos]] == f.fin[t][j]
      && s < |f.fin| && i + 1 < |f.fin[s]| && s < |f.sh| && i < |f.sh[s]|
      && (c.j > 0 && IsRel(ItemOf(prog, c)) && f.sh[s][i] != 0 ==>
           -128 <= f.fin[t][j] - f.fin[s][i + 1] <= 127 && f.sh[s][i] == Shrink(LastByte(prog[c.k][c.j - 1])))
  {
    hide LayoutOk, BookOk, ListOk, OnlyGlobals, FixOk, FinalSize;
    CompleteShape(prog, l, k, f, b);
    ReadFixed(prog, l, k, f, b, s, i);
    var c := l.cells[s][i];
    Resolved(k, c.pos);
    var q := k.b[c.pos];
    t, j := k.kind[q].s, k.kind[q].i;
    HomeAt(prog, l, q);
    BookParts(k);
    var u, v := |l.cells| - 1, |l.cells[|l.cells| - 1]|;
    assert SlotNow(l, k, f, u, v, b, q);
    if c.j > 0 && IsRel(ItemOf(prog, c)) && f.sh[s][i] != 0 {
      assert ChoiceOk(prog, l, k, f, s, i);
      assert ChoiceIs(prog, l, f, s, i, t, j);
      ShortReaches(prog, l, f, u, v, s, i, t, j);
    }
  }

  /** The actions right before an action of the same list are the cells before it. */
  lemma PrevCells(prog: seq<seq<Action>>, l: Layout, s: nat, i: nat)
    requires LayoutOk(prog, l) && s < |l.cells| && i < |l.cells[s]| && InProgram(prog, l.cells[s][i])
    ensures l.cells[s][i].j >= 0 ==>
        i > 0 && l.cells[s][i - 1].k == l.cells[s][i].k && l.cells[s][i - 1].j == l.cells[s][i].j - 1
        && InProgram(prog, l.cells[s][i - 1])
  {
    hide LayoutOk, CellOk;
    FirstCell(prog, l, s);
    if i > 0 { CellAt(prog, l, s, i - 1); CellInProgram(prog, l.kind, s, i - 1, l.cells[s][i - 1]); }
  }

  /** A branch before m plain bytes ends at least m bytes before the end of the code. */
  lemma EndsBefore(prog: seq<seq<Action>>, l: Layout, f: Fix, s: nat, i: nat, m: nat, x: nat, y: nat)
    requires LayoutOk(prog, l) && l.cells != [] && FixOk(prog, l, f, |l.cells| - 1, |l.cells[|l.cells| - 1]|)
    requires s < |l.cells| && i <= |l.cells[s]| && m <= 2 && m <= i && x < |l.cells| && y < |l.cells[x]|
      && Before(x, y, s, i)
    requires forall z :: i - m <= z < i ==>
        InProgram(prog, l.cells[s][z]) && l.cells[s][z].j >= 0 && IsPlain(ItemOf(prog, l.cells[s][z]))
    requires InProgram(prog, l.cells[x][y]) && l.cells[x][y].j >= 0 && IsRel(ItemOf(prog, l.cells[x][y]))
    ensures x < |f.fin| && y + 1 < |f.fin[x]| && s < |f.fin| && i < |f.fin[s]| && f.fin[x][y + 1] <= f.fin[s][i] - m
  {
    hide LayoutOk;
    if m >= 1 { FixStep(prog, l, f, s, i - 1); }
    if m >= 2 { FixStep(prog, l, f, s, i - 2); }
    assert Before(x, y, s, i - m);
    Shrinks(prog, l, f, |l.cells| - 1, |l.cells[|l.cells| - 1]|, x, y + 1, s, i - m);
  }

  /** Code that agrees up to the end of a branch lands it as well. */
  lemma LandsSame(prog: seq<seq<Action>>, l: Layout, f: Fix, x: nat, y: nat, to: int, out: seq<nat>, out': seq<nat>)
    requires x < |l.cells| && y < |l.cells[x]| && InProgram(prog, l.cells[x][y]) && l.cells[x][y].j > 0
    requires x < |f.fin| && y + 1 < |f.fin[x]| && x < |f.sh| && y < |f.sh[x]|
    requires Lands(prog, l, f, x, y, to, out) && f.fin[x][y + 1] <= |out'| && forall z :: 0 <= z < f.fin[x][y + 1] ==>
        out'[z] == out[z]
    ensures Lands(prog, l, f, x, y, to, out')
  {
    var end := f.fin[x][y + 1];
    if f.sh[x][y] == 0 { assert out'[end - 4..end] == out[end - 4..end]; }
  }

  /** One more cell is written; the code before it changes in the last m bytes at most,
      which m plain actions have written. */
  lemma WrittenStep(prog: seq<seq<Action>>, l: Layout, k: Book, f: Fix, s: nat, i: nat, b: map<int, int>, pos: int,
                    out: seq<nat>, out': seq<nat>, m: nat)
    requires Written(prog, l, k, f, s, i, b, pos, out) && i < |l.cells[s]| && m <= 2 && m <= i
    requires forall z :: i - m <= z < i ==>
        InProgram(prog, l.cells[s][z]) && l.cells[s][z].j >= 0 && IsPlain(ItemOf(prog, l.cells[s][z]))
    requires i + 1 < |f.fin[s]| && |out'| == f.fin[s][i + 1] && |out| - m <= |out'|
      && forall z :: 0 <= z < |out| - m ==> out'[z] == out[z]
    requires CellLands(prog, l, k, f, s, i, out') && Tail(prog, l, s, i + 1, out')
    ensures InProgram(prog, l.cells[s][i]) && Written(prog, l, k, f, s, i + 1, b, NextPos(prog, l.cells[s][i]), out')
  {
    hide LayoutOk, BookOk, ListOk, FixOk, Complete, CellLands, FinalSize;
    CompleteShape(prog, l, k, f, b);
    CellAt(prog, l, s, i);
    forall x, y | 0 <= x < |l.cells| && 0 <= y < |l.cells[x]| && Before(x, y, s, i + 1)
      ensures CellLands(prog, l, k, f, x, y, out')
    {
      if x != s || y != i { CellLandsKept(prog, l, k, f, s, i, out, out', m, x, y); }
    }
  }

  lemma CellLandsKept(prog: seq<seq<Action>>, l: Layout, k: Book, f: Fix, s: nat, i: nat, out: seq<nat>, out': seq<nat>,
                      m: nat, x: nat, y: nat)
    requires LayoutOk(prog, l) && l.cells != [] && FixOk(prog, l, f, |l.cells| - 1, |l.cells[|l.cells| - 1]|)
    requires s < |l.cells| && i <= |l.cells[s]| && m <= 2 && m <= i && x < |l.cells| && y < |l.cells[x]|
      && Before(x, y, s, i)
    requires forall z :: i - m <= z < i ==>
        InProgram(prog, l.cells[s][z]) && l.cells[s][z].j >= 0 && IsPlain(ItemOf(prog, l.cells[s][z]))
    requires CellLands(prog, l, k, f, x, y, out) && s < |f.fin| && i < |f.fin[s]| && |out| == f.fin[s][i]
    requires |out| - m <= |out'| && forall z :: 0 <= z < |out| - m ==> out'[z] == out[z]
    ensures CellLands(prog, l, k, f, x, y, out')
  {
    hide LayoutOk, FixOk, Lands;
    var c := l.cells[x][y];
    if c.j > 0 && IsRel(ItemOf(prog, c)) {
      EndsBefore(prog, l, f, s, i, m, x, y);
      forall t: nat, j: nat | Names(k, c.pos, t, j)
        ensures t < |f.fin| && j < |f.fin[t]| && Lands(prog, l, f, x, y, f.fin[t][j], out')
      {
        LandsSame(prog, l, f, x, y, f.fin[t][j], out, out');
      }
    }
  }
}
