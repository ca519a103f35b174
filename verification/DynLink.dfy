/** Why pass 2 of DynASM may decide on estimates: final offsets never exceed the estimated
    distances, and distances backwards are already final (dasm_x86.h:292-354). */
module DynLink {
  import opened DynAsm

  /** (s, i) is executed before (t, j). */
  predicate Before(s: nat, i: nat, t: nat, j: nat) {
    s < t || (s == t && i < j)
  }

  // ----- positions

  lemma {:induction false} PosUp(prog: seq<seq<Action>>, l: Layout, s: nat, i: nat, j: nat)
    requires LayoutOk(prog, l) && s < |l.cells| && i < j < |l.cells[s]|
    ensures InProgram(prog, l.cells[s][i]) && NextPos(prog, l.cells[s][i]) <= l.cells[s][j].pos
    decreases j - i
  {
    hide LayoutOk, CellOk;
    CellAt(prog, l, s, i);
    CellInProgram(prog, l.kind, s, i, l.cells[s][i]);
    if i + 1 < j {
      PosUp(prog, l, s, i + 1, j);
    }
  }

  /** The buffer positions of a cell lie in its section. */
  lemma PosRange(prog: seq<seq<Action>>, l: Layout, s: nat, i: nat)
    requires LayoutOk(prog, l) && s < |l.cells| && i < |l.cells[s]|
    ensures |l.spos| == |l.cells| && InProgram(prog, l.cells[s][i]) && s * SEC <= l.cells[s][i].pos
      && NextPos(prog, l.cells[s][i]) <= l.spos[s] <= (s + 1) * SEC
  {
    hide LayoutOk, CellOk;
    SectionStart(prog, l, s);
    CellAt(prog, l, s, i);
    CellInProgram(prog, l.kind, s, i, l.cells[s][i]);
    var n := |l.cells[s]|;
    FirstCell(prog, l, s);
    if i > 0 { PosUp(prog, l, s, 0, i); }
    if i + 1 < n {
      PosUp(prog, l, s, i, n - 1);
      CellAt(prog, l, s, n - 1);
      CellInProgram(prog, l.kind, s, n - 1, l.cells[s][n - 1]);
    }
  }

  lemma FirstCell(prog: seq<seq<Action>>, l: Layout, s: nat)
    requires LayoutOk(prog, l) && s < |l.cells|
    ensures l.cells[s] != [] ==> l.cells[s][0].pos == s * SEC && l.cells[s][0].est == 0 && l.cells[s][0].j == -1
    ensures |l.spos| == |l.sofs| == |l.cells| && (l.cells[s] == [] ==> l.spos[s] == s * SEC && l.sofs[s] == 0)
  {
    SectionAt(prog, l, s);
  }

  /** Buffer positions tell the order of a reference and a label. */
  lemma PosOrder(prog: seq<seq<Action>>, l: Layout, s: nat, i: nat, t: nat, j: nat)
    requires LayoutOk(prog, l) && s < |l.cells| && i < |l.cells[s]| && t < |l.cells| && j < |l.cells[t]|
    requires InProgram(prog, l.cells[s][i]) && InProgram(prog, l.cells[t][j]) && (s != t || i != j)
    requires NextPos(prog, l.cells[s][i]) > l.cells[s][i].pos && NextPos(prog, l.cells[t][j]) > l.cells[t][j].pos
    ensures l.cells[t][j].pos > l.cells[s][i].pos <==> Before(s, i, t, j)
    ensures l.cells[t][j].pos / SEC == t
  {
    hide LayoutOk;
    PosRange(prog, l, s, i);
    PosRange(prog, l, t, j);
    if s == t {
      if i < j { PosUp(prog, l, s, i, j); } else { PosUp(prog, l, s, j, i); }
    } else if s < t {
      assert (s + 1) * SEC <= t * SEC;
    } else {
      assert (t + 1) * SEC <= s * SEC;
    }
  }

  // ----- offsets

  /** Padding up to a multiple of n + 1. */
  function Pad(at: int, n: nat): int {
    (-at) % (n + 1)
  }

  /** The bytes a cell really takes: a branch that shrinks by sh loses so many. */
  function FinalSize(prog: seq<seq<Action>>, c: Cell, sh: int, at: int): int
    requires c.k < |prog| && -1 <= c.j < |prog[c.k]|
  {
    if c.j == -1 then 0
    else if IsRel(ItemOf(prog, c)) then 4 - sh
    else if ItemOf(prog, c).Align? then Pad(at, ItemOf(prog, c).n)
    else MaxSize(ItemOf(prog, c), c.arg)
  }

  /** What pass 2 has fixed up to (s, i): final offsets and the shrinking of each cell. */
  datatype Fix = Fix(fin: seq<seq<int>>, sh: seq<seq<int>>)

  ghost predicate Shaped(l: Layout, f: Fix, s: nat, i: nat) {
    && s < |l.cells| && i <= |l.cells[s]| && |f.fin| == |f.sh| == s + 1
    && (forall x :: 0 <= x < s ==> |f.fin[x]| == |l.cells[x]| + 1 && |f.sh[x]| == |l.cells[x]|)
    && |f.fin[s]| == i + 1 && |f.sh[s]| == i
  }

  ghost predicate StepOk(prog: seq<seq<Action>>, l: Layout, f: Fix, x: nat, y: nat)
    requires x < |l.cells| && y < |l.cells[x]| && x < |f.fin| && x < |f.sh| && y + 1 < |f.fin[x]| && y < |f.sh[x]|
  {
    && InProgram(prog, l.cells[x][y]) && f.sh[x][y] in {0, 3, 4}
    && f.fin[x][y + 1] == f.fin[x][y] + FinalSize(prog, l.cells[x][y], f.sh[x][y], f.fin[x][y])
  }

  ghost predicate FixOk(prog: seq<seq<Action>>, l: Layout, f: Fix, s: nat, i: nat) {
    && Shaped(l, f, s, i)
    && f.fin[0][0] == 0
    && (forall x :: 0 <= x < s ==> f.fin[x + 1][0] == f.fin[x][|l.cells[x]|])
    && (forall x, y :: 0 <= x < |l.cells| && 0 <= y < |l.cells[x]| && Before(x, y, s, i) ==> StepOk(prog, l, f, x, y))
  }

  function EstAt(l: Layout, s: nat, i: nat): int
    requires s < |l.cells| && s < |l.sofs|
  {
    if i < |l.cells[s]| then l.cells[s][i].est else l.sofs[s]
  }

  /** The estimated sizes of the sections before s. */
  function Pre(sofs: seq<int>, s: nat): int
    requires s <= |sofs|
  {
    if s == 0 then 0 else Pre(sofs, s - 1) + sofs[s - 1]
  }

  /** The estimate of an offset from the start of the code. */
  function GlobalEst(l: Layout, s: nat, i: nat): int
    requires s < |l.cells| && s < |l.sofs|
  {
    Pre(l.sofs, s) + EstAt(l, s, i)
  }

  lemma PadBounds(at: int, n: nat)
    ensures 0 <= Pad(at, n) <= n
  {
  }

  /** No cell grows. */
  lemma StepShrinks(prog: seq<seq<Action>>, l: Layout, f: Fix, s: nat, i: nat, x: nat, y: nat)
    requires LayoutOk(prog, l) && FixOk(prog, l, f, s, i) && x < |l.cells| && y < |l.cells[x]| && Before(x, y, s, i)
    ensures x < |l.sofs| && x < |f.fin| && y + 1 < |f.fin[x]|
    ensures 0 <= f.fin[x][y + 1] - f.fin[x][y] <= EstAt(l, x, y + 1) - EstAt(l, x, y)
  {
    hide LayoutOk, Pad;
    assert StepOk(prog, l, f, x, y);
    SectionStart(prog, l, x);
    CellAt(prog, l, x, y);
    var c := l.cells[x][y];
    if c.j >= 0 && ItemOf(prog, c).Align? { PadBounds(f.fin[x][y], ItemOf(prog, c).n); }
  }

  lemma {:induction false} WithinShrinks(prog: seq<seq<Action>>, l: Layout, f: Fix, s: nat, i: nat, x: nat, y: nat,
                                         z: nat)
    requires LayoutOk(prog, l) && FixOk(prog, l, f, s, i) && x < |l.cells| && y <= z <= |l.cells[x]|
      && (x < s || (x == s && z <= i))
    ensures x < |l.sofs| && x < |f.fin| && z < |f.fin[x]|
    ensures 0 <= f.fin[x][z] - f.fin[x][y] <= EstAt(l, x, z) - EstAt(l, x, y)
    decreases z - y
  {
    hide LayoutOk;
    SectionStart(prog, l, x);
    if y < z {
      WithinShrinks(prog, l, f, s, i, x, y, z - 1);
      StepShrinks(prog, l, f, s, i, x, z - 1);
    }
  }

  /** Between any two places the final distance is at most the estimated one. */
  lemma {:induction false} Shrinks(prog: seq<seq<Action>>, l: Layout, f: Fix, s: nat, i: nat, x: nat, y: nat, u: nat,
                                   v: nat)
    requires LayoutOk(prog, l) && FixOk(prog, l, f, s, i) && x < |l.cells| && y <= |l.cells[x]| && u < |l.cells|
      && v <= |l.cells[u]|
    requires x < u || (x == u && y <= v)
    requires u < s || (u == s && v <= i)
    ensures x < |l.sofs| && u < |l.sofs| && u < |f.fin| && v < |f.fin[u]| && y < |f.fin[x]|
    ensures 0 <= f.fin[u][v] - f.fin[x][y] <= GlobalEst(l, u, v) - GlobalEst(l, x, y)
    decreases u
  {
    hide LayoutOk;
    SectionStart(prog, l, x);
    if x == u {
      WithinShrinks(prog, l, f, s, i, x, y, v);
    } else {
      var n := |l.cells[u - 1]|;
      Shrinks(prog, l, f, s, i, x, y, u - 1, n);
      WithinShrinks(prog, l, f, s, i, u, 0, v);
      StartEst(prog, l, u);
    }
  }

  lemma StartEst(prog: seq<seq<Action>>, l: Layout, u: nat)
    requires LayoutOk(prog, l) && u < |l.cells|
    ensures u < |l.sofs| && EstAt(l, u, 0) == 0
  {
    FirstCell(prog, l, u);
  }

  // ----- the decision for a branch

  /** The distance pass 2 computes from the end of the branch (s, i) to the label (t, j). */
  function Guess(l: Layout, f: Fix, s: nat, i: nat, t: nat, j: nat): int
    requires s < |l.cells| && s < |l.sofs| && t < |l.cells| && t < |l.sofs| && s < |f.fin| && i < |f.fin[s]|
    requires Before(t, j, s, i) ==> t < |f.fin| && j < |f.fin[t]|
  {
    if Before(t, j, s, i) then f.fin[t][j] - (f.fin[s][i] + 4)
    else GlobalEst(l, t, j) - (GlobalEst(l, s, i) + 4)
  }

  /** A branch shrinks if its opcode allows it and the guess is in short range. */
  function Choice(shrink: nat, guess: int): nat {
    if shrink != 0 && -128 - shrink <= guess <= 127 then shrink else 0
  }

  /** The theorem about pass 2: a branch that shrank reaches its label with a byte. */
  lemma ShortReaches(prog: seq<seq<Action>>, l: Layout, f: Fix, s: nat, i: nat, x: nat, y: nat, t: nat, j: nat)
    requires LayoutOk(prog, l) && FixOk(prog, l, f, s, i) && x < |l.cells| && y < |l.cells[x]| && Before(x, y, s, i)
    requires l.cells[x][y].j >= 0 && InProgram(prog, l.cells[x][y]) && IsRel(ItemOf(prog, l.cells[x][y]))
    requires t < |l.cells| && j < |l.cells[t]| && (t < s || (t == s && j <= i)) && (t != x || j != y)
    requires x < |l.sofs| && t < |l.sofs| && f.sh[x][y] != 0
    requires f.sh[x][y] == Choice(f.sh[x][y], Guess(l, f, x, y, t, j))
    ensures -128 <= f.fin[t][j] - f.fin[x][y + 1] <= 127
  {
    hide LayoutOk;
    assert StepOk(prog, l, f, x, y);
    StepShrinks(prog, l, f, s, i, x, y);
    if Before(t, j, x, y) {
      Shrinks(prog, l, f, s, i, t, j, x, y);
    } else {
      CellAt(prog, l, x, y);
      Shrinks(prog, l, f, s, i, x, y + 1, t, j);
    }
  }

  // ----- the buffer in the middle of pass 2

  /** Only references to global labels are left pending: those defined elsewhere. */
  ghost predicate OnlyGlobals(k: Book) {
    forall lab :: lab in k.labels && k.labels[lab] > 0 ==> lab.Lg? && lab.n >= 10 && lab.n in k.globals
  }

  /** The reference at p is to a global label that is not defined here. */
  ghost predicate Extern(k: Book, p: int) {
    p in k.kind && k.kind[p].RefSlot? && k.kind[p].m < |k.log| && k.log[k.kind[p].m].Ref? && k.kind[p].m !in k.tgt
  }

  ghost function ExternOf(k: Book, p: int): nat
    requires Extern(k, p)
  {
    k.log[k.kind[p].m].lab.n
  }

  /** What pass 2 puts in place of a reference to the global label g. */
  function Mark(g: int): int { -g }

  /** What a reference holds once the undefined global labels are marked. */
  ghost function Held(k: Book, p: int): int
    requires p in k.b
  {
    if Extern(k, p) then Mark(ExternOf(k, p)) else k.b[p]
  }

  lemma ExternAt(k: Book, p: int)
    requires BookOk(k) && OnlyGlobals(k) && Extern(k, p)
    ensures var lab := k.log[k.kind[p].m].lab;
      && lab.Lg? && lab.n >= 10 && lab.n in k.globals && lab in k.labels && NoDef(k.log, lab, 0, |k.log|)
      && lab in k.chain && k.kind[p].m in k.chain[lab] && k.labels[lab] > 0 && k.log[k.kind[p].m].pos == p
  {
    hide BookOk, LabOk, NoDef, IsTarget;
    BookParts(k);
    var m := k.kind[p].m;
    EventAt(k, m);
    LabKeys(k, k.log[m].lab);
    LabValue(k, k.log[m].lab);
    GlobalOpen(k, m);
  }

  /** A pending reference that does not look forward is to a label without any definition. */
  lemma GlobalOpen(k: Book, m: nat)
    requires m < |k.log| && EventOk(k, m) && k.log[m].Ref? && m !in k.tgt && !IsLocal(k.log[m].lab)
    ensures NoDef(k.log, k.log[m].lab, 0, |k.log|)
  {
  }

  ghost predicate Base(prog: seq<seq<Action>>, l: Layout, k: Book) {
    && LayoutOk(prog, l) && BookOk(k) && l.kind == k.kind && OnlyGlobals(k) && l.cells != []
    && (forall x :: 0 <= x < |prog| ==> ListOk(prog[x]))
  }

  // ----- marking the undefined global labels

  /** The references to undefined global labels below g hold the negative label number. */
  ghost function Marked(k: Book, g: nat): map<int, int> {
    map p | p in k.b :: if Extern(k, p) && ExternOf(k, p) < g then Mark(ExternOf(k, p)) else k.b[p]
  }

  /** The first i references of the chain of the label g are marked as well. */
  ghost function MarkedTo(k: Book, g: nat, i: nat): map<int, int>
    requires Lg(g) in k.chain && i <= |k.chain[Lg(g)]|
  {
    Collapsed(Marked(k, g), k.log, k.chain[Lg(g)][..i], Mark(g))
  }

  lemma MarkedNone(k: Book, g: nat)
    requires Lg(g) in k.chain
    ensures MarkedTo(k, g, 0) == Marked(k, g)
  {
  }

  lemma MarkStep(k: Book, g: nat, i: nat)
    requires BookOk(k) && Lg(g) in k.labels && Lg(g) in k.chain && i < |k.chain[Lg(g)]| && g > 0
    ensures forall x :: 0 <= x < |k.chain[Lg(g)]| ==> k.chain[Lg(g)][x] < |k.log|
    ensures var c := k.chain[Lg(g)]; var n := ChainPos(k, Lg(g), i); var b := MarkedTo(k, g, i);
      && n > 0 && n in b && b[n] == (if i + 1 < |c| then ChainPos(k, Lg(g), i + 1) else 0)
      && b[n := Mark(g)] == MarkedTo(k, g, i + 1)
  {
    hide BookOk, NoDef, IsTarget, Pending;
    var lab, c := Lg(g), k.chain[Lg(g)];
    ChainHead(k, lab);
    ChainStep(k, lab, i, Mark(g));
    LabAt(k, lab);
    assert LinkOk(k, lab, i);
    EventAt(k, c[i]);
    EventPos(k, c[i]);
    ChainMore(k.log, c, i, ChainPos(k, lab, i));
  }

  /** The whole chain is marked. */
  lemma MarkDone(k: Book, g: nat)
    requires BookOk(k) && OnlyGlobals(k) && g >= 10
    ensures Lg(g) in k.labels ==> Lg(g) in k.chain && Marked(k, g + 1) == MarkedTo(k, g, |k.chain[Lg(g)]|)
    ensures Lg(g) !in k.labels ==> Marked(k, g + 1) == Marked(k, g)
  {
    hide BookOk, NoDef, IsTarget, Pending, OnlyGlobals, LabOk;
    var lab := Lg(g);
    forall p | p in k.b && Extern(k, p) && ExternOf(k, p) == g
      ensures lab in k.labels && lab in k.chain && Waits(k.log, k.chain[lab], p)
    {
      ExternAt(k, p);
    }
    if lab in k.labels {
      ChainHead(k, lab);
      assert k.chain[lab][..|k.chain[lab]|] == k.chain[lab];
      forall p | p in k.b && Waits(k.log, k.chain[lab], p)
        ensures Extern(k, p) && ExternOf(k, p) == g
      {
        var x :| 0 <= x < |k.chain[lab]| && k.chain[lab][x] < |k.log| && k.log[k.chain[lab][x]].pos == p;
        ChainExtern(k, lab, x);
      }
    }
  }

  lemma ChainExtern(k: Book, lab: Lab, x: nat)
    requires BookOk(k) && lab in k.labels && lab in k.chain && x < |k.chain[lab]| && k.chain[lab][x] < |k.log|
    ensures var p := ChainPos(k, lab, x); Extern(k, p) && k.log[k.kind[p].m].lab == lab
  {
    hide BookOk, NoDef, IsTarget, Pending;
    LabAt(k, lab);
    assert LinkOk(k, lab, x);
    EventAt(k, k.chain[lab][x]);
    EventPos(k, k.chain[lab][x]);
  }

  /** Nothing is marked yet, and in the end everything. */
  lemma MarkEnds(k: Book, size: nat)
    requires BookOk(k) && OnlyGlobals(k) && forall lab :: lab in k.labels && lab.Lg? ==> lab.n < size
    ensures Marked(k, 10) == k.b
    ensures Marked(k, size).Keys == k.b.Keys && forall p :: p in k.b ==> Marked(k, size)[p] == Held(k, p)
  {
    hide BookOk, NoDef, IsTarget, Pending, OnlyGlobals;
    forall p | p in k.b && Extern(k, p)
      ensures 10 <= ExternOf(k, p) < size
    {
      ExternAt(k, p);
    }
  }

  /** The label that a reference slot names. */
  ghost predicate Names(k: Book, p: int, t: nat, j: nat) {
    p in k.kind && !Extern(k, p) && p in k.b && k.b[p] in k.kind && k.kind[k.b[p]].LabelSlot?
      && k.kind[k.b[p]].s == t && k.kind[k.b[p]].i == j
  }

  /** A reference to a label defined here holds the position of the label it means. */
  lemma Resolved(k: Book, p: int)
    requires BookOk(k) && p in k.kind && k.kind[p].RefSlot? && !Extern(k, p)
    ensures var m := k.kind[p].m;
      && m < |k.log| && k.log[m].Ref? && k.log[m].pos == p && m in k.tgt && IsTarget(k.log, m, k.tgt[m])
      && p in k.b && k.b[p] == k.log[k.tgt[m]].pos && k.b[p] in k.kind && k.kind[k.b[p]].LabelSlot?
  {
    hide BookOk, LabOk, NoDef, Pending, IsTarget;
    BookParts(k);
    var m := k.kind[p].m;
    EventAt(k, m);
    LabKeys(k, k.log[m].lab);
    LabValue(k, k.log[m].lab);
    TargetShape(k.log, m, if m in k.tgt then k.tgt[m] else 0);
    EventAt(k, k.tgt[m]);
  }

  lemma TargetShape(log: seq<Event>, m: nat, d: nat)
    ensures IsTarget(log, m, d) ==> d < |log| && log[d].Def? && m < |log| && log[d].lab == log[m].lab
  {
  }

  /** A reference that holds a negative number is to a label defined elsewhere. */
  lemma HeldSign(k: Book, p: int)
    requires BookOk(k) && OnlyGlobals(k) && p in k.kind && k.kind[p].RefSlot?
    ensures p in k.b && (Held(k, p) < 0 <==> Extern(k, p)) && (!Extern(k, p) ==> Held(k, p) == k.b[p])
  {
    hide BookOk, OnlyGlobals;
    BookParts(k);
    if Extern(k, p) {
      ExternAt(k, p);
    } else {
      Resolved(k, p);
      EventAt(k, k.tgt[k.kind[p].m]);
      EventPos(k, k.tgt[k.kind[p].m]);
    }
  }

  /** What the slot p holds when everything before (s, i) is fixed. */
  ghost predicate SlotNow(l: Layout, k: Book, f: Fix, s: nat, i: nat, b: map<int, int>, p: int)
    requires p in k.kind
  {
    p in b && p in k.b &&
    match k.kind[p]
    case LabelSlot(e, t, j) => if Before(t, j, s, i) then t < |f.fin| && j < |f.fin[t]| && b[p] == f.fin[t][j]
      else b[p] == e
    case EstSlot(e, t, j) => if Before(t, j, s, i) then t < |f.sh| && j < |f.sh[t]| && b[p] == f.sh[t][j] else b[p] == e
    case RefSlot(_) => b[p] == Held(k, p)
    case _ => b[p] == k.b[p]
  }

  ghost predicate ChoiceOk(prog: seq<seq<Action>>, l: Layout, k: Book, f: Fix, x: nat, y: nat)
    requires x < |l.cells| && y < |l.cells[x]|
  {
    var c := l.cells[x][y];
    && InProgram(prog, c) && x < |f.sh| && y < |f.sh[x]|
    && (c.j <= 0 || !IsRel(ItemOf(prog, c)) || Extern(k, c.pos) ==> f.sh[x][y] == 0)
    && (c.j > 0 && IsRel(ItemOf(prog, c)) ==>
        forall t: nat, j: nat :: Names(k, c.pos, t, j) ==> ChoiceIs(prog, l, f, x, y, t, j))
  }

  ghost predicate ChoiceIs(prog: seq<seq<Action>>, l: Layout, f: Fix, x: nat, y: nat, t: nat, j: nat)
    requires x < |l.cells| && y < |l.cells[x]| && InProgram(prog, l.cells[x][y]) && l.cells[x][y].j > 0 && x < |f.sh|
      && y < |f.sh[x]|
  {
    && t < |l.cells| && x < |l.sofs| && t < |l.sofs| && x < |f.fin| && y < |f.fin[x]|
    && (Before(t, j, x, y) ==> t < |f.fin| && j < |f.fin[t]|)
    && f.sh[x][y] == Choice(Shrink(LastByte(prog[l.cells[x][y].k][l.cells[x][y].j - 1])), Guess(l, f, x, y, t, j))
  }

  ghost predicate Halfway(prog: seq<seq<Action>>, l: Layout, k: Book, f: Fix, s: nat, i: nat, b: map<int, int>) {
    && FixOk(prog, l, f, s, i)
    && (forall p :: p in k.kind ==> SlotNow(l, k, f, s, i, b, p))
    && (forall x, y :: 0 <= x < |l.cells| && 0 <= y < |l.cells[x]| && Before(x, y, s, i) ==>
        ChoiceOk(prog, l, k, f, x, y))
  }

  /** One more cell is fixed, shrunk by h. */
  function Grow(f: Fix, s: nat, h: int, size: int): Fix
    requires s < |f.fin| && s < |f.sh| && f.fin[s] != []
  {
    Fix(f.fin[s := f.fin[s] + [f.fin[s][|f.fin[s]| - 1] + size]], f.sh[s := f.sh[s] + [h]])
  }

  lemma GrowFix(prog: seq<seq<Action>>, l: Layout, f: Fix, s: nat, i: nat, h: int)
    requires FixOk(prog, l, f, s, i) && s < |l.cells| && i < |l.cells[s]| && InProgram(prog, l.cells[s][i])
      && h in {0, 3, 4}
    ensures Shaped(l, f, s, i)
    ensures FixOk(prog, l, Grow(f, s, h, FinalSize(prog, l.cells[s][i], h, f.fin[s][i])), s, i + 1)
  {
    hide FinalSize;
    var f' := Grow(f, s, h, FinalSize(prog, l.cells[s][i], h, f.fin[s][i]));
    forall x, y | 0 <= x < |l.cells| && 0 <= y < |l.cells[x]| && Before(x, y, s, i + 1)
      ensures StepOk(prog, l, f', x, y)
    {
      if x != s || y != i { assert StepOk(prog, l, f, x, y); }
    }
  }

  /** The same cell fixed in a longer history. */
  lemma GrowChoice(prog: seq<seq<Action>>, l: Layout, k: Book, f: Fix, s: nat, i: nat, h: int, size: int, x: nat,
                   y: nat)
    requires Shaped(l, f, s, i) && x < |l.cells| && y < |l.cells[x]| && Before(x, y, s, i)
      && ChoiceOk(prog, l, k, f, x, y)
    ensures ChoiceOk(prog, l, k, Grow(f, s, h, size), x, y)
  {
    var c, f' := l.cells[x][y], Grow(f, s, h, size);
    if c.j > 0 && IsRel(ItemOf(prog, c)) {
      forall t: nat, j: nat | Names(k, c.pos, t, j) ensures ChoiceIs(prog, l, f', x, y, t, j) {
        assert ChoiceIs(prog, l, f, x, y, t, j);
      }
    }
  }

  /** The buffer writes of pass 2 at the cell (s, i): a label gets its final offset, a
      branch what it shrinks by. */
  function Fixed(prog: seq<seq<Action>>, c: Cell, b: map<int, int>, at: int, h: int): map<int, int>
    requires c.k < |prog| && -1 <= c.j < |prog[c.k]|
  {
    if c.j >= 0 && IsLabel(ItemOf(prog, c)) then b[c.pos := at]
    else if c.j >= 0 && IsRel(ItemOf(prog, c)) then b[c.pos + 1 := h]
    else b
  }

  /** Only branches shrink, and those as their opcode and the guess say. */
  ghost predicate Chosen(prog: seq<seq<Action>>, l: Layout, k: Book, f: Fix, s: nat, i: nat, h: int)
    requires s < |l.cells| && i < |l.cells[s]| && InProgram(prog, l.cells[s][i])
  {
    var c := l.cells[s][i];
    if c.j <= 0 || !IsRel(ItemOf(prog, c)) || Extern(k, c.pos) then h == 0
    else forall t: nat, j: nat :: Names(k, c.pos, t, j) ==>
        CanGuess(l, f, s, i, t, j) && h == Choice(Shrink(LastByte(prog[c.k][c.j - 1])), Guess(l, f, s, i, t, j))
  }

  ghost predicate CanGuess(l: Layout, f: Fix, s: nat, i: nat, t: nat, j: nat) {
    && t < |l.cells| && t < |l.sofs| && s < |l.sofs| && s < |l.cells| && s < |f.fin| && i < |f.fin[s]|
    && (Before(t, j, s, i) ==> t < |f.fin| && j < |f.fin[t]|)
  }

  lemma HalfwayStep(prog: seq<seq<Action>>, l: Layout, k: Book, f: Fix, s: nat, i: nat, b: map<int, int>, h: int)
    requires Base(prog, l, k) && Halfway(prog, l, k, f, s, i, b) && s < |l.cells| && i < |l.cells[s]| && h in {0, 3, 4}
    requires InProgram(prog, l.cells[s][i])
    ensures Shaped(l, f, s, i)
    requires Chosen(prog, l, k, f, s, i, h)
    ensures var c := l.cells[s][i]; var f' := Grow(f, s, h, FinalSize(prog, c, h, f.fin[s][i]));
      Halfway(prog, l, k, f', s, i + 1, Fixed(prog, c, b, f.fin[s][i], h))
  {
    hide Base, FixOk, FinalSize, Choice;
    FixShape(prog, l, f, s, i);
    var c := l.cells[s][i];
    var f' := Grow(f, s, h, FinalSize(prog, c, h, f.fin[s][i]));
    var b' := Fixed(prog, c, b, f.fin[s][i], h);
    GrowFix(prog, l, f, s, i, h);
    forall p | p in k.kind ensures SlotNow(l, k, f', s, i + 1, b', p) {
      SlotStep(prog, l, k, f, s, i, b, h, FinalSize(prog, c, h, f.fin[s][i]), p);
    }
    forall x, y | 0 <= x < |l.cells| && 0 <= y < |l.cells[x]| && Before(x, y, s, i + 1)
      ensures ChoiceOk(prog, l, k, f', x, y)
    {
      if x == s && y == i {
        if c.j > 0 && IsRel(ItemOf(prog, c)) {
          forall t: nat, j: nat | Names(k, c.pos, t, j) ensures ChoiceIs(prog, l, f', x, y, t, j) { }
        }
      } else {
        GrowChoice(prog, l, k, f, s, i, h, FinalSize(prog, c, h, f.fin[s][i]), x, y);
      }
    }
  }

  lemma FixShape(prog: seq<seq<Action>>, l: Layout, f: Fix, s: nat, i: nat)
    requires FixOk(prog, l, f, s, i)
    ensures Shaped(l, f, s, i)
  {
  }

  lemma SlotStep(prog: seq<seq<Action>>, l: Layout, k: Book, f: Fix, s: nat, i: nat, b: map<int, int>, h: int,
                 size: int, p: int)
    requires Base(prog, l, k) && Shaped(l, f, s, i) && s < |l.cells| && i < |l.cells[s]| && p in k.kind
      && SlotNow(l, k, f, s, i, b, p) && InProgram(prog, l.cells[s][i])
    ensures SlotNow(l, k, Grow(f, s, h, size), s, i + 1, Fixed(prog, l.cells[s][i], b, f.fin[s][i], h), p)
  {
    hide LayoutOk, BookOk, ListOk;
    HomeAt(prog, l, p);
    CellAt(prog, l, s, i);
  }

  /** A section is done; the next one starts right after it. */
  function NextFix(f: Fix): Fix
    requires f.fin != [] && f.fin[|f.fin| - 1] != []
  {
    var last := f.fin[|f.fin| - 1];
    Fix(f.fin + [[last[|last| - 1]]], f.sh + [[]])
  }

  lemma NextSection(prog: seq<seq<Action>>, l: Layout, k: Book, f: Fix, s: nat, b: map<int, int>)
    requires Base(prog, l, k) && s + 1 < |l.cells| && Halfway(prog, l, k, f, s, |l.cells[s]|, b)
    ensures Shaped(l, f, s, |l.cells[s]|) && Halfway(prog, l, k, NextFix(f), s + 1, 0, b)
  {
    hide FinalSize, Choice;
    var n, f' := |l.cells[s]|, NextFix(f);
    forall x, y | 0 <= x < |l.cells| && 0 <= y < |l.cells[x]| && Before(x, y, s + 1, 0)
      ensures StepOk(prog, l, f', x, y)
    {
      assert StepOk(prog, l, f, x, y);
    }
    assert FixOk(prog, l, f', s + 1, 0);
    forall p | p in k.kind ensures SlotNow(l, k, f', s + 1, 0, b, p) { SectionSlot(prog, l, k, f, s, b, p); }
    forall x, y | 0 <= x < |l.cells| && 0 <= y < |l.cells[x]| && Before(x, y, s + 1, 0)
      ensures ChoiceOk(prog, l, k, f', x, y)
    {
      SectionChoice(prog, l, k, f, s, x, y);
    }
  }

  lemma SectionSlot(prog: seq<seq<Action>>, l: Layout, k: Book, f: Fix, s: nat, b: map<int, int>, p: int)
    requires Base(prog, l, k) && s + 1 < |l.cells| && Shaped(l, f, s, |l.cells[s]|) && p in k.kind
      && SlotNow(l, k, f, s, |l.cells[s]|, b, p)
    ensures SlotNow(l, k, NextFix(f), s + 1, 0, b, p)
  {
    hide LayoutOk, BookOk, ListOk;
    HomeAt(prog, l, p);
  }

  lemma SectionChoice(prog: seq<seq<Action>>, l: Layout, k: Book, f: Fix, s: nat, x: nat, y: nat)
    requires s + 1 < |l.cells| && Shaped(l, f, s, |l.cells[s]|) && x < |l.cells| && y < |l.cells[x]|
      && Before(x, y, s + 1, 0)
    requires ChoiceOk(prog, l, k, f, x, y)
    ensures ChoiceOk(prog, l, k, NextFix(f), x, y)
  {
    hide Choice;
    var c, f' := l.cells[x][y], NextFix(f);
    if c.j > 0 && IsRel(ItemOf(prog, c)) {
      forall t: nat, j: nat | Names(k, c.pos, t, j) ensures ChoiceIs(prog, l, f', x, y, t, j) {
        assert ChoiceIs(prog, l, f, x, y, t, j);
      }
    }
  }

  /** Before anything is fixed. */
  lemma HalfwayStart(prog: seq<seq<Action>>, l: Layout, k: Book, b: map<int, int>)
    requires Base(prog, l, k) && b.Keys == k.b.Keys && forall p :: p in b ==> b[p] == Held(k, p)
    ensures Halfway(prog, l, k, Fix([[0]], [[]]), 0, 0, b)
  {
    hide LayoutOk, ListOk;
    BookParts(k);
    hide BookOk;
    forall p | p in k.kind ensures SlotNow(l, k, Fix([[0]], [[]]), 0, 0, b, p) { }
  }

  // ----- one cell of pass 2

  function PosAt(l: Layout, s: nat, i: nat): int
    requires s < |l.cells| && s < |l.spos|
  {
    if i < |l.cells[s]| then l.cells[s][i].pos else l.spos[s]
  }

  /** What pass 2 knows when it comes to the cell (s, i). */
  ghost predicate AtCell(prog: seq<seq<Action>>, l: Layout, k: Book, f: Fix, s: nat, i: nat, b: map<int, int>, pos: int,
                         ofs: int) {
    && Base(prog, l, k) && Halfway(prog, l, k, f, s, i, b) && s < |l.cells| && i <= |l.cells[s]| && s < |l.spos|
      && s < |l.sofs| && Shaped(l, f, s, i)
    && pos == PosAt(l, s, i) && ofs == f.fin[s][i] - EstAt(l, s, i)
  }

  lemma CellStep(prog: seq<seq<Action>>, l: Layout, k: Book, f: Fix, s: nat, i: nat, b: map<int, int>, pos: int,
                 ofs: int, h: int)
    requires AtCell(prog, l, k, f, s, i, b, pos, ofs) && i < |l.cells[s]| && InProgram(prog, l.cells[s][i])
      && h in {0, 3, 4} && Chosen(prog, l, k, f, s, i, h)
    ensures var c := l.cells[s][i]; var size := FinalSize(prog, c, h, f.fin[s][i]);
      AtCell(prog, l, k, Grow(f, s, h, size), s, i + 1, Fixed(prog, c, b, f.fin[s][i], h), NextPos(prog, c),
        ofs + c.est + size - NextEst(prog, c))
  {
    hide FixOk, LayoutOk, BookOk, ListOk, Halfway, FinalSize, Chosen;
    HalfwayStep(prog, l, k, f, s, i, b, h);
    HalfFix(prog, l, k, f, s, i, b);
    GrowFix(prog, l, f, s, i, h);
    CellAt(prog, l, s, i);
    FixShape(prog, l, Grow(f, s, h, FinalSize(prog, l.cells[s][i], h, f.fin[s][i])), s, i + 1);
    SectionStart(prog, l, s);
  }

  lemma HalfFix(prog: seq<seq<Action>>, l: Layout, k: Book, f: Fix, s: nat, i: nat, b: map<int, int>)
    requires Halfway(prog, l, k, f, s, i, b)
    ensures FixOk(prog, l, f, s, i) && Shaped(l, f, s, i)
  {
  }

  /** Rounding down the padded estimate is padding. */
  lemma AlignStep(at: int, n: nat)
    ensures Pad(at, n) == n - (at + n) % (n + 1)
  {
    var m := n + 1;
    var q, r := at / m, at % m;
    assert at == q * m + r;
    if r == 0 {
      ModIs(at + n, m, q, n);
      ModIs(-at, m, -q, 0);
    } else {
      ModIs(at + n, m, q + 1, r - 1);
      ModIs(-at, m, -q - 1, m - r);
    }
  }

  lemma ModIs(x: int, m: int, q: int, r: int)
    requires m > 0 && 0 <= r < m && x == q * m + r
    ensures x % m == r
  {
    var d := x / m - q;
    assert x == (x / m) * m + x % m;
    assert d * m == r - x % m;
    assert d >= 1 ==> d * m >= m;
    assert d <= -1 ==> d * m <= -m;
  }

  /** What the buffer holds at the cell (s, i). */
  lemma ReadCell(prog: seq<seq<Action>>, l: Layout, k: Book, f: Fix, s: nat, i: nat, b: map<int, int>, pos: int,
                 ofs: int)
    requires AtCell(prog, l, k, f, s, i, b, pos, ofs) && i < |l.cells[s]|
    ensures InProgram(prog, l.cells[s][i]) && ListOk(prog[l.cells[s][i].k])
    ensures var c := l.cells[s][i];
      && c.pos == pos
      && (c.j == -1 ==> pos in b && b[pos] == c.k)
      && (c.j >= 0 && IsLabel(ItemOf(prog, c)) ==> pos in b && b[pos] + ofs == f.fin[s][i])
      && (c.j >= 0 && ItemOf(prog, c).Align? ==> pos in b && b[pos] + ofs == f.fin[s][i] + ItemOf(prog, c).n)
      && (c.j >= 0 && IsRel(ItemOf(prog, c)) ==>
          pos in b && pos in k.kind && k.kind[pos].RefSlot? && b[pos] == Held(k, pos) && pos + 1 in b
          && b[pos + 1] == c.est + 4)
  {
    hide LayoutOk, BookOk, FixOk, ListOk, OnlyGlobals;
    var c := l.cells[s][i];
    CellAt(prog, l, s, i);
    BookParts(k);
    forall p | p in k.kind ensures SlotNow(l, k, f, s, i, b, p) { }
  }

  /** The distance pass 2 computes is the guess. */
  lemma ReadGuess(prog: seq<seq<Action>>, l: Layout, k: Book, f: Fix, s: nat, i: nat, b: map<int, int>, pos: int,
                  ofs: int)
    returns (t: nat, j: nat)
    requires AtCell(prog, l, k, f, s, i, b, pos, ofs) && i < |l.cells[s]|
    requires InProgram(prog, l.cells[s][i]) && l.cells[s][i].j > 0 && IsRel(ItemOf(prog, l.cells[s][i])) && pos in k.b
      && pos in k.kind && k.kind[pos].RefSlot? && !Extern(k, pos)
    ensures Names(k, pos, t, j) && CanGuess(l, f, s, i, t, j) && forall t', j' :: Names(k, pos, t', j') ==>
        t' == t && j' == j
    ensures var q := k.b[pos];
      && q in b && q / SEC == t && (q > pos <==> !Before(t, j, s, i)) && |l.spos| == |l.sofs| == |l.cells|
      && (q > pos ==>
          s <= t && b[q] + Pre(l.sofs, t) - Pre(l.sofs, s) - (l.cells[s][i].est + 4) == Guess(l, f, s, i, t, j))
      && (q <= pos ==> b[q] - ofs - (l.cells[s][i].est + 4) == Guess(l, f, s, i, t, j))
  {
    hide LayoutOk, BookOk, FixOk, ListOk, OnlyGlobals;
    var c := l.cells[s][i];
    Resolved(k, pos);
    var q := k.b[pos];
    t, j := k.kind[q].s, k.kind[q].i;
    HomeAt(prog, l, q);
    SectionStart(prog, l, s);
    PosOrder(prog, l, s, i, t, j);
    assert SlotNow(l, k, f, s, i, b, q);
  }
}
