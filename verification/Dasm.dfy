/** The state of DynASM and its three passes (dasm_x86.h:56-440). */
module Dasm {
  import opened DynAsm
  import opened DynLink
  import opened DynEncode
  import opened DynBytes
  import opened DynCode

  class DasmState {
    const program: seq<seq<Action>>
    var b: map<int, int>
    var labels: map<Lab, int>
    /** The addresses of the global labels, from 10 on. */
    var globals: map<nat, int>
    var spos: seq<int>
    var sofs: seq<int>
    var section: nat
    var status: Status
    var codesize: int
    ghost var kind: map<int, Slot>
    ghost var log: seq<Event>
    ghost var tgt: map<nat, nat>
    ghost var chain: map<Lab, seq<nat>>
    ghost var last: map<Lab, int>
    ghost var cells: seq<seq<Cell>>
    ghost var fix: Fix
    ghost var k0: Book

    ghost function K(): Book
      reads this
    {
      Book(b, labels, kind, log, tgt, chain, last, globals)
    }

    /** The layout while the active section stands at pos and ofs. */
    ghost function L(pos: int, ofs: int): Layout
      reads this
    {
      if section < |spos| && section < |sofs| then Layout(cells, kind, spos[section := pos], sofs[section := ofs])
        else Layout(cells, kind, spos, sofs)
    }

    ghost predicate Sound(pos: int, ofs: int)
      reads this
    {
      && BookOk(K()) && LayoutOk(program, L(pos, ofs)) && section < |spos| && |spos| == |sofs| == |cells|
      && (forall k :: 0 <= k < |program| ==> ListOk(program[k]))
      && (forall n: nat :: n < 10 ==> Lg(n) in labels)
    }

    /** Between two calls every section ends with the end of a list. */
    ghost predicate Valid()
      reads this
    {
      section < |spos| == |sofs| && Sound(spos[section], sofs[section]) && AllClosed(program, cells)
        && Meant(program, cells, kind, log) && forall n: nat :: n >= 10 && Lg(n) in labels ==> n in globals
    }

    /** dasm_init, dasm_setupglobal, dasm_growpc and dasm_setup. */
    constructor (maxsection: nat, program: seq<seq<Action>>, gl: seq<int>, maxpc: nat)
      requires maxsection > 0 && forall k :: 0 <= k < |program| ==> ListOk(program[k])
      ensures Valid() && this.program == program && status == OK && section == 0 && log == [] && |cells| == maxsection
      ensures labels.Keys == LabelSet(|gl|, maxpc) && globals == GlobalMap(gl)
    {
      hide BookOk, LayoutOk, ListOk, LabelSet;
      this.program := program;
      b := map[];
      labels := map lab | lab in LabelSet(|gl|, maxpc) :: 0;
      globals := GlobalMap(gl);
      spos, sofs := seq(maxsection, i => i * SEC), seq(maxsection, _ => 0);
      section, status, codesize := 0, OK, 0;
      kind, log, tgt := map[], [], map[];
      fix, k0 := Fix([], []), Book(map[], map[], map[], [], map[], map[], map[], map[]);
      cells := seq(maxsection, _ => []);
      new;
      chain, last := map lab | lab in labels :: [], map lab | lab in labels :: -1;
      LocalsThere(|gl|, maxpc);
      FreshBook(labels, globals);
      FreshLayout(program, maxsection);
      assert spos[0 := spos[0]] == spos && sofs[0 := sofs[0]] == sofs;
    }

    /** The cell of one executed action, with no buffer position. */
    ghost method Add(k: nat, j: int, arg: int, pos: int, ofs: int)
      requires Sound(pos, ofs) && CanAdd(program, L(pos, ofs), section, Cell(k, j, pos, ofs, arg)) && j >= 0
        && Slots(program[k][j]) == 0
      modifies this`cells
      ensures Sound(pos, ofs + MaxSize(program[k][j], arg))
        && cells == old(cells)[section := old(cells)[section] + [Cell(k, j, pos, ofs, arg)]]
    {
      hide BookOk, LayoutOk, ListOk;
      WithCellOk(program, L(pos, ofs), section, Cell(k, j, pos, ofs, arg), kind);
      cells := cells[section := cells[section] + [Cell(k, j, pos, ofs, arg)]];
      Twice(spos, section, pos, pos);
      Twice(sofs, section, ofs, ofs + MaxSize(program[k][j], arg));
    }

    /** One stored value. */
    method Store(k: nat, j: int, arg: int, pos: int, ofs: int, ghost slot: Slot, v: int) returns (pos': int, ofs': int)
      requires Sound(pos, ofs) && CanAdd(program, L(pos, ofs), section, Cell(k, j, pos, ofs, arg))
      requires (j == -1 && slot == StartSlot(k))
        || (j >= 0 && StoresArg(program[k][j]) && slot == ArgSlot(arg) && ArgInRange(program[k][j], arg)
        && (program[k][j].Space? ==> arg >= 0))
            || (j >= 0 && program[k][j].Align? && slot == AlignSlot(ofs + program[k][j].n))
      requires SlotOk(slot, v)
      modifies this`b, this`kind, this`cells
      ensures pos' == pos + 1 && ofs' == (if j == -1 then ofs else ofs + MaxSize(program[k][j], arg))
      ensures pos !in old(kind) && kind == old(kind)[pos := slot]
      ensures Sound(pos', ofs') && cells == old(cells)[section := old(cells)[section] + [Cell(k, j, pos, ofs, arg)]]
    {
      hide BookOk, LayoutOk, ListOk;
      ghost var c := Cell(k, j, pos, ofs, arg);
      SectionStart(program, L(pos, ofs), section);
      FreeAt(program, L(pos, ofs), section, pos);
      WithSlotOk(K(), pos, slot, v);
      WithCellOk(program, L(pos, ofs), section, c, kind[pos := slot]);
      b := b[pos := v];
      kind := kind[pos := slot];
      cells := cells[section := cells[section] + [c]];
      pos', ofs' := pos + 1, if j == -1 then ofs else ofs + MaxSize(program[k][j], arg);
      Twice(spos, section, pos, pos');
      Twice(sofs, section, ofs, ofs');
    }

    /** putrel and linkrel: an existing label's position is stored, otherwise the reference
        goes in front of the label's chain. */
    method LinkIn(pos: int, lab: Lab, fwd: bool)
      requires BookOk(K()) && lab in labels && lab in chain && lab in last && last[lab] >= -1
      modifies this`b, this`labels, this`kind, this`log, this`tgt, this`chain
      ensures K() == WithRef(old(K()), pos, lab, fwd)
    {
      hide BookOk;
      LabValue(K(), lab);
      ghost var m := |log|;
      var n := labels[lab];
      if n < 0 && !fwd {
        b := b[pos := -n];
        tgt := tgt[m := last[lab]];
      } else {
        if n < 0 { n := 0; }
        b := b[pos := n];
        labels := labels[lab := pos];
        chain := chain[lab := [m] + chain[lab]];
      }
      kind := kind[pos := RefSlot(m)];
      log := log + [Ref(pos, lab, fwd)];
    }

    /** The reference is entered: it is in the log, and a label it looks forward to is open. */
    method LinkRef(pos: int, lab: Lab, fwd: bool)
      requires BookOk(K()) && pos > 0 && pos !in kind && lab in labels && (fwd ==> IsLocal(lab))
        && (!fwd && IsLocal(lab) ==> labels[lab] < 0)
      modifies this`b, this`labels, this`kind, this`log, this`tgt, this`chain
      ensures BookOk(K()) && kind == old(kind)[pos := RefSlot(|old(log)|)] && log == old(log) + [Ref(pos, lab, fwd)]
      ensures labels.Keys == old(labels).Keys
      ensures Placed(labels) == if fwd then old(Placed(labels)) - {lab} else old(Placed(labels))
    {
      hide BookOk, WithRef, Placed;
      WithRefOk(K(), pos, lab, fwd);
      LinkIn(pos, lab, fwd);
      WithRefParts(old(K()), pos, lab, fwd);
    }

    /** The estimated end of a branch. */
    method StoreEst(pos: int, ofs: int, ghost i: nat)
      requires BookOk(K()) && pos !in kind
      modifies this`b, this`kind
      ensures BookOk(K()) && kind == old(kind)[pos := EstSlot(ofs, section, i)]
    {
      hide BookOk;
      WithSlotOk(K(), pos, EstSlot(ofs, section, i), ofs);
      b := b[pos := ofs];
      kind := kind[pos := EstSlot(ofs, section, i)];
    }

    /** DASM_REL_* and DASM_IMM_LG/PC: a branch also stores its estimated end. */
    method PutRef(k: nat, j: nat, pos: int, ofs: int, lab: Lab, fwd: bool, ghost arg: int)
                  returns (pos': int, ofs': int)
      requires Sound(pos, ofs) && CanAdd(program, L(pos, ofs), section, Cell(k, j, pos, ofs, arg))
        && IsRef(program[k][j])
      requires pos > section * SEC && lab in labels && (fwd ==> IsLocal(lab))
        && (!fwd && IsLocal(lab) ==> labels[lab] < 0)
      modifies this`b, this`labels, this`kind, this`log, this`tgt, this`chain, this`cells
      ensures pos' == pos + Slots(program[k][j]) && ofs' == ofs + 4
      ensures Sound(pos', ofs') && cells == old(cells)[section := old(cells)[section] + [Cell(k, j, pos, ofs, arg)]]
      ensures log == old(log) + [Ref(pos, lab, fwd)] && labels.Keys == old(labels).Keys
      ensures (forall p :: p in old(kind) ==> p in kind && kind[p] == old(kind)[p]) && pos in kind
        && kind[pos] == RefSlot(|old(log)|)
      ensures Placed(labels) == if fwd then old(Placed(labels)) - {lab} else old(Placed(labels))
    {
      hide BookOk, LayoutOk, ListOk, Placed;
      ghost var l0, c := L(pos, ofs), Cell(k, j, pos, ofs, arg);
      SectionStart(program, l0, section);
      FreeAt(program, l0, section, pos);
      FreeBehind(program, l0, section);
      LinkRef(pos, lab, fwd);
      pos', ofs' := pos + 1, ofs + 4;
      if IsRel(program[k][j]) {
        StoreEst(pos', ofs', |cells[section]|);
        pos' := pos' + 1;
      }
      RefCellOk(program, l0, section, c, kind);
      cells := cells[section := cells[section] + [c]];
      Twice(spos, section, pos, pos');
      Twice(sofs, section, ofs, ofs');
    }

    /** The chain of a label: every reference in it gets the label's position. */
    method Collapse(lab: Lab, pos: int)
      requires BookOk(K()) && lab in labels && pos > 0
      modifies this`b
      ensures lab in chain && b == Collapsed(old(b), log, chain[lab], pos)
    {
      hide BookOk, LabOk, EventOk, Collapsed;
      ghost var k0 := K();
      LabAt(k0, lab);
      ghost var c := chain[lab];
      ghost var i: nat := 0;
      ChainHead(k0, lab);
      CollapsedNone(b, log, pos);
      var n := labels[lab];
      while n > 0
        invariant i <= |c| && n == (if i < |c| then ChainPos(k0, lab, i) else if c == [] then k0.labels[lab] else 0)
        invariant c == [] ==> n <= 0
        invariant i < |c| ==> n > 0
        invariant b == Collapsed(k0.b, log, c[..i], pos)
        decreases |c| - i
      {
        ChainStep(k0, lab, i, pos);
        var next := b[n];
        b := b[n := pos];
        n := next;
        i := i + 1;
      }
      assert i == |c|;
      assert c[..i] == c;
    }

    /** putlabel: the chain is collapsed, the label exists now. */
    method Define(pos: int, ofs: int, lab: Lab, ghost i: nat)
      requires BookOk(K()) && lab in labels && lab in chain && pos > 0
      modifies this`b, this`labels, this`kind, this`log, this`tgt, this`chain, this`last
      ensures K() == WithDef(old(K()), pos, lab, ofs, section, i)
    {
      hide BookOk, Collapsed;
      ghost var m := |log|;
      Collapse(lab, pos);
      labels := labels[lab := -pos];
      b := b[pos := ofs];
      kind := kind[pos := LabelSlot(ofs, section, i)];
      log := log + [Def(pos, lab)];
      tgt, chain, last := tgt + (map x | x in chain[lab] :: m), chain[lab := []], last[lab := m];
    }

    /** DASM_LABEL_*: the estimated offset is stored. */
    method PutLabel(k: nat, j: nat, pos: int, ofs: int, lab: Lab, ghost arg: int) returns (pos': int)
      requires Sound(pos, ofs) && CanAdd(program, L(pos, ofs), section, Cell(k, j, pos, ofs, arg))
        && IsLabel(program[k][j])
      requires pos > section * SEC && lab in labels
      modifies this`b, this`labels, this`kind, this`log, this`tgt, this`chain, this`last, this`cells
      ensures pos' == pos + 1
      ensures Sound(pos', ofs) && cells == old(cells)[section := old(cells)[section] + [Cell(k, j, pos, ofs, arg)]]
      ensures log == old(log) + [Def(pos, lab)] && labels.Keys == old(labels).Keys
      ensures pos !in old(kind) && kind == old(kind)[pos := LabelSlot(ofs, section, old(|cells[section]|))]
      ensures Placed(labels) == old(Placed(labels)) + {lab}
    {
      hide BookOk, LayoutOk, ListOk, Collapsed;
      ghost var l0, c, i := L(pos, ofs), Cell(k, j, pos, ofs, arg), |cells[section]|;
      SectionStart(program, l0, section);
      FreeAt(program, l0, section, pos);
      LabKeys(K(), lab);
      WithDefOk(K(), pos, lab, ofs, section, i);
      WithCellOk(program, l0, section, c, kind[pos := LabelSlot(ofs, section, i)]);
      Define(pos, ofs, lab, i);
      cells := cells[section := cells[section] + [c]];
      pos' := pos + 1;
      Twice(spos, section, pos, pos');
      Twice(sofs, section, ofs, ofs);
    }

    /** The label of a reference, whether it looks forward, and the checks of DASM_CHECKS. */
    method LabelOf(a: Action, arg: int) returns (st: Status, lab: Lab, fwd: bool)
      requires IsRef(a) && (a.RelLG? || a.ImmLG? ==> 1 <= a.n < 256) && forall n: nat :: n < 10 ==> Lg(n) in labels
      ensures st == OK ==> lab in labels && (fwd ==> IsLocal(lab)) && (!fwd && IsLocal(lab) ==> labels[lab] < 0)
      ensures st == OK ==> lab == RefLab(a, arg) && fwd == IsForward(a)
      ensures st == OK || st == RangeLG || st == RangePC
      ensures st == RangeLG <==>
          (a.RelLG? || a.ImmLG?) && a.n <= 246 && (if a.n < 10 then labels[Lg(a.n)] >= 0 else Lg(a.n) !in labels)
      ensures st == RangePC <==> (a.RelPC? || a.ImmPC?) && (arg < 0 || Pc(arg) !in labels)
    {
      st, fwd := OK, false;
      if a.RelLG? || a.ImmLG? {
        if a.n <= 246 {
          lab := Lg(a.n);
          if (a.n < 10 && labels[lab] >= 0) || lab !in labels { st := RangeLG; }
        } else {
          lab, fwd := Lg(a.n - 246), true;
        }
      } else if arg < 0 || Pc(arg) !in labels {
        lab, st := Pc(0), RangePC;
      } else {
        lab := Pc(arg);
      }
    }

    /** A plain byte, a stored argument or an alignment. */
    method ActStore(k: nat, j: nat, pos: int, ofs: int, arg: int) returns (pos': int, ofs': int)
      requires Sound(pos, ofs) && CanAdd(program, L(pos, ofs), section, Cell(k, j, pos, ofs, arg)) && j >= 0
      requires var a := program[k][j]; !IsEnd(a) && !IsRef(a) && !IsLabel(a) && (a.Space? ==> arg >= 0)
      requires status == OK && pos > section * SEC
      modifies this`b, this`kind, this`cells, this`status
      ensures status == OK <==> Passes(program[k][j], arg, labels.Keys, Placed(labels))
      ensures status == OK ==> Sound(pos', ofs') && pos' == pos + Slots(program[k][j])
      ensures status == OK ==>
          Acts(program, old(cells), old(kind), log, section, Cell(k, j, pos, ofs, arg), cells, kind, log)
    {
      hide BookOk, LayoutOk, ListOk, Placed;
      var a := program[k][j];
      pos', ofs' := pos, ofs;
      if IsPlain(a) {
        Add(k, j, arg, pos, ofs);
        ofs' := ofs + 1;
      } else if StoresArg(a) {
        if !ArgInRange(a, arg) { status := RangeI; return; }
        pos', ofs' := Store(k, j, arg, pos, ofs, ArgSlot(arg), arg);
      } else {
        pos', ofs' := Store(k, j, arg, pos, ofs, AlignSlot(ofs + a.n), ofs + a.n);
      }
    }

    /** A reference. */
    method ActRef(k: nat, j: nat, pos: int, ofs: int, arg: int) returns (pos': int, ofs': int)
      requires Sound(pos, ofs) && CanAdd(program, L(pos, ofs), section, Cell(k, j, pos, ofs, arg)) && j >= 0
        && IsRef(program[k][j])
      requires status == OK && pos > section * SEC
      modifies this`b, this`labels, this`kind, this`log, this`tgt, this`chain, this`cells, this`status
      ensures status == OK <==> Passes(program[k][j], arg, old(labels).Keys, old(Placed(labels)))
      ensures status == OK ==>
          Placed(labels) == PlacedAfter(program[k][j], arg, old(Placed(labels))) && labels.Keys == old(labels).Keys
      ensures status == OK ==> Sound(pos', ofs') && pos' == pos + Slots(program[k][j])
      ensures status == OK ==>
          Acts(program, old(cells), old(kind), old(log), section, Cell(k, j, pos, ofs, arg), cells, kind, log)
    {
      hide BookOk, LayoutOk, ListOk;
      ListAt(program, k, j);
      pos', ofs' := pos, ofs;
      var st, lab, fwd := LabelOf(program[k][j], arg);
      if st != OK { status := st; return; }
      pos', ofs' := PutRef(k, j, pos, ofs, lab, fwd, arg);
    }

    /** A label. */
    method ActLabel(k: nat, j: nat, pos: int, ofs: int, arg: int) returns (pos': int)
      requires Sound(pos, ofs) && CanAdd(program, L(pos, ofs), section, Cell(k, j, pos, ofs, arg)) && j >= 0
        && IsLabel(program[k][j])
      requires status == OK && pos > section * SEC
      modifies this`b, this`labels, this`kind, this`log, this`tgt, this`chain, this`last, this`cells, this`status
      ensures status == OK <==> Passes(program[k][j], arg, old(labels).Keys, old(Placed(labels)))
      ensures status == OK ==>
          Placed(labels) == PlacedAfter(program[k][j], arg, old(Placed(labels))) && labels.Keys == old(labels).Keys
      ensures status == OK ==> Sound(pos', ofs) && pos' == pos + 1
      ensures status == OK ==>
          Acts(program, old(cells), old(kind), old(log), section, Cell(k, j, pos, ofs, arg), cells, kind, log)
    {
      hide BookOk, LayoutOk, ListOk;
      var a := program[k][j];
      pos' := pos;
      var lab := if a.LabelLG? then Lg(a.n) else if arg >= 0 then Pc(arg) else Pc(0);
      if a.LabelLG? && lab !in labels { status := RangeLG; return; }
      if a.LabelPC? && (arg < 0 || lab !in labels) { status := RangePC; return; }
      pos' := PutLabel(k, j, pos, ofs, lab, arg);
    }

    /** One action of a list, not its end. */
    method Act(k: nat, j: nat, pos: int, ofs: int, args: seq<int>, x: nat) returns (pos': int, ofs': int, x': nat)
      requires Sound(pos, ofs) && CanAdd(program, L(pos, ofs), section, Cell(k, j, pos, ofs, 0))
        && !IsEnd(program[k][j])
      requires status == OK && ArgsOk(program[k], j, args, x) && pos > section * SEC && Meant(program, cells, kind, log)
      modifies this`b, this`labels, this`kind, this`log, this`tgt, this`chain, this`last, this`cells, this`status
      ensures var a := program[k][j]; var arg := if TakesArg(a) then args[x] else 0;
        && (status == OK <==> Passes(a, arg, old(labels).Keys, old(Placed(labels))))
        && (status == OK ==> Placed(labels) == PlacedAfter(a, arg, old(Placed(labels))))
        && x' == (if TakesArg(a) then x + 1 else x)
        && (status == OK ==>
            cells == old(cells)[section := old(cells)[section] + [Cell(k, j, pos, ofs, arg)]]
            && log == old(log) + EventOf(a, arg, pos))
      ensures status == OK ==>
          Sound(pos', ofs') && pos' == pos + Slots(program[k][j]) && ArgsOk(program[k], j + 1, args, x')
      ensures status == OK ==> Meant(program, cells, kind, log) && labels.Keys == old(labels).Keys
    {
      hide BookOk, LayoutOk, ListOk, Meant, Acts, Sound, EventOf, Passes, Placed;
      ghost var kind0, log0, cells0 := kind, log, cells;
      var a := program[k][j];
      pos', ofs', x' := pos, ofs, x;
      var arg := 0;
      if TakesArg(a) { arg, x' := args[x], x + 1; }
      if IsRef(a) {
        pos', ofs' := ActRef(k, j, pos, ofs, arg);
      } else if IsLabel(a) {
        pos' := ActLabel(k, j, pos, ofs, arg);
      } else {
        pos', ofs' := ActStore(k, j, pos, ofs, arg);
      }
      if status == OK { MeantActs(program, cells0, kind0, log0, section, Cell(k, j, pos, ofs, arg), cells, kind, log); }
    }

    /** The actions of a list up to its end. */
    method PutBody(k: nat, args: seq<int>) returns (pos: int, ofs: int)
      requires Valid() && status == OK && k < |program| && ArgsOk(program[k], 0, args, 0)
      requires spos[section] + 2 * |program[k]| + 4 < (section + 1) * SEC
      modifies this`b, this`labels, this`kind, this`log, this`tgt, this`chain, this`last, this`cells, this`status
      ensures var a := program[k][|program[k]| - 1];
        (status == OK && (a.Section? ==> a.n < |spos|)) <==>
            AllPass(program[k], 0, args, 0, old(labels).Keys, old(Placed(labels)), |spos|)
      ensures status == OK ==>
          Meant(program, cells, kind, log) && log == old(log) + Events(program[k], 0, args, 0, old(spos[section]) + 1)
      ensures status == OK ==> RanTo(program[k], k, args, old(cells), cells, section, |program[k]| - 1)
      ensures status == OK ==> Sound(pos, ofs) && pos + 2 < (section + 1) * SEC && labels.Keys == old(labels).Keys
    {
      hide BookOk, LayoutOk, AllClosed, ListOk, Placed, Passes, PlacedAfter, CanAdd, ActionOk, Meant, EventOf, RanTo,
        ToCome, Events, AllPass, ArgsOk, Taken;
      ghost var cells0, log0, pos0 := cells, log, spos[section] + 1;
      ghost var keys, placed := labels.Keys, Placed(labels);
      ListAt(program, k, 0);
      PutStart(k);
      ghost var kind0, start := kind, Cell(k, -1, spos[section], sofs[section], 0);
      pos, ofs := Store(k, -1, 0, spos[section], sofs[section], StartSlot(k), k);
      StartMeant(program, cells0, kind0, log, section, start, kind);
      RanToStart(program[k], k, args, cells0, section, start);
      ToComeStart(program[k], args, keys, placed, |spos|, log, pos);
      var j: nat, x: nat := 0, 0;
      while !IsEnd(program[k][j])
        invariant status == OK && labels.Keys == keys && Sound(pos, ofs) && Meant(program, cells, kind, log)
        invariant j < |program[k]| && RanTo(program[k], k, args, cells0, cells, section, j)
        invariant ToCome(program[k], args, keys, placed, |spos|, log0, pos0, j, x, Placed(labels), log, pos)
        invariant spos[section] < pos <= spos[section] + 1 + 2 * j
        decreases |program[k]| - j
      {
        ToComeMore(program[k], args, keys, placed, |spos|, log0, pos0, j, x, Placed(labels), log, pos);
        RanToLast(program[k], k, args, cells0, cells, section, j);
        NextCell(program, L(pos, ofs), section, k, j);
        ghost var cells1, c := cells, Cell(k, j, pos, ofs, if TakesArg(program[k][j]) then args[x] else 0);
        pos, ofs, x := Act(k, j, pos, ofs, args, x);
        if status != OK { return; }
        RanToMore(program[k], k, args, cells0, cells1, section, j, c);
        EndAt(program, k, j);
        j := j + 1;
      }
      EndAt(program, k, j);
      ToComeEnd(program[k], args, keys, placed, |spos|, log0, pos0, j, x, Placed(labels), log, pos);
    }

    /** dasm_put. */
    method Put(k: nat, args: seq<int>)
      requires Valid() && status == OK && k < |program| && ArgsOk(program[k], 0, args, 0)
      requires spos[section] + 2 * |program[k]| + 4 < (section + 1) * SEC
      modifies this
      ensures status == OK <==> AllPass(program[k], 0, args, 0, old(labels).Keys, old(Placed(labels)), old(|spos|))
      ensures status == OK ==> log == old(log) + Events(program[k], 0, args, 0, old(spos[section]) + 1)
      ensures status == OK ==>
          old(section) < |cells|
          && Ran(program[k], k, args, cells[old(section)], old(|cells[section]|) + 1, |program[k]|)
      ensures status == OK ==> Valid() && labels.Keys == old(labels).Keys
      ensures status == OK ==>
          |cells| == old(|cells|) && |cells[old(section)]| == |old(cells)[old(section)]| + 1 + |program[k]|
          && old(cells)[old(section)] <= cells[old(section)]
      ensures status == OK ==> forall s :: 0 <= s < |cells| && s != old(section) ==> cells[s] == old(cells)[s]
      ensures status == OK ==>
          section == (if program[k][|program[k]| - 1].Section? then program[k][|program[k]| - 1].n else old(section))
    {
      hide BookOk, LayoutOk, AllClosed, ListOk, AllPass, Placed, ArgsOk, Meant, Events, RanTo, Ran, Taken;
      ghost var cells0 := cells;
      ListAt(program, k, 0);
      var pos, ofs := PutBody(k, args);
      if status != OK { return; }
      var a := program[k][|program[k]| - 1];
      if a.Section? && a.n >= |spos| { status := RangeSec; return; }
      PutEnd(k, args, pos, ofs, cells0);
      Same(spos, section);
      Same(sofs, section);
      if a.Section? { section := a.n; }
      Same(spos, section);
      Same(sofs, section);
    }

    /** The end of a list: position and offset go back to the section. */
    method PutEnd(k: nat, args: seq<int>, pos: int, ofs: int, ghost cells0: seq<seq<Cell>>)
      requires Sound(pos, ofs) && Meant(program, cells, kind, log) && k < |program| && program[k] != []
        && AllClosed(program, cells0)
      requires RanTo(program[k], k, args, cells0, cells, section, |program[k]| - 1) && pos + 2 < (section + 1) * SEC
      modifies this`spos, this`sofs, this`cells
      ensures |spos| == |sofs| == |cells| && section < |spos| && spos[section] == pos && sofs[section] == ofs
      ensures Sound(pos, ofs) && Meant(program, cells, kind, log) && AllClosed(program, cells) && |spos| == old(|spos|)
      ensures Ran(program[k], k, args, cells[section], |cells0[section]| + 1, |program[k]|)
      ensures |cells| == |cells0| && |cells[section]| == |cells0[section]| + 1 + |program[k]|
        && cells0[section] <= cells[section]
      ensures forall s :: 0 <= s < |cells| && s != section ==> cells[s] == cells0[s]
    {
      hide BookOk, LayoutOk, AllClosed, ListOk, Meant, Events, RanTo, Ran, Taken, CanAdd;
      var j := |program[k]| - 1;
      EndAt(program, k, j);
      RanToLast(program[k], k, args, cells0, cells, section, j);
      NextCell(program, L(pos, ofs), section, k, j);
      ghost var cells1, c := cells, Cell(k, j, pos, ofs, 0);
      Add(k, j, 0, pos, ofs);
      EndMeant(program, cells1, kind, log, section, c);
      RanMore(program[k], k, args, cells1[section], |cells0[section]| + 1, j, c);
      StillClosed(program, cells0, cells, section);
      Twice(spos, section, pos, pos);
      Twice(sofs, section, ofs, ofs);
      spos, sofs := spos[section := pos], sofs[section := ofs];
    }

    lemma PutStart(k: nat)
      requires Valid() && k < |program| && spos[section] + 4 < (section + 1) * SEC
      ensures CanAdd(program, L(spos[section], sofs[section]), section, Cell(k, -1, spos[section], sofs[section], 0))
      ensures section * SEC <= spos[section]
    {
      hide BookOk, LayoutOk, ListOk;
      SectionStart(program, L(spos[section], sofs[section]), section);
    }

    // ----- pass 2

    ghost function L0(): Layout
      reads this
    {
      Layout(cells, kind, spos, sofs)
    }

    /** How much the branch at pos can shrink, by its opcode and the guessed distance. */
    method ShrinkOf(op: nat, s: nat, pos: int, ofs: int, ghost i: nat) returns (shrink: nat)
      requires AtCell(program, L0(), k0, fix, s, i, b, pos, ofs) && i < |cells[s]| && InProgram(program, cells[s][i])
      requires cells[s][i].j > 0 && IsRel(ItemOf(program, cells[s][i]))
        && op == LastByte(program[cells[s][i].k][cells[s][i].j - 1])
      ensures shrink in {0, 3, 4} && Chosen(program, L0(), k0, fix, s, i, shrink)
    {
      hide LayoutOk, BookOk, FixOk, ListOk, OnlyGlobals, Base, Halfway;
      BaseParts(program, L0(), k0, fix, s, i, b, pos, ofs);
      ReadCell(program, L0(), k0, fix, s, i, b, pos, ofs);
      HeldSign(k0, pos);
      ghost var t: nat, j: nat := 0, 0;
      if !Extern(k0, pos) { t, j := ReadGuess(program, L0(), k0, fix, s, i, b, pos, ofs); }
      shrink := Shrink(op);
      if shrink != 0 {
        var lpos := b[pos];
        if lpos < 0 { return 0; }
        var lofs := b[lpos];
        if lpos > pos {
          var x := s;
          while x < lpos / SEC
            invariant s <= x <= lpos / SEC && lofs == b[lpos] + Pre(sofs, x) - Pre(sofs, s)
          {
            lofs := lofs + sofs[x];
            x := x + 1;
          }
        } else {
          lofs := lofs - ofs;
        }
        lofs := lofs - b[pos + 1];
        shrink := Choice(shrink, lofs);
      }
    }

    /** One action of pass 2, not the start of a list. */
    method LinkAct(s: nat, k: nat, j: nat, pos: int, ofs: int, ghost i: nat) returns (pos': int, ofs': int)
      requires AtCell(program, L0(), k0, fix, s, i, b, pos, ofs) && i < |cells[s]| && InProgram(program, cells[s][i])
        && cells[s][i].k == k && cells[s][i].j == j
      modifies this`b, this`fix
      ensures AtCell(program, L0(), k0, fix, s, i + 1, b, pos', ofs')
    {
      hide LayoutOk, BookOk, FixOk, ListOk, OnlyGlobals, Base, Halfway, Chosen;
      ReadCell(program, L0(), k0, fix, s, i, b, pos, ofs);
      ListActions(program, k, j);
      ghost var c, h := cells[s][i], 0;
      var a := program[k][j];
      pos', ofs' := pos + Slots(a), ofs;
      ghost var f0, b0 := fix, b;
      if IsRel(a) {
        var shrink := ShrinkOf(LastByte(program[k][j - 1]), s, pos, ofs, i);
        h := shrink;
        ofs' := ofs - shrink;
        b := b[pos + 1 := shrink];
      } else {
        NotChosen(program, L0(), k0, fix, s, i);
        if IsLabel(a) {
          b := b[pos := b[pos] + ofs];
        } else if a.Align? {
          AlignStep(fix.fin[s][i], a.n);
          ofs' := ofs - (b[pos] + ofs) % (a.n + 1);
        }
      }
      fix := Grow(fix, s, h, FinalSize(program, c, h, fix.fin[s][i]));
      CellStep(program, L0(), k0, f0, s, i, b0, pos, ofs, h);
    }

    /** Pass 2 over one section; ofs is what has been gained or lost before it. */
    method LinkSection(s: nat, ofs: int) returns (ofs': int)
      requires AtCell(program, L0(), k0, fix, s, 0, b, s * SEC, ofs) && AllClosed(program, cells)
      modifies this`b, this`fix
      ensures AtCell(program, L0(), k0, fix, s, |cells[s]|, b, spos[s], ofs')
    {
      hide LayoutOk, BookOk, FixOk, ListOk, OnlyGlobals, Base, Halfway, Chosen, AllClosed;
      var pos, last := s * SEC, spos[s];
      var k: nat, j: nat, open := 0, 0, false;
      ofs' := ofs;
      ghost var i := 0;
      BaseParts(program, L0(), k0, fix, s, i, b, pos, ofs');
      if cells[s] != [] { WalkCell(program, L0(), s, i); }
      while pos != last || open
        invariant i <= |cells[s]| && AtCell(program, L0(), k0, fix, s, i, b, pos, ofs') && last == spos[s]
        invariant open ==> i < |cells[s]| && cells[s][i].k == k && cells[s][i].j == j
        invariant !open ==> i == |cells[s]| || cells[s][i].j == -1
        decreases |cells[s]| - i
      {
        BaseParts(program, L0(), k0, fix, s, i, b, pos, ofs');
        WalkCell(program, L0(), s, i);
        ClosedAt(program, cells, s, i);
        ReadCell(program, L0(), k0, fix, s, i, b, pos, ofs');
        if !open {
          NotChosen(program, L0(), k0, fix, s, i);
          CellStep(program, L0(), k0, fix, s, i, b, pos, ofs', 0);
          fix := Grow(fix, s, 0, 0);
          k, j, open := b[pos], 0, true;
          pos := pos + 1;
        } else {
          pos, ofs' := LinkAct(s, k, j, pos, ofs', i);
          open, j := !IsEnd(program[k][j]), j + 1;
        }
        i := i + 1;
      }
      BaseParts(program, L0(), k0, fix, s, i, b, pos, ofs');
      if i < |cells[s]| { WalkCell(program, L0(), s, i); }
    }

    /** Everything is fixed. */
    ghost predicate Linked()
      reads this
    {
      && Meant(program, cells, k0.kind, k0.log)
      && cells != [] && |cells| == |spos| == |sofs| && AllClosed(program, cells)
      && Base(program, L0(), k0) && Halfway(program, L0(), k0, fix, |cells| - 1, |cells[|cells| - 1]|, b)
      && |fix.fin| == |cells| && |fix.fin[|cells| - 1]| == |cells[|cells| - 1]| + 1
        && codesize == fix.fin[|cells| - 1][|cells[|cells| - 1]|]
    }

    /** The first PC label with a reference but no definition. */
    method UndefinedPC(maxpc: nat) returns (pc: int)
      ensures pc == -1 ==> forall n: nat :: n < maxpc && Pc(n) in labels ==> labels[Pc(n)] <= 0
      ensures pc != -1 ==> 0 <= pc < maxpc && Pc(pc) in labels && labels[Pc(pc)] > 0
    {
      pc := -1;
      var n := 0;
      while n < maxpc
        invariant forall m: nat :: m < n && Pc(m) in labels ==> labels[Pc(m)] <= 0
      {
        if Pc(n) in labels && labels[Pc(n)] > 0 { return n; }
        n := n + 1;
      }
    }

    /** Undefined global labels: their references get the negative label number. */
    method MarkGlobals(lgsize: nat)
      requires k0 == K() && BookOk(k0) && OnlyGlobals(k0) && lgsize >= 10
      requires forall lab :: lab in labels && lab.Lg? ==> lab.n < lgsize
      modifies this`b
      ensures b.Keys == k0.b.Keys && forall p :: p in b ==> b[p] == Held(k0, p)
    {
      hide BookOk, OnlyGlobals, Marked, MarkedTo, Extern, Held;
      MarkEnds(k0, lgsize);
      var g: nat := 10;
      while g < lgsize
        invariant 10 <= g <= lgsize && b == Marked(k0, g)
      {
        MarkDone(k0, g);
        if Lg(g) in labels { MarkChain(g); }
        g := g + 1;
      }
    }

    method MarkChain(g: nat)
      requires BookOk(k0) && g > 0 && Lg(g) in labels && labels == k0.labels && b == Marked(k0, g)
      modifies this`b
      ensures Lg(g) in k0.chain && b == MarkedTo(k0, g, |k0.chain[Lg(g)]|)
    {
      hide BookOk, Marked, MarkedTo;
      ChainHead(k0, Lg(g));
      ghost var c := k0.chain[Lg(g)];
      ghost var i: nat := 0;
      MarkedNone(k0, g);
      var n := labels[Lg(g)];
      while n > 0
        invariant i <= |c| && b == MarkedTo(k0, g, i)
        invariant n == (if i < |c| then ChainPos(k0, Lg(g), i) else if c == [] then k0.labels[Lg(g)] else 0)
        decreases |c| - i
      {
        MarkStep(k0, g, i);
        var next := b[n];
        b := b[n := Mark(g)];
        n := next;
        i := i + 1;
      }
    }

    method MarkStart(lgsize: nat)
      requires Valid() && OnlyGlobals(K()) && lgsize >= 10
      requires forall lab :: lab in labels && lab.Lg? ==> lab.n < lgsize
      modifies this`b, this`fix, this`k0
      ensures k0 == old(K()) && |spos| == |sofs| == |cells| && cells != []
      ensures AtCell(program, L0(), k0, fix, 0, 0, b, 0, 0)
    {
      hide LayoutOk, BookOk, ListOk, OnlyGlobals, Meant, AllClosed;
      k0, fix := K(), Fix([[0]], [[]]);
      LinkBase();
      MarkGlobals(lgsize);
      LinkStart();
    }

    /** dasm_link, when all local labels that are referred to are defined: PC labels are
        checked, references to undefined global labels marked, everything else is fixed. */
    method Link(maxpc: nat, lgsize: nat) returns (undefined: int)
      requires Valid() && status == OK
      requires forall lab :: lab in labels ==> if lab.Lg? then lab.n < lgsize else lab.n < maxpc
      requires forall n: nat :: n < 10 ==> labels[Lg(n)] <= 0
      modifies this`b, this`codesize, this`fix, this`k0
      ensures undefined == -1 <==> forall n: nat :: Pc(n) in labels ==> labels[Pc(n)] <= 0
      ensures undefined == -1 ==> Linked() && k0 == old(K())
      ensures undefined != -1 ==> undefined >= 0 && Pc(undefined) in labels && labels[Pc(undefined)] > 0
    {
      hide LayoutOk, BookOk, FixOk, ListOk, Base, Halfway, AllClosed, Meant, OnlyGlobals;
      undefined := UndefinedPC(maxpc);
      if undefined != -1 { return; }
      GlobalsOnly(maxpc);
      MarkStart(lgsize);
      var ofs, s := 0, 0;
      while s < |spos|
        invariant s <= |spos| == |sofs| == |cells| && k0 == old(K())
        invariant s < |cells| ==> AtCell(program, L0(), k0, fix, s, 0, b, s * SEC, ofs)
        invariant s == |cells| ==>
            |fix.fin| == |cells| && |fix.fin[s - 1]| == |cells[s - 1]| + 1 && ofs == fix.fin[s - 1][|cells[s - 1]|]
        invariant s == |cells| ==> Base(program, L0(), k0) && Halfway(program, L0(), k0, fix, s - 1, |cells[s - 1]|, b)
      {
        ofs := LinkSection(s, ofs);
        NextCellAt(program, L0(), k0, fix, s, b, spos[s], ofs);
        ofs := ofs + sofs[s];
        if s + 1 < |spos| { fix := NextFix(fix); }
        s := s + 1;
      }
      codesize := ofs;
    }

    lemma GlobalsOnly(maxpc: nat)
      requires Valid() && (forall lab :: lab in labels && lab.Pc? ==> lab.n < maxpc)
      requires forall n: nat :: n < maxpc && Pc(n) in labels ==> labels[Pc(n)] <= 0
      requires forall n: nat :: n < 10 ==> labels[Lg(n)] <= 0
      ensures OnlyGlobals(K()) && Lg(9) in labels
    {
      hide LayoutOk, BookOk, ListOk, AllClosed, Meant;
      forall lab | lab in labels && labels[lab] > 0
        ensures lab.Lg? && lab.n >= 10 && lab.n in globals
      {
        assert lab == if lab.Pc? then Pc(lab.n) else Lg(lab.n);
      }
    }

    lemma LinkBase()
      requires Valid() && k0 == K() && OnlyGlobals(k0)
      ensures |spos| == |sofs| == |cells| && Base(program, L0(), k0) && BookOk(k0)
    {
      hide LayoutOk, BookOk, ListOk, OnlyGlobals;
      Same(spos, section);
      Same(sofs, section);
    }

    lemma LinkStart()
      requires |spos| == |sofs| == |cells| && Base(program, L0(), k0) && fix == Fix([[0]], [[]])
      requires b.Keys == k0.b.Keys && forall p :: p in b ==> b[p] == Held(k0, p)
      ensures cells != [] && AtCell(program, L0(), k0, fix, 0, 0, b, 0, 0)
    {
      hide LayoutOk, BookOk, ListOk, OnlyGlobals;
      HalfwayStart(program, L0(), k0, b);
      SectionStart(program, L0(), 0);
      FirstCell(program, L0(), 0);
    }

    // ----- pass 3

    /** dasmb, dasmw and dasmd. */
    method Emit(out: seq<nat>, n: int, size: nat) returns (out': seq<nat>)
      ensures out' == out + Le(n, size)
    {
      out' := out;
      var i, v := 0, n;
      while i < size
        invariant 0 <= i <= size && out' + Le(v, size - i) == out + Le(n, size)
      {
        out', v := out' + [v % 256], v / 256;
        i := i + 1;
      }
    }

    /** The references to global labels defined elsewhere find their addresses. */
    ghost predicate Bound(base: int, s: nat, i: nat)
      reads this
    {
      Meant(program, cells, k0.kind, k0.log) && GlobalsAt(program, L0(), k0, fix, base, s, i, globals)
    }

    /** A branch to a global label that is defined elsewhere. */
    method EncodeExtern(s: nat, k: nat, j: nat, pos: int, base: int, out: seq<nat>, ghost i: nat)
                        returns (out': seq<nat>)
      requires Written(program, L0(), k0, fix, s, i, b, pos, out) && i < |cells[s]| && InProgram(program, cells[s][i])
      requires cells[s][i].k == k && cells[s][i].j == j && IsRel(program[k][j]) && j > 0
      requires AllBytes(program, L0(), k0, fix, base, s, i, out) && Bound(base, s, i)
      requires Extern(k0, pos) && pos in b && b[pos] == Held(k0, pos)
      ensures Written(program, L0(), k0, fix, s, i + 1, b, pos + 2, out')
      ensures AllBytes(program, L0(), k0, fix, base, s, i + 1, out')
    {
      hide LayoutOk, BookOk, FixOk, ListOk, OnlyGlobals, Complete, AllLand, Tail, Lands, AllBytes, Meant, GlobalsAt;
      CompleteShape(program, L0(), k0, fix, b);
      ReadFixed(program, L0(), k0, fix, b, s, i);
      ExternKept(program, L0(), k0, fix, base, s, i, globals, pos);
      ExternSize(program, L0(), k0, fix, b, s, i);
      var g: nat := -b[pos];
      out' := Emit(out, globals[g] - (base + |out| + 4), 4);
      ExternTail(program, L0(), k0, fix, s, i, out');
      RelBytes(program, L0(), k0, fix, base, s, i, out, out');
      WrittenStep(program, L0(), k0, fix, s, i, b, pos, out, out', 0);
    }

    /** A branch: the opcode changes when the displacement takes one byte only. */
    method EncodeRel(s: nat, k: nat, j: nat, pos: int, base: int, out: seq<nat>, ghost i: nat) returns (out': seq<nat>)
      requires Written(program, L0(), k0, fix, s, i, b, pos, out) && i < |cells[s]| && InProgram(program, cells[s][i])
      requires cells[s][i].k == k && cells[s][i].j == j && IsRel(program[k][j]) && j > 0
      requires AllBytes(program, L0(), k0, fix, base, s, i, out)
      requires Bound(base, s, i)
      ensures Written(program, L0(), k0, fix, s, i + 1, b, pos + 2, out')
      ensures AllBytes(program, L0(), k0, fix, base, s, i + 1, out')
    {
      hide LayoutOk, BookOk, FixOk, ListOk, OnlyGlobals, Complete, AllLand, Tail, Lands, AllBytes, Meant, GlobalsAt,
        Held,
        Extern;
      CompleteShape(program, L0(), k0, fix, b);
      ReadFixed(program, L0(), k0, fix, b, s, i);
      HeldSign(k0, pos);
      if b[pos] < 0 {
        out' := EncodeExtern(s, k, j, pos, base, out, i);
        return;
      }
      ghost var t, u := ReadTarget(program, L0(), k0, fix, b, s, i);
      Opcode(program, L0(), s, i, out);
      if fix.sh[s][i] == 4 { Plain2(program, L0(), fix, s, i, out); }
      var n, shrink := b[pos], b[pos + 1];
      ghost var m := if shrink == 4 then 2 else if shrink == 3 then 1 else 0;
      var disp := b[n] - (|out| + 4 - shrink);
      if shrink == 0 {
        out' := Emit(out, disp, 4);
      } else {
        out' := out;
        if shrink == 4 {
          out' := out'[..|out'| - 1];
          out' := out'[|out'| - 1 := (out[|out'|] - 0x10) % 256];
        } else {
          out' := out'[|out'| - 1 := 0xeb];
        }
        out' := Emit(out', disp, 1);
      }
      RelLands(program, L0(), k0, fix, s, i, t, u, out, out', disp);
      RelBytes(program, L0(), k0, fix, base, s, i, out, out');
      WrittenStep(program, L0(), k0, fix, s, i, b, pos, out, out', m);
    }

    /** An immediate that takes one byte if it fits; then the opcode two bytes back says so. */
    method EncodeImm(n: int, wide: nat, out: seq<nat>) returns (out': seq<nat>)
      requires |out| >= 2
      ensures |out'| == |out| + (if Fits8(n) then 1 else wide) && forall z :: 0 <= z < |out| - 2 ==> out'[z] == out[z]
      ensures Fits8(n) ==> out' == out[|out| - 2 := (out[|out| - 2] + 2) % 256] + Le(n, 1)
      ensures !Fits8(n) ==> out' == out + Le(n, wide)
    {
      if Fits8(n) {
        out' := Emit(out[|out| - 2 := (out[|out| - 2] + 2) % 256], n, 1);
      } else {
        out' := Emit(out, n, wide);
      }
    }

    /** nop up to a multiple of n + 1. */
    method EncodeAlign(n: nat, out: seq<nat>) returns (out': seq<nat>)
      ensures |out'| == |out| + Pad(|out|, n) && out <= out' && |out'| % (n + 1) == 0
      ensures forall z :: |out| <= z < |out'| ==> out'[z] == 0x90
      ensures out' == out + seq(|out'| - |out|, _ => 0x90)
    {
      out' := out;
      PadBounds(|out|, n);
      ghost var i := 0;
      while |out'| % (n + 1) != 0
        invariant 0 <= i <= Pad(|out|, n) && |out'| == |out| + i && out <= out'
        invariant forall z :: |out| <= z < |out'| ==> out'[z] == 0x90
        decreases Pad(|out|, n) - i
      {
        PadEnds(|out|, n, i);
        out' := out' + [0x90];
        i := i + 1;
      }
      PadEnds(|out|, n, i);
    }

    method EncodeSpace(n: nat, fill: nat, out: seq<nat>) returns (out': seq<nat>)
      ensures out' == out + seq(n, _ => fill)
    {
      out' := out;
      var i := 0;
      while i < n
        invariant 0 <= i <= n && out' == out + seq(i, _ => fill)
      {
        out' := out' + [fill];
        i := i + 1;
      }
    }

    /** The bytes of one action other than a branch: n is its argument, `to` the address of
        its label. */
    method EncodeItem(a: Action, n: int, to: int, out: seq<nat>) returns (out': seq<nat>)
      requires !IsRel(a) && (a.Space? ==> n >= 0) && (a.ImmWB? || a.ImmDB? ==> |out| >= 2)
      ensures |out'| == |out| + (if a.Align? then Pad(|out|, a.n) else MaxSize(a, n))
      ensures if IsPlain(a) then out' == out + [LastByte(a)]
              else if IsRef(a) then out' == out + Le(to, 4)
              else |out| <= |out'| &&
                   out' == (if (a.ImmWB? || a.ImmDB?) && Fits8(n) then out[|out| - 2 := (out[|out| - 2] + 2) % 256]
                            else out) + Operand(a, n, |out'| - |out|)
    {
      hide Pad;
      match a {
        case Byte(v) => out' := out + [v];
        case Esc(v) => out' := out + [v];
        case ImmS => out' := Emit(out, n, 1);
        case ImmB => out' := Emit(out, n, 1);
        case ImmW => out' := Emit(out, n, 2);
        case ImmD => out' := Emit(out, n, 4);
        case ImmWB => out' := EncodeImm(n, 2, out);
        case ImmDB => out' := EncodeImm(n, 4, out);
        case Space(fill) => out' := EncodeSpace(n, fill, out);
        case ImmLG(_) => out' := Emit(out, to, 4);
        case ImmPC => out' := Emit(out, to, 4);
        case Align(m) => out' := EncodeAlign(m, out);
        case _ => out' := out;
      }
    }

    /** The address that DASM_IMM_LG and DASM_IMM_PC put into the code. */
    method AddressAt(s: nat, pos: int, base: int, ghost out: seq<nat>, ghost i: nat) returns (to: int)
      requires Written(program, L0(), k0, fix, s, i, b, pos, out) && i < |cells[s]| && InProgram(program, cells[s][i])
      requires cells[s][i].j >= 0 && IsRef(ItemOf(program, cells[s][i])) && Bound(base, s, i)
      ensures AddressIs(k0, fix, base, pos, to)
    {
      hide LayoutOk, BookOk, FixOk, ListOk, OnlyGlobals, Complete, AllLand, Tail, Meant, GlobalsAt, Held, Extern, Names;
      CompleteShape(program, L0(), k0, fix, b);
      ReadFixed(program, L0(), k0, fix, b, s, i);
      WalkCell(program, L0(), s, i);
      HeldSign(k0, pos);
      if b[pos] < 0 {
        ExternKept(program, L0(), k0, fix, base, s, i, globals, pos);
        var g: nat := -b[pos];
        return globals[g];
      }
      ghost var t, u := ReadTarget(program, L0(), k0, fix, b, s, i);
      to := b[b[pos]] + base;
    }

    /** One action of pass 3 other than a branch; `base` is the address of the code. */
    method EncodeOther(s: nat, k: nat, j: nat, pos: int, base: int, out: seq<nat>, ghost i: nat)
                       returns (out': seq<nat>)
      requires Written(program, L0(), k0, fix, s, i, b, pos, out) && i < |cells[s]| && InProgram(program, cells[s][i])
      requires cells[s][i].k == k && cells[s][i].j == j && !IsRel(program[k][j])
      requires AllBytes(program, L0(), k0, fix, base, s, i, out) && Bound(base, s, i)
      ensures AllBytes(program, L0(), k0, fix, base, s, i + 1, out')
      ensures Written(program, L0(), k0, fix, s, i + 1, b, pos + Slots(program[k][j]), out')
    {
      hide LayoutOk, BookOk, FixOk, ListOk, OnlyGlobals, Complete, AllLand, Tail, Pad, AllBytes, Operand, Le, CellLands,
        ChoiceOk, Meant, GlobalsAt, Held, Extern, AddressIs, Names;
      CompleteShape(program, L0(), k0, fix, b);
      ReadFixed(program, L0(), k0, fix, b, s, i);
      ListActions(program, k, j);
      var a := program[k][j];
      var n, to := 0, 0;
      if StoresArg(a) {
        n := b[pos];
      } else if IsRef(a) {
        to := AddressAt(s, pos, base, out, i);
      }
      ghost var m := if a.ImmWB? || a.ImmDB? then 2 else 0;
      if m == 2 { Plain2(program, L0(), fix, s, i, out); }
      out' := EncodeItem(a, n, to, out);
      if !StoresArg(a) { OperandFixed(a, n, cells[s][i].arg, |out'| - |out|); }
      OtherTail(program, L0(), k0, fix, s, i, out');
      OtherBytes(program, L0(), k0, fix, base, s, i, out, out');
      WrittenStep(program, L0(), k0, fix, s, i, b, pos, out, out', m);
    }

    /** A global label that is defined here: the program gets its address. */
    method SetGlobal(s: nat, k: nat, j: nat, pos: int, base: int, ghost out: seq<nat>, ghost i: nat)
      requires Written(program, L0(), k0, fix, s, i, b, pos, out) && i < |cells[s]| && InProgram(program, cells[s][i])
      requires cells[s][i].k == k && cells[s][i].j == j && Bound(base, s, i)
      modifies this`globals
      ensures Bound(base, s, i + 1)
    {
      hide LayoutOk, BookOk, FixOk, ListOk, OnlyGlobals, Complete, AllLand, Tail, Meant, GlobalsAt;
      CompleteShape(program, L0(), k0, fix, b);
      ReadFixed(program, L0(), k0, fix, b, s, i);
      WalkCell(program, L0(), s, i);
      var a := program[k][j];
      if a.LabelLG? && a.n >= 10 {
        globals := globals[a.n := base + b[pos]];
      }
      GlobalsStep(program, L0(), k0, fix, base, s, i, old(globals), globals);
    }

    /** Pass 3 over one section. */
    method EncodeSection(s: nat, base: int, out: seq<nat>) returns (out': seq<nat>)
      requires Written(program, L0(), k0, fix, s, 0, b, s * SEC, out) && AllClosed(program, cells)
      requires AllBytes(program, L0(), k0, fix, base, s, 0, out) && Bound(base, s, 0)
      modifies this`globals
      ensures Bound(base, s, |cells[s]|)
      ensures AllBytes(program, L0(), k0, fix, base, s, |cells[s]|, out')
      ensures Written(program, L0(), k0, fix, s, |cells[s]|, b, spos[s], out')
    {
      hide LayoutOk, BookOk, FixOk, ListOk, OnlyGlobals, Complete, AllLand, Tail, AllClosed, AllBytes, Meant, GlobalsAt;
      CompleteShape(program, L0(), k0, fix, b);
      if cells[s] != [] { WalkCell(program, L0(), s, 0); }
      var pos, last := s * SEC, spos[s];
      var k: nat, j: nat, open := 0, 0, false;
      out' := out;
      ghost var i := 0;
      while pos != last || open
        invariant i <= |cells[s]| && Written(program, L0(), k0, fix, s, i, b, pos, out')
        invariant AllBytes(program, L0(), k0, fix, base, s, i, out') && Bound(base, s, i)
        invariant open ==> i < |cells[s]| && cells[s][i].k == k && cells[s][i].j == j
        invariant !open ==> i == |cells[s]| || cells[s][i].j == -1
        decreases |cells[s]| - i
      {
        WalkCell(program, L0(), s, i);
        ClosedAt(program, cells, s, i);
        ReadFixed(program, L0(), k0, fix, b, s, i);
        if !open {
          OtherTail(program, L0(), k0, fix, s, i, out');
          StartBytes(program, L0(), k0, fix, base, s, i, out');
          GlobalsStep(program, L0(), k0, fix, base, s, i, globals, globals);
          WrittenStep(program, L0(), k0, fix, s, i, b, pos, out', out', 0);
          k, j, open := b[pos], 0, true;
          pos := pos + 1;
        } else {
          ListActions(program, k, j);
          var a := program[k][j];
          if IsRel(a) {
            out' := EncodeRel(s, k, j, pos, base, out', i);
            GlobalsStep(program, L0(), k0, fix, base, s, i, globals, globals);
          } else {
            ghost var out0 := out';
            out' := EncodeOther(s, k, j, pos, base, out', i);
            SetGlobal(s, k, j, pos, base, out0, i);
          }
          pos := pos + Slots(a);
          open, j := !IsEnd(a), j + 1;
        }
        i := i + 1;
      }
      if i < |cells[s]| { WalkCell(program, L0(), s, i); }
    }

    /** dasm_encode: never a phase error, every branch lands on its label, and all other bytes
        are those of the actions and their arguments; the program's global labels are then
        the addresses of those defined here. */
    method Encode(base: int) returns (out: seq<nat>, phase: bool)
      requires Linked() && globals == k0.globals
      modifies this`globals
      ensures GlobalsAt(program, L0(), k0, fix, base, |cells| - 1, |cells[|cells| - 1]|, globals)
      ensures !phase && |out| == codesize
      ensures CodeReads(program, L0(), k0, fix, base, out)
      ensures AllBytes(program, L0(), k0, fix, base, |cells| - 1, |cells[|cells| - 1]|, out)
      ensures AllLand(program, L0(), k0, fix, |cells| - 1, |cells[|cells| - 1]|, out)
      ensures forall s, i :: 0 <= s < |cells| && 0 <= i < |cells[s]| ==> Aims(program, cells, k0, cells[s][i])
    {
      hide LayoutOk, BookOk, FixOk, ListOk, OnlyGlobals, AllLand, Tail, AllClosed, Base, Halfway, AllBytes, Meant, Aims,
        GlobalsAt;
      AllAim();
      CompleteShape(program, L0(), k0, fix, b);
      out := [];
      var s := 0;
      EncodeStart(program, L0(), k0, fix, b);
      BytesStart(program, L0(), k0, fix, base);
      GlobalsStart(program, L0(), k0, fix, base);
      while s < |spos|
        invariant s <= |spos| == |sofs| == |cells|
        invariant s < |cells| ==> AllBytes(program, L0(), k0, fix, base, s, 0, out) && Bound(base, s, 0)
        invariant s == |cells| ==> AllBytes(program, L0(), k0, fix, base, s - 1, |cells[s - 1]|, out)
        invariant s == |cells| ==> Bound(base, s - 1, |cells[s - 1]|)
        invariant s < |cells| ==> Written(program, L0(), k0, fix, s, 0, b, s * SEC, out)
        invariant s == |cells| ==> Written(program, L0(), k0, fix, s - 1, |cells[s - 1]|, b, spos[s - 1], out)
      {
        out := EncodeSection(s, base, out);
        if s + 1 < |spos| {
          EncodeNext(program, L0(), k0, fix, s, b, spos[s], out);
          BytesNext(program, L0(), k0, fix, base, s, out);
          GlobalsNext(program, L0(), k0, fix, base, s, globals);
        }
        s := s + 1;
      }
      phase := codesize != |out|;
      FinishedReads(program, L0(), k0, fix, b, base, out);
    }

    /** dasm_getpclabel: the offset in the code of the latest definition of the label; -1 for
        a label that is referred to but not defined, -2 for one that is not used or does not
        exist. */
    method PcLabel(pc: nat) returns (ofs: int)
      requires Pc(pc) in labels && labels[Pc(pc)] < 0 ==> Linked() && labels == k0.labels
      ensures Pc(pc) !in labels || labels[Pc(pc)] == 0 ==> ofs == -2
      ensures Pc(pc) in labels && labels[Pc(pc)] > 0 ==> ofs == -1
      ensures Pc(pc) in labels && labels[Pc(pc)] < 0 ==>
        exists d: nat, t: nat, j: nat :: LastDef(k0.log, Pc(pc), d) && DefCell(program, cells, t, j, k0.log[d])
          && FixedAt(program, L0(), fix, k0.log[d].pos, t, j, ofs)
    {
      hide LayoutOk, BookOk, FixOk, ListOk, OnlyGlobals, Base, Halfway, NoDef, Meant, DefCell, FixedAt;
      if Pc(pc) !in labels { return -2; }
      var pos := labels[Pc(pc)];
      if pos > 0 { return -1; }
      if pos == 0 { return -2; }
      ghost var d, t, j := LastDefinition(Pc(pc));
      ofs := b[-pos];
    }

    lemma LastDefinition(lab: Lab) returns (d: nat, t: nat, j: nat)
      requires Linked() && lab in k0.labels && k0.labels[lab] < 0
      ensures -k0.labels[lab] in b && LastDef(k0.log, lab, d) && DefCell(program, cells, t, j, k0.log[d])
      ensures FixedAt(program, L0(), fix, k0.log[d].pos, t, j, b[-k0.labels[lab]])
    {
      hide LayoutOk, BookOk, FixOk, ListOk, OnlyGlobals, Base, Halfway, NoDef, Meant, DefCell;
      CompleteShape(program, L0(), k0, fix, b);
      LabKeys(k0, lab);
      LabValue(k0, lab);
      d := k0.last[lab];
      EventAt(k0, d);
      LabelFixed(program, L0(), k0, fix, b, k0.log[d].pos);
      MeantDef(program, cells, k0.kind, k0.log, d);
      t, j := k0.kind[k0.log[d].pos].s, k0.kind[k0.log[d].pos].i;
    }

    /** Every reference names, by its operand, the label that is defined at its target. */
    lemma AllAim()
      requires Linked()
      ensures forall s, i :: 0 <= s < |cells| && 0 <= i < |cells[s]| ==> Aims(program, cells, k0, cells[s][i])
    {
      hide LayoutOk, BookOk, FixOk, ListOk, OnlyGlobals, Base, Halfway, IsTarget, Meant, Aims, Names;
      forall s, i | 0 <= s < |cells| && 0 <= i < |cells[s]| ensures Aims(program, cells, k0, cells[s][i]) {
        MeantRef(program, cells, k0.kind, k0.log, s, i);
        AimsOne(this, s, i);
      }
    }
  }

  /** d is the latest definition of the label. */
  ghost predicate LastDef(log: seq<Event>, lab: Lab, d: nat) {
    d < |log| && log[d].Def? && log[d].lab == lab && NoDef(log, lab, d + 1, |log|)
  }

  /** The label at buffer position p is the cell (t, j), at this offset of the code. */
  ghost predicate FixedAt(prog: seq<seq<Action>>, l: Layout, f: Fix, p: int, t: nat, j: nat, ofs: int) {
    LabelCell(prog, l, p, t, j) && t < |f.fin| && j < |f.fin[t]| && ofs == f.fin[t][j]
  }

  lemma LabelFixed(prog: seq<seq<Action>>, l: Layout, k: Book, f: Fix, b: map<int, int>, p: int)
    requires Complete(prog, l, k, f, b) && p in k.kind && k.kind[p].LabelSlot?
    ensures p in b && FixedAt(prog, l, f, p, k.kind[p].s, k.kind[p].i, b[p])
  {
    hide LayoutOk, BookOk, FixOk, ListOk, OnlyGlobals;
    CompleteShape(prog, l, k, f, b);
    HomeAt(prog, l, p);
    assert SlotNow(l, k, f, |l.cells| - 1, |l.cells[|l.cells| - 1]|, b, p);
  }

  /** A branch to a label defined elsewhere keeps its long form. */
  lemma ExternSize(prog: seq<seq<Action>>, l: Layout, k: Book, f: Fix, b: map<int, int>, s: nat, i: nat)
    requires Complete(prog, l, k, f, b) && s < |l.cells| && i < |l.cells[s]| && InProgram(prog, l.cells[s][i])
    requires l.cells[s][i].j >= 0 && IsRel(ItemOf(prog, l.cells[s][i])) && Extern(k, l.cells[s][i].pos)
    ensures s < |f.sh| && i < |f.sh[s]| && f.sh[s][i] == 0
  {
    hide LayoutOk, BookOk, FixOk, ListOk, OnlyGlobals;
    assert ChoiceOk(prog, l, k, f, s, i);
  }

  lemma ExternTail(prog: seq<seq<Action>>, l: Layout, k: Book, f: Fix, s: nat, i: nat, out: seq<nat>)
    requires s < |l.cells| && i < |l.cells[s]| && InProgram(prog, l.cells[s][i]) && l.cells[s][i].j >= 0
      && IsRel(ItemOf(prog, l.cells[s][i])) && Extern(k, l.cells[s][i].pos)
    requires s < |f.fin| && i + 1 < |f.fin[s]| && s < |f.sh| && i < |f.sh[s]|
    ensures Tail(prog, l, s, i + 1, out) && CellLands(prog, l, k, f, s, i, out)
  {
  }

  lemma RelLands(prog: seq<seq<Action>>, l: Layout, k: Book, f: Fix, s: nat, i: nat, t: nat, u: nat, out: seq<nat>,
                 out': seq<nat>, disp: int)
    requires s < |l.cells| && i < |l.cells[s]| && InProgram(prog, l.cells[s][i]) && l.cells[s][i].j > 0
      && IsRel(ItemOf(prog, l.cells[s][i]))
    requires forall t', u' :: Names(k, l.cells[s][i].pos, t', u') ==> t' == t && u' == u
    requires s < |f.fin| && i + 1 < |f.fin[s]| && s < |f.sh| && i < |f.sh[s]| && t < |f.fin| && u < |f.fin[t]|
    requires var sh := f.sh[s][i]; var op := LastByte(prog[l.cells[s][i].k][l.cells[s][i].j - 1]);
      && sh in {0, 3, 4} && |out| == f.fin[s][i] && f.fin[s][i + 1] == f.fin[s][i] + (4 - sh)
        && disp == f.fin[t][u] - f.fin[s][i + 1]
      && (sh == 0 ==> out' == out + Le(disp, 4))
      && (sh == 3 ==> op == 0xe9 && |out| >= 1 && out' == out[|out| - 1 := 0xeb] + Le(disp, 1))
      && (sh == 4 ==>
          0x80 <= op < 0x90 && |out| >= 2 && out[|out| - 1] == op
          && out' == out[..|out| - 1][|out| - 2 := (op - 0x10) % 256] + Le(disp, 1))
      && (sh != 0 ==> -128 <= disp <= 127)
    ensures |out'| == f.fin[s][i + 1] && CellLands(prog, l, k, f, s, i, out') && Tail(prog, l, s, i + 1, out')
  {
    var sh := f.sh[s][i];
    var end := f.fin[s][i + 1];
    if sh == 0 { assert out'[end - 4..end] == Le(disp, 4); }
    assert Lands(prog, l, f, s, i, f.fin[t][u], out');
  }

  lemma PadEnds(at: nat, n: nat, i: nat)
    requires i <= Pad(at, n)
    ensures (at + i) % (n + 1) == 0 <==> i == Pad(at, n)
  {
    var m, z: int := n + 1, at;
    var q, r := z / m, z % m;
    assert z == q * m + r;
    if r == 0 {
      ModIs(-z, m, -q, 0);
    } else {
      ModIs(-z, m, -q - 1, m - r);
      if i == m - r { ModIs(z + i, m, q + 1, 0); } else { ModIs(z + i, m, q, r + i); }
    }
  }

  /** Alignment points are aligned in the final code. */
  lemma AlignPoints(d: DasmState, s: nat, i: nat)
    requires d.Linked() && s < |d.cells| && i < |d.cells[s]| && InProgram(d.program, d.cells[s][i])
    requires d.cells[s][i].j >= 0 && ItemOf(d.program, d.cells[s][i]).Align?
    ensures s < |d.fix.fin| && i + 1 < |d.fix.fin[s]| && 0 <= d.fix.fin[s][i] <= d.fix.fin[s][i + 1]
    ensures d.fix.fin[s][i + 1] % (ItemOf(d.program, d.cells[s][i]).n + 1) == 0
  {
    hide LayoutOk, BookOk, FixOk, ListOk, OnlyGlobals, Base, Halfway;
    var prog, l, f := d.program, d.L0(), d.fix;
    CompleteShape(prog, l, d.k0, f, d.b);
    FixStep(prog, l, f, s, i);
    Shrinks(prog, l, f, |l.cells| - 1, |l.cells[|l.cells| - 1]|, 0, 0, s, i);
    var n := ItemOf(prog, l.cells[s][i]).n;
    PadBounds(f.fin[s][i], n);
    PadEnds(f.fin[s][i], n, Pad(f.fin[s][i], n));
  }

  /** After pass 2 every reference holds the position of the definition it means: that of
      the label its operand names, the latest one before it, or for forward references the
      next one; and that position holds the final offset of the label action there. */
  lemma ReferencesMeanDefinitions(d: DasmState, s: nat, i: nat) returns (m: nat, def: nat, t: nat, j: nat)
    requires d.Linked() && s < |d.cells| && i < |d.cells[s]| && InProgram(d.program, d.cells[s][i])
    requires d.cells[s][i].j >= 0 && IsRef(ItemOf(d.program, d.cells[s][i])) && !Extern(d.k0, d.cells[s][i].pos)
    ensures var c := d.cells[s][i]; var a := ItemOf(d.program, c);
      m < |d.k0.log| && d.k0.log[m] == Ref(c.pos, RefLab(a, c.arg), IsForward(a)) && IsTarget(d.k0.log, m, def)
    ensures LabelCell(d.program, d.L0(), d.k0.log[def].pos, t, j) && Names(d.k0, d.cells[s][i].pos, t, j)
    ensures var e := d.cells[t][j];
      DefLab(ItemOf(d.program, e), e.arg) == RefLab(ItemOf(d.program, d.cells[s][i]), d.cells[s][i].arg)
    ensures var q := d.k0.log[def].pos;
      d.cells[s][i].pos in d.b && d.b[d.cells[s][i].pos] == q && q in d.b
      && FixedAt(d.program, d.L0(), d.fix, q, t, j, d.b[q])
  {
    hide LayoutOk, BookOk, FixOk, ListOk, OnlyGlobals, Base, Halfway, NoDef, Meant;
    var prog, l, k, f := d.program, d.L0(), d.k0, d.fix;
    CompleteShape(prog, l, k, f, d.b);
    ReadFixed(prog, l, k, f, d.b, s, i);
    var p := l.cells[s][i].pos;
    MeantRef(prog, d.cells, k.kind, k.log, s, i);
    Resolved(k, p);
    m := k.kind[p].m;
    def := k.tgt[m];
    var q := k.b[p];
    LabelFixed(prog, l, k, f, d.b, q);
    MeantDef(prog, d.cells, k.kind, k.log, def);
    t, j := k.kind[q].s, k.kind[q].i;
  }

  /** The label that the operand n or the argument names: 247 .. 255 are 1 .. 9 looking forward. */
  ghost function LabelNamed(a: Action, arg: int): Lab
    requires IsRef(a)
  {
    match a
    case RelLG(n) => if n >= 247 then Lg(n - 246) else Lg(n)
    case ImmLG(n) => if n >= 247 then Lg(n - 246) else Lg(n)
    case _ => Pc(if arg < 0 then 0 else arg)
  }

  /** Which definition of its label a reference means, in the order in which they were put:
      the next one after it when it looks forward; otherwise the latest one before it, or the
      first of all when there is none before. */
  ghost predicate Right(log: seq<Event>, a: Action, lab: Lab, m: nat, d: nat) {
    && d < |log| && log[d].Def? && log[d].lab == lab
    && if (a.RelLG? || a.ImmLG?) && a.n >= 247 then m < d && forall x :: m < x < d ==> !IsDefOf(log, x, lab)
       else if d < m then forall x :: d < x < m ==> !IsDefOf(log, x, lab)
       else forall x :: 0 <= x < d ==> !IsDefOf(log, x, lab)
  }

  ghost predicate IsDefOf(log: seq<Event>, x: nat, lab: Lab) {
    x < |log| && log[x].Def? && log[x].lab == lab
  }

  lemma RightIs(log: seq<Event>, a: Action, arg: int, pos: int, m: nat, d: nat)
    requires IsRef(a) && IsTarget(log, m, d) && [log[m]] == EventOf(a, arg, pos)
    ensures Right(log, a, LabelNamed(a, arg), m, d)
  {
    assert log[m] == Ref(pos, RefLab(a, arg), IsForward(a));
  }

  /** A reference names the label defined at its target, and means that definition of it; or
      it names a global label without any definition. */
  ghost predicate Aims(prog: seq<seq<Action>>, cells: seq<seq<Cell>>, k: Book, c: Cell) {
    InProgram(prog, c) && (c.j >= 0 && IsRef(ItemOf(prog, c)) ==>
      if Extern(k, c.pos) then
        ExternOf(k, c.pos) >= 10 && RefLab(ItemOf(prog, c), c.arg) == Lg(ExternOf(k, c.pos))
        && NoDef(k.log, Lg(ExternOf(k, c.pos)), 0, |k.log|)
      else
        exists m: nat, d: nat, t: nat, j: nat ::
          && IsTarget(k.log, m, d) && [k.log[m]] == EventOf(ItemOf(prog, c), c.arg, c.pos)
          && Right(k.log, ItemOf(prog, c), LabelNamed(ItemOf(prog, c), c.arg), m, d)
          && DefCell(prog, cells, t, j, k.log[d]) && Names(k, c.pos, t, j))
  }

  lemma AimsOne(d: DasmState, s: nat, i: nat)
    requires d.Linked() && s < |d.cells| && i < |d.cells[s]| && InProgram(d.program, d.cells[s][i])
    ensures Aims(d.program, d.cells, d.k0, d.cells[s][i])
  {
    hide LayoutOk, BookOk, FixOk, ListOk, OnlyGlobals, Base, Halfway, NoDef, Meant, IsTarget, FixedAt;
    var c := d.cells[s][i];
    if c.j >= 0 && IsRef(ItemOf(d.program, c)) && Extern(d.k0, c.pos) {
      CompleteShape(d.program, d.L0(), d.k0, d.fix, d.b);
      MeantRef(d.program, d.cells, d.k0.kind, d.k0.log, s, i);
      ExternAt(d.k0, c.pos);
    } else if c.j >= 0 && IsRef(ItemOf(d.program, c)) {
      var m, def, t, j := ReferencesMeanDefinitions(d, s, i);
      TargetShape(d.k0.log, m, def);
      RightIs(d.k0.log, ItemOf(d.program, c), c.arg, c.pos, m, def);
      MeantDef(d.program, d.cells, d.k0.kind, d.k0.log, def);
    }
  }

  /** Two plain actions have written the two bytes before this immediate. */
  lemma Plain2(prog: seq<seq<Action>>, l: Layout, f: Fix, s: nat, i: nat, out: seq<nat>)
    requires LayoutOk(prog, l) && l.cells != [] && FixOk(prog, l, f, |l.cells| - 1, |l.cells[|l.cells| - 1]|)
      && s < |l.cells| && i < |l.cells[s]| && InProgram(prog, l.cells[s][i])
    requires l.cells[s][i].j > 1 && IsPlain(prog[l.cells[s][i].k][l.cells[s][i].j - 1])
      && IsPlain(prog[l.cells[s][i].k][l.cells[s][i].j - 2])
    requires s < |f.fin| && i < |f.fin[s]| && |out| == f.fin[s][i]
    ensures i >= 2 && PlainBefore(prog, l, s, i, 2) && |out| >= 2
  {
    hide LayoutOk;
    PrevCells(prog, l, s, i);
    PrevCells(prog, l, s, i - 1);
    FixStep(prog, l, f, s, i - 1);
    FixStep(prog, l, f, s, i - 2);
    Shrinks(prog, l, f, |l.cells| - 1, |l.cells[|l.cells| - 1]|, 0, 0, s, i - 2);
  }

  lemma OtherTail(prog: seq<seq<Action>>, l: Layout, k: Book, f: Fix, s: nat, i: nat, out: seq<nat>)
    requires s < |l.cells| && i < |l.cells[s]| && InProgram(prog, l.cells[s][i])
      && (l.cells[s][i].j >= 0 ==> !IsRel(ItemOf(prog, l.cells[s][i])))
    requires l.cells[s][i].j >= 0 && IsPlain(ItemOf(prog, l.cells[s][i])) ==>
        out != [] && out[|out| - 1] == LastByte(ItemOf(prog, l.cells[s][i]))
    requires s < |f.fin| && i + 1 < |f.fin[s]| && s < |f.sh| && i < |f.sh[s]|
    ensures Tail(prog, l, s, i + 1, out) && CellLands(prog, l, k, f, s, i, out)
  {
  }

  lemma EncodeStart(prog: seq<seq<Action>>, l: Layout, k: Book, f: Fix, b: map<int, int>)
    requires Complete(prog, l, k, f, b)
    ensures Written(prog, l, k, f, 0, 0, b, 0, [])
  {
    CompleteShape(prog, l, k, f, b);
    FirstCell(prog, l, 0);
  }

  lemma EncodeNext(prog: seq<seq<Action>>, l: Layout, k: Book, f: Fix, s: nat, b: map<int, int>, pos: int,
                   out: seq<nat>)
    requires s + 1 < |l.cells| && Written(prog, l, k, f, s, |l.cells[s]|, b, pos, out)
    ensures Written(prog, l, k, f, s + 1, 0, b, (s + 1) * SEC, out)
  {
    hide Complete, CellLands;
    CompleteShape(prog, l, k, f, b);
    hide LayoutOk, BookOk, FixOk;
    SectionStart(prog, l, s + 1);
    FirstCell(prog, l, s + 1);
  }

  /** The bytes in front of a branch that can shrink are its opcode. */
  lemma Opcode(prog: seq<seq<Action>>, l: Layout, s: nat, i: nat, out: seq<nat>)
    requires LayoutOk(prog, l) && s < |l.cells| && i < |l.cells[s]| && InProgram(prog, l.cells[s][i])
      && ListOk(prog[l.cells[s][i].k])
    requires l.cells[s][i].j > 0 && IsRel(ItemOf(prog, l.cells[s][i])) && Tail(prog, l, s, i, out)
    ensures ActionOk(prog[l.cells[s][i].k], l.cells[s][i].j)
    ensures var op := LastByte(prog[l.cells[s][i].k][l.cells[s][i].j - 1]);
      && (Shrink(op) == 3 ==>
          i >= 1 && PlainBefore(prog, l, s, i, 1) && op == 0xe9 && out != [] && out[|out| - 1] == op)
      && (Shrink(op) == 4 ==>
          i >= 2 && PlainBefore(prog, l, s, i, 2) && 0x80 <= op < 0x90 && out != [] && out[|out| - 1] == op)
  {
    hide LayoutOk;
    ListActions(prog, l.cells[s][i].k, l.cells[s][i].j);
    PrevCells(prog, l, s, i);
    PrevCells(prog, l, s, i - 1);
  }

  ghost predicate PlainBefore(prog: seq<seq<Action>>, l: Layout, s: nat, i: nat, m: nat)
    requires s < |l.cells| && i <= |l.cells[s]| && m <= i
  {
    forall z :: i - m <= z < i ==>
        InProgram(prog, l.cells[s][z]) && l.cells[s][z].j >= 0 && IsPlain(ItemOf(prog, l.cells[s][z]))
  }

  lemma BaseParts(prog: seq<seq<Action>>, l: Layout, k: Book, f: Fix, s: nat, i: nat, b: map<int, int>, pos: int,
                  ofs: int)
    requires AtCell(prog, l, k, f, s, i, b, pos, ofs)
    ensures LayoutOk(prog, l) && BookOk(k) && OnlyGlobals(k) && l.kind == k.kind && |l.spos| == |l.sofs| == |l.cells|
    ensures k.b.Keys == k.kind.Keys && forall p :: p in k.kind ==> p in b
  {
    hide ListOk, FixOk;
    BookParts(k);
    SectionStart(prog, l, s);
    hide BookOk, LayoutOk, OnlyGlobals;
    forall p | p in k.kind ensures p in b { assert SlotNow(l, k, f, s, i, b, p); }
  }

  lemma ListActions(prog: seq<seq<Action>>, k: nat, j: nat)
    requires k < |prog| && ListOk(prog[k]) && j < |prog[k]|
    ensures ActionOk(prog[k], j)
  {
  }

  /** Only the end of a list can be the last cell. */
  lemma ClosedAt(prog: seq<seq<Action>>, cells: seq<seq<Cell>>, s: nat, i: nat)
    requires AllClosed(prog, cells) && s < |cells| && i < |cells[s]|
    ensures i + 1 == |cells[s]| ==> InProgram(prog, cells[s][i]) && Ends(prog, cells[s][i])
  {
  }

  lemma NotChosen(prog: seq<seq<Action>>, l: Layout, k: Book, f: Fix, s: nat, i: nat)
    requires s < |l.cells| && i < |l.cells[s]| && InProgram(prog, l.cells[s][i])
    ensures l.cells[s][i].j <= 0 || !IsRel(ItemOf(prog, l.cells[s][i])) ==> Chosen(prog, l, k, f, s, i, 0)
  {
  }

  /** How the cells of a section follow one another. */
  lemma WalkCell(prog: seq<seq<Action>>, l: Layout, s: nat, i: nat)
    requires LayoutOk(prog, l) && s < |l.cells| && i < |l.cells[s]|
    ensures |l.spos| == |l.cells| && InProgram(prog, l.cells[s][i])
    ensures l.cells[s][i].j == -1 ==> l.cells[s][i].pos < l.spos[s]
    ensures i + 1 < |l.cells[s]| ==>
        InProgram(prog, l.cells[s][i + 1]) && Follows(prog, l.cells[s][i], l.cells[s][i + 1])
    ensures i == 0 ==> l.cells[s][i].j == -1
  {
    hide LayoutOk, CellOk;
    PosRange(prog, l, s, i);
    CellAt(prog, l, s, i);
    FirstCell(prog, l, s);
  }

  lemma NextCellAt(prog: seq<seq<Action>>, l: Layout, k: Book, f: Fix, s: nat, b: map<int, int>, pos: int, ofs: int)
    requires s < |l.cells| && AtCell(prog, l, k, f, s, |l.cells[s]|, b, pos, ofs)
    ensures s < |l.sofs| && ofs + l.sofs[s] == f.fin[s][|l.cells[s]|]
    ensures s + 1 < |l.cells| ==> AtCell(prog, l, k, NextFix(f), s + 1, 0, b, (s + 1) * SEC, ofs + l.sofs[s])
  {
    hide LayoutOk, BookOk, FixOk, ListOk, OnlyGlobals;
    if s + 1 < |l.cells| {
      NextSection(prog, l, k, f, s, b);
      SectionStart(prog, l, s + 1);
      FirstCell(prog, l, s + 1);
    }
  }
}
