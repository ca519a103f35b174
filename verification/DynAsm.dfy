/** DynASM's x86 encoding engine (dynasm/dasm_x86.h).

    Pass 1 (dasm_put) stores actions and arguments, links branches to labels and
    estimates offsets; pass 2 (dasm_link) shrinks branches and alignments; pass 3
    (dasm_encode) writes the code.  An action list is a sequence of actions with their
    operand bytes; the C code reads it byte by byte. */
module DynAsm {
  const SEC: int := 0x100_0000

  datatype Action =
    | Byte(b: nat) | Esc(b: nat)
    | ImmS | ImmB | ImmW | ImmD | ImmWB | ImmDB | Space(fill: nat)
    | RelLG(n: nat) | RelPC | ImmLG(n: nat) | ImmPC
    | LabelLG(n: nat) | LabelPC | Align(n: nat)
    | Section(n: nat) | Stop

  datatype Lab = Lg(n: nat) | Pc(n: nat)

  predicate IsEnd(a: Action) { a.Stop? || a.Section? }
  predicate IsRel(a: Action) { a.RelLG? || a.RelPC? }
  predicate IsRef(a: Action) { IsRel(a) || a.ImmLG? || a.ImmPC? }
  predicate IsLabel(a: Action) { a.LabelLG? || a.LabelPC? }
  predicate IsPlain(a: Action) { a.Byte? || a.Esc? }

  /** Actions that store their argument in the buffer. */
  predicate StoresArg(a: Action) {
    a.ImmS? || a.ImmB? || a.ImmW? || a.ImmD? || a.ImmWB? || a.ImmDB? || a.Space?
  }

  predicate TakesArg(a: Action) {
    StoresArg(a) || a.RelPC? || a.ImmPC? || a.LabelPC?
  }

  predicate Fits8(n: int) { -128 <= n <= 127 }

  /** The range checks of DASM_CHECKS. */
  predicate ArgInRange(a: Action, n: int) {
    match a
    case ImmS => Fits8(n)
    case ImmB => 0 <= n < 256
    case ImmW => 0 <= n < 0x1_0000
    case ImmWB => Fits8(n) || 0 <= n < 0x1_0000
    case _ => true
  }

  /** Bytes an action takes at most, as pass 1 counts them. */
  function MaxSize(a: Action, n: int): int {
    match a
    case Byte(_) => 1 case Esc(_) => 1
    case ImmS => 1 case ImmB => 1 case ImmW => 2 case ImmD => 4
    case ImmWB => if Fits8(n) then 1 else 2
    case ImmDB => if Fits8(n) then 1 else 4
    case Space(_) => n
    case RelLG(_) => 4 case RelPC => 4 case ImmLG(_) => 4 case ImmPC => 4
    case Align(k) => k
    case LabelLG(_) => 0 case LabelPC => 0 case Section(_) => 0 case Stop => 0
  }

  /** Buffer positions an action takes. */
  function Slots(a: Action): nat {
    if IsRel(a) then 2 else if StoresArg(a) || IsRef(a) || IsLabel(a) || a.Align? then 1 else 0
  }

  /** The last byte of an action in the action list, which pass 2 takes for the opcode in
      front of a branch displacement. */
  function LastByte(a: Action): nat {
    match a
    case Byte(b) => b case Esc(b) => b
    case ImmS => 234 case ImmB => 235 case ImmW => 236 case ImmD => 237 case ImmWB => 238 case ImmDB => 239
    case Space(f) => f
    case RelLG(n) => n case RelPC => 244 case ImmLG(n) => n case ImmPC => 246
    case LabelLG(n) => n case LabelPC => 248 case Align(n) => n
    case Section(n) => n case Stop => 255
  }

  /** How much a branch with this opcode byte can shrink: 3 for jmp, 4 for jcc. */
  function Shrink(op: nat): nat {
    if op == 0xe9 then 3 else if op / 16 == 8 then 4 else 0
  }

  // ----- well-formed action lists

  predicate ActionOk(l: seq<Action>, j: nat)
    requires j < |l|
  {
    && (IsEnd(l[j]) <==> j == |l| - 1)
    && (l[j].Byte? ==> l[j].b < 233)
    && (l[j].Esc? ==> l[j].b < 256)
    && (l[j].Space? ==> l[j].fill < 256)
    && (l[j].Align? ==> l[j].n in {1, 3, 7, 15, 31, 63, 127, 255})
    && (l[j].LabelLG? ==> 1 <= l[j].n < 256)
    && (l[j].RelLG? || l[j].ImmLG? ==> 1 <= l[j].n < 256)
    && (IsRel(l[j]) ==> j > 0 && OpcodeOk(l, j))
    && (l[j].ImmWB? || l[j].ImmDB? ==> j > 1 && IsPlain(l[j - 1]) && IsPlain(l[j - 2]))
  }

  /** A displacement that may shrink follows an opcode: jmp, or 0f 8x. */
  predicate OpcodeOk(l: seq<Action>, j: nat)
    requires 0 < j < |l|
  {
    var sh := Shrink(LastByte(l[j - 1]));
    && (sh == 3 ==> l[j - 1] == Esc(0xe9))
    && (sh == 4 ==> l[j - 1].Byte? && j > 1 && l[j - 2] == Byte(0x0f))
  }

  predicate ListOk(l: seq<Action>) {
    l != [] && forall j :: 0 <= j < |l| ==> ActionOk(l, j)
  }

  // ----- what pass 1 has done (ghost)

  /** One executed action: the action j of list k (-1: the start of the list), its buffer
      position, the estimated offset before it, and its argument. */
  datatype Cell = Cell(k: nat, j: int, pos: int, est: int, arg: int)

  /** What a buffer position holds. */
  datatype Slot =
    | StartSlot(k: nat)
    | ArgSlot(n: int)
    | RefSlot(m: nat)                          // event m of the log refers to a label
    | EstSlot(e: int, s: nat, i: nat)          // behind the reference of branch (s, i)
    | LabelSlot(e: int, s: nat, i: nat)
    | AlignSlot(e: int)

  datatype Event = Ref(pos: int, lab: Lab, fwd: bool) | Def(pos: int, lab: Lab)

  predicate IsLocal(lab: Lab) { lab.Lg? && lab.n < 10 }

  /** The definition a reference means: the latest one before it, unless it is a forward
      reference or there is none; then the next one after it. */
  ghost predicate IsTarget(log: seq<Event>, m: nat, d: nat) {
    && m < |log| && d < |log| && log[m].Ref? && log[d].Def? && log[d].lab == log[m].lab
    && (if d < m then !log[m].fwd && NoDef(log, log[m].lab, d + 1, m)
        else NoDef(log, log[m].lab, m, d) && (log[m].fwd || NoDef(log, log[m].lab, 0, m)))
  }

  ghost predicate NoDef(log: seq<Event>, lab: Lab, from: nat, to: nat) {
    forall x :: from <= x < to && x < |log| ==> !(log[x].Def? && log[x].lab == lab)
  }

  /** No definition yet that the reference could mean. */
  ghost predicate Pending(log: seq<Event>, m: nat) {
    && m < |log| && log[m].Ref? && NoDef(log, log[m].lab, m, |log|)
    && (log[m].fwd || NoDef(log, log[m].lab, 0, m))
  }

  // ----- labels and chains

  /** The buffer with the label arrays, and the history that explains them: `tgt` maps the
      references resolved so far to their definitions, `chain` lists the pending ones of a
      label, the latest first, `last` is its latest definition or -1; `globals` are the
      addresses that the program keeps for its global labels. */
  datatype Book = Book(b: map<int, int>, labels: map<Lab, int>, kind: map<int, Slot>, log: seq<Event>,
                       tgt: map<nat, nat>, chain: map<Lab, seq<nat>>, last: map<Lab, int>, globals: map<nat, int>)

  ghost predicate SlotOk(slot: Slot, v: int) {
    match slot
    case StartSlot(k) => v == k
    case ArgSlot(n) => v == n
    case RefSlot(_) => true
    case EstSlot(e, _, _) => v == e
    case LabelSlot(e, _, _) => v == e
    case AlignSlot(e) => v == e
  }

  /** Every reference holds the position of its definition, or waits in the chain. */
  ghost predicate EventOk(k: Book, m: nat)
    requires m < |k.log|
  {
    var e := k.log[m];
    && e.pos > 0 && e.pos in k.kind && e.pos in k.b && e.lab in k.labels && e.lab in k.chain
    && (e.Def? ==> k.kind[e.pos].LabelSlot?)
    && (e.Ref? ==> k.kind[e.pos] == RefSlot(m) && (e.fwd ==> IsLocal(e.lab)))
    && (e.Ref? && m in k.tgt ==> IsTarget(k.log, m, k.tgt[m]) && k.b[e.pos] == k.log[k.tgt[m]].pos)
    && (e.Ref? && m !in k.tgt ==> Pending(k.log, m) && m in k.chain[e.lab])
  }

  /** A chain hangs off its label and ends with 0. */
  ghost predicate LabOk(k: Book, lab: Lab)
    requires lab in k.labels && lab in k.chain && lab in k.last
  {
    var c, l := k.chain[lab], k.last[lab];
    && (forall x :: 0 <= x < |c| ==> LinkOk(k, lab, x))
    && (if l < 0 then l == -1 && NoDef(k.log, lab, 0, |k.log|)
        else l < |k.log| && k.log[l].Def? && k.log[l].lab == lab && NoDef(k.log, lab, l + 1, |k.log|))
    && k.labels[lab] == (if c != [] && c[0] < |k.log| then k.log[c[0]].pos else if 0 <= l < |k.log| then -k.log[l].pos
      else 0)
  }

  ghost predicate LinkOk(k: Book, lab: Lab, x: nat)
    requires lab in k.chain && x < |k.chain[lab]|
  {
    var c := k.chain[lab];
    && c[x] < |k.log| && k.log[c[x]].Ref? && k.log[c[x]].lab == lab && c[x] !in k.tgt
    && k.log[c[x]].pos in k.b
    && k.b[k.log[c[x]].pos] == (if x + 1 < |c| && c[x + 1] < |k.log| then k.log[c[x + 1]].pos else 0)
    && (x + 1 < |c| ==> c[x + 1] < c[x])
  }

  ghost predicate BookOk(k: Book) {
    && k.b.Keys == k.kind.Keys && k.labels.Keys == k.chain.Keys == k.last.Keys
    && (forall p :: p in k.kind ==> SlotOk(k.kind[p], k.b[p]))
    && (forall p :: p in k.kind && k.kind[p].RefSlot? ==>
        k.kind[p].m < |k.log| && k.log[k.kind[p].m].Ref? && k.log[k.kind[p].m].pos == p)
    && (forall m :: 0 <= m < |k.log| ==> EventOk(k, m))
    && (forall m :: m in k.tgt ==> m < |k.log| && k.log[m].Ref?)
    && (forall lab :: lab in k.labels ==> LabOk(k, lab))
  }

  lemma EventAt(k: Book, m: nat)
    requires BookOk(k) && m < |k.log|
    ensures EventOk(k, m)
  {
  }

  lemma LabAt(k: Book, lab: Lab)
    requires BookOk(k) && lab in k.labels
    ensures lab in k.chain && lab in k.last && LabOk(k, lab)
  {
  }

  lemma BookParts(k: Book)
    requires BookOk(k)
    ensures k.b.Keys == k.kind.Keys && k.labels.Keys == k.chain.Keys == k.last.Keys
    ensures forall p :: p in k.kind ==> SlotOk(k.kind[p], k.b[p])
    ensures forall m :: m in k.tgt ==> m < |k.log| && k.log[m].Ref?
    ensures forall p :: p in k.kind && k.kind[p].RefSlot? ==>
        k.kind[p].m < |k.log| && k.log[k.kind[p].m].Ref? && k.log[k.kind[p].m].pos == p
  {
  }

  /** A new slot that is no reference and no definition. */
  function WithSlot(k: Book, p: int, slot: Slot, v: int): Book {
    k.(b := k.b[p := v], kind := k.kind[p := slot])
  }

  lemma WithSlotOk(k: Book, p: int, slot: Slot, v: int)
    requires BookOk(k) && p !in k.kind && !slot.RefSlot? && SlotOk(slot, v)
    ensures BookOk(WithSlot(k, p, slot, v))
  {
    hide BookOk, EventOk, LabOk, IsTarget, Pending;
    BookParts(k);
    var k' := WithSlot(k, p, slot, v);
    forall m | 0 <= m < |k'.log| ensures EventOk(k', m) { EventAt(k, m); SlotEvent(k, p, slot, v, m); }
    forall lab | lab in k'.labels ensures LabOk(k', lab) { LabAt(k, lab); SlotLab(k, p, slot, v, lab); }
    BookIntro(k');
  }

  lemma SlotEvent(k: Book, p: int, slot: Slot, v: int, m: nat)
    requires m < |k.log| && EventOk(k, m) && p !in k.kind
    ensures EventOk(WithSlot(k, p, slot, v), m)
  {
  }

  lemma SlotLab(k: Book, p: int, slot: Slot, v: int, lab: Lab)
    requires lab in k.labels && lab in k.chain && lab in k.last && LabOk(k, lab) && p !in k.b
    ensures LabOk(WithSlot(k, p, slot, v), lab)
  {
    hide NoDef;
    var k' := WithSlot(k, p, slot, v);
    forall x | 0 <= x < |k.chain[lab]| ensures LinkOk(k', lab, x) { assert LinkOk(k, lab, x); }
  }

  lemma BookIntro(k: Book)
    requires k.b.Keys == k.kind.Keys && k.labels.Keys == k.chain.Keys == k.last.Keys
    requires forall p :: p in k.kind ==> SlotOk(k.kind[p], k.b[p])
    requires forall p :: p in k.kind && k.kind[p].RefSlot? ==>
        k.kind[p].m < |k.log| && k.log[k.kind[p].m].Ref? && k.log[k.kind[p].m].pos == p
    requires forall m :: 0 <= m < |k.log| ==> EventOk(k, m)
    requires forall m :: m in k.tgt ==> m < |k.log| && k.log[m].Ref?
    requires forall lab :: lab in k.labels ==> LabOk(k, lab)
    ensures BookOk(k)
  {
  }

  // ----- a reference

  /** putrel and linkrel: an existing label is taken, otherwise the reference is linked in. */
  function WithRef(k: Book, p: int, lab: Lab, fwd: bool): Book
    requires lab in k.labels && lab in k.chain && lab in k.last && k.last[lab] >= -1
  {
    var n, m := k.labels[lab], |k.log|;
    var k1 := k.(kind := k.kind[p := RefSlot(m)], log := k.log + [Ref(p, lab, fwd)]);
    if n < 0 && !fwd then k1.(b := k.b[p := -n], tgt := if k.last[lab] >= 0 then k.tgt[m := k.last[lab]] else k.tgt)
    else k1.(b := k.b[p := if n < 0 then 0 else n], labels := k.labels[lab := p],
      chain := k.chain[lab := [m] + k.chain[lab]])
  }

  lemma WithRefOk(k: Book, p: int, lab: Lab, fwd: bool)
    requires BookOk(k) && p > 0 && p !in k.kind && lab in k.labels && (fwd ==> IsLocal(lab))
    requires !fwd && IsLocal(lab) ==> k.labels[lab] < 0
    ensures lab in k.chain && lab in k.last && k.last[lab] >= -1 && BookOk(WithRef(k, p, lab, fwd))
  {
    hide BookOk, EventOk, LabOk, IsTarget, Pending;
    BookParts(k);
    LabAt(k, lab);
    LabValue(k, lab);
    var k' := WithRef(k, p, lab, fwd);
    forall m | 0 <= m < |k'.log| ensures EventOk(k', m) {
      if m < |k.log| { RefOldEvent(k, p, lab, fwd, m); } else { RefNewEvent(k, p, lab, fwd); }
    }
    forall l | l in k'.labels ensures LabOk(k', l) {
      LabAt(k, l);
      if l == lab { RefThisLab(k, p, lab, fwd); } else { RefOtherLab(k, p, lab, fwd, l); }
    }
    BookIntro(k');
  }

  /** The sign of a label entry tells whether the label is defined or has a chain. */
  lemma LabValue(k: Book, lab: Lab)
    requires BookOk(k) && lab in k.labels && lab in k.chain && lab in k.last
    ensures k.last[lab] >= -1
    ensures k.labels[lab] < 0 <==> k.chain[lab] == [] && k.last[lab] >= 0
    ensures k.labels[lab] == 0 <==> k.chain[lab] == [] && k.last[lab] == -1
    ensures k.labels[lab] < 0 ==>
        k.last[lab] < |k.log| && k.log[k.last[lab]].Def? && k.log[k.last[lab]].lab == lab
        && k.labels[lab] == -k.log[k.last[lab]].pos
    ensures k.labels[lab] < 0 ==> NoDef(k.log, lab, k.last[lab] + 1, |k.log|)
  {
    hide BookOk, EventOk, IsTarget, Pending, NoDef;
    LabAt(k, lab);
    var c, l := k.chain[lab], k.last[lab];
    if c != [] { assert LinkOk(k, lab, 0); EventAt(k, c[0]); EventPos(k, c[0]); }
    else if l >= 0 { EventAt(k, l); EventPos(k, l); }
  }

  lemma EventPos(k: Book, m: nat)
    requires m < |k.log| && EventOk(k, m)
    ensures k.log[m].pos > 0 && k.log[m].pos in k.kind && k.log[m].pos in k.b
    ensures k.log[m].Ref? ==> k.kind[k.log[m].pos] == RefSlot(m)
    ensures k.log[m].Ref? && m !in k.tgt ==> Pending(k.log, m)
  {
    hide IsTarget, Pending;
  }

  lemma RefOldEvent(k: Book, p: int, lab: Lab, fwd: bool, m: nat)
    requires BookOk(k) && p !in k.kind && lab in k.labels && lab in k.chain && lab in k.last && k.last[lab] >= -1
      && m < |k.log|
    ensures EventOk(WithRef(k, p, lab, fwd), m)
  {
    hide BookOk, LabOk;
    EventAt(k, m);
    BookParts(k);
    var k' := WithRef(k, p, lab, fwd);
    if k.log[m].Ref? {
      RefKeeps(k.log, Ref(p, lab, fwd), m);
      if m in k.tgt { assert IsTarget(k.log, m, k.tgt[m]); } else { assert m in k'.chain[k.log[m].lab]; }
    }
  }

  /** A new reference changes nothing for the earlier ones. */
  lemma RefKeeps(log: seq<Event>, e: Event, m: nat)
    requires m < |log| && log[m].Ref? && e.Ref?
    ensures forall d: nat :: IsTarget(log, m, d) ==> IsTarget(log + [e], m, d)
    ensures Pending(log, m) ==> Pending(log + [e], m)
  {
    var log' := log + [e];
    forall lab, from: nat, to: nat | NoDef(log, lab, from, to)
      ensures to <= |log| ==> NoDef(log', lab, from, to)
      ensures to == |log| ==> NoDef(log', lab, from, |log'|)
    {
    }
  }

  lemma RefNewEvent(k: Book, p: int, lab: Lab, fwd: bool)
    requires BookOk(k) && p > 0 && p !in k.kind && lab in k.labels && lab in k.chain && lab in k.last
      && k.last[lab] >= -1 && (fwd ==> IsLocal(lab))
    requires !fwd && IsLocal(lab) ==> k.labels[lab] < 0
    ensures EventOk(WithRef(k, p, lab, fwd), |k.log|)
  {
    hide BookOk, EventOk, LinkOk;
    var m, k' := |k.log|, WithRef(k, p, lab, fwd);
    BookParts(k);
    LabAt(k, lab);
    LabValue(k, lab);
    assert m !in k.tgt;
    if k.chain[lab] != [] && !fwd { ChainUndefined(k, lab); }
    assert k'.log[m] == Ref(p, lab, fwd);
    RefNew(k', m);
  }

  lemma RefNew(k: Book, m: nat)
    requires m < |k.log| && k.log[m].Ref? && k.log[m].pos > 0 && k.log[m].pos in k.kind && k.log[m].pos in k.b
      && k.log[m].lab in k.labels && k.log[m].lab in k.chain
    requires k.kind[k.log[m].pos] == RefSlot(m) && (k.log[m].fwd ==> IsLocal(k.log[m].lab))
    requires if m in k.tgt then IsTarget(k.log, m, k.tgt[m]) && k.b[k.log[m].pos] == k.log[k.tgt[m]].pos
      else Pending(k.log, m) && m in k.chain[k.log[m].lab]
    ensures EventOk(k, m)
  {
  }

  /** A label that is not local has a chain only while it is undefined. */
  lemma ChainUndefined(k: Book, lab: Lab)
    requires BookOk(k) && lab in k.labels && lab in k.chain && lab in k.last && k.chain[lab] != [] && !IsLocal(lab)
    ensures k.last[lab] == -1
  {
    hide BookOk, IsTarget;
    LabAt(k, lab);
    assert LinkOk(k, lab, 0);
    EventAt(k, k.chain[lab][0]);
  }

  lemma RefThisLab(k: Book, p: int, lab: Lab, fwd: bool)
    requires BookOk(k) && p > 0 && p !in k.kind && lab in k.labels && lab in k.chain && lab in k.last
      && k.last[lab] >= -1
    ensures LabOk(WithRef(k, p, lab, fwd), lab)
  {
    hide BookOk, EventOk;
    BookParts(k);
    LabAt(k, lab);
    LabValue(k, lab);
    var k' := WithRef(k, p, lab, fwd);
    forall x | 0 <= x < |k'.chain[lab]| ensures LinkOk(k', lab, x) {
      RefLink(k, p, lab, fwd, x);
    }
  }

  lemma RefLink(k: Book, p: int, lab: Lab, fwd: bool, x: nat)
    requires BookOk(k) && p !in k.kind && lab in k.labels && lab in k.chain && lab in k.last && k.last[lab] >= -1
    requires x < |WithRef(k, p, lab, fwd).chain[lab]|
    ensures LinkOk(WithRef(k, p, lab, fwd), lab, x)
  {
    hide BookOk, EventOk, LabOk, NoDef, Pending, IsTarget, SlotOk;
    BookParts(k);
    LabValue(k, lab);
    ChainHead(k, lab);
    var k' := WithRef(k, p, lab, fwd);
    var c, c' := k.chain[lab], k'.chain[lab];
    var y: int := if |c'| == |c| then x else x - 1;
    if 0 <= y { LinkAt(k, lab, y); }
    if 0 <= y + 1 < |c| { LinkAt(k, lab, y + 1); }
  }

  lemma LinkAt(k: Book, lab: Lab, x: nat)
    requires BookOk(k) && lab in k.labels && lab in k.chain && x < |k.chain[lab]|
    ensures LinkOk(k, lab, x)
  {
    hide BookOk, EventOk, NoDef;
    LabAt(k, lab);
  }

  lemma RefOtherLab(k: Book, p: int, lab: Lab, fwd: bool, l: Lab)
    requires BookOk(k) && p > 0 && p !in k.kind && lab in k.labels && lab in k.chain && lab in k.last
      && k.last[lab] >= -1 && l in k.labels && l in k.chain && l in k.last && l != lab
    ensures LabOk(WithRef(k, p, lab, fwd), l)
  {
    hide BookOk, EventOk;
    BookParts(k);
    LabAt(k, l);
    var k' := WithRef(k, p, lab, fwd);
    forall x | 0 <= x < |k'.chain[l]| ensures LinkOk(k', l, x) {
      assert LinkOk(k, l, x);
    }
    if k.chain[l] != [] { assert LinkOk(k, l, 0); }
  }

  // ----- a definition

  /** The event waits in the chain at this buffer position. */
  ghost predicate Waits(log: seq<Event>, c: seq<nat>, p: int) {
    exists x :: 0 <= x < |c| && c[x] < |log| && log[c[x]].pos == p
  }

  /** All references of the chain get the value v. */
  ghost function Collapsed(b: map<int, int>, log: seq<Event>, c: seq<nat>, v: int): map<int, int> {
    map p | p in b :: if Waits(log, c, p) then v else b[p]
  }

  /** putlabel: the chain is collapsed, the label exists. */
  ghost function WithDef(k: Book, p: int, lab: Lab, e: int, s: nat, i: nat): Book
    requires lab in k.chain
  {
    var m := |k.log|;
    k.(b := Collapsed(k.b, k.log, k.chain[lab], p)[p := e], labels := k.labels[lab := -p],
      kind := k.kind[p := LabelSlot(e, s, i)],
       log := k.log + [Def(p, lab)], tgt := k.tgt + (map x | x in k.chain[lab] :: m), chain := k.chain[lab := []],
         last := k.last[lab := m])
  }

  lemma WithDefOk(k: Book, p: int, lab: Lab, e: int, s: nat, i: nat)
    requires BookOk(k) && p > 0 && p !in k.kind && lab in k.labels && lab in k.chain
    ensures BookOk(WithDef(k, p, lab, e, s, i))
  {
    hide BookOk, EventOk, LabOk, IsTarget, Pending, Collapsed;
    BookParts(k);
    var k' := WithDef(k, p, lab, e, s, i);
    assert k'.b.Keys == k.b.Keys + {p} by { CollapsedKeys(k.b, k.log, k.chain[lab], p); }
    forall m | 0 <= m < |k'.log| ensures EventOk(k', m) {
      if m < |k.log| { DefOldEvent(k, p, lab, e, s, i, m); } else { DefNewEvent(k, p, lab, e, s, i); }
    }
    forall l | l in k'.labels ensures LabOk(k', l) {
      if l == lab { DefThisLab(k, p, lab, e, s, i); } else { DefOtherLab(k, p, lab, e, s, i, l); }
    }
    forall m | m in k'.tgt ensures m < |k'.log| && k'.log[m].Ref? { DefTargets(k, lab, m); }
    forall q | q in k'.kind ensures SlotOk(k'.kind[q], k'.b[q]) { DefSlot(k, p, lab, e, s, i, q); }
    BookIntro(k');
  }

  lemma CollapsedKeys(b: map<int, int>, log: seq<Event>, c: seq<nat>, v: int)
    ensures Collapsed(b, log, c, v).Keys == b.Keys
  {
  }

  lemma CollapsedAt(k: Book, lab: Lab, v: int, q: int)
    requires BookOk(k) && lab in k.labels && lab in k.chain && q in k.b
    ensures q in Collapsed(k.b, k.log, k.chain[lab], v)
    ensures k.kind[q].RefSlot? && k.kind[q].m in k.chain[lab] ==> Collapsed(k.b, k.log, k.chain[lab], v)[q] == v
    ensures !(k.kind[q].RefSlot? && k.kind[q].m in k.chain[lab]) ==> Collapsed(k.b, k.log, k.chain[lab], v)[q] == k.b[q]
  {
    hide BookOk, EventOk, IsTarget, Pending, NoDef;
    BookParts(k);
    LabAt(k, lab);
    var c := k.chain[lab];
    if k.kind[q].RefSlot? && k.kind[q].m in c {
      var x :| 0 <= x < |c| && c[x] == k.kind[q].m;
      assert Waits(k.log, c, q);
    }
    if Waits(k.log, c, q) {
      var x :| 0 <= x < |c| && c[x] < |k.log| && k.log[c[x]].pos == q;
      assert LinkOk(k, lab, x);
      EventAt(k, c[x]);
      EventPos(k, c[x]);
    }
  }

  lemma DefTargets(k: Book, lab: Lab, m: nat)
    requires BookOk(k) && lab in k.labels && lab in k.chain && (m in k.tgt || m in k.chain[lab])
    ensures m < |k.log| && k.log[m].Ref? && (m in k.chain[lab] ==> k.log[m].lab == lab && m !in k.tgt)
  {
    hide BookOk, EventOk, IsTarget, Pending, NoDef;
    BookParts(k);
    LabAt(k, lab);
    if m in k.chain[lab] {
      var x :| 0 <= x < |k.chain[lab]| && k.chain[lab][x] == m;
      assert LinkOk(k, lab, x);
    }
  }

  lemma DefSlot(k: Book, p: int, lab: Lab, e: int, s: nat, i: nat, q: int)
    requires BookOk(k) && p !in k.kind && lab in k.labels && lab in k.chain && q in WithDef(k, p, lab, e, s, i).kind
    ensures var k' := WithDef(k, p, lab, e, s, i); q in k'.b && SlotOk(k'.kind[q], k'.b[q])
  {
    hide BookOk, Collapsed;
    BookParts(k);
    if q != p { CollapsedAt(k, lab, p, q); }
  }

  lemma DefOldEvent(k: Book, p: int, lab: Lab, e: int, s: nat, i: nat, m: nat)
    requires BookOk(k) && p !in k.kind && lab in k.labels && lab in k.chain && m < |k.log|
    ensures EventOk(WithDef(k, p, lab, e, s, i), m)
  {
    hide BookOk, LabOk, Collapsed;
    EventAt(k, m);
    BookParts(k);
    var k' := WithDef(k, p, lab, e, s, i);
    CollapsedAt(k, lab, p, k.log[m].pos);
    if k.log[m].Ref? {
      DefKeeps(k.log, Def(p, lab), m);
      if m in k.chain[lab] { DefTargets(k, lab, m); }
    }
  }

  /** A new definition resolves the pending references of its label and no others. */
  lemma DefKeeps(log: seq<Event>, e: Event, m: nat)
    requires m < |log| && log[m].Ref? && e.Def?
    ensures forall d: nat :: IsTarget(log, m, d) ==> IsTarget(log + [e], m, d)
    ensures Pending(log, m) && log[m].lab != e.lab ==> Pending(log + [e], m)
    ensures Pending(log, m) && log[m].lab == e.lab ==> IsTarget(log + [e], m, |log|)
  {
    var log' := log + [e];
    forall lab, from: nat, to: nat | NoDef(log, lab, from, to)
      ensures to <= |log| ==> NoDef(log', lab, from, to)
      ensures to == |log| && lab != e.lab ==> NoDef(log', lab, from, |log'|)
    {
    }
  }

  lemma DefNewEvent(k: Book, p: int, lab: Lab, e: int, s: nat, i: nat)
    requires BookOk(k) && p > 0 && lab in k.labels && lab in k.chain
    ensures EventOk(WithDef(k, p, lab, e, s, i), |k.log|)
  {
  }

  lemma DefThisLab(k: Book, p: int, lab: Lab, e: int, s: nat, i: nat)
    requires BookOk(k) && lab in k.labels && lab in k.chain
    ensures var k' := WithDef(k, p, lab, e, s, i); lab in k'.last && LabOk(k', lab)
  {
  }

  lemma DefOtherLab(k: Book, p: int, lab: Lab, e: int, s: nat, i: nat, l: Lab)
    requires BookOk(k) && p !in k.kind && lab in k.labels && lab in k.chain && l in k.labels && l != lab
    ensures var k' := WithDef(k, p, lab, e, s, i); l in k'.chain && l in k'.last && LabOk(k', l)
  {
    hide BookOk, EventOk, Collapsed;
    BookParts(k);
    LabAt(k, l);
    var k' := WithDef(k, p, lab, e, s, i);
    forall x | 0 <= x < |k'.chain[l]| ensures LinkOk(k', l, x) { DefLink(k, p, lab, e, s, i, l, x); }
    if k.chain[l] != [] { assert LinkOk(k, l, 0); }
  }

  lemma DefLink(k: Book, p: int, lab: Lab, e: int, s: nat, i: nat, l: Lab, x: nat)
    requires BookOk(k) && p !in k.kind && lab in k.labels && lab in k.chain && l in k.labels && l != lab && l in k.chain
      && x < |k.chain[l]|
    ensures LinkOk(WithDef(k, p, lab, e, s, i), l, x)
  {
    hide BookOk, EventOk, Collapsed, NoDef;
    BookParts(k);
    LabAt(k, l);
    var c := k.chain[l];
    assert LinkOk(k, l, x);
    if x + 1 < |c| { assert LinkOk(k, l, x + 1); }
    EventAt(k, c[x]);
    EventPos(k, c[x]);
    CollapsedAt(k, lab, p, k.log[c[x]].pos);
    if c[x] in k.chain[lab] { DefTargets(k, lab, c[x]); assert false; }
  }

  // ----- the layout of the section buffers

  datatype Layout = Layout(cells: seq<seq<Cell>>, kind: map<int, Slot>, spos: seq<int>, sofs: seq<int>)

  ghost predicate InProgram(prog: seq<seq<Action>>, c: Cell) {
    c.k < |prog| && -1 <= c.j < |prog[c.k]|
  }

  function ItemOf(prog: seq<seq<Action>>, c: Cell): Action
    requires c.k < |prog| && 0 <= c.j < |prog[c.k]|
  {
    prog[c.k][c.j]
  }

  /** The label that a reference names by its operand or argument: 1 .. 9 a local label,
      247 .. 255 the next definition of one, from 10 a global label. */
  function RefLab(a: Action, arg: int): Lab {
    if a.RelLG? || a.ImmLG? then (if a.n <= 246 then Lg(a.n) else Lg(a.n - 246)) else if arg >= 0 then Pc(arg)
      else Pc(0)
  }

  /** The argument of the action is a PC label. */
  predicate NamesPc(a: Action) { a.RelPC? || a.ImmPC? || a.LabelPC? }

  predicate IsForward(a: Action) { (a.RelLG? || a.ImmLG?) && a.n > 246 }

  /** The label that a label action defines. */
  function DefLab(a: Action, arg: int): Lab {
    if a.LabelLG? then Lg(a.n) else if arg >= 0 then Pc(arg) else Pc(0)
  }

  /** What an action at buffer position pos says about labels. */
  function EventOf(a: Action, arg: int, pos: int): seq<Event> {
    if IsRef(a) then [Ref(pos, RefLab(a, arg), IsForward(a))] else if IsLabel(a) then [Def(pos, DefLab(a, arg))] else []
  }

  /** What the actions of a list from j on say, the next one at buffer position pos. */
  function Events(l: seq<Action>, j: nat, args: seq<int>, x: nat, pos: int): seq<Event>
    decreases |l| - j
  {
    if j >= |l| || IsEnd(l[j]) then []
    else if TakesArg(l[j]) then
      EventOf(l[j], if x < |args| then args[x] else 0, pos) + Events(l, j + 1, args, x + 1, pos + Slots(l[j]))
    else EventOf(l[j], 0, pos) + Events(l, j + 1, args, x, pos + Slots(l[j]))
  }

  /** How many arguments the first j actions of a list take. */
  function Taken(l: seq<Action>, j: nat): nat
    requires j <= |l|
  {
    if j == 0 then 0 else Taken(l, j - 1) + if TakesArg(l[j - 1]) then 1 else 0
  }

  /** The cells from n on are the first m actions of list k with their arguments. */
  ghost predicate Ran(l: seq<Action>, k: nat, args: seq<int>, cells: seq<Cell>, n: nat, m: nat) {
    m <= |l| && n + m <= |cells| && forall i: nat :: i < m ==>
      cells[n + i].k == k && cells[n + i].j == i
        && (TakesArg(l[i]) ==> Taken(l, i) < |args| && cells[n + i].arg == args[Taken(l, i)])
  }

  /** One more action. */
  lemma RanMore(l: seq<Action>, k: nat, args: seq<int>, cells: seq<Cell>, n: nat, m: nat, c: Cell)
    requires Ran(l, k, args, cells, n, m) && n + m == |cells| && m < |l| && c.k == k && c.j == m
    requires TakesArg(l[m]) ==> Taken(l, m) < |args| && c.arg == args[Taken(l, m)]
    ensures Ran(l, k, args, cells + [c], n, m + 1)
  {
    var cells' := cells + [c];
    forall i: nat | i < m + 1
      ensures cells'[n + i].k == k && cells'[n + i].j == i
        && (TakesArg(l[i]) ==> Taken(l, i) < |args| && cells'[n + i].arg == args[Taken(l, i)])
    {
      if i < m { assert cells'[n + i] == cells[n + i]; }
    }
  }

  /** The log has for a reference the label that its operand names, and every definition. */
  ghost predicate RefMeans(prog: seq<seq<Action>>, kind: map<int, Slot>, log: seq<Event>, c: Cell) {
    && InProgram(prog, c)
    && (c.j >= 0 && IsRef(ItemOf(prog, c)) ==>
        c.pos in kind && kind[c.pos].RefSlot? && kind[c.pos].m < |log|
        && [log[kind[c.pos].m]] == EventOf(ItemOf(prog, c), c.arg, c.pos))
    && (c.j >= 0 && IsLabel(ItemOf(prog, c)) ==> Def(c.pos, DefLab(ItemOf(prog, c), c.arg)) in log)
    && (c.j >= 0 && NamesPc(ItemOf(prog, c)) ==> c.arg >= 0)
  }

  /** A definition in the log is that of the label action at its position. */
  ghost predicate DefMeans(prog: seq<seq<Action>>, cells: seq<seq<Cell>>, kind: map<int, Slot>, e: Event) {
    e.Def? ==> e.pos in kind && kind[e.pos].LabelSlot? && DefCell(prog, cells, kind[e.pos].s, kind[e.pos].i, e)
  }

  ghost predicate DefCell(prog: seq<seq<Action>>, cells: seq<seq<Cell>>, s: nat, i: nat, e: Event) {
    s < |cells| && i < |cells[s]| &&
    var c := cells[s][i];
    InProgram(prog, c) && c.j >= 0 && IsLabel(ItemOf(prog, c)) && [e] == EventOf(ItemOf(prog, c), c.arg, c.pos)
  }

  ghost predicate Meant(prog: seq<seq<Action>>, cells: seq<seq<Cell>>, kind: map<int, Slot>, log: seq<Event>) {
    && (forall s, i :: 0 <= s < |cells| && 0 <= i < |cells[s]| ==> RefMeans(prog, kind, log, cells[s][i]))
    && (forall d :: 0 <= d < |log| ==> DefMeans(prog, cells, kind, log[d]))
  }

  lemma MeantRef(prog: seq<seq<Action>>, cells: seq<seq<Cell>>, kind: map<int, Slot>, log: seq<Event>, s: nat, i: nat)
    requires Meant(prog, cells, kind, log) && s < |cells| && i < |cells[s]|
    ensures RefMeans(prog, kind, log, cells[s][i])
  {
  }

  lemma MeantDef(prog: seq<seq<Action>>, cells: seq<seq<Cell>>, kind: map<int, Slot>, log: seq<Event>, d: nat)
    requires Meant(prog, cells, kind, log) && d < |log|
    ensures DefMeans(prog, cells, kind, log[d])
  {
  }

  /** One more cell, with what it says. */
  lemma MeantStep(prog: seq<seq<Action>>, cells: seq<seq<Cell>>, kind: map<int, Slot>, log: seq<Event>, s: nat, c: Cell,
                  kind': map<int, Slot>)
    requires Meant(prog, cells, kind, log) && s < |cells| && InProgram(prog, c)
    requires forall p :: p in kind ==> p in kind' && kind'[p] == kind[p]
    requires c.j >= 0 && IsRef(ItemOf(prog, c)) ==> c.pos in kind' && kind'[c.pos] == RefSlot(|log|)
    requires c.j >= 0 && IsLabel(ItemOf(prog, c)) ==>
        c.pos in kind' && kind'[c.pos].LabelSlot? && kind'[c.pos].s == s && kind'[c.pos].i == |cells[s]|
    requires c.j >= 0 && NamesPc(ItemOf(prog, c)) ==> c.arg >= 0
    ensures Meant(prog, cells[s := cells[s] + [c]], kind', log + if c.j >= 0 then EventOf(ItemOf(prog, c), c.arg, c.pos)
      else [])
  {
    var cells', log' := cells[s := cells[s] + [c]], log + if c.j >= 0 then EventOf(ItemOf(prog, c), c.arg, c.pos)
      else [];
    hide EventOf;
    forall x, i | 0 <= x < |cells'| && 0 <= i < |cells'[x]| ensures RefMeans(prog, kind', log', cells'[x][i]) {
      if x != s || i < |cells[s]| {
        RefKept(prog, kind, log, cells[x][i], kind', log');
      } else { MeantNew(prog, kind', log, c); }
    }
    forall d | 0 <= d < |log'| ensures DefMeans(prog, cells', kind', log'[d]) {
      if d < |log| {
        assert DefMeans(prog, cells, kind, log[d]);
        DefKept(prog, cells, kind, log[d], s, c, kind');
      } else { DefNew(prog, cells, log, s, c, kind', d); }
    }
  }

  lemma RefKept(prog: seq<seq<Action>>, kind: map<int, Slot>, log: seq<Event>, c: Cell, kind': map<int, Slot>,
                log': seq<Event>)
    requires RefMeans(prog, kind, log, c) && log <= log' && forall p :: p in kind ==> p in kind' && kind'[p] == kind[p]
    ensures RefMeans(prog, kind', log', c)
  {
  }

  lemma MeantNew(prog: seq<seq<Action>>, kind': map<int, Slot>, log: seq<Event>, c: Cell)
    requires InProgram(prog, c)
      && (c.j >= 0 && IsRef(ItemOf(prog, c)) ==> c.pos in kind' && kind'[c.pos] == RefSlot(|log|))
      && (c.j >= 0 && NamesPc(ItemOf(prog, c)) ==> c.arg >= 0)
    ensures RefMeans(prog, kind', log + if c.j >= 0 then EventOf(ItemOf(prog, c), c.arg, c.pos) else [], c)
  {
  }

  lemma DefKept(prog: seq<seq<Action>>, cells: seq<seq<Cell>>, kind: map<int, Slot>, e: Event, s: nat, c: Cell,
                kind': map<int, Slot>)
    requires DefMeans(prog, cells, kind, e) && s < |cells| && forall p :: p in kind ==>
        p in kind' && kind'[p] == kind[p]
    ensures DefMeans(prog, cells[s := cells[s] + [c]], kind', e)
  {
  }

  lemma DefNew(prog: seq<seq<Action>>, cells: seq<seq<Cell>>, log: seq<Event>, s: nat, c: Cell, kind': map<int, Slot>,
               d: nat)
    requires s < |cells| && InProgram(prog, c)
    requires c.j >= 0 && IsLabel(ItemOf(prog, c)) ==>
        c.pos in kind' && kind'[c.pos].LabelSlot? && kind'[c.pos].s == s && kind'[c.pos].i == |cells[s]|
    requires var log' := log + if c.j >= 0 then EventOf(ItemOf(prog, c), c.arg, c.pos) else []; |log| <= d < |log'|
    ensures DefMeans(prog, cells[s := cells[s] + [c]], kind',
      (log + if c.j >= 0 then EventOf(ItemOf(prog, c), c.arg, c.pos) else [])[d])
  {
    if c.j >= 0 && IsLabel(ItemOf(prog, c)) {
      assert DefCell(prog, cells[s := cells[s] + [c]], s, |cells[s]|, Def(c.pos, DefLab(ItemOf(prog, c), c.arg)));
    }
  }

  /** What one executed action leaves: its cell, and what it says about labels. */
  ghost predicate Acts(prog: seq<seq<Action>>, cells: seq<seq<Cell>>, kind: map<int, Slot>, log: seq<Event>, s: nat,
                       c: Cell,
                       cells': seq<seq<Cell>>, kind': map<int, Slot>, log': seq<Event>) {
    && s < |cells| && InProgram(prog, c) && c.j >= 0
    && cells' == cells[s := cells[s] + [c]] && log' == log + EventOf(ItemOf(prog, c), c.arg, c.pos)
    && (forall p :: p in kind ==> p in kind' && kind'[p] == kind[p])
    && (NamesPc(ItemOf(prog, c)) ==> c.arg >= 0)
    && (IsRef(ItemOf(prog, c)) ==> c.pos in kind' && kind'[c.pos] == RefSlot(|log|))
    && (IsLabel(ItemOf(prog, c)) ==>
        c.pos in kind' && kind'[c.pos].LabelSlot? && kind'[c.pos].s == s && kind'[c.pos].i == |cells[s]|)
  }

  lemma MeantActs(prog: seq<seq<Action>>, cells: seq<seq<Cell>>, kind: map<int, Slot>, log: seq<Event>, s: nat, c: Cell,
                  cells': seq<seq<Cell>>, kind': map<int, Slot>, log': seq<Event>)
    requires Meant(prog, cells, kind, log) && Acts(prog, cells, kind, log, s, c, cells', kind', log')
    ensures Meant(prog, cells', kind', log') && s < |cells| && cells' == cells[s := cells[s] + [c]]
    ensures InProgram(prog, c) && c.j >= 0 && log' == log + EventOf(ItemOf(prog, c), c.arg, c.pos)
  {
    hide Meant, EventOf;
    MeantStep(prog, cells, kind, log, s, c, kind');
  }

  /** The start of a list says nothing, nor does its end. */
  lemma StartMeant(prog: seq<seq<Action>>, cells: seq<seq<Cell>>, kind: map<int, Slot>, log: seq<Event>, s: nat,
                   c: Cell, kind': map<int, Slot>)
    requires Meant(prog, cells, kind, log) && s < |cells| && InProgram(prog, c) && c.j == -1
    requires forall p :: p in kind ==> p in kind' && kind'[p] == kind[p]
    ensures Meant(prog, cells[s := cells[s] + [c]], kind', log)
  {
    hide Meant;
    MeantStep(prog, cells, kind, log, s, c, kind');
    assert log + [] == log;
  }

  lemma EndMeant(prog: seq<seq<Action>>, cells: seq<seq<Cell>>, kind: map<int, Slot>, log: seq<Event>, s: nat, c: Cell)
    requires Meant(prog, cells, kind, log) && s < |cells| && InProgram(prog, c) && c.j >= 0 && IsEnd(ItemOf(prog, c))
    ensures Meant(prog, cells[s := cells[s] + [c]], kind, log)
  {
    hide Meant;
    MeantStep(prog, cells, kind, log, s, c, kind);
    assert log + [] == log;
  }

  function NextPos(prog: seq<seq<Action>>, c: Cell): int
    requires c.k < |prog| && -1 <= c.j < |prog[c.k]|
  {
    c.pos + if c.j == -1 then 1 else Slots(ItemOf(prog, c))
  }

  function NextEst(prog: seq<seq<Action>>, c: Cell): int
    requires c.k < |prog| && -1 <= c.j < |prog[c.k]|
  {
    c.est + if c.j == -1 then 0 else MaxSize(ItemOf(prog, c), c.arg)
  }

  ghost predicate Ends(prog: seq<seq<Action>>, c: Cell)
    requires InProgram(prog, c)
  {
    c.j >= 0 && IsEnd(ItemOf(prog, c))
  }

  /** c' is executed right after c. */
  ghost predicate Follows(prog: seq<seq<Action>>, c: Cell, c': Cell)
    requires InProgram(prog, c) && InProgram(prog, c')
  {
    && c'.pos == NextPos(prog, c) && c'.est == NextEst(prog, c)
    && (if Ends(prog, c) then c'.j == -1 else c'.k == c.k && c'.j == c.j + 1)
  }

  /** The buffer positions of a cell hold what it stores. */
  ghost predicate CellOk(prog: seq<seq<Action>>, kind: map<int, Slot>, s: nat, i: nat, c: Cell) {
    && InProgram(prog, c)
    && (c.j == -1 ==> c.pos in kind && kind[c.pos] == StartSlot(c.k))
    && (c.j >= 0 ==> ItemSlots(ItemOf(prog, c), kind, s, i, c))
  }

  ghost predicate ItemSlots(a: Action, kind: map<int, Slot>, s: nat, i: nat, c: Cell) {
    && (StoresArg(a) ==>
        c.pos in kind && kind[c.pos] == ArgSlot(c.arg) && ArgInRange(a, c.arg) && (a.Space? ==> c.arg >= 0))
    && (IsRef(a) ==> c.pos in kind && kind[c.pos].RefSlot?)
    && (IsRel(a) ==> c.pos + 1 in kind && kind[c.pos + 1] == EstSlot(c.est + 4, s, i))
    && (IsLabel(a) ==> c.pos in kind && kind[c.pos] == LabelSlot(c.est, s, i))
    && (a.Align? ==> c.pos in kind && kind[c.pos] == AlignSlot(c.est + a.n))
  }

  ghost predicate SectionOk(prog: seq<seq<Action>>, l: Layout, s: nat)
    requires s < |l.cells| && s < |l.spos| && s < |l.sofs|
  {
    var cs := l.cells[s];
    && (forall i :: 0 <= i < |cs| ==> CellOk(prog, l.kind, s, i, cs[i]))
    && (forall i :: 0 <= i < |cs| - 1 ==> Follows(prog, cs[i], cs[i + 1]))
    && (cs == [] ==> l.spos[s] == s * SEC && l.sofs[s] == 0)
    && (cs != [] ==> cs[0].pos == s * SEC && cs[0].est == 0 && cs[0].j == -1)
    && (cs != [] ==> l.spos[s] == NextPos(prog, cs[|cs| - 1]) && l.sofs[s] == NextEst(prog, cs[|cs| - 1]))
    && s * SEC <= l.spos[s] <= (s + 1) * SEC
  }

  /** A label slot names its cell. */
  ghost predicate LabelCell(prog: seq<seq<Action>>, l: Layout, p: int, s: nat, i: nat) {
    s < |l.cells| && i < |l.cells[s]| && l.cells[s][i].pos == p && InProgram(prog, l.cells[s][i])
      && l.cells[s][i].j >= 0 && IsLabel(ItemOf(prog, l.cells[s][i]))
  }

  ghost predicate BranchCell(prog: seq<seq<Action>>, l: Layout, p: int, s: nat, i: nat) {
    s < |l.cells| && i < |l.cells[s]| && l.cells[s][i].pos + 1 == p && InProgram(prog, l.cells[s][i])
      && l.cells[s][i].j >= 0 && IsRel(ItemOf(prog, l.cells[s][i]))
  }

  ghost predicate SlotHome(prog: seq<seq<Action>>, l: Layout, p: int)
    requires p in l.kind
  {
    && 0 <= p / SEC < |l.spos| && p < l.spos[p / SEC]
    && (l.kind[p].LabelSlot? ==>
        LabelCell(prog, l, p, l.kind[p].s, l.kind[p].i) && l.cells[l.kind[p].s][l.kind[p].i].est == l.kind[p].e)
    && (l.kind[p].EstSlot? ==>
        BranchCell(prog, l, p, l.kind[p].s, l.kind[p].i) && l.cells[l.kind[p].s][l.kind[p].i].est + 4 == l.kind[p].e)
  }

  ghost predicate LayoutOk(prog: seq<seq<Action>>, l: Layout) {
    && |l.cells| == |l.spos| == |l.sofs|
    && (forall s :: 0 <= s < |l.cells| ==> SectionOk(prog, l, s))
    && (forall p :: p in l.kind ==> SlotHome(prog, l, p))
  }

  lemma SectionAt(prog: seq<seq<Action>>, l: Layout, s: nat)
    requires LayoutOk(prog, l) && s < |l.cells|
    ensures |l.cells| == |l.spos| == |l.sofs| && SectionOk(prog, l, s)
  {
  }

  lemma CellAt(prog: seq<seq<Action>>, l: Layout, s: nat, i: nat)
    requires LayoutOk(prog, l) && s < |l.cells| && i < |l.cells[s]|
    ensures CellOk(prog, l.kind, s, i, l.cells[s][i])
    ensures i + 1 < |l.cells[s]| ==>
        InProgram(prog, l.cells[s][i + 1]) && Follows(prog, l.cells[s][i], l.cells[s][i + 1])
    ensures i + 1 == |l.cells[s]| ==>
        l.spos[s] == NextPos(prog, l.cells[s][i]) && l.sofs[s] == NextEst(prog, l.cells[s][i])
  {
    hide ItemSlots, Follows;
    SectionAt(prog, l, s);
    assert CellOk(prog, l.kind, s, i, l.cells[s][i]);
    if i + 1 < |l.cells[s]| { assert CellOk(prog, l.kind, s, i + 1, l.cells[s][i + 1]); }
  }

  lemma HomeAt(prog: seq<seq<Action>>, l: Layout, p: int)
    requires LayoutOk(prog, l) && p in l.kind
    ensures SlotHome(prog, l, p)
  {
  }

  /** One more executed action. */
  function WithCell(prog: seq<seq<Action>>, l: Layout, s: nat, c: Cell, kind: map<int, Slot>): Layout
    requires s < |l.cells| && s < |l.spos| && s < |l.sofs| && c.k < |prog| && -1 <= c.j < |prog[c.k]|
  {
    Layout(l.cells[s := l.cells[s] + [c]], kind, l.spos[s := NextPos(prog, c)], l.sofs[s := NextEst(prog, c)])
  }

  /** The new cell goes on where the section ends. */
  ghost predicate CanAdd(prog: seq<seq<Action>>, l: Layout, s: nat, c: Cell) {
    && s < |l.cells| && s < |l.spos| && s < |l.sofs| && InProgram(prog, c)
    && c.pos == l.spos[s] && c.est == l.sofs[s] && NextPos(prog, c) <= (s + 1) * SEC && c.pos + 1 < (s + 1) * SEC
    && (if l.cells[s] == [] then c.j == -1
        else var d := l.cells[s][|l.cells[s]| - 1];
          InProgram(prog, d) && (if Ends(prog, d) then c.j == -1 else c.k == d.k && c.j == d.j + 1))
  }

  lemma WithCellOk(prog: seq<seq<Action>>, l: Layout, s: nat, c: Cell, kind: map<int, Slot>)
    requires LayoutOk(prog, l) && CanAdd(prog, l, s, c) && CellOk(prog, kind, s, |l.cells[s]|, c)
    requires forall p :: p in l.kind ==> p in kind && kind[p] == l.kind[p]
    requires forall p :: p in kind && p !in l.kind ==> c.pos <= p < NextPos(prog, c)
    requires forall p :: p in kind && p !in l.kind && kind[p].LabelSlot? ==>
        p == c.pos && kind[p] == LabelSlot(c.est, s, |l.cells[s]|) && c.j >= 0 && IsLabel(ItemOf(prog, c))
    requires forall p :: p in kind && p !in l.kind && kind[p].EstSlot? ==>
        p == c.pos + 1 && kind[p] == EstSlot(c.est + 4, s, |l.cells[s]|) && c.j >= 0 && IsRel(ItemOf(prog, c))
    ensures LayoutOk(prog, WithCell(prog, l, s, c, kind))
  {
    hide LayoutOk, SectionOk, SlotHome, ItemSlots;
    var l' := WithCell(prog, l, s, c, kind);
    SectionAt(prog, l, s);
    forall x | 0 <= x < |l'.cells| ensures SectionOk(prog, l', x) {
      SectionAt(prog, l, x);
      if x == s { SectionGrows(prog, l, s, c, kind); } else { SectionSame(prog, l, l', x); }
    }
    forall p | p in l'.kind ensures SlotHome(prog, l', p) {
      if p in l.kind { HomeAt(prog, l, p); HomeKept(prog, l, s, c, kind, p); } else { HomeNew(prog, l, s, c, kind, p); }
    }
    LayoutIntro(prog, l');
  }

  lemma LayoutIntro(prog: seq<seq<Action>>, l: Layout)
    requires |l.cells| == |l.spos| == |l.sofs|
    requires forall s :: 0 <= s < |l.cells| ==> SectionOk(prog, l, s)
    requires forall p :: p in l.kind ==> SlotHome(prog, l, p)
    ensures LayoutOk(prog, l)
  {
  }

  lemma CellKept(prog: seq<seq<Action>>, kind: map<int, Slot>, kind': map<int, Slot>, s: nat, i: nat, c: Cell)
    requires CellOk(prog, kind, s, i, c) && forall p :: p in kind ==> p in kind' && kind'[p] == kind[p]
    ensures CellOk(prog, kind', s, i, c)
  {
  }

  lemma SectionSame(prog: seq<seq<Action>>, l: Layout, l': Layout, s: nat)
    requires s < |l.cells| && s < |l.spos| && s < |l.sofs| && s < |l'.cells| && s < |l'.spos| && s < |l'.sofs|
    requires SectionOk(prog, l, s) && l'.cells[s] == l.cells[s] && l'.spos[s] == l.spos[s] && l'.sofs[s] == l.sofs[s]
    requires forall p :: p in l.kind ==> p in l'.kind && l'.kind[p] == l.kind[p]
    ensures SectionOk(prog, l', s)
  {
    hide CellOk, Follows;
    forall i | 0 <= i < |l.cells[s]| ensures CellOk(prog, l'.kind, s, i, l.cells[s][i]) {
      CellKept(prog, l.kind, l'.kind, s, i, l.cells[s][i]);
    }
    CellsInProgram(prog, l, s);
  }

  lemma CellsInProgram(prog: seq<seq<Action>>, l: Layout, s: nat)
    requires s < |l.cells| && s < |l.spos| && s < |l.sofs| && SectionOk(prog, l, s)
    ensures forall i :: 0 <= i < |l.cells[s]| ==> InProgram(prog, l.cells[s][i])
  {
  }

  lemma SectionGrows(prog: seq<seq<Action>>, l: Layout, s: nat, c: Cell, kind: map<int, Slot>)
    requires s < |l.cells| && s < |l.spos| && s < |l.sofs| && SectionOk(prog, l, s) && CanAdd(prog, l, s, c)
      && CellOk(prog, kind, s, |l.cells[s]|, c)
    requires forall p :: p in l.kind ==> p in kind && kind[p] == l.kind[p]
    ensures SectionOk(prog, WithCell(prog, l, s, c, kind), s)
  {
    hide CellOk;
    var cs, l' := l.cells[s], WithCell(prog, l, s, c, kind);
    CellsInProgram(prog, l, s);
    forall i | 0 <= i < |l'.cells[s]| ensures CellOk(prog, kind, s, i, l'.cells[s][i]) {
      if i < |cs| { CellKept(prog, l.kind, kind, s, i, cs[i]); }
    }
    CellInProgram(prog, kind, s, |cs|, c);
    forall i | 0 <= i < |l'.cells[s]| - 1 ensures Follows(prog, l'.cells[s][i], l'.cells[s][i + 1]) {
      if i + 1 < |cs| { assert Follows(prog, cs[i], cs[i + 1]); }
    }
  }

  lemma CellInProgram(prog: seq<seq<Action>>, kind: map<int, Slot>, s: nat, i: nat, c: Cell)
    requires CellOk(prog, kind, s, i, c)
    ensures InProgram(prog, c)
  {
  }

  lemma HomeKept(prog: seq<seq<Action>>, l: Layout, s: nat, c: Cell, kind: map<int, Slot>, p: int)
    requires p in l.kind && SlotHome(prog, l, p) && CanAdd(prog, l, s, c) && p in kind && kind[p] == l.kind[p]
    ensures SlotHome(prog, WithCell(prog, l, s, c, kind), p)
  {
  }

  lemma HomeNew(prog: seq<seq<Action>>, l: Layout, s: nat, c: Cell, kind: map<int, Slot>, p: int)
    requires CanAdd(prog, l, s, c) && s * SEC <= l.spos[s] && p in kind && c.pos <= p < NextPos(prog, c)
    requires kind[p].LabelSlot? ==>
        p == c.pos && kind[p] == LabelSlot(c.est, s, |l.cells[s]|) && c.j >= 0 && IsLabel(ItemOf(prog, c))
    requires kind[p].EstSlot? ==>
        p == c.pos + 1 && kind[p] == EstSlot(c.est + 4, s, |l.cells[s]|) && c.j >= 0 && IsRel(ItemOf(prog, c))
    ensures SlotHome(prog, WithCell(prog, l, s, c, kind), p)
  {
    assert p / SEC == s;
  }

  lemma FreeBehind(prog: seq<seq<Action>>, l: Layout, s: nat)
    requires LayoutOk(prog, l) && s < |l.cells| && s < |l.spos| && s * SEC <= l.spos[s] && l.spos[s] + 1 < (s + 1) * SEC
    ensures l.spos[s] + 1 !in l.kind
  {
    hide LayoutOk;
    FreeAt(prog, l, s, l.spos[s] + 1);
  }

  /** The next free position of a section is free. */
  lemma FreeAt(prog: seq<seq<Action>>, l: Layout, s: nat, p: int)
    requires LayoutOk(prog, l) && s < |l.cells| && l.spos[s] <= p < (s + 1) * SEC && s * SEC <= l.spos[s]
    ensures p !in l.kind
  {
    hide SectionOk;
    assert p / SEC == s;
    if p in l.kind { HomeAt(prog, l, p); }
  }

  // ----- pass 1

  datatype Status = OK | RangeI | RangeSec | RangeLG | RangePC

  /** The arguments that go with the rest of a list. */
  predicate ArgsOk(l: seq<Action>, j: nat, args: seq<int>, x: nat)
    decreases |l| - j
  {
    j >= |l| || (if TakesArg(l[j]) then x < |args| && (l[j].Space? ==> args[x] >= 0) && ArgsOk(l, j + 1, args, x + 1)
      else ArgsOk(l, j + 1, args, x))
  }

  /** The labels that are defined now; a forward reference hides a local one again. */
  function Placed(labels: map<Lab, int>): set<Lab> {
    set lab | lab in labels && labels[lab] < 0
  }

  /** What DASM_CHECKS asks of one action. */
  predicate Passes(a: Action, arg: int, all: set<Lab>, placed: set<Lab>) {
    if StoresArg(a) then ArgInRange(a, arg)
    else if a.RelLG? || a.ImmLG? then a.n > 246 || (if a.n < 10 then Lg(a.n) in placed else Lg(a.n) in all)
    else if a.LabelLG? then Lg(a.n) in all
    else if TakesArg(a) then arg >= 0 && Pc(arg) in all
    else true
  }

  function PlacedAfter(a: Action, arg: int, placed: set<Lab>): set<Lab> {
    if (a.RelLG? || a.ImmLG?) && a.n > 246 then placed - {Lg(a.n - 246)}
    else if a.LabelLG? then placed + {Lg(a.n)}
    else if a.LabelPC? && arg >= 0 then placed + {Pc(arg)}
    else placed
  }

  /** All actions of a list from j on pass the checks. */
  predicate AllPass(l: seq<Action>, j: nat, args: seq<int>, x: nat, all: set<Lab>, placed: set<Lab>, sections: nat)
    decreases |l| - j
  {
    if j >= |l| then true
    else if IsEnd(l[j]) then l[j].Section? ==> l[j].n < sections
    else if TakesArg(l[j]) then
      x < |args| && Passes(l[j], args[x], all, placed)
      && AllPass(l, j + 1, args, x + 1, all, PlacedAfter(l[j], args[x], placed), sections)
    else Passes(l[j], 0, all, placed) && AllPass(l, j + 1, args, x, all, PlacedAfter(l[j], 0, placed), sections)
  }

  /** The program's array of global labels starts with the label 10. */
  function GlobalMap(gl: seq<int>): map<nat, int> {
    map n: nat | 10 <= n < 10 + |gl| :: AddressOf(gl, n)
  }

  function AddressOf(gl: seq<int>, n: nat): int
    requires 10 <= n < 10 + |gl|
  {
    gl[n - 10]
  }

  /** Ten local labels, then the global ones; and the PC labels. */
  function LabelSet(maxgl: nat, maxpc: nat): set<Lab> {
    (set n: nat | n < 10 + maxgl :: Lg(n)) + (set n: nat | n < maxpc :: Pc(n))
  }

  /** The actions of list k before j have been run in section s, and nothing else. */
  ghost predicate RanTo(l: seq<Action>, k: nat, args: seq<int>, cells0: seq<seq<Cell>>, cells: seq<seq<Cell>>, s: nat,
                        j: nat) {
    && j <= |l| && s < |cells| == |cells0| && cells0[s] <= cells[s] && |cells[s]| == |cells0[s]| + 1 + j
    && (forall x :: 0 <= x < |cells| && x != s ==> cells[x] == cells0[x])
    && Ran(l, k, args, cells[s], |cells0[s]| + 1, j)
    && (var c := cells[s][|cells[s]| - 1]; c.k == k && c.j == j - 1)
    && (j > 0 ==> !IsEnd(l[j - 1]))
  }

  lemma RanToStart(l: seq<Action>, k: nat, args: seq<int>, cells0: seq<seq<Cell>>, s: nat, c: Cell)
    requires s < |cells0| && c.k == k && c.j == -1
    ensures RanTo(l, k, args, cells0, cells0[s := cells0[s] + [c]], s, 0)
  {
  }

  lemma RanToMore(l: seq<Action>, k: nat, args: seq<int>, cells0: seq<seq<Cell>>, cells: seq<seq<Cell>>, s: nat, j: nat,
                  c: Cell)
    requires RanTo(l, k, args, cells0, cells, s, j) && j < |l| && c.k == k && c.j == j && !IsEnd(l[j])
    requires TakesArg(l[j]) ==> Taken(l, j) < |args| && c.arg == args[Taken(l, j)]
    ensures s < |cells| && RanTo(l, k, args, cells0, cells[s := cells[s] + [c]], s, j + 1)
  {
    RanMore(l, k, args, cells[s], |cells0[s]| + 1, j, c);
  }

  lemma RanToLast(l: seq<Action>, k: nat, args: seq<int>, cells0: seq<seq<Cell>>, cells: seq<seq<Cell>>, s: nat, j: nat)
    requires RanTo(l, k, args, cells0, cells, s, j)
    ensures s < |cells| == |cells0| && cells[s] != [] && cells0[s] <= cells[s] && |cells[s]| == |cells0[s]| + 1 + j
    ensures var c := cells[s][|cells[s]| - 1]; c.k == k && c.j == j - 1 && (j > 0 ==> j <= |l| && !IsEnd(l[j - 1]))
    ensures (forall x :: 0 <= x < |cells| && x != s ==> cells[x] == cells0[x])
      && Ran(l, k, args, cells[s], |cells0[s]| + 1, j)
  {
  }

  /** The checks and the log still to come from action j on, against those of the whole list. */
  ghost predicate ToCome(l: seq<Action>, args: seq<int>, all: set<Lab>, placed0: set<Lab>, sections: nat,
                         log0: seq<Event>, pos0: int,
                         j: nat, x: nat, placed: set<Lab>, log: seq<Event>, pos: int) {
    && j <= |l| && ArgsOk(l, j, args, x) && x == Taken(l, j)
    && (AllPass(l, 0, args, 0, all, placed0, sections) <==> AllPass(l, j, args, x, all, placed, sections))
    && log0 + Events(l, 0, args, 0, pos0) == log + Events(l, j, args, x, pos)
  }

  lemma ToComeStart(l: seq<Action>, args: seq<int>, all: set<Lab>, placed: set<Lab>, sections: nat, log: seq<Event>,
                    pos: int)
    requires ArgsOk(l, 0, args, 0)
    ensures ToCome(l, args, all, placed, sections, log, pos, 0, 0, placed, log, pos)
  {
  }

  lemma ToComeMore(l: seq<Action>, args: seq<int>, all: set<Lab>, placed0: set<Lab>, sections: nat, log0: seq<Event>,
                   pos0: int,
                   j: nat, x: nat, placed: set<Lab>, log: seq<Event>, pos: int)
    requires ToCome(l, args, all, placed0, sections, log0, pos0, j, x, placed, log, pos) && j < |l| && !IsEnd(l[j])
    ensures ArgsOk(l, j, args, x) && (TakesArg(l[j]) ==> x < |args| && x == Taken(l, j))
    ensures var arg := if TakesArg(l[j]) then args[x] else 0; var x' := if TakesArg(l[j]) then x + 1 else x;
      if Passes(l[j], arg, all, placed)
      then ToCome(l, args, all, placed0, sections, log0, pos0, j + 1, x', PlacedAfter(l[j], arg, placed),
        log + EventOf(l[j], arg, pos), pos + Slots(l[j]))
      else !AllPass(l, 0, args, 0, all, placed0, sections)
  {
    hide Passes, PlacedAfter, EventOf;
    var arg := if TakesArg(l[j]) then args[x] else 0;
    var x' := if TakesArg(l[j]) then x + 1 else x;
    var rest := Events(l, j + 1, args, x', pos + Slots(l[j]));
    assert Events(l, j, args, x, pos) == EventOf(l[j], arg, pos) + rest;
    assert log + (EventOf(l[j], arg, pos) + rest) == log + EventOf(l[j], arg, pos) + rest;
  }

  lemma ToComeEnd(l: seq<Action>, args: seq<int>, all: set<Lab>, placed0: set<Lab>, sections: nat, log0: seq<Event>,
                  pos0: int,
                  j: nat, x: nat, placed: set<Lab>, log: seq<Event>, pos: int)
    requires ToCome(l, args, all, placed0, sections, log0, pos0, j, x, placed, log, pos) && j < |l| && IsEnd(l[j])
    ensures AllPass(l, 0, args, 0, all, placed0, sections) <==> (l[j].Section? ==> l[j].n < sections)
    ensures log == log0 + Events(l, 0, args, 0, pos0)
  {
    assert log + [] == log;
  }

  lemma ListAt(prog: seq<seq<Action>>, k: nat, j: nat)
    requires k < |prog| && (forall k :: 0 <= k < |prog| ==> ListOk(prog[k]))
    ensures prog[k] != [] && (j < |prog[k]| ==> ActionOk(prog[k], j))
  {
  }

  /** A list has one end, its last action. */
  lemma EndAt(prog: seq<seq<Action>>, k: nat, j: nat)
    requires k < |prog| && (forall k :: 0 <= k < |prog| ==> ListOk(prog[k])) && j < |prog[k]|
    ensures IsEnd(prog[k][j]) <==> j == |prog[k]| - 1
  {
    ListAt(prog, k, j);
  }

  lemma Same(q: seq<int>, i: nat)
    requires i < |q|
    ensures q[i := q[i]] == q
  {
  }

  /** The next action of the list can be added. */
  lemma NextCell(prog: seq<seq<Action>>, l: Layout, s: nat, k: nat, j: nat)
    requires LayoutOk(prog, l) && s < |l.cells| && k < |prog| && j < |prog[k]| && l.cells[s] != []
    requires var d := l.cells[s][|l.cells[s]| - 1]; d.k == k && d.j == j - 1 && (j > 0 ==> !IsEnd(prog[k][j - 1]))
    requires s < |l.spos| && l.spos[s] + 2 < (s + 1) * SEC
    ensures s < |l.sofs| && CanAdd(prog, l, s, Cell(k, j, l.spos[s], l.sofs[s], 0))
  {
    hide LayoutOk, SectionOk;
    SectionAt(prog, l, s);
    CellAt(prog, l, s, |l.cells[s]| - 1);
  }

  lemma StillClosed(prog: seq<seq<Action>>, cells: seq<seq<Cell>>, cells': seq<seq<Cell>>, s: nat)
    requires AllClosed(prog, cells) && |cells'| == |cells| && s < |cells| && forall x :: 0 <= x < |cells| && x != s ==>
        cells'[x] == cells[x]
    requires cells'[s] != [] && var c := cells'[s][|cells'[s]| - 1]; InProgram(prog, c) && Ends(prog, c)
    ensures AllClosed(prog, cells')
  {
  }

  /** The cell of a reference. */
  lemma RefCellOk(prog: seq<seq<Action>>, l: Layout, s: nat, c: Cell, kind: map<int, Slot>)
    requires LayoutOk(prog, l) && CanAdd(prog, l, s, c) && c.j >= 0 && IsRef(ItemOf(prog, c)) && c.pos !in l.kind
      && c.pos + 1 !in l.kind
    requires c.pos in kind && kind[c.pos].RefSlot?
    requires kind == (if IsRel(ItemOf(prog, c)) then
      l.kind[c.pos := kind[c.pos]][c.pos + 1 := EstSlot(c.est + 4, s, |l.cells[s]|)] else l.kind[c.pos := kind[c.pos]])
    ensures LayoutOk(prog, WithCell(prog, l, s, c, kind))
    ensures NextPos(prog, c) == c.pos + Slots(ItemOf(prog, c)) && NextEst(prog, c) == c.est + 4
  {
    hide LayoutOk;
    WithCellOk(prog, l, s, c, kind);
  }

  lemma LabKeys(k: Book, lab: Lab)
    requires BookOk(k) && lab in k.labels
    ensures lab in k.chain && lab in k.last
  {
  }

  lemma WithRefParts(k: Book, p: int, lab: Lab, fwd: bool)
    requires lab in k.labels && lab in k.chain && lab in k.last && k.last[lab] >= -1 && p > 0
    ensures WithRef(k, p, lab, fwd).kind == k.kind[p := RefSlot(|k.log|)]
    ensures WithRef(k, p, lab, fwd).log == k.log + [Ref(p, lab, fwd)]
    ensures var labels' := WithRef(k, p, lab, fwd).labels;
      && labels'.Keys == k.labels.Keys
      && Placed(labels') == if fwd then Placed(k.labels) - {lab} else Placed(k.labels)
  {
  }

  ghost function ChainPos(k: Book, lab: Lab, i: nat): int
    requires lab in k.chain && i < |k.chain[lab]| && k.chain[lab][i] < |k.log|
  {
    k.log[k.chain[lab][i]].pos
  }

  lemma ChainHead(k: Book, lab: Lab)
    requires BookOk(k) && lab in k.labels
    ensures lab in k.chain && (forall i :: 0 <= i < |k.chain[lab]| ==> k.chain[lab][i] < |k.log|)
    ensures k.chain[lab] == [] ==> k.labels[lab] <= 0
    ensures k.chain[lab] != [] ==> k.labels[lab] == ChainPos(k, lab, 0)
    ensures forall i :: 0 <= i < |k.chain[lab]| ==> ChainPos(k, lab, i) > 0
  {
    hide BookOk, EventOk, NoDef;
    LabAt(k, lab);
    LabValue(k, lab);
    forall i | 0 <= i < |k.chain[lab]| ensures k.chain[lab][i] < |k.log| && ChainPos(k, lab, i) > 0 {
      assert LinkOk(k, lab, i);
      EventAt(k, k.chain[lab][i]);
      EventPos(k, k.chain[lab][i]);
    }
  }

  lemma CollapsedNone(b: map<int, int>, log: seq<Event>, v: int)
    ensures Collapsed(b, log, [], v) == b
  {
  }

  /** One step along a chain. */
  lemma ChainStep(k: Book, lab: Lab, i: nat, v: int)
    requires BookOk(k) && lab in k.labels && lab in k.chain && i < |k.chain[lab]| && k.chain[lab][i] < |k.log|
    ensures var c := k.chain[lab]; var n := ChainPos(k, lab, i); var b := Collapsed(k.b, k.log, c[..i], v);
      && n > 0 && n in b
      && (i + 1 < |c| ==> c[i + 1] < |k.log|) && b[n] == (if i + 1 < |c| then ChainPos(k, lab, i + 1) else 0)
      && b[n := v] == Collapsed(k.b, k.log, c[..i + 1], v)
  {
    hide BookOk, NoDef, IsTarget, Pending;
    LabAt(k, lab);
    var c := k.chain[lab];
    assert LinkOk(k, lab, i);
    if i + 1 < |c| { assert LinkOk(k, lab, i + 1); }
    var n := ChainPos(k, lab, i);
    EventAt(k, c[i]);
    EventPos(k, c[i]);
    if Waits(k.log, c[..i], n) {
      var x :| 0 <= x < i && c[x] < |k.log| && k.log[c[x]].pos == n;
      assert LinkOk(k, lab, x);
      EventAt(k, c[x]);
      EventPos(k, c[x]);
      ChainDown(k, lab, x, i);
    }
    ChainMore(k.log, c, i, n);
  }

  lemma ChainMore(log: seq<Event>, c: seq<nat>, i: nat, n: int)
    requires i < |c| && c[i] < |log| && log[c[i]].pos == n
    ensures forall p :: Waits(log, c[..i + 1], p) <==> Waits(log, c[..i], p) || p == n
  {
    forall p
      ensures Waits(log, c[..i + 1], p) <==> Waits(log, c[..i], p) || p == n
    {
      if Waits(log, c[..i], p) {
        var x :| 0 <= x < i && c[x] < |log| && log[c[x]].pos == p;
        assert c[..i + 1][x] == c[x];
      }
      if p == n { assert c[..i + 1][i] == c[i]; }
      if Waits(log, c[..i + 1], p) {
        var x :| 0 <= x < |c[..i + 1]| && c[..i + 1][x] < |log| && log[c[..i + 1][x]].pos == p;
        assert x < i ==> c[..i][x] == c[x];
      }
    }
  }

  /** Chains run backwards in time. */
  lemma {:induction false} ChainDown(k: Book, lab: Lab, x: nat, y: nat)
    requires BookOk(k) && lab in k.labels && lab in k.chain && x < y < |k.chain[lab]|
    ensures k.chain[lab][y] < k.chain[lab][x]
  {
    hide BookOk, NoDef;
    LabAt(k, lab);
    assert LinkOk(k, lab, y - 1);
    if x < y - 1 { ChainDown(k, lab, x, y - 1); }
  }

  lemma LocalsThere(maxgl: nat, maxpc: nat)
    ensures forall n: nat :: n < 10 ==> Lg(n) in LabelSet(maxgl, maxpc)
    ensures forall n: nat :: Lg(n) in LabelSet(maxgl, maxpc) ==> n < 10 + maxgl
  {
  }

  lemma FreshBook(labels: map<Lab, int>, globals: map<nat, int>)
    requires forall lab :: lab in labels ==> labels[lab] == 0
    ensures BookOk(Book(map[], labels, map[], [], map[], map lab | lab in labels :: [], map lab | lab in labels :: -1,
      globals))
  {
  }

  lemma FreshLayout(prog: seq<seq<Action>>, n: nat)
    ensures LayoutOk(prog, Layout(seq(n, _ => []), map[], seq(n, i => i * SEC), seq(n, _ => 0)))
  {
  }

  lemma Twice(q: seq<int>, i: nat, x: int, y: int)
    requires i < |q|
    ensures q[i := x][i := y] == q[i := y]
  {
  }

  /** The last list put into a section is complete. */
  ghost predicate AllClosed(prog: seq<seq<Action>>, cells: seq<seq<Cell>>) {
    forall s :: 0 <= s < |cells| && cells[s] != [] ==>
        var c := cells[s][|cells[s]| - 1]; InProgram(prog, c) && Ends(prog, c)
  }

  lemma SectionStart(prog: seq<seq<Action>>, l: Layout, s: nat)
    requires LayoutOk(prog, l) && s < |l.cells|
    ensures |l.cells| == |l.spos| == |l.sofs| && s * SEC <= l.spos[s] <= (s + 1) * SEC
  {
    SectionAt(prog, l, s);
  }
}