/** The code that DynASM writes, byte by byte (dasm_x86.h:349-439). */
module DynCode {
  import opened DynAsm
  import opened DynLink
  import opened DynEncode
  import opened DynBytes

  /** Four bytes with the value n, the least significant first. */
  ghost predicate Dword(out: seq<nat>, at: int, n: int) {
    && 0 <= at && at + 4 <= |out| && (forall z :: at <= z < at + 4 ==> out[z] < 256)
    && (out[at] + 0x100 * out[at + 1] + 0x1_0000 * out[at + 2] + 0x100_0000 * out[at + 3] - n) % 0x1_0000_0000 == 0
  }

  /** Two bytes with the value n. */
  ghost predicate Word(out: seq<nat>, at: int, n: int) {
    && 0 <= at && at + 2 <= |out| && out[at] < 256 && out[at + 1] < 256
    && out[at] + 0x100 * out[at + 1] == n
  }

  /** One byte with the value n in two's complement. */
  ghost predicate Signed(out: seq<nat>, at: int, n: int) {
    0 <= at < |out| && -128 <= n <= 127 && out[at] == if n >= 0 then n else n + 256
  }

  ghost predicate AllAre(out: seq<nat>, at: int, end: int, v: nat) {
    0 <= at <= end <= |out| && forall z :: at <= z < end ==> out[z] == v
  }

  /** The label action d defines the label that the reference a names. */
  ghost predicate SameLabel(a: Action, arg: int, d: Action, darg: int) {
    match a
    case RelPC => d.LabelPC? && darg == arg
    case ImmPC => d.LabelPC? && darg == arg
    case RelLG(n) => d.LabelLG? && d.n == (if n <= 246 then n else n - 246)
    case ImmLG(n) => d.LabelLG? && d.n == (if n <= 246 then n else n - 246)
    case _ => false
  }

  ghost predicate IsLabelAt(prog: seq<seq<Action>>, l: Layout, f: Fix, a: Action, arg: int, t: nat, j: nat) {
    && Item(prog, l, t, j) && SameLabel(a, arg, ItemOf(prog, l.cells[t][j]), l.cells[t][j].arg)
    && t < |f.fin| && j < |f.fin[t]|
  }

  /** The short form of a branch with the opcode op that ends at `end`: a jump or a
      conditional jump whose displacement is the last byte. */
  ghost predicate ShortForm(op: nat, end: int, to: int, out: seq<nat>) {
    && Signed(out, end - 1, to - end) && end >= 2
    && (op == 0xe9 || 0x80 <= op < 0x90) && out[end - 2] == if op == 0xe9 then 0xeb else op - 0x10
  }

  /** How many bytes shorter the short form of a branch behind the byte op is. */
  ghost function Gain(op: nat): int {
    if op == 0xe9 then 3 else if 0x80 <= op < 0x90 then 4 else 0
  }

  /** A branch over the bytes at .. end to the label at `to`.  Backwards it is short exactly
      when the short form reaches; forwards when the estimated distance is short. */
  ghost predicate BranchReads(op: nat, back: bool, at: int, end: int, to: int, distance: int, out: seq<nat>) {
    && (end < at + 4 <==> Gain(op) != 0 && if back then -128 <= to - (at + 4 - Gain(op)) else distance <= 127)
    && (if end < at + 4 then end == at + 4 - Gain(op) && ShortForm(op, end, to, out)
        else end == at + 4 && Dword(out, at, to - end))
  }

  /** The byte in front of a branch, if the action list holds it as such. */
  function OpcodeByte(a: Action): nat {
    if a.Byte? || a.Esc? then a.b else 0
  }

  /** The bytes of the action (x, y) in the complete code, which stand from at to end. */
  ghost predicate ItemReads(prog: seq<seq<Action>>, l: Layout, k: Book, f: Fix, base: int, x: nat, y: nat,
                            at: int, end: int, out: seq<nat>)
    requires Item(prog, l, x, y)
  {
    var c := l.cells[x][y]; var a := ItemOf(prog, c);
    var u, v := |l.cells| - 1, if l.cells == [] then 0 else |l.cells[|l.cells| - 1]|;
    match a
    case Byte(b) => end == at + 1 && PlainReads(prog, l, f, x, y, u, v, b, at, out)
    case Esc(b) => end == at + 1 && PlainReads(prog, l, f, x, y, u, v, b, at, out)
    case ImmS => end == at + 1 && Signed(out, at, c.arg)
    case ImmB => end == at + 1 && 0 <= at < |out| && out[at] == c.arg < 256
    case ImmW => end == at + 2 && Word(out, at, c.arg)
    case ImmD => end == at + 4 && Dword(out, at, c.arg)
    case ImmWB => if -128 <= c.arg <= 127 then end == at + 1 && Signed(out, at, c.arg)
                  else end == at + 2 && Word(out, at, c.arg)
    case ImmDB => if -128 <= c.arg <= 127 then end == at + 1 && Signed(out, at, c.arg)
                  else end == at + 4 && Dword(out, at, c.arg)
    case Space(fill) => end == at + c.arg && AllAre(out, at, end, fill)
    case Align(n) => end % (n + 1) == 0 && end <= at + n && AllAre(out, at, end, 0x90)
    case RelLG(_) => RefReads(prog, l, k, f, base, x, y, at, end, out)
    case RelPC => RefReads(prog, l, k, f, base, x, y, at, end, out)
    case ImmLG(_) => RefReads(prog, l, k, f, base, x, y, at, end, out)
    case ImmPC => RefReads(prog, l, k, f, base, x, y, at, end, out)
    case LabelLG(_) => end == at
    case LabelPC => end == at
    case Section(_) => end == at
    case Stop => end == at
  }

  /** A byte of the action list is in the code, two more if it is the opcode of an immediate
      in short form; the opcodes of branches in short form are different. */
  ghost predicate PlainReads(prog: seq<seq<Action>>, l: Layout, f: Fix, x: nat, y: nat, u: nat, v: nat, b: nat,
                             at: int, out: seq<nat>) {
    Replaced(prog, l, f, x, y, u, v)
    || (0 <= at < |out| && out[at] == if Bumped(prog, l, x, y, u, v) then (b + 2) % 256 else b)
  }

  /** The reference names a global label that is not defined here, or the label (t, j). */
  ghost predicate RefReads(prog: seq<seq<Action>>, l: Layout, k: Book, f: Fix, base: int, x: nat, y: nat,
                           at: int, end: int, out: seq<nat>)
    requires Item(prog, l, x, y)
  {
    var c := l.cells[x][y]; var a := ItemOf(prog, c);
    if Extern(k, c.pos) then
      && (a.RelLG? || a.ImmLG?) && 10 <= a.n <= 246 && a.n in k.globals && end == at + 4
      && Dword(out, at, if a.RelLG? then k.globals[a.n] - (base + end) else k.globals[a.n])
    else
      exists t: nat, j: nat :: Names(k, c.pos, t, j) && IsLabelAt(prog, l, f, a, c.arg, t, j)
        && if a.ImmLG? || a.ImmPC? then end == at + 4 && Dword(out, at, f.fin[t][j] + base)
           else
             && c.j > 0 && x < |l.sofs| && t < |l.sofs|
             && BranchReads(OpcodeByte(prog[c.k][c.j - 1]), Before(t, j, x, y), at, end, f.fin[t][j],
                            GlobalEst(l, t, j) - GlobalEst(l, x, y + 1), out)
  }

  /** What the estimate of pass 1 adds for an action that takes `size` bytes. */
  ghost predicate Estimates(a: Action, size: int, est: int) {
    if a.RelLG? || a.RelPC? then est == 4 else if a.Align? then est == a.n else est == size
  }

  ghost predicate CellReads(prog: seq<seq<Action>>, l: Layout, k: Book, f: Fix, base: int, x: nat, y: nat,
                            out: seq<nat>)
    requires x < |l.cells| && y < |l.cells[x]|
  {
    var c := l.cells[x][y];
    && InProgram(prog, c) && x < |f.fin| && y + 1 < |f.fin[x]| && x < |l.sofs|
    && var at, end, est := f.fin[x][y], f.fin[x][y + 1], EstAt(l, x, y + 1) - EstAt(l, x, y);
    && 0 <= at <= end <= |out|
    && (if c.j == -1 then end == at && est == 0
        else ItemReads(prog, l, k, f, base, x, y, at, end, out) && Estimates(ItemOf(prog, c), end - at, est))
  }

  /** The complete code: the bytes of all cells, section by section. */
  ghost predicate CodeReads(prog: seq<seq<Action>>, l: Layout, k: Book, f: Fix, base: int, out: seq<nat>) {
    && |f.fin| == |l.cells| > 0 && (forall x :: 0 <= x < |l.cells| ==> |f.fin[x]| == |l.cells[x]| + 1)
    && f.fin[0][0] == 0 && (forall x :: 0 < x < |l.cells| ==> f.fin[x][0] == f.fin[x - 1][|l.cells[x - 1]|])
    && |out| == f.fin[|l.cells| - 1][|l.cells[|l.cells| - 1]|]
    && (forall x, y :: 0 <= x < |l.cells| && 0 <= y < |l.cells[x]| ==> CellReads(prog, l, k, f, base, x, y, out))
  }

  // ----- proofs

  /** What pass 3 knows at its end. */
  ghost predicate Finished(prog: seq<seq<Action>>, l: Layout, k: Book, f: Fix, b: map<int, int>, base: int,
                           out: seq<nat>) {
    && Complete(prog, l, k, f, b) && l.cells != [] && Meant(prog, l.cells, k.kind, k.log)
    && AllBytes(prog, l, k, f, base, |l.cells| - 1, |l.cells[|l.cells| - 1]|, out)
    && AllLand(prog, l, k, f, |l.cells| - 1, |l.cells[|l.cells| - 1]|, out)
    && |f.fin| == |l.cells| && |f.fin[|l.cells| - 1]| == |l.cells[|l.cells| - 1]| + 1
    && |out| == f.fin[|l.cells| - 1][|l.cells[|l.cells| - 1]|]
  }

  lemma LeBytes(n: int)
    ensures Le(n, 1)[0] == n % 256
    ensures Le(n, 2)[0] == n % 256 && Le(n, 2)[1] == n / 256 % 256
    ensures Le(n, 4)[0] == n % 256 && Le(n, 4)[1] == n / 256 % 256
    ensures Le(n, 4)[2] == n / 256 / 256 % 256 && Le(n, 4)[3] == n / 256 / 256 / 256 % 256
  {
    assert Le(n, 1) == [n % 256] + Le(n / 256, 0);
    assert Le(n, 2) == [n % 256] + Le(n / 256, 1);
    assert Le(n, 4) == [n % 256] + Le(n / 256, 3);
    assert Le(n / 256, 1) == [n / 256 % 256] + Le(n / 256 / 256, 0);
    assert Le(n / 256, 3) == [n / 256 % 256] + Le(n / 256 / 256, 2);
    assert Le(n / 256 / 256, 2) == [n / 256 / 256 % 256] + Le(n / 256 / 256 / 256, 1);
  }

  lemma LeDword(out: seq<nat>, at: int, n: int)
    requires 0 <= at && at + 4 <= |out| && out[at..at + 4] == Le(n, 4)
    ensures Dword(out, at, n)
  {
    LeBytes(n);
    assert out[at] == out[at..at + 4][0] && out[at + 1] == out[at..at + 4][1];
    assert out[at + 2] == out[at..at + 4][2] && out[at + 3] == out[at..at + 4][3];
    Quotients(n);
  }

  lemma Quotients(n: int)
    ensures (n % 256 + 0x100 * (n / 256 % 256) + 0x1_0000 * (n / 256 / 256 % 256)
             + 0x100_0000 * (n / 256 / 256 / 256 % 256) - n) % 0x1_0000_0000 == 0
  {
    var q := n / 256 / 256 / 256 / 256;
    assert n % 256 + 0x100 * (n / 256 % 256) + 0x1_0000 * (n / 256 / 256 % 256)
      + 0x100_0000 * (n / 256 / 256 / 256 % 256) - n == -0x1_0000_0000 * q;
    ModIs(-0x1_0000_0000 * q, 0x1_0000_0000, -q, 0);
  }

  lemma LeWord(out: seq<nat>, at: int, n: int)
    requires 0 <= at && at + 2 <= |out| && out[at..at + 2] == Le(n, 2) && 0 <= n < 0x1_0000
    ensures Word(out, at, n)
  {
    LeBytes(n);
    assert out[at] == out[at..at + 2][0] && out[at + 1] == out[at..at + 2][1];
  }

  lemma LeByte(out: seq<nat>, at: int, n: int)
    requires 0 <= at < |out| && out[at..at + 1] == Le(n, 1)
    ensures -128 <= n <= 127 ==> Signed(out, at, n)
    ensures 0 <= n < 256 ==> out[at] == n
  {
    LeBytes(n);
    assert out[at] == out[at..at + 1][0];
  }

  /** The code reads as it should. */
  lemma FinishedReads(prog: seq<seq<Action>>, l: Layout, k: Book, f: Fix, b: map<int, int>, base: int, out: seq<nat>)
    requires Finished(prog, l, k, f, b, base, out)
    ensures CodeReads(prog, l, k, f, base, out)
  {
    hide Complete, AllBytes, AllLand, Meant, CellReads;
    CompleteShape(prog, l, k, f, b);
    hide LayoutOk, BookOk, FixOk, ListOk, OnlyGlobals;
    forall x, y | 0 <= x < |l.cells| && 0 <= y < |l.cells[x]|
      ensures CellReads(prog, l, k, f, base, x, y, out)
    {
      CellIs(prog, l, k, f, b, base, x, y, out);
    }
  }

  lemma CellIs(prog: seq<seq<Action>>, l: Layout, k: Book, f: Fix, b: map<int, int>, base: int, x: nat, y: nat,
               out: seq<nat>)
    requires Finished(prog, l, k, f, b, base, out) && x < |l.cells| && y < |l.cells[x]|
    ensures CellReads(prog, l, k, f, base, x, y, out)
  {
    hide Complete, AllBytes, AllLand, Meant, ItemReads, Pad, Estimates;
    CompleteShape(prog, l, k, f, b);
    ReadFixed(prog, l, k, f, b, x, y);
    hide LayoutOk, BookOk, FixOk, ListOk, OnlyGlobals, ReadItem;
    var u := |l.cells| - 1;
    CellSpan(prog, l, k, f, b, x, y);
    if l.cells[x][y].j >= 0 { ItemIs(prog, l, k, f, b, base, x, y, out); }
  }

  /** A cell lies in the code. */
  lemma CellSpan(prog: seq<seq<Action>>, l: Layout, k: Book, f: Fix, b: map<int, int>, x: nat, y: nat)
    requires Complete(prog, l, k, f, b) && l.cells != [] && x < |l.cells| && y < |l.cells[x]|
    ensures var u := |l.cells| - 1;
      && x < |l.sofs| && x < |f.fin| && y + 1 < |f.fin[x]| && u < |f.fin| && |f.fin[u]| == |l.cells[u]| + 1
      && 0 <= f.fin[x][y] <= f.fin[x][y + 1] <= f.fin[u][|l.cells[u]|]
    ensures InProgram(prog, l.cells[x][y]) && EstAt(l, x, y + 1) == NextEst(prog, l.cells[x][y])
  {
    CompleteShape(prog, l, k, f, b);
    hide LayoutOk, BookOk, FixOk, ListOk, OnlyGlobals, Complete;
    var u := |l.cells| - 1;
    var n := |l.cells[u]|;
    Shrinks(prog, l, f, u, n, 0, 0, x, y);
    Shrinks(prog, l, f, u, n, x, y, x, y + 1);
    Shrinks(prog, l, f, u, n, x, y + 1, u, n);
    CellAt(prog, l, x, y);
  }

  lemma ItemIs(prog: seq<seq<Action>>, l: Layout, k: Book, f: Fix, b: map<int, int>, base: int, x: nat, y: nat,
               out: seq<nat>)
    requires Finished(prog, l, k, f, b, base, out) && Item(prog, l, x, y)
    requires x < |l.sofs| && x < |f.fin| && y + 1 < |f.fin[x]| && 0 <= f.fin[x][y] <= f.fin[x][y + 1] <= |out|
    requires EstAt(l, x, y + 1) == NextEst(prog, l.cells[x][y])
    ensures ItemReads(prog, l, k, f, base, x, y, f.fin[x][y], f.fin[x][y + 1], out)
    ensures Estimates(ItemOf(prog, l.cells[x][y]), f.fin[x][y + 1] - f.fin[x][y], EstAt(l, x, y + 1) - EstAt(l, x, y))
  {
    hide Complete, AllLand, Meant;
    ReadFixed(prog, l, k, f, b, x, y);
    var u := |l.cells| - 1;
    var c, at, end := l.cells[x][y], f.fin[x][y], f.fin[x][y + 1];
    var a := ItemOf(prog, c);
    assert CellBytes(prog, l, k, f, base, x, y, u, |l.cells[u]|, out);
    hide AllBytes, ListOk;
    if IsRef(a) {
      RefIs(prog, l, k, f, b, base, x, y, out);
    } else if a.Align? {
      AlignIs(at, a.n);
    } else if StoresArg(a) {
      hide Replaced, Bumped, Extern, Names;
      StoredIs(a, c.arg, at, end, out);
    }
  }

  lemma AlignIs(at: int, n: nat)
    ensures 0 <= Pad(at, n) <= n && (at + Pad(at, n)) % (n + 1) == 0
  {
    var m := n + 1;
    var q, r := at / m, at % m;
    assert at == q * m + r;
    if r == 0 {
      ModIs(-at, m, -q, 0);
      ModIs(at, m, q, 0);
    } else {
      ModIs(-at, m, -q - 1, m - r);
      ModIs(at + (m - r), m, q + 1, 0);
    }
  }

  /** The bytes of a stored argument. */
  lemma StoredIs(a: Action, n: int, at: int, end: int, out: seq<nat>)
    requires StoresArg(a) && ArgInRange(a, n) && 0 <= at <= end <= |out| && end == at + MaxSize(a, n)
    requires out[at..end] == Operand(a, n, end - at)
    ensures a.ImmS? ==> Signed(out, at, n)
    ensures a.ImmB? ==> out[at] == n < 256
    ensures a.ImmW? ==> Word(out, at, n)
    ensures a.ImmD? ==> Dword(out, at, n)
    ensures a.ImmWB? ==> if -128 <= n <= 127 then Signed(out, at, n) else Word(out, at, n)
    ensures a.ImmDB? ==> if -128 <= n <= 127 then Signed(out, at, n) else Dword(out, at, n)
    ensures a.Space? ==> AllAre(out, at, end, a.fill)
  {
    hide Le, Signed, Word, Dword;
    if end == at + 1 && !a.Space? {
      LeByte(out, at, n);
    } else if end == at + 2 && !a.Space? {
      LeWord(out, at, n);
    } else if end == at + 4 && !a.Space? {
      LeDword(out, at, n);
    } else {
      assert forall z :: at <= z < end ==> out[z] == out[at..end][z - at];
    }
  }

  /** The bytes of a reference. */
  lemma RefIs(prog: seq<seq<Action>>, l: Layout, k: Book, f: Fix, b: map<int, int>, base: int, x: nat, y: nat,
              out: seq<nat>)
    requires Finished(prog, l, k, f, b, base, out) && Item(prog, l, x, y) && IsRef(ItemOf(prog, l.cells[x][y]))
    requires x < |l.sofs| && x < |f.fin| && y + 1 < |f.fin[x]| && 0 <= f.fin[x][y] <= f.fin[x][y + 1] <= |out|
    requires EstAt(l, x, y + 1) == EstAt(l, x, y) + 4
    ensures RefReads(prog, l, k, f, base, x, y, f.fin[x][y], f.fin[x][y + 1], out)
  {
    hide AllBytes, AllLand, Complete, Meant, Extern, Names, Dword, Le, BranchReads, LastByte, Operand;
    var c := l.cells[x][y];
    if Extern(k, c.pos) {
      ExternIs(prog, l, k, f, b, base, x, y, out);
    } else {
      var t, j := TargetIs(prog, l, k, f, b, x, y);
      if IsRel(ItemOf(prog, c)) {
        BranchIs(prog, l, k, f, b, base, x, y, t, j, out);
      } else {
        AddressReads(prog, l, k, f, b, base, x, y, t, j, out);
      }
    }
  }

  /** What AllBytes and AllLand say of one cell. */
  lemma CellParts(prog: seq<seq<Action>>, l: Layout, k: Book, f: Fix, b: map<int, int>, base: int, x: nat, y: nat,
                  out: seq<nat>)
    requires Finished(prog, l, k, f, b, base, out) && x < |l.cells| && y < |l.cells[x]|
    ensures var u := |l.cells| - 1;
      CellBytes(prog, l, k, f, base, x, y, u, |l.cells[u]|, out) && CellLands(prog, l, k, f, x, y, out)
    ensures ChoiceOk(prog, l, k, f, x, y)
  {
    hide Meant, Base, CellBytes, CellLands, ChoiceOk, FixOk, SlotNow;
  }

  /** The address of a label defined here. */
  lemma AddressReads(prog: seq<seq<Action>>, l: Layout, k: Book, f: Fix, b: map<int, int>, base: int, x: nat, y: nat,
                     t: nat, j: nat, out: seq<nat>)
    requires Finished(prog, l, k, f, b, base, out) && Item(prog, l, x, y) && IsRef(ItemOf(prog, l.cells[x][y]))
    requires !IsRel(ItemOf(prog, l.cells[x][y])) && Names(k, l.cells[x][y].pos, t, j)
    requires x < |f.fin| && y + 1 < |f.fin[x]| && 0 <= f.fin[x][y] <= f.fin[x][y + 1] <= |out|
    ensures t < |f.fin| && j < |f.fin[t]| && f.fin[x][y + 1] == f.fin[x][y] + 4
    ensures Dword(out, f.fin[x][y], f.fin[t][j] + base)
  {
    hide AllBytes, AllLand, Complete, Meant, Dword, Le;
    CellParts(prog, l, k, f, b, base, x, y, out);
    ReadFixed(prog, l, k, f, b, x, y);
    LeDword(out, f.fin[x][y], f.fin[t][j] + base);
  }

  lemma ExternIs(prog: seq<seq<Action>>, l: Layout, k: Book, f: Fix, b: map<int, int>, base: int, x: nat, y: nat,
                 out: seq<nat>)
    requires Finished(prog, l, k, f, b, base, out) && Item(prog, l, x, y) && IsRef(ItemOf(prog, l.cells[x][y]))
    requires Extern(k, l.cells[x][y].pos) && x < |l.sofs| && x < |f.fin| && y + 1 < |f.fin[x]|
    ensures RefReads(prog, l, k, f, base, x, y, f.fin[x][y], f.fin[x][y + 1], out)
  {
    hide AllBytes, AllLand, Complete, Meant, Dword, Le, Extern, FinalSize;
    var c := l.cells[x][y];
    CellParts(prog, l, k, f, b, base, x, y, out);
    ExternName(prog, l, k, f, b, x, y);
    LeDword(out, f.fin[x][y], ExternValue(k, c.pos, ItemOf(prog, c), base, f.fin[x][y + 1]));
  }

  /** A reference without a definition is to a global label by its number, and takes four bytes. */
  lemma ExternName(prog: seq<seq<Action>>, l: Layout, k: Book, f: Fix, b: map<int, int>, x: nat, y: nat)
    requires Complete(prog, l, k, f, b) && Meant(prog, l.cells, k.kind, k.log) && Item(prog, l, x, y)
    requires IsRef(ItemOf(prog, l.cells[x][y])) && Extern(k, l.cells[x][y].pos) && ChoiceOk(prog, l, k, f, x, y)
    ensures var a := ItemOf(prog, l.cells[x][y]);
      && (a.RelLG? || a.ImmLG?) && 10 <= a.n <= 246 && a.n == ExternOf(k, l.cells[x][y].pos) && a.n in k.globals
    ensures x < |f.fin| && y + 1 < |f.fin[x]| && f.fin[x][y + 1] == f.fin[x][y] + 4
  {
    hide Complete, LayoutOk, BookOk, FixOk, OnlyGlobals, ListOk, Halfway, Meant, ReadItem;
    var c := l.cells[x][y];
    CompleteShape(prog, l, k, f, b);
    ReadFixed(prog, l, k, f, b, x, y);
    ActionAt(prog, c.k, c.j);
    ExternAt(k, c.pos);
    MeantRef(prog, l.cells, k.kind, k.log, x, y);
  }

  /** The label of a reference is the label action that its operand or argument names. */
  lemma TargetIs(prog: seq<seq<Action>>, l: Layout, k: Book, f: Fix, b: map<int, int>, x: nat, y: nat)
                 returns (t: nat, j: nat)
    requires Complete(prog, l, k, f, b) && Meant(prog, l.cells, k.kind, k.log) && Item(prog, l, x, y)
    requires IsRef(ItemOf(prog, l.cells[x][y])) && !Extern(k, l.cells[x][y].pos)
    ensures Names(k, l.cells[x][y].pos, t, j)
    ensures IsLabelAt(prog, l, f, ItemOf(prog, l.cells[x][y]), l.cells[x][y].arg, t, j)
  {
    hide Complete, Meant, LayoutOk, BookOk, FixOk, OnlyGlobals, ListOk;
    CompleteShape(prog, l, k, f, b);
    ReadFixed(prog, l, k, f, b, x, y);
    t, j := ReadTarget(prog, l, k, f, b, x, y);
    var p := l.cells[x][y].pos;
    MeantRef(prog, l.cells, k.kind, k.log, x, y);
    Resolved(k, p);
    var m := k.kind[p].m;
    TargetShape(k.log, m, k.tgt[m]);
    MeantDef(prog, l.cells, k.kind, k.log, k.tgt[m]);
    MeantRef(prog, l.cells, k.kind, k.log, t, j);
  }

  lemma BranchIs(prog: seq<seq<Action>>, l: Layout, k: Book, f: Fix, b: map<int, int>, base: int, x: nat, y: nat,
                 t: nat, j: nat, out: seq<nat>)
    requires Finished(prog, l, k, f, b, base, out) && Item(prog, l, x, y) && IsRel(ItemOf(prog, l.cells[x][y]))
    requires Names(k, l.cells[x][y].pos, t, j) && Item(prog, l, t, j) && IsLabel(ItemOf(prog, l.cells[t][j]))
    requires EstAt(l, x, y + 1) == EstAt(l, x, y) + 4 && x < |l.sofs| && x < |f.fin| && y + 1 < |f.fin[x]|
    ensures l.cells[x][y].j > 0 && t < |l.sofs| && t < |f.fin| && j < |f.fin[t]|
    ensures BranchReads(OpcodeByte(prog[l.cells[x][y].k][l.cells[x][y].j - 1]), Before(t, j, x, y), f.fin[x][y],
                        f.fin[x][y + 1], f.fin[t][j], GlobalEst(l, t, j) - GlobalEst(l, x, y + 1), out)
  {
    hide AllBytes, AllLand, Meant, Complete, Names, GlobalEst, EstAt, CellBytes, Le, Dword, ChoiceOk, Before, StepOk;
    CellParts(prog, l, k, f, b, base, x, y, out);
    BranchSize(prog, l, k, f, b, x, y, t, j);
    assert Lands(prog, l, f, x, y, f.fin[t][j], out);
    if f.sh[x][y] == 0 { LeDword(out, f.fin[x][y], f.fin[t][j] - f.fin[x][y + 1]); }
  }

  /** When a branch is short. */
  lemma BranchSize(prog: seq<seq<Action>>, l: Layout, k: Book, f: Fix, b: map<int, int>, x: nat, y: nat, t: nat, j: nat)
    requires Complete(prog, l, k, f, b) && Item(prog, l, x, y) && IsRel(ItemOf(prog, l.cells[x][y]))
      && ChoiceOk(prog, l, k, f, x, y)
    requires Names(k, l.cells[x][y].pos, t, j) && Item(prog, l, t, j) && IsLabel(ItemOf(prog, l.cells[t][j]))
    requires EstAt(l, x, y + 1) == EstAt(l, x, y) + 4 && x < |l.sofs| && x < |f.fin| && y + 1 < |f.fin[x]|
    ensures l.cells[x][y].j > 0 && t < |l.sofs| && t < |f.fin| && j < |f.fin[t]| && x < |f.sh| && y < |f.sh[x]|
    ensures f.fin[x][y + 1] == f.fin[x][y] + 4 - f.sh[x][y]
    ensures var gain := Gain(OpcodeByte(prog[l.cells[x][y].k][l.cells[x][y].j - 1]));
      f.sh[x][y] == if gain != 0 && (if Before(t, j, x, y) then -128 <= f.fin[t][j] - (f.fin[x][y] + 4 - gain)
                                     else GlobalEst(l, t, j) - GlobalEst(l, x, y + 1) <= 127) then gain else 0
  {
    hide Complete, Names, GlobalEst, EstAt, Halfway, StepOk, ReadItem;
    var u := |l.cells| - 1;
    var n, c := |l.cells[u]|, l.cells[x][y];
    CompleteShape(prog, l, k, f, b);
    ReadFixed(prog, l, k, f, b, x, y);
    ActionAt(prog, c.k, c.j);
    hide LayoutOk, BookOk, FixOk, OnlyGlobals, ListOk;
    assert Gain(OpcodeByte(prog[c.k][c.j - 1])) == Shrink(LastByte(prog[c.k][c.j - 1]));
    hide Gain, Shrink, OpcodeByte, LastByte;
    assert ChoiceIs(prog, l, f, x, y, t, j);
    EstStep(l, x, y);
    if Before(t, j, x, y) {
      Shrinks(prog, l, f, u, n, t, j, x, y);
    } else {
      Shrinks(prog, l, f, u, n, x, y + 1, t, j);
    }
  }

  lemma EstStep(l: Layout, x: nat, y: nat)
    requires x < |l.cells| && x < |l.sofs| && EstAt(l, x, y + 1) == EstAt(l, x, y) + 4
    ensures GlobalEst(l, x, y + 1) == GlobalEst(l, x, y) + 4
  {
  }

  lemma ActionAt(prog: seq<seq<Action>>, k: nat, j: nat)
    requires k < |prog| && ListOk(prog[k]) && j < |prog[k]|
    ensures ActionOk(prog[k], j)
  {
  }

  /** The range checks on one action: an immediate must fit its bytes, a local label be
      defined, the others exist. */
  lemma ChecksAre(a: Action, arg: int, all: set<Lab>, placed: set<Lab>)
    ensures Passes(a, arg, all, placed) <==>
      match a
      case ImmS => -128 <= arg <= 127
      case ImmB => 0 <= arg <= 255
      case ImmW => 0 <= arg <= 65535
      case ImmWB => -128 <= arg <= 65535
      case RelLG(n) => if n <= 9 then Lg(n) in placed else n > 246 || Lg(n) in all
      case ImmLG(n) => if n <= 9 then Lg(n) in placed else n > 246 || Lg(n) in all
      case RelPC => arg >= 0 && Pc(arg) in all
      case ImmPC => arg >= 0 && Pc(arg) in all
      case LabelPC => arg >= 0 && Pc(arg) in all
      case LabelLG(n) => Lg(n) in all
      case _ => true
  {
  }
}
