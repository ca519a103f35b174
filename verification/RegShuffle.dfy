/** The register shuffle at the head of a side trace (lj_asm.c).

    Code is generated backwards: an emitted move runs before everything that was
    emitted earlier.  The shuffle must bring every value that the parent trace left
    in a register into the register that its target IR reference was given. */
module RegShuffle {
  const RID_MAX: nat := 32
  const RID_ESP: nat := 4

  type Reg = r: nat | r < RID_MAX
  type RegSet = set<Reg>
  type Ref = nat

  const RSET_GPR: RegSet := set r: Reg | r < 16 && r != RID_ESP
  const RSET_FPR: RegSet := set r: Reg | 16 <= r

  datatype Move = Move(dst: Reg, src: Reg)

  /** A register file gives the value of each register. */
  type File = Reg -> int

  function Apply(m: Move, f: File): File {
    (r: Reg) => if r == m.dst then f(m.src) else f(r)
  }

  /** Runs code in program order. */
  function Run(code: seq<Move>, f: File): File {
    if code == [] then f else Run(code[1..], Apply(code[0], f))
  }

  lemma RunPrepend(m: Move, code: seq<Move>, f: File)
    ensures Run([m] + code, f) == Run(code, Apply(m, f))
  {
    assert ([m] + code)[1..] == code;
  }

  /** The lowest register of the set that is not below `from`. */
  function PickFrom(s: RegSet, from: nat): (r: Reg)
    requires exists x :: x in s && from <= x
    ensures r in s && from <= r && forall x :: x in s && from <= x ==> r <= x
    decreases RID_MAX - from
  {
    if from < RID_MAX && from in s then from else PickFrom(s, from + 1)
  }

  function PickBot(s: RegSet): (r: Reg)
    requires s != {}
    ensures r in s && forall x :: x in s ==> r <= x
  {
    assert exists x :: x in s && 0 <= x by { var x :| x in s; }
    PickFrom(s, 0)
  }

  /** What the shuffle has to establish: the live and kept parent registers on entry
      and the registers of the target references on entry. */
  datatype Goal = Goal(live: RegSet, kept: RegSet, reg: map<Ref, Reg>)

  /** In file g every live parent value (as found in f) sits in the register of its
      target, and every kept register still has its parent value. */
  ghost predicate Holds(g: File, f: File, live: RegSet, kept: RegSet, sload: map<Reg, Ref>, reg: map<Ref, Reg>) {
    && (forall x :: x in live && x in sload && sload[x] in reg ==> g(reg[sload[x]]) == f(x))
    && (forall x :: x in kept ==> g(x) == f(x))
  }

  /** Running `code` takes any file that suits (live, kept, reg) to one that suits
      the goal. */
  ghost predicate Bridges(code: seq<Move>, live: RegSet, kept: RegSet, reg: map<Ref, Reg>, goal: Goal, sload: map<Reg,
                          Ref>) {
    forall f: File, g: File :: Holds(g, f, live, kept, sload, reg) ==>
        Holds(Run(code, g), f, goal.live, goal.kept, sload, goal.reg)
  }

  /** Run from any register file, the code brings every parent value where the goal
      wants it. */
  ghost predicate Shuffles(code: seq<Move>, goal: Goal, sload: map<Reg, Ref>) {
    forall f: File :: Holds(Run(code, f), f, goal.live, goal.kept, sload, goal.reg)
  }

  /** Every live register of the class is taken by a live target, so that they form
      cycles, and there is no free register to break one. */
  ghost predicate Stuck(cls: RegSet, live: RegSet, allow: RegSet, freeset: RegSet, reg: map<Ref, Reg>, sload: map<Reg,
                        Ref>) {
    && live * cls != {}
    && (freeset - live) * allow * cls == {}
    && forall r :: r in live * cls ==> Occupied(r, live, reg, sload)
  }

  lemma LiveHasTarget(rp: Reg, live: RegSet, kept: RegSet, allow: RegSet, freeset: RegSet,
                      cost: map<Reg, Ref>, reg: map<Ref, Reg>, sload: map<Reg, Ref>)
    requires Fits(live, kept, allow, freeset, cost, reg, sload) && rp in live
    ensures rp in sload && sload[rp] in reg
  {
  }

  lemma LiveClasses(live: RegSet, kept: RegSet, allow: RegSet, freeset: RegSet,
                    cost: map<Reg, Ref>, reg: map<Ref, Reg>, sload: map<Reg, Ref>)
    requires Fits(live, kept, allow, freeset, cost, reg, sload)
    ensures live == live * RSET_GPR + live * RSET_FPR
    ensures RSET_GPR !! RSET_FPR
  {
  }

  lemma BridgeNil(live: RegSet, kept: RegSet, reg: map<Ref, Reg>, sload: map<Reg, Ref>)
    ensures Bridges([], live, kept, reg, Goal(live, kept, reg), sload)
  {
  }

  lemma BridgeDone(code: seq<Move>, kept: RegSet, reg: map<Ref, Reg>, goal: Goal, sload: map<Reg, Ref>)
    requires Bridges(code, {}, kept, reg, goal, sload)
    ensures Shuffles(code, goal, sload)
  {
    forall f: File
      ensures Holds(Run(code, f), f, goal.live, goal.kept, sload, goal.reg)
    {
      assert Holds(f, f, {}, kept, sload, reg);
    }
  }

  /** The allocator state fits the shuffle: the targets of live parent registers are
      allocated and pairwise different, a live register that is not free is held by
      some live target, and nothing can be put into a kept register. */
  ghost predicate Fits(live: RegSet, kept: RegSet, allow: RegSet, freeset: RegSet,
                       cost: map<Reg, Ref>, reg: map<Ref, Reg>, sload: map<Reg, Ref>) {
    && live <= RSET_GPR + RSET_FPR
    && kept !! live && kept !! allow
    && (forall x :: x in live ==> x in sload && sload[x] in reg)
    && (forall x, y :: x in live && y in live && x != y ==> sload[x] != sload[y])
    && (forall x :: x in live ==> var r := reg[sload[x]];
          r !in freeset && r !in kept && r in cost && cost[r] == sload[x])
    && (forall r :: r in live && r !in freeset ==> Occupied(r, live, reg, sload))
  }

  /** Some live target sits in register r. */
  ghost predicate Occupied(r: Reg, live: RegSet, reg: map<Ref, Reg>, sload: map<Reg, Ref>) {
    exists x :: x in live && x in sload && sload[x] in reg && reg[sload[x]] == r
  }

  /** Moving a free live register to its target keeps the bridge. */
  lemma BridgeMove(code: seq<Move>, rp: Reg, live: RegSet, kept: RegSet, allow: RegSet, freeset: RegSet,
                   cost: map<Reg, Ref>, reg: map<Ref, Reg>, sload: map<Reg, Ref>, goal: Goal)
    requires Fits(live, kept, allow, freeset, cost, reg, sload)
    requires rp in live && rp in freeset
    requires Bridges(code, live, kept, reg, goal, sload)
    ensures Bridges([Move(reg[sload[rp]], rp)] + code, live - {rp}, kept + {rp}, reg, goal, sload)
    ensures Fits(live - {rp}, kept + {rp}, allow - {rp}, freeset + {reg[sload[rp]]}, cost, reg, sload)
  {
    var m := Move(reg[sload[rp]], rp);
    forall f: File, g: File | Holds(g, f, live - {rp}, kept + {rp}, sload, reg)
      ensures Holds(Run([m] + code, g), f, goal.live, goal.kept, sload, goal.reg)
    {
      RunPrepend(m, code, g);
      var h := Apply(m, g);
      forall x | x in live
        ensures h(reg[sload[x]]) == f(x)
      {
        if x != rp {
          assert x in live - {rp};
          assert cost[reg[sload[x]]] == sload[x];
        }
      }
      assert forall x :: x in kept ==> x in kept + {rp};
      assert Holds(h, f, live, kept, sload, reg);
    }
    var free' := freeset + {reg[sload[rp]]};
    forall r | r in live - {rp} && r !in free'
      ensures Occupied(r, live - {rp}, reg, sload)
    {
      assert Occupied(r, live, reg, sload);
      var x :| x in live && x in sload && sload[x] in reg && reg[sload[x]] == r;
      assert x in live - {rp};
    }
    forall x | x in live - {rp}
      ensures reg[sload[x]] !in free'
    {
      assert cost[reg[sload[x]]] == sload[x];
    }
  }

  /** Renaming an occupied live register to a free temporary keeps the bridge. */
  lemma BridgeRename(code: seq<Move>, down: Reg, up: Reg, live: RegSet, kept: RegSet, allow: RegSet, freeset: RegSet,
                     cost: map<Reg, Ref>, reg: map<Ref, Reg>, sload: map<Reg, Ref>, goal: Goal)
    requires Fits(live, kept, allow, freeset, cost, reg, sload)
    requires down in live && down !in freeset
    requires up in freeset && up !in live && up in allow
    requires Bridges(code, live, kept, reg, goal, sload)
    ensures down in cost
    ensures var reg' := reg[cost[down] := up];
            var cost' := cost[up := cost[down]][down := 0];
            && Bridges([Move(down, up)] + code, live, kept, reg', goal, sload)
            && Fits(live, kept, allow, freeset + {down} - {up}, cost', reg', sload)
  {
    assert Occupied(down, live, reg, sload);
    var z :| z in live && z in sload && sload[z] in reg && reg[sload[z]] == down;
    assert cost[down] == sload[z];
    var reg' := reg[cost[down] := up];
    var m := Move(down, up);
    forall f: File, g: File | Holds(g, f, live, kept, sload, reg')
      ensures Holds(Run([m] + code, g), f, goal.live, goal.kept, sload, goal.reg)
    {
      RunPrepend(m, code, g);
      var h := Apply(m, g);
      forall x | x in live
        ensures h(reg[sload[x]]) == f(x)
      {
        if x != z {
          assert sload[x] != sload[z];
          assert cost[reg[sload[x]]] == sload[x];
          assert reg'[sload[x]] == reg[sload[x]];
        } else {
          assert reg'[sload[z]] == up;
        }
      }
      assert Holds(h, f, live, kept, sload, reg);
    }
    var free' := freeset + {down} - {up};
    var cost' := cost[up := cost[down]][down := 0];
    forall x | x in live
      ensures var r := reg'[sload[x]]; r !in free' && r !in kept && r in cost' && cost'[r] == sload[x]
    {
      if x != z {
        assert cost[reg[sload[x]]] == sload[x];
      }
    }
    forall r | r in live && r !in free'
      ensures Occupied(r, live, reg', sload)
    {
      assert Occupied(r, live, reg, sload);
      var x :| x in live && x in sload && sload[x] in reg && reg[sload[x]] == r;
      assert x != z;
      assert reg'[sload[x]] == r;
    }
  }

  /** The part of the assembler state that the shuffle works on. */
  class AsmState {
    var freeset: RegSet
    var modset: RegSet
    var cost: map<Reg, Ref>
    var reg: map<Ref, Reg>
    var mcode: seq<Move>

    constructor (freeset: RegSet, cost: map<Reg, Ref>, reg: map<Ref, Reg>)
      ensures this.freeset == freeset && this.cost == cost && this.reg == reg && mcode == []
    {
      this.freeset, this.cost, this.reg := freeset, cost, reg;
      modset, mcode := {}, [];
    }

    /** Code grows downwards, so the new move runs first. */
    method EmitMov(dst: Reg, src: Reg)
      modifies this`mcode
      ensures mcode == [Move(dst, src)] + old(mcode)
    {
      mcode := [Move(dst, src)] + mcode;
    }

    /** ra_rename: the reference in `down` moves to `up`; backwards, so the emitted
        move is the inverse one. */
    method Rename(down: Reg, up: Reg)
      requires down in cost && down !in freeset && up in freeset
      modifies this
      ensures cost == old(cost[up := cost[down]][down := 0])
      ensures reg == old(reg[cost[down] := up])
      ensures freeset == old(freeset) + {down} - {up}
      ensures mcode == [Move(down, up)] + old(mcode)
    {
      cost := cost[up := cost[down]];
      var ref := cost[up];
      reg := reg[ref := up];
      cost := cost[down := 0];
      freeset := freeset + {down};
      modset := modset + {down};
      freeset := freeset - {up};
      EmitMov(down, up);
    }

    /** The inner loop: while some live register is free, moves it to its target. */
    method CoalesceFree(live0: RegSet, allow0: RegSet, sload: map<Reg, Ref>, ghost goal: Goal, ghost kept0: RegSet,
                        ghost code: seq<Move>, ghost mcode0: seq<Move>)
      returns (live: RegSet, allow: RegSet, ghost kept: RegSet, ghost code': seq<Move>)
      requires Fits(live0, kept0, allow0, freeset, cost, reg, sload)
      requires Bridges(code, live0, kept0, reg, goal, sload)
      requires mcode == code + mcode0
      modifies this`freeset, this`mcode
      ensures live <= live0 && allow == allow0 - (live0 - live) && freeset * live == {}
      ensures forall r :: r in live ==> r !in freeset
      ensures old(freeset) * live0 != {} ==> |live| < |live0|
      ensures old(freeset) * live0 == {} ==> live == live0
      ensures Fits(live, kept, allow, freeset, cost, reg, sload)
      ensures Bridges(code', live, kept, reg, goal, sload)
      ensures mcode == code' + mcode0
    {
      hide Fits, Bridges;
      live, allow, kept, code' := live0, allow0, kept0, code;
      var work := freeset * live;
      while work != {}
        invariant work == freeset * live
        invariant Fits(live, kept, allow, freeset, cost, reg, sload)
        invariant Bridges(code', live, kept, reg, goal, sload)
        invariant mcode == code' + mcode0
        invariant live <= live0 && allow == allow0 - (live0 - live)
        invariant live == live0 ==> freeset == old(freeset)
        invariant live != live0 ==> old(freeset) * live0 != {}
        decreases |live|
      {
        var rp := PickBot(work);
        LiveHasTarget(rp, live, kept, allow, freeset, cost, reg, sload);
        var dst := reg[sload[rp]];
        BridgeMove(code', rp, live, kept, allow, freeset, cost, reg, sload, goal);
        live := live - {rp};
        allow := allow - {rp};
        kept := kept + {rp};
        freeset := freeset + {dst};
        EmitMov(dst, rp);
        code' := [Move(dst, rp)] + code';
        work := freeset * live;
      }
      assert forall r :: r in live ==> r !in freeset by {
        forall r | r in live ensures r !in freeset { assert r in freeset ==> r in work; }
      }
      SmallerSet(live, live0);
    }

    /** Renames one occupied live register of the given class, if there is one. */
    method BreakCycle(cls: RegSet, live: RegSet, allow: RegSet, sload: map<Reg, Ref>, ghost goal: Goal,
                      ghost kept: RegSet,
                      ghost code: seq<Move>, ghost mcode0: seq<Move>)
      returns (ok: bool, ghost code': seq<Move>)
      requires Fits(live, kept, allow, freeset, cost, reg, sload)
      requires forall r :: r in live ==> r in cls ==> r !in freeset
      requires Bridges(code, live, kept, reg, goal, sload)
      requires mcode == code + mcode0
      modifies this
      ensures Fits(live, kept, allow, freeset, cost, reg, sload)
      ensures Bridges(code', live, kept, reg, goal, sload)
      ensures mcode == code' + mcode0
      ensures ok && live * cls != {} ==> freeset * live * cls != {}
      ensures live * cls == {} ==> freeset == old(freeset)
      ensures forall r :: r in live && r !in cls ==> (r in freeset <==> r in old(freeset))
      ensures !ok <==> live * cls != {} && old((freeset - live) * allow * cls) == {}
      ensures !ok ==> Stuck(cls, live, allow, freeset, reg, sload)
    {
      code' := code;
      ok := true;
      if live * cls != {} {
        var tmpset := (freeset - live) * allow * cls;
        if tmpset == {} {
          return false, code;
        }
        var down, up := PickBot(live * cls), PickBot(tmpset);
        BridgeRename(code, down, up, live, kept, allow, freeset, cost, reg, sload, goal);
        Rename(down, up);
        code' := [Move(down, up)] + code;
        assert down in freeset * live * cls;
      }
    }

    /** Breaks one cycle of general and one of floating-point registers. */
    method BreakCycles(live: RegSet, allow: RegSet, sload: map<Reg, Ref>, ghost goal: Goal, ghost kept: RegSet,
                       ghost code: seq<Move>, ghost mcode0: seq<Move>)
      returns (ok: bool, ghost code': seq<Move>)
      requires Fits(live, kept, allow, freeset, cost, reg, sload)
      requires forall r :: r in live ==> r !in freeset
      requires Bridges(code, live, kept, reg, goal, sload)
      requires mcode == code + mcode0
      modifies this
      ensures Fits(live, kept, allow, freeset, cost, reg, sload)
      ensures Bridges(code', live, kept, reg, goal, sload)
      ensures mcode == code' + mcode0
      ensures ok && live != {} ==> freeset * live != {}
      ensures !ok ==>
          Stuck(RSET_GPR, live, allow, freeset, reg, sload) || Stuck(RSET_FPR, live, allow, freeset, reg, sload)
    {
      LiveClasses(live, kept, allow, freeset, cost, reg, sload);
      hide Fits, Bridges, Stuck;
      ok, code' := BreakCycle(RSET_GPR, live, allow, sload, goal, kept, code, mcode0);
      if !ok {
        return;
      }
      ghost var mid := freeset * live * RSET_GPR;
      ok, code' := BreakCycle(RSET_FPR, live, allow, sload, goal, kept, code', mcode0);
      if ok && live * RSET_GPR != {} {
        ghost var r :| r in mid;
        assert r in freeset * live;
      }
    }

    /** The shuffle loop of asm_head_side.  `live0` are the parent registers still to
        be moved, `sload` their target references and `kept0` the parent registers
        that were coalesced before.  On success the emitted code, run in program
        order from any register file, puts every live parent value into the register
        its target had on entry and leaves every coalesced register alone.  Failure
        is reported only in a state where all live registers of one class are taken
        by live targets and no temporary of that class is left. */
    method Shuffle(live0: RegSet, allow0: RegSet, ghost kept0: RegSet, sload: map<Reg, Ref>)
      returns (ok: bool, live: RegSet, allow: RegSet, ghost code: seq<Move>)
      requires Fits(live0, kept0, allow0, freeset, cost, reg, sload)
      modifies this
      ensures mcode == code + old(mcode)
      ensures ok ==> live == {} && allow == allow0 - live0
      ensures ok ==> Shuffles(code, Goal(live0, kept0, old(reg)), sload)
      ensures !ok ==>
          live <= live0 && (Stuck(RSET_GPR, live, allow, freeset, reg, sload)
          || Stuck(RSET_FPR, live, allow, freeset, reg, sload))
    {
      hide Fits, Bridges, Shuffles, Stuck;
      live, allow, code := live0, allow0, [];
      ghost var goal := Goal(live0, kept0, reg);
      ghost var kept := kept0;
      ghost var mcode0 := mcode;
      BridgeNil(live, kept, reg, sload);
      while true
        invariant Fits(live, kept, allow, freeset, cost, reg, sload)
        invariant Bridges(code, live, kept, reg, goal, sload)
        invariant mcode == code + mcode0
        invariant live <= live0 && allow == allow0 - (live0 - live)
        decreases |live|, if freeset * live == {} then 1 else 0
      {
        ghost var before := live;
        live, allow, kept, code := CoalesceFree(live, allow, sload, goal, kept, code, mcode0);
        if live == {} {
          BridgeDone(code, kept, reg, goal, sload);
          ok := true;
          return;
        }
        ok, code := BreakCycles(live, allow, sload, goal, kept, code, mcode0);
        if !ok {
          return;
        }
      }
    }
  }

  lemma SmallerSet(a: RegSet, b: RegSet)
    requires a <= b
    ensures |a| <= |b| && (a != b ==> |a| < |b|)
  {
    assert b == a + (b - a);
    assert a != b ==> b - a != {};
  }
}
