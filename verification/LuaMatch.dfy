/** The matcher of Lua's string library (lib_string.c:163-451): backtracking over a mutable
    array of captures finds the first of all ways to match. */
module LuaMatch {
  import opened LuaPattern
  import opened LuaManual

  /** An error thrown, no match (NULL), or a match up to e. */
  datatype Res = Error | Fail | To(e: nat)

  /** What the result of a match must be, given all ways to match. */
  ghost predicate Found(r: Res, outs: seq<Out>, before: seq<Cap>, after: seq<Cap>) {
    match r
    case Error => true
    case Fail => outs == [] && after == before
    case To(e) => outs != [] && outs[0] == Out(e, after)
  }

  /** Captures lie in the source, unfinished ones begin before s. */
  ghost predicate CapsOk(caps: seq<Cap>, s: nat, n: nat) {
    forall i :: 0 <= i < |caps| ==> CapOk(caps[i], s, n)
  }

  ghost predicate CapOk(c: Cap, s: nat, n: nat) {
    c.init <= n && c.len >= CAP_POSITION && (c.len == CAP_UNFINISHED ==> c.init <= s)
      && (c.len >= 0 ==> c.init + c.len <= n)
  }

  class MatchState {
    const src: string
    const pat: string
    const capture: array<Cap>
    var level: nat
    var depth: nat

    ghost predicate Valid()
      reads this
    {
      capture.Length == LUA_MAXCAPTURES && level <= LUA_MAXCAPTURES
    }

    ghost function Caps(): seq<Cap>
      reads this, capture
      requires Valid()
    {
      capture[..level]
    }

    /** How many nested calls of match are left. */
    ghost function Room(): nat
      reads this`depth
    {
      if depth <= LJ_MAX_XLEVEL then LJ_MAX_XLEVEL - depth else 0
    }

    /** One more call of match throws. */
    ghost predicate CallThrows(p: nat, s: nat, caps: seq<Cap>)
      reads this`depth
    {
      p <= |pat| && s <= |src| && (Room() == 0 || Throws(src, pat, p, s, caps, Room() - 1))
    }

    constructor (src: string, pat: string)
      ensures this.src == src && this.pat == pat && Valid() && fresh(capture) && level == 0 && depth == 0
    {
      this.src, this.pat := src, pat;
      capture := new Cap[LUA_MAXCAPTURES](_ => Cap(0, 0));
      level, depth := 0, 0;
    }

    /** classend; 0 stands for the errors it throws. */
    method ClassEndAt(p: nat) returns (ep: nat)
      requires p < |pat|
      ensures ep == ClassEnd(pat, p)
    {
      if pat[p] == ESC {
        ep := if At(pat, p + 1) == NUL then 0 else p + 2;
      } else if pat[p] == '[' {
        var q := p + 1;
        if At(pat, q) == '^' { q := q + 1; }
        ghost var q0 := q;
        while true
          invariant SetEnd(pat, q) == SetEnd(pat, q0)
          decreases |pat| - q
        {
          if At(pat, q) == NUL { return 0; }
          q := q + 1;
          if At(pat, q - 1) == ESC && At(pat, q) != NUL { q := q + 1; }
          if At(pat, q) == ']' { break; }
        }
        ep := q + 1;
      } else {
        ep := p + 1;
      }
    }

    /** matchbracketclass: the set whose text ends before ec. */
    method BracketClass(c: char, p: nat, ec: nat) returns (r: bool)
      ensures r == InSet(c, pat, p, ec)
    {
      var sig, q := true, p;
      if At(pat, p + 1) == '^' { sig, q := false, q + 1; }
      ghost var q0 := q;
      assert InSet(c, pat, p, ec) == if HasElem(c, Elems(pat, q0, ec)) then sig else !sig;
      hide HasElem, Elems, MatchClass, At, InElem, InSet;
      ElemsEnd(c, pat, ec);
      while q + 1 < ec
        invariant HasElem(c, Elems(pat, q0, ec)) <==> HasElem(c, Elems(pat, q, ec))
        decreases ec - q
      {
        ElemsStep(c, pat, q, ec);
        q := q + 1;
        if At(pat, q) == ESC {
          q := q + 1;
          if MatchClass(c, At(pat, q)) { return sig; }
        } else if At(pat, q + 1) == '-' && q + 2 < ec {
          q := q + 2;
          if At(pat, q - 2) <= c <= At(pat, q) { return sig; }
        } else if At(pat, q) == c {
          return sig;
        }
      }
      r := !sig;
    }

    /** singlematch. */
    method SingleAt(c: char, p: nat, ep: nat) returns (r: bool)
      requires p < |pat| && 0 < ep
      ensures r == Single(c, pat, p, ep)
    {
      match pat[p] {
        case '.' => r := true;
        case '%' => r := MatchClass(c, At(pat, p + 1));
        case '[' => r := BracketClass(c, p, ep - 1);
        case x => r := x == c;
      }
    }

    /** matchbalance, with the two brackets at p; 0 for no match. */
    method BalanceAt(s: nat, p: nat) returns (e: nat)
      requires At(pat, p) != NUL && At(pat, p + 1) != NUL
      ensures e == Balance(src, s, At(pat, p), At(pat, p + 1))
    {
      if At(src, s) != At(pat, p) { return 0; }
      var b, close, cont, i := At(pat, p), At(pat, p + 1), 1, s + 1;
      while i < |src|
        invariant s + 1 <= i <= |src| && cont >= 1
        invariant BalanceEnd(src, s + 1, b, close, 1) == BalanceEnd(src, i, b, close, cont)
      {
        if src[i] == close {
          cont := cont - 1;
          if cont == 0 { return i + 1; }
        } else if src[i] == b {
          cont := cont + 1;
        }
        i := i + 1;
      }
      e := 0;
    }

    /** capture_to_close; level stands for the error it throws. */
    method CaptureToClose() returns (l: nat)
      requires Valid()
      ensures l == ToClose(Caps())
    {
      var i := level;
      CloseAll(capture[..], level);
      while i > 0
        invariant 0 <= i <= level
        invariant forall j :: i <= j < level ==> capture[j].len != CAP_UNFINISHED
      {
        i := i - 1;
        if capture[i].len == CAP_UNFINISHED { return i; }
      }
      l := level;
    }

    /** start_capture. */
    method StartCapture(s: nat, p: nat, what: int) returns (r: Res)
      requires Valid() && s <= |src| && p <= |pat| && CapsOk(Caps(), s, |src|)
        && (what == CAP_UNFINISHED || what == CAP_POSITION)
      modifies this`level, this`depth, capture
      ensures Valid()
      ensures !r.Error? ==> depth == old(depth)
      ensures r.Error? <==> old(level >= LUA_MAXCAPTURES || CallThrows(p, s, Caps() + [Cap(s, what)]))
      ensures !r.Error? ==>
          old(level) < LUA_MAXCAPTURES
          && Found(r, Sem(src, pat, p, s, old(Caps()) + [Cap(s, what)]), old(Caps()), Caps())
      decreases |pat| - p, 2
    {
      if level >= LUA_MAXCAPTURES { return Error; }
      ghost var caps := Caps();
      capture[level] := Cap(s, what);
      level := level + 1;
      assert Caps() == caps + [Cap(s, what)];
      r := Match(s, p);
      if r.Fail? {
        assert Caps() == caps + [Cap(s, what)];
        level := level - 1;
        assert Caps() == caps;
      }
    }

    /** end_capture. */
    method EndCapture(s: nat, p: nat) returns (r: Res)
      requires Valid() && s <= |src| && p <= |pat| && CapsOk(Caps(), s, |src|)
      modifies this`level, this`depth, capture
      ensures Valid()
      ensures !r.Error? ==> depth == old(depth)
      ensures r.Error? <==> old(var caps := Caps(); var l := ToClose(caps);
        l == |caps| || (caps[l].init <= s && CallThrows(p, s, caps[l := Cap(caps[l].init, s - caps[l].init)])))
      ensures !r.Error? ==> var caps := old(Caps()); var l := ToClose(caps);
        l < |caps| && caps[l].init <= s
          && Found(r, Sem(src, pat, p, s, caps[l := Cap(caps[l].init, s - caps[l].init)]), caps, Caps())
      decreases |pat| - p, 2
    {
      ghost var caps := Caps();
      var l := CaptureToClose();
      if l == level { return Error; }
      assert CapOk(caps[l], s, |src|);
      capture[l] := Cap(capture[l].init, s - capture[l].init);
      assert Caps() == caps[l := Cap(caps[l].init, s - caps[l].init)];
      r := Match(s, p);
      if r.Fail? {
        capture[l] := Cap(capture[l].init, CAP_UNFINISHED);
        assert Caps() == caps;
      }
    }

    /** match_capture, for the digit d: Fail, Error, or the end of the repeated text. */
    method MatchCapture(s: nat, d: char) returns (r: Res)
      requires Valid() && s <= |src| && CapsOk(Caps(), s, |src|) && IsDigit(d)
      ensures var caps := Caps(); var l := Referred(caps, d);
        if l == |caps| then r.Error? else if Repeats(src, s, caps[l]) then r == To(s + caps[l].len) else r.Fail?
    {
      var l := d as int - '1' as int;
      if l < 0 || l >= level || capture[l].len == CAP_UNFINISHED { return Error; }
      assert CapOk(Caps()[l], s, |src|);
      var init, len := capture[l].init, capture[l].len;
      if len >= 0 && |src| - s >= len && src[init..init + len] == src[s..s + len] {
        r := To(s + len);
      } else {
        r := Fail;
      }
    }

    /** The first loop of max_expand: how often the class can match. */
    method CountRun(s: nat, p: nat, ep: nat) returns (i: nat)
      requires s <= |src| && p < |pat| && 0 < ep
      ensures i == RunLength(src, pat, p, ep, s)
    {
      hide Single;
      i := 0;
      while s + i < |src|
        invariant s + i <= |src| && RunLength(src, pat, p, ep, s) == i + RunLength(src, pat, p, ep, s + i)
      {
        var m := SingleAt(src[s + i], p, ep);
        if !m { break; }
        i := i + 1;
      }
    }

    /** max_expand. */
    method MaxExpand(s: nat, p: nat, ep: nat) returns (r: Res)
      requires Valid() && s <= |src| && p < ep < |pat| && CapsOk(Caps(), s, |src|)
      modifies this`level, this`depth, capture
      ensures Valid()
      ensures !r.Error? ==> depth == old(depth)
      ensures r.Error? <==>
          old(LongThrows(ThrowsAt(src, pat, ep + 1, Caps(), Room()), Rest(src, pat, ep + 1, Caps()), s,
          RunLength(src, pat, p, ep, s)))
      ensures Found(r, Longest(Rest(src, pat, ep + 1, old(Caps())), s, RunLength(src, pat, p, ep, s)), old(Caps()),
        Caps())
      decreases |pat| - ep, 2
    {
      hide Sem, Single, Rest, Longest, CapsOk, RunLength, Throws, ThrowsAt, LongThrows;
      ghost var caps := Caps();
      ghost var rest, throws := Rest(src, pat, ep + 1, caps), ThrowsAt(src, pat, ep + 1, caps, Room());
      var n := CountRun(s, p, ep);
      var i: int := n;
      while i >= 0
        invariant -1 <= i <= n && Valid() && Caps() == caps && depth == old(depth)
        invariant Longest(rest, s, n) == if i == -1 then [] else Longest(rest, s, i)
        invariant LongThrows(throws, rest, s, n) <==> i >= 0 && LongThrows(throws, rest, s, i)
      {
        LaterCaps(caps, s, s + i, |src|);
        RestAt(src, pat, ep + 1, caps, s + i);
        ThrowsThere(src, pat, ep + 1, caps, Room(), s + i);
        r := Match(s + i, ep + 1);
        LongestStep(rest, s, i, r, caps, Caps());
        LongThrowsStep(throws, rest, s, i, r);
        if !r.Fail? { return; }
        i := i - 1;
      }
      r := Fail;
    }

    /** min_expand. */
    method MinExpand(s0: nat, p: nat, ep: nat) returns (r: Res)
      requires Valid() && s0 <= |src| && p < ep < |pat| && CapsOk(Caps(), s0, |src|)
      modifies this`level, this`depth, capture
      ensures Valid()
      ensures !r.Error? ==> depth == old(depth)
      ensures r.Error? <==>
          old(ShortThrows(ThrowsAt(src, pat, ep + 1, Caps(), Room()), Rest(src, pat, ep + 1, Caps()), s0,
          RunLength(src, pat, p, ep, s0)))
      ensures Found(r, Shortest(Rest(src, pat, ep + 1, old(Caps())), s0, RunLength(src, pat, p, ep, s0)), old(Caps()),
        Caps())
      decreases |pat| - ep, 2
    {
      hide Sem, Single, Rest, Shortest, CapsOk, RunLength, Throws, ThrowsAt, ShortThrows;
      ghost var caps := Caps();
      ghost var rest, throws := Rest(src, pat, ep + 1, caps), ThrowsAt(src, pat, ep + 1, caps, Room());
      var s := s0;
      while true
        invariant s0 <= s <= |src| && Valid() && Caps() == caps && depth == old(depth)
        invariant Shortest(rest, s0, RunLength(src, pat, p, ep, s0)) == Shortest(rest, s, RunLength(src, pat, p, ep, s))
        invariant ShortThrows(throws, rest, s0, RunLength(src, pat, p, ep, s0)) <==>
            ShortThrows(throws, rest, s, RunLength(src, pat, p, ep, s))
        decreases |src| - s
      {
        LaterCaps(caps, s0, s, |src|);
        RestAt(src, pat, ep + 1, caps, s);
        RunIs(src, pat, p, ep, s);
        ThrowsThere(src, pat, ep + 1, caps, Room(), s);
        r := Match(s, ep + 1);
        ShortestStep(rest, s, RunLength(src, pat, p, ep, s), r, caps, Caps());
        ShortThrowsStep(throws, rest, s, RunLength(src, pat, p, ep, s), r);
        if !r.Fail? { return; }
        if s == |src| { return; }
        var m := SingleAt(src[s], p, ep);
        if !m { return; }
        s := s + 1;
      }
    }

    /** A pattern item: a single character class with or without a suffix. */
    method Item(s: nat, p: nat) returns (done: bool, r: Res, s': nat, p': nat)
      requires Valid() && s <= |src| && p < |pat| && CapsOk(Caps(), s, |src|)
      modifies this`level, this`depth, capture
      ensures Valid()
      ensures !done ==> Caps() == old(Caps()) && depth == old(depth) && p < p' <= |pat| && s <= s' <= |src|
      ensures old(ThrowsItem(src, pat, p, s, Caps(), Room())) <==>
          if done then r.Error? else Throws(src, pat, p', s', Caps(), Room())
      ensures done && !r.Error? ==>
          depth == old(depth) && Found(r, SemItem(src, pat, p, s, old(Caps())), old(Caps()), Caps())
      ensures !done ==> SemItem(src, pat, p, s, old(Caps())) == Sem(src, pat, p', s', old(Caps()))
      decreases |pat| - p, 0
    {
      hide Sem, Single, Throws;
      ghost var caps := Caps();
      done, r, s', p' := true, Fail, s, p;
      var ep := ClassEndAt(p);
      if ep == 0 { return true, Error, s, p; }
      var m := false;
      if s < |src| { m := SingleAt(src[s], p, ep); }
      RunIs(src, pat, p, ep, s);
      match At(pat, ep) {
        case '?' =>
          if m {
            LaterCaps(caps, s, s + 1, |src|);
            RestAt(src, pat, ep + 1, caps, s + 1);
            ThrowsThere(src, pat, ep + 1, caps, Room(), s + 1);
            r := Match(s + 1, ep + 1);
            if !r.Fail? { return; }
          }
          done, p' := false, ep + 1;
        case '*' =>
          r := MaxExpand(s, p, ep);
        case '+' =>
          if m {
            LaterCaps(caps, s, s + 1, |src|);
            r := MaxExpand(s + 1, p, ep);
          }
        case '-' =>
          r := MinExpand(s, p, ep);
        case _ =>
          if m { done, s', p' := false, s + 1, ep; }
      }
    }

    /** %b: a balanced string. */
    method BalanceStep(s: nat, p: nat) returns (done: bool, r: Res, s': nat, p': nat)
      requires Valid() && s <= |src| && p <= |pat| && CapsOk(Caps(), s, |src|) && At(pat, p) == ESC
        && At(pat, p + 1) == 'b'
      ensures !done ==> p < p' <= |pat| && s <= s' <= |src|
      ensures Throws(src, pat, p, s, Caps(), Room()) <==>
          if done then r.Error? else Throws(src, pat, p', s', Caps(), Room())
      ensures done && !r.Error? ==> Found(r, Sem(src, pat, p, s, Caps()), Caps(), Caps())
      ensures !done ==> Sem(src, pat, p, s, Caps()) == Sem(src, pat, p', s', Caps())
    {
      hide Single, SemItem, ThrowsItem, Balance;
      done, r, s', p' := true, Fail, s, p;
      if At(pat, p + 2) == NUL || At(pat, p + 3) == NUL { return true, Error, s, p; }
      var e := BalanceAt(s, p + 2);
      if e != 0 { done, s', p' := false, e, p + 4; }
    }

    /** %f: a frontier. */
    method FrontierStep(s: nat, p: nat) returns (done: bool, r: Res, s': nat, p': nat)
      requires Valid() && s <= |src| && p <= |pat| && CapsOk(Caps(), s, |src|) && At(pat, p) == ESC
        && At(pat, p + 1) == 'f'
      ensures !done ==> p < p' <= |pat| && s <= s' <= |src|
      ensures Throws(src, pat, p, s, Caps(), Room()) <==>
          if done then r.Error? else Throws(src, pat, p', s', Caps(), Room())
      ensures done && !r.Error? ==> Found(r, Sem(src, pat, p, s, Caps()), Caps(), Caps())
      ensures !done ==> Sem(src, pat, p, s, Caps()) == Sem(src, pat, p', s', Caps())
    {
      hide Single, SemItem, ThrowsItem, InSet, ClassEnd, Balance, Repeats, Referred, ToClose;
      done, r, s', p' := true, Fail, s, p;
      if At(pat, p + 2) != '[' { return true, Error, s, p; }
      var ep := ClassEndAt(p + 2);
      if ep == 0 { return true, Error, s, p; }
      var previous := if s == 0 then NUL else src[s - 1];
      var before := BracketClass(previous, p + 2, ep - 1);
      var here := BracketClass(At(src, s), p + 2, ep - 1);
      if !before && here { done, p' := false, ep; }
    }

    /** A digit: the text of a capture again. */
    method DigitStep(s: nat, p: nat) returns (done: bool, r: Res, s': nat, p': nat)
      requires Valid() && s <= |src| && p <= |pat| && CapsOk(Caps(), s, |src|) && At(pat, p) == ESC
        && IsDigit(At(pat, p + 1))
      ensures !done ==> p < p' <= |pat| && s <= s' <= |src|
      ensures Throws(src, pat, p, s, Caps(), Room()) <==>
          if done then r.Error? else Throws(src, pat, p', s', Caps(), Room())
      ensures done && !r.Error? ==> Found(r, Sem(src, pat, p, s, Caps()), Caps(), Caps())
      ensures !done ==> Sem(src, pat, p, s, Caps()) == Sem(src, pat, p', s', Caps())
    {
      hide Single, SemItem, ThrowsItem, Balance, Frontier, ClassEnd, ToClose;
      done, r, s', p' := true, Fail, s, p;
      var x := MatchCapture(s, At(pat, p + 1));
      if x.To? { done, s', p' := false, x.e, p + 2; } else { r := x; }
    }

    /** One turn of match: the result, or where to go on (goto init). */
    method Step(s: nat, p: nat) returns (done: bool, r: Res, s': nat, p': nat)
      requires Valid() && s <= |src| && p <= |pat| && CapsOk(Caps(), s, |src|)
      modifies this`level, this`depth, capture
      ensures Valid()
      ensures !done ==> Caps() == old(Caps()) && depth == old(depth) && p < p' <= |pat| && s <= s' <= |src|
      ensures old(Throws(src, pat, p, s, Caps(), Room())) <==>
          if done then r.Error? else Throws(src, pat, p', s', Caps(), Room())
      ensures done && !r.Error? ==>
          depth == old(depth) && Found(r, Sem(src, pat, p, s, old(Caps())), old(Caps()), Caps())
      ensures !done ==> Sem(src, pat, p, s, old(Caps())) == Sem(src, pat, p', s', old(Caps()))
      decreases |pat| - p, 1, 0
    {
      hide Single, SemItem, ThrowsItem, ToClose, Balance, ClassEnd, Repeats, Referred, Frontier;
      done, r, s', p' := true, Fail, s, p;
      var c, d := At(pat, p), At(pat, p + 1);
      if c == NUL {
        r := To(s);
      } else if c == '(' {
        if d == ')' { r := StartCapture(s, p + 2, CAP_POSITION); } else { r := StartCapture(s, p + 1, CAP_UNFINISHED); }
      } else if c == ')' {
        r := EndCapture(s, p + 1);
      } else if c == ESC && d == 'b' {
        done, r, s', p' := BalanceStep(s, p);
      } else if c == ESC && d == 'f' {
        done, r, s', p' := FrontierStep(s, p);
      } else if c == ESC && IsDigit(d) {
        done, r, s', p' := DigitStep(s, p);
      } else if c == '$' && d == NUL {
        if s == |src| { r := To(s); }
      } else {
        done, r, s', p' := Item(s, p);
      }
    }

    /** match: the first of all ways to match, or NULL when there is none; an error exactly
        when the search throws.  The depth is restored; after a failure so are the captures. */
    method Match(s0: nat, p0: nat) returns (r: Res)
      requires Valid() && s0 <= |src| && p0 <= |pat| && CapsOk(Caps(), s0, |src|)
      modifies this`level, this`depth, capture
      ensures Valid()
      ensures !r.Error? ==> depth == old(depth)
      ensures r.Error? <==> old(CallThrows(p0, s0, Caps()))
      ensures Found(r, Sem(src, pat, p0, s0, old(Caps())), old(Caps()), Caps())
      ensures r.To? ==> Best(src, pat, p0, s0, old(Caps()), Out(r.e, Caps()))
      ensures r.Fail? ==> NoWay(src, pat, p0, s0, old(Caps())) && Caps() == old(Caps())
      decreases |pat| - p0, 1, 1
    {
      hide Sem, Throws, Best, NoWay;
      SemIsBest(src, pat, p0, s0, Caps());
      ghost var caps, throws := Caps(), CallThrows(p0, s0, Caps());
      depth := depth + 1;
      if depth > LJ_MAX_XLEVEL { return Error; }
      var s, p, done := s0, p0, false;
      r := Fail;
      while !done
        invariant Valid() && p0 <= p <= |pat| && s0 <= s <= |src|
        invariant !r.Error? ==> depth == old(depth) + 1
        invariant throws <==> if done then r.Error? else Throws(src, pat, p, s, caps, Room())
        invariant !done ==>
            Caps() == caps && CapsOk(caps, s, |src|) && !r.Error?
            && Sem(src, pat, p0, s0, caps) == Sem(src, pat, p, s, caps)
        invariant done ==> Found(r, Sem(src, pat, p0, s0, caps), caps, Caps())
        decreases !done, |pat| - p
      {
        var s1, p1;
        done, r, s1, p1 := Step(s, p);
        if !done {
          LaterCaps(caps, s, s1, |src|);
          s, p, r := s1, p1, Fail;
        }
      }
      if !r.Error? { depth := depth - 1; }
    }
  }

  lemma RestAt(src: string, pat: string, q: nat, caps: seq<Cap>, t: nat)
    requires q <= |pat| && t <= |src|
    ensures Rest(src, pat, q, caps)(t) == Sem(src, pat, q, t, caps)
  {
  }

  lemma ThrowsThere(src: string, pat: string, q: nat, caps: seq<Cap>, room: nat, t: nat)
    requires q <= |pat| && t <= |src|
    ensures ThrowsAt(src, pat, q, caps, room)(t) == (room == 0 || Throws(src, pat, q, t, caps, room - 1))
  {
    hide Throws;
  }

  lemma LongThrowsStep(throws: nat -> bool, rest: nat -> seq<Out>, s: nat, i: nat, r: Res)
    requires (r.Error? <==> throws(s + i)) && (!r.Error? ==> (r.Fail? <==> rest(s + i) == []))
    ensures LongThrows(throws, rest, s, i) <==> r.Error? || (r.Fail? && i > 0 && LongThrows(throws, rest, s, i - 1))
  {
  }

  lemma ShortThrowsStep(throws: nat -> bool, rest: nat -> seq<Out>, s: nat, n: nat, r: Res)
    requires (r.Error? <==> throws(s)) && (!r.Error? ==> (r.Fail? <==> rest(s) == []))
    ensures ShortThrows(throws, rest, s, n) <==>
        r.Error? || (r.Fail? && n > 0 && ShortThrows(throws, rest, s + 1, n - 1))
  {
  }

  /** The first way to go on after the most repetitions comes first of all; without one the
      others remain. */
  lemma LongestStep(rest: nat -> seq<Out>, s: nat, i: nat, r: Res, before: seq<Cap>, after: seq<Cap>)
    requires Found(r, rest(s + i), before, after)
    ensures if r.Fail? then Longest(rest, s, i) == (if i == 0 then [] else Longest(rest, s, i - 1))
      else Found(r, Longest(rest, s, i), before, after)
  {
  }

  lemma ShortestStep(rest: nat -> seq<Out>, s: nat, n: nat, r: Res, before: seq<Cap>, after: seq<Cap>)
    requires Found(r, rest(s), before, after)
    ensures if r.Fail? then Shortest(rest, s, n) == (if n == 0 then [] else Shortest(rest, s + 1, n - 1))
      else Found(r, Shortest(rest, s, n), before, after)
  {
  }

  lemma RunIs(src: string, pat: string, p: nat, ep: nat, s: nat)
    requires p < |pat| && 0 < ep && s <= |src|
    ensures RunLength(src, pat, p, ep, s) == if s < |src| && Single(src[s], pat, p, ep) then
      1 + RunLength(src, pat, p, ep, s + 1) else 0
  {
  }

  lemma ElemsEnd(c: char, pat: string, ec: nat)
    ensures forall q: nat :: q + 1 >= ec ==> !HasElem(c, Elems(pat, q, ec))
  {
  }

  /** One element of a set. */
  lemma ElemsStep(c: char, pat: string, p: nat, ec: nat)
    requires p + 1 < ec
    ensures var q := p + 1;
      HasElem(c, Elems(pat, p, ec)) <==>
        if At(pat, q) == ESC then MatchClass(c, At(pat, q + 1)) || HasElem(c, Elems(pat, q + 1, ec))
        else if At(pat, q + 1) == '-' && q + 2 < ec then
          At(pat, q) <= c <= At(pat, q + 2) || HasElem(c, Elems(pat, q + 2, ec))
        else At(pat, q) == c || HasElem(c, Elems(pat, q, ec))
  {
    var q := p + 1;
    var x := if At(pat, q) == ESC then Class(At(pat, q + 1))
      else if At(pat, q + 1) == '-' && q + 2 < ec then Range(At(pat, q), At(pat, q + 2)) else One(At(pat, q));
    var rest := if At(pat, q) == ESC then Elems(pat, q + 1, ec)
      else if At(pat, q + 1) == '-' && q + 2 < ec then Elems(pat, q + 2, ec) else Elems(pat, q, ec);
    assert Elems(pat, p, ec) == [x] + rest;
    assert HasElem(c, [x] + rest) <==> InElem(c, x) || HasElem(c, rest);
  }

  lemma CloseAll(caps: seq<Cap>, n: nat)
    requires n <= |caps|
    ensures forall l ::
              0 <= l < n && caps[l].len == CAP_UNFINISHED
              && (forall j :: l < j < n ==> caps[j].len != CAP_UNFINISHED) ==>
                ToClose(caps[..n]) == l
    ensures (forall j :: 0 <= j < n ==> caps[j].len != CAP_UNFINISHED) ==> ToClose(caps[..n]) == n
  {
  }

  lemma LaterCaps(caps: seq<Cap>, s: nat, t: nat, n: nat)
    requires CapsOk(caps, s, n) && s <= t
    ensures CapsOk(caps, t, n)
  {
    forall i | 0 <= i < |caps| ensures CapOk(caps[i], t, n) { assert CapOk(caps[i], s, n); }
  }
}
