/** string.find, string.match and string.gsub on top of the matcher (lib_string.c:453-560,
    605-695). */
module LuaFind {
  import opened LuaPattern
  import opened LuaManual
  import opened LuaMatch

  // ----- what every match satisfies

  /** A match ends in the source, not before it begins, with captures inside the source. */
  lemma {:induction false} MatchBounds(src: string, pat: string, p: nat, s: nat, caps: seq<Cap>, o: Out)
    requires p <= |pat| && s <= |src| && CapsOk(caps, s, |src|) && |caps| <= LUA_MAXCAPTURES
      && Matches(src, pat, p, s, caps, o)
    ensures s <= o.e <= |src| && CapsOk(o.caps, o.e, |src|) && |o.caps| <= LUA_MAXCAPTURES
    decreases |pat| - p
  {
    hide Single;
    var c, d := At(pat, p), At(pat, p + 1);
    if c == NUL || (c == '$' && d == NUL) {
    } else if c == '(' {
      MoreCaps(caps, s, |src|, Cap(s, if d == ')' then CAP_POSITION else CAP_UNFINISHED));
      if d == ')' { MatchBounds(src, pat, p + 2, s, caps + [Cap(s, CAP_POSITION)], o); }
      else { MatchBounds(src, pat, p + 1, s, caps + [Cap(s, CAP_UNFINISHED)], o); }
    } else if c == ')' {
      var l := ToClose(caps);
      var caps' := caps[l := Cap(caps[l].init, s - caps[l].init)];
      forall i | 0 <= i < |caps'| ensures CapOk(caps'[i], s, |src|) { assert CapOk(caps[i], s, |src|); }
      MatchBounds(src, pat, p + 1, s, caps', o);
    } else if c == ESC && d == 'b' {
      var e := Balance(src, s, At(pat, p + 2), At(pat, p + 3));
      LaterCaps(caps, s, e, |src|);
      MatchBounds(src, pat, p + 4, e, caps, o);
    } else if c == ESC && d == 'f' {
      MatchBounds(src, pat, ClassEnd(pat, p + 2), s, caps, o);
    } else if c == ESC && IsDigit(d) {
      var e := s + caps[Referred(caps, d)].len;
      LaterCaps(caps, s, e, |src|);
      MatchBounds(src, pat, p + 2, e, caps, o);
    } else {
      var ep := ClassEnd(pat, p);
      var q, t: nat := if IsSuffix(At(pat, ep)) then ep + 1 else ep, s + 1;
      if IsSuffix(At(pat, ep)) {
        t :| Repeated(src, pat, p, ep, s, t) && Matches(src, pat, ep + 1, t, caps, o);
        RepeatedEnds(src, pat, p, ep, s, t);
      } else {
        assert Repeated(src, pat, p, ep, s, s + 1);
      }
      LaterCaps(caps, s, t, |src|);
      MatchBounds(src, pat, q, t, caps, o);
    }
  }

  lemma RepeatedEnds(src: string, pat: string, p: nat, ep: nat, s: nat, t: nat)
    requires p < |pat| && 0 < ep && Repeated(src, pat, p, ep, s, t)
    ensures s <= t <= |src|
  {
  }

  lemma MoreCaps(caps: seq<Cap>, s: nat, n: nat, c: Cap)
    requires CapsOk(caps, s, n) && CapOk(c, s, n)
    ensures CapsOk(caps + [c], s, n)
  {
    forall i | 0 <= i < |caps + [c]| ensures CapOk((caps + [c])[i], s, n) {
      if i < |caps| { assert CapOk(caps[i], s, n); }
    }
  }

  /** What match returns is a match, and NULL means that there is none. */
  lemma FoundMeans(src: string, pat: string, p: nat, s: nat, caps: seq<Cap>, r: Res, after: seq<Cap>)
    requires p <= |pat| && s <= |src| && CapsOk(caps, s, |src|) && |caps| <= LUA_MAXCAPTURES
    requires Found(r, Sem(src, pat, p, s, caps), caps, after)
    ensures r.Fail? ==> forall o :: !Matches(src, pat, p, s, caps, o)
    ensures r.To? ==>
        Matches(src, pat, p, s, caps, Out(r.e, after)) && s <= r.e <= |src| && CapsOk(after, r.e, |src|)
        && |after| <= LUA_MAXCAPTURES
  {
    hide Sem, Matches;
    if r.Fail? {
      forall o ensures !Matches(src, pat, p, s, caps, o) { SemIsMatches(src, pat, p, s, caps, o); }
    } else if r.To? {
      SemIsMatches(src, pat, p, s, caps, Out(r.e, after));
      MatchBounds(src, pat, p, s, caps, Out(r.e, after));
    }
  }

  // ----- plain search

  /** The text t stands at i. */
  predicate StandsAt(src: string, i: nat, t: string) {
    i + |t| <= |src| && src[i..i + |t|] == t
  }

  /** lmemfind from `init` on: the first place where t stands, or -1. */
  method PlainFind(src: string, init: nat, t: string) returns (r: int)
    requires init <= |src|
    ensures r == -1 ==> forall i: nat :: init <= i ==> !StandsAt(src, i, t)
    ensures r != -1 ==> init <= r && StandsAt(src, r, t) && forall i: nat :: init <= i < r ==> !StandsAt(src, i, t)
  {
    if |t| == 0 { return init; }
    if |t| > |src| - init { return -1; }
    var l1, s1: nat := |src| - init - (|t| - 1), init;
    while l1 > 0
      invariant init <= s1 && s1 + l1 + (|t| - 1) == |src|
      invariant forall i: nat :: init <= i < s1 ==> !StandsAt(src, i, t)
    {
      var at := MemChr(src, s1, l1, t[0]);
      if at == -1 {
        forall i: nat | s1 <= i ensures !StandsAt(src, i, t) { NoFirst(src, i, t); }
        return -1;
      }
      forall i: nat | s1 <= i < at ensures !StandsAt(src, i, t) { NoFirst(src, i, t); }
      if src[at + 1..at + |t|] == t[1..] {
        assert src[at..at + |t|] == [src[at]] + src[at + 1..at + |t|];
        return at;
      }
      TailStands(src, at, t);
      l1 := l1 - (at + 1 - s1);
      s1 := at + 1;
    }
    return -1;
  }

  lemma TailStands(src: string, i: nat, t: string)
    requires |t| > 0 && i + |t| <= |src|
    ensures StandsAt(src, i, t) ==> src[i + 1..i + |t|] == t[1..]
  {
    assert src[i + 1..i + |t|] == src[i..i + |t|][1..];
  }

  lemma NoFirst(src: string, i: nat, t: string)
    requires |t| > 0
    ensures StandsAt(src, i, t) ==> src[i] == t[0]
  {
    if StandsAt(src, i, t) { assert src[i..i + |t|][0] == src[i]; }
  }

  method MemChr(src: string, s: nat, n: nat, c: char) returns (r: int)
    requires s + n <= |src|
    ensures r == -1 ==> forall i :: s <= i < s + n ==> src[i] != c
    ensures r != -1 ==> s <= r < s + n && src[r] == c && forall i :: s <= i < r ==> src[i] != c
  {
    var i := s;
    while i < s + n
      invariant s <= i <= s + n && forall j :: s <= j < i ==> src[j] != c
    {
      if src[i] == c { return i; }
      i := i + 1;
    }
    return -1;
  }

  // ----- search with a pattern

  /** The pattern from p on matches at s. */
  ghost predicate CanMatch(src: string, pat: string, p: nat, s: nat)
    requires p <= |pat| && s <= |src|
  {
    exists o :: Matches(src, pat, p, s, [], o)
  }

  /** Where a pattern begins behind its anchor. */
  function Start(pat: string): (p: nat)
    ensures p <= |pat|
  {
    if At(pat, 0) == '^' then 1 else 0
  }

  /** The matcher throws no error for this pattern. */
  predicate GoodPattern(pat: string) {
    WellFormed(pat, Start(pat), [], LJ_MAX_XLEVEL - 1)
  }

  /** The search at s throws. */
  predicate ThrowsFrom(src: string, pat: string, s: nat)
    requires s <= |src|
  {
    Throws(src, pat, Start(pat), s, [], LJ_MAX_XLEVEL - 1)
  }

  lemma GoodNeverThrows(src: string, pat: string, s: nat)
    requires s <= |src| && GoodPattern(pat)
    ensures !ThrowsFrom(src, pat, s)
  {
    assert Shape([]) == [];
    WellFormedNeverThrows(src, pat, Start(pat), s, [], LJ_MAX_XLEVEL - 1);
  }

  /** Nothing is found at s, and nothing is thrown. */
  ghost predicate NothingAt(src: string, pat: string, s: nat)
    requires s <= |src|
  {
    !CanMatch(src, pat, Start(pat), s) && !ThrowsFrom(src, pat, s)
  }

  /** The result is the first match at the first place that has one, or the error thrown at
      the first place where something is found or thrown. */
  ghost predicate Leftmost(src: string, pat: string, init: nat, r: Res, at: nat, caps: seq<Cap>) {
    var p := Start(pat);
    && init <= at <= |src| && (p == 1 ==> at == init) && (forall s: nat :: init <= s < at ==> NothingAt(src, pat, s))
    && match r
       case Error => ThrowsFrom(src, pat, at)
       case Fail => NothingAt(src, pat, at) && (p == 0 ==> at == |src|)
       case To(e) =>
         && !ThrowsFrom(src, pat, at) && at <= e <= |src| && Matches(src, pat, p, at, [], Out(e, caps))
         && Sem(src, pat, p, at, []) != [] && Sem(src, pat, p, at, [])[0] == Out(e, caps)
  }

  /** The same by the manual: the preferred match at the first place that has one; a leading ^
      anchors the pattern. */
  ghost predicate FirstPlace(src: string, pat: string, init: nat, r: Res, at: nat, caps: seq<Cap>) {
    var p := if At(pat, 0) == '^' then 1 else 0;
    && init <= at <= |src| && (p == 1 ==> at == init)
    && (forall s: nat :: init <= s < at ==> NoWay(src, pat, p, s, []))
    && match r
       case Error => true
       case Fail => NoWay(src, pat, p, at, []) && (p == 0 ==> at == |src|)
       case To(e) => at <= e <= |src| && Best(src, pat, p, at, [], Out(e, caps))
  }

  /** The loop of str_find_aux: the first place from `init` on where the pattern matches, or
      only `init` when the pattern is anchored. */
  method PatternFind(src: string, pat: string, init: nat) returns (r: Res, at: nat, caps: seq<Cap>)
    requires init <= |src|
    ensures Leftmost(src, pat, init, r, at, caps) && FirstPlace(src, pat, init, r, at, caps)
    ensures GoodPattern(pat) ==> !r.Error?
  {
    hide Sem, Matches, WellFormed, Throws, Best, NoWay;
    var anchor := At(pat, 0) == '^';
    var p: nat := if anchor then 1 else 0;
    var ms := new MatchState(src, pat);
    at := init;
    while true
      invariant init <= at <= |src| && ms.Valid() && fresh(ms) && fresh(ms.capture) && ms.src == src && ms.pat == pat
      invariant anchor ==> at == init
      invariant forall s: nat :: init <= s < at ==> NothingAt(src, pat, s) && NoWay(src, pat, p, s, [])
      decreases |src| - at
    {
      ms.level, ms.depth := 0, 0;
      assert ms.Caps() == [] && (ms.CallThrows(p, at, []) <==> ThrowsFrom(src, pat, at));
      if GoodPattern(pat) { GoodNeverThrows(src, pat, at); }
      r := ms.Match(at, p);
      caps := [];
      if r.Error? { return; }
      FoundMeans(src, pat, p, at, [], r, ms.Caps());
      if r.To? { caps := ms.capture[..ms.level]; return; }
      if at >= |src| || anchor { return; }
      at := at + 1;
    }
  }

  // ----- patterns without special characters

  predicate IsSpecial(c: char) { c in "^$*+?.([%-" }

  /** Where the pattern ends for C. */
  function PatEnd(pat: string): (n: nat)
    ensures n <= |pat| && (n < |pat| ==> pat[n] == NUL) && forall i :: 0 <= i < n ==> pat[i] != NUL
  {
    if pat == [] || pat[0] == NUL then 0 else 1 + PatEnd(pat[1..])
  }

  /** strpbrk finds no special character. */
  predicate NoSpecials(pat: string) {
    forall i :: 0 <= i < PatEnd(pat) ==> !IsSpecial(pat[i])
  }

  /** Such a pattern matches its own text up to the NUL and nothing else. */
  lemma {:induction false} PlainMatches(src: string, pat: string, p: nat, s: nat, o: Out)
    requires NoSpecials(pat) && p <= PatEnd(pat) && s <= |src| && (forall i :: p <= i < PatEnd(pat) ==> pat[i] != ')')
    ensures Matches(src, pat, p, s, [], o) <==>
        StandsAt(src, s, pat[p..PatEnd(pat)]) && o == Out(s + (PatEnd(pat) - p), [])
    decreases |pat| - p
  {
    var n := PatEnd(pat);
    if p == n {
      assert pat[p..n] == [];
    } else {
      assert ClassEnd(pat, p) == p + 1 && !IsSuffix(At(pat, p + 1));
      if s < |src| {
        PlainMatches(src, pat, p + 1, s + 1, o);
        assert pat[p..n] == [pat[p]] + pat[p + 1..n];
        if s + (n - p) <= |src| { assert src[s..s + (n - p)] == [src[s]] + src[s + 1..s + (n - p)]; }
      }
    }
  }

  /** A pattern that closes a capture it has not opened cannot match. */
  lemma {:induction false} CloseNeverMatches(src: string, pat: string, p: nat, s: nat, o: Out, i: nat)
    requires NoSpecials(pat) && p <= i < PatEnd(pat) && pat[i] == ')' && s <= |src|
    ensures !Matches(src, pat, p, s, [], o)
    decreases |pat| - p
  {
    if pat[p] != ')' {
      assert ClassEnd(pat, p) == p + 1 && !IsSuffix(At(pat, p + 1));
      if s < |src| { CloseNeverMatches(src, pat, p + 1, s + 1, o, i); }
    }
  }

  /** A plain search for a pattern without special characters, which string.find uses for
      speed, finds what the pattern search would find if and only if the pattern holds no
      NUL and no ')': the pattern ends at a NUL, and ')' is none of the special characters
      though it closes a capture. */
  lemma PlainAgrees(pat: string)
    requires NoSpecials(pat)
    ensures (forall src: string, i: nat :: i <= |src| ==> (CanMatch(src, pat, 0, i) <==> StandsAt(src, i, pat))) <==>
        NUL !in pat && ')' !in pat
  {
    var n := PatEnd(pat);
    assert NUL !in pat <==> n == |pat|;
    if i: nat :| i < n && pat[i] == ')' {
      forall o ensures !Matches(pat, pat, 0, 0, [], o) { CloseNeverMatches(pat, pat, 0, 0, o, i); }
      assert pat[0..0 + |pat|] == pat;
      assert !CanMatch(pat, pat, 0, 0) && StandsAt(pat, 0, pat);
    } else {
      OpenAgrees(pat);
    }
  }

  /** Up to the NUL such a pattern means its own text. */
  lemma OpenAgrees(pat: string)
    requires NoSpecials(pat) && forall i :: 0 <= i < PatEnd(pat) ==> pat[i] != ')'
    ensures (forall src: string, i: nat :: i <= |src| ==> (CanMatch(src, pat, 0, i) <==> StandsAt(src, i, pat))) <==>
        NUL !in pat
  {
    var n := PatEnd(pat);
    assert NUL !in pat <==> n == |pat|;
    forall src: string, i: nat | i <= |src|
      ensures CanMatch(src, pat, 0, i) <==> StandsAt(src, i, pat[..n])
    {
      forall o ensures Matches(src, pat, 0, i, [], o) <==> StandsAt(src, i, pat[..n]) && o == Out(i + n, []) {
        PlainMatches(src, pat, 0, i, o);
        assert pat[0..n] == pat[..n];
      }
      if StandsAt(src, i, pat[..n]) { assert Matches(src, pat, 0, i, [], Out(i + n, [])); }
    }
    if n == |pat| {
      assert pat[..n] == pat;
    } else {
      var src := pat[..n];
      assert src[0..0 + n] == src;
      assert CanMatch(src, pat, 0, 0) && !StandsAt(src, 0, pat);
    }
  }

  /** string.find(")", ")") succeeds, though the pattern ")" is malformed and matches nowhere. */
  lemma CloseDisagrees()
    ensures NoSpecials(")") && StandsAt(")", 0, ")") && !CanMatch(")", ")", 0, 0) && !GoodPattern(")")
  {
    var pat := ")";
    assert PatEnd(pat) == 1 by { assert pat[1..] == ""; }
    forall o ensures !Matches(pat, pat, 0, 0, [], o) { CloseNeverMatches(pat, pat, 0, 0, o, 0); }
    assert pat[0..0 + |pat|] == pat;
  }

  /** The pattern "a\0b" is read as "a": it matches "a", where the plain search finds nothing. */
  lemma NulDisagrees()
    ensures var pat := "a\0b"; NoSpecials(pat) && CanMatch("a", pat, 0, 0) && !StandsAt("a", 0, pat)
  {
    var pat := "a\0b";
    assert pat[1..] == "\0b" && PatEnd(pat[1..]) == 0 && PatEnd(pat) == 1;
    PlainMatches("a", pat, 0, 0, Out(1, []));
    assert pat[0..1] == "a" && "a"[0..0 + 1] == "a";
    assert Matches("a", pat, 0, 0, [], Out(1, []));
  }

  // ----- gsub

  /** The source is cut into pieces that are copied and pieces that are matched. */
  datatype Piece = Copied(from: nat, to: nat) | Matched(from: nat, to: nat, caps: seq<Cap>)

  /** What gsub does from s on, with at most `budget` more substitutions. */
  ghost function Pieces(src: string, pat: string, s: nat, budget: nat): seq<Piece>
    requires s <= |src|
    decreases |src| - s, 1
  {
    if budget == 0 then [Copied(s, |src|)]
    else
      var outs := Sem(src, pat, Start(pat), s, []);
      if outs != [] && s <= outs[0].e <= |src| then
        [Matched(s, outs[0].e, outs[0].caps)] +
        (if s < outs[0].e then Onward(src, pat, outs[0].e, budget - 1) else CopyOne(src, pat, s, budget - 1))
      else CopyOne(src, pat, s, budget)
  }

  /** An anchored pattern is tried once. */
  ghost function Onward(src: string, pat: string, s: nat, budget: nat): seq<Piece>
    requires s <= |src|
    decreases |src| - s, 2
  {
    if At(pat, 0) == '^' then [Copied(s, |src|)] else Pieces(src, pat, s, budget)
  }

  ghost function CopyOne(src: string, pat: string, s: nat, budget: nat): seq<Piece>
    requires s <= |src|
    decreases |src| - s, 0
  {
    if s < |src| then [Copied(s, s + 1)] + Onward(src, pat, s + 1, budget) else [Copied(s, s)]
  }

  ghost predicate PiecesOk(src: string, xs: seq<Piece>) {
    forall i :: 0 <= i < |xs| ==> xs[i].from <= xs[i].to <= |src|
  }

  /** The text of the pieces in the source. */
  ghost function SourceText(src: string, xs: seq<Piece>): string
    requires PiecesOk(src, xs)
  {
    if xs == [] then "" else src[xs[0].from..xs[0].to] + SourceText(src, xs[1..])
  }

  ghost function CountMatched(xs: seq<Piece>): nat {
    if xs == [] then 0 else (if xs[0].Matched? then 1 else 0) + CountMatched(xs[1..])
  }

  /** The pieces make up the source from s on, with at most `budget` matches. */
  ghost predicate MakeUp(src: string, s: nat, xs: seq<Piece>, budget: nat) {
    s <= |src| && PiecesOk(src, xs) && SourceText(src, xs) == src[s..] && CountMatched(xs) <= budget
  }

  /** In their order the pieces of gsub make up the source. */
  lemma {:induction false} PiecesAreSource(src: string, pat: string, s: nat, budget: nat)
    requires s <= |src|
    ensures MakeUp(src, s, Pieces(src, pat, s, budget), budget)
    decreases |src| - s, 1
  {
    hide Sem, MakeUp, CopyOne, Onward;
    if budget == 0 {
      CopiedRest(src, s, budget);
    } else {
      var outs := Sem(src, pat, Start(pat), s, []);
      if outs != [] && s <= outs[0].e <= |src| {
        var e := outs[0].e;
        if s < e { OnwardIsSource(src, pat, e, budget - 1); } else { CopyOneIsSource(src, pat, s, budget - 1); }
        PieceFirst(src, Matched(s, e, outs[0].caps), if s < e then Onward(src, pat, e, budget - 1)
          else CopyOne(src, pat, s, budget - 1), budget - 1);
      } else {
        CopyOneIsSource(src, pat, s, budget);
      }
    }
  }

  lemma {:induction false} OnwardIsSource(src: string, pat: string, s: nat, budget: nat)
    requires s <= |src|
    ensures MakeUp(src, s, Onward(src, pat, s, budget), budget)
    decreases |src| - s, 2
  {
    hide Sem, MakeUp, Pieces;
    if At(pat, 0) == '^' { CopiedRest(src, s, budget); } else { PiecesAreSource(src, pat, s, budget); }
  }

  lemma {:induction false} CopyOneIsSource(src: string, pat: string, s: nat, budget: nat)
    requires s <= |src|
    ensures MakeUp(src, s, CopyOne(src, pat, s, budget), budget)
    decreases |src| - s, 0
  {
    hide Sem, MakeUp, Onward;
    if s < |src| {
      OnwardIsSource(src, pat, s + 1, budget);
      PieceFirst(src, Copied(s, s + 1), Onward(src, pat, s + 1, budget), budget);
    } else {
      CopiedRest(src, s, budget);
    }
  }

  lemma CopiedRest(src: string, s: nat, budget: nat)
    requires s <= |src|
    ensures MakeUp(src, s, [Copied(s, |src|)], budget)
  {
    assert [Copied(s, |src|)][1..] == [];
  }

  lemma PieceFirst(src: string, x: Piece, xs: seq<Piece>, budget: nat)
    requires x.from <= x.to && MakeUp(src, x.to, xs, budget)
    ensures MakeUp(src, x.from, [x] + xs, if x.Matched? then budget + 1 else budget)
  {
    assert ([x] + xs)[1..] == xs;
    assert src[x.from..x.to] + src[x.to..] == src[x.from..];
  }

  // ----- what gsub matches and what it copies

  /** A piece of the source as gsub cuts it, after a piece that is an empty match (`again`) or
      not.  While matches are left, the preferred match is taken wherever there is one, but
      not where an empty one has just been; an anchored pattern is tried once. */
  ghost predicate PieceOk(src: string, pat: string, xs: seq<Piece>, i: nat, budget: nat, again0: bool, blocked: bool)
    requires i < |xs|
  {
    var p := if At(pat, 0) == '^' then 1 else 0;
    var x := xs[i];
    var again := if i == 0 then again0 else xs[i - 1].Matched? && xs[i - 1].from == xs[i - 1].to;
    var tries := CountMatched(xs[..i]) < budget && !blocked && (p == 1 ==> i == 0) && !again;
    && p <= |pat| && x.from <= x.to <= |src| && (i > 0 ==> x.from == xs[i - 1].to)
    && match x
       case Matched(from, to, caps) => tries && i + 1 < |xs| && Best(src, pat, p, from, [], Out(to, caps))
       case Copied(from, to) =>
         && (tries ==> NoWay(src, pat, p, from, []))
         && if i + 1 < |xs| then to == from + 1
            else to == |src| && (from == |src| || CountMatched(xs[..i]) == budget || blocked || (p == 1 && i > 0))
  }

  ghost predicate Cut(src: string, pat: string, xs: seq<Piece>, s: nat, budget: nat, again: bool, blocked: bool) {
    xs != [] && xs[0].from == s
    && forall i :: 0 <= i < |xs| ==> PieceOk(src, pat, xs, i, budget, again, blocked)
  }

  lemma CutFirst(src: string, pat: string, x: Piece, ys: seq<Piece>, budget: nat, again: bool, blocked: bool)
    requires var m := if x.Matched? then 1 else 0; var anchored := At(pat, 0) == '^';
      m <= budget && Cut(src, pat, ys, x.to, budget - m, x.Matched? && x.from == x.to, blocked || anchored)
    requires CountMatched([]) == 0 && PieceOk(src, pat, [x] + ys, 0, budget, again, blocked)
    ensures Cut(src, pat, [x] + ys, x.from, budget, again, blocked)
  {
    hide Best, NoWay, CountMatched;
    var xs := [x] + ys;
    forall i | 0 <= i < |xs|
      ensures PieceOk(src, pat, xs, i, budget, again, blocked)
    {
      if i > 0 {
        var m := if x.Matched? then 1 else 0;
        assert PieceOk(src, pat, ys, i - 1, budget - m, m == 1 && x.from == x.to, blocked || At(pat, 0) == '^');
        CountFirst(x, ys[..i - 1]);
        assert xs[..i] == [x] + ys[..i - 1];
      }
    }
  }

  lemma CountFirst(x: Piece, ys: seq<Piece>)
    ensures CountMatched([x] + ys) == (if x.Matched? then 1 else 0) + CountMatched(ys)
    ensures CountMatched([]) == 0
  {
    assert ([x] + ys)[1..] == ys;
  }

  /** The rest of the source is copied in one piece when no more matches are looked for. */
  lemma CutRest(src: string, pat: string, s: nat, budget: nat, again: bool, blocked: bool)
    requires s <= |src| && (budget == 0 || blocked || (s == |src| && (again || NoWay(src, pat, Start(pat), s, []))))
    ensures Cut(src, pat, [Copied(s, |src|)], s, budget, again, blocked)
  {
    hide Best, NoWay;
    var xs := [Copied(s, |src|)];
    assert xs[..0] == [];
  }

  lemma {:induction false} PiecesAreCut(src: string, pat: string, s: nat, budget: nat)
    requires s <= |src|
    ensures Cut(src, pat, Pieces(src, pat, s, budget), s, budget, false, false)
    decreases |src| - s, 1
  {
    hide Sem, Best, NoWay, Cut, CopyOne, Onward, PieceOk;
    if budget == 0 {
      CutRest(src, pat, s, budget, false, false);
    } else {
      var outs := Sem(src, pat, Start(pat), s, []);
      SemIsBest(src, pat, Start(pat), s, []);
      if outs == [] {
        CopyOneIsCut(src, pat, s, budget, false, false);
      } else {
        var e := outs[0].e;
        SemBounds(src, pat, s);
        if s < e {
          OnwardIsCut(src, pat, e, budget - 1);
        } else {
          CopyOneIsCut(src, pat, s, budget - 1, true, At(pat, 0) == '^');
        }
        FirstMatched(src, pat, Matched(s, e, outs[0].caps), if s < e then Onward(src, pat, e, budget - 1)
          else CopyOne(src, pat, s, budget - 1), budget);
      }
    }
  }

  /** The first result lies in the source. */
  lemma SemBounds(src: string, pat: string, s: nat)
    requires s <= |src| && Sem(src, pat, Start(pat), s, []) != []
    ensures s <= Sem(src, pat, Start(pat), s, [])[0].e <= |src|
  {
    hide Sem, Matches;
    var o := Sem(src, pat, Start(pat), s, [])[0];
    SemIsMatches(src, pat, Start(pat), s, [], o);
    MatchBounds(src, pat, Start(pat), s, [], o);
  }

  lemma FirstMatched(src: string, pat: string, x: Piece, ys: seq<Piece>, budget: nat)
    requires x.Matched? && x.from <= x.to <= |src| && budget > 0
      && Best(src, pat, Start(pat), x.from, [], Out(x.to, x.caps))
    requires Cut(src, pat, ys, x.to, budget - 1, x.from == x.to, At(pat, 0) == '^')
    ensures Cut(src, pat, [x] + ys, x.from, budget, false, false)
  {
    hide Best, NoWay;
    CountFirst(x, []);
    assert ([x] + ys)[..0] == [];
    assert PieceOk(src, pat, [x] + ys, 0, budget, false, false);
    hide PieceOk;
    CutFirst(src, pat, x, ys, budget, false, false);
  }

  lemma {:induction false} OnwardIsCut(src: string, pat: string, s: nat, budget: nat)
    requires s <= |src|
    ensures Cut(src, pat, Onward(src, pat, s, budget), s, budget, false, At(pat, 0) == '^')
    decreases |src| - s, 2
  {
    hide Pieces, Cut;
    if At(pat, 0) == '^' { CutRest(src, pat, s, budget, false, true); } else { PiecesAreCut(src, pat, s, budget); }
  }

  lemma {:induction false} CopyOneIsCut(src: string, pat: string, s: nat, budget: nat, again: bool, blocked: bool)
    requires s <= |src| && (blocked ==> At(pat, 0) == '^') && (again || NoWay(src, pat, Start(pat), s, []))
    ensures Cut(src, pat, CopyOne(src, pat, s, budget), s, budget, again, blocked)
    decreases |src| - s, 0
  {
    hide Onward, Best, NoWay, Cut;
    if s < |src| {
      OnwardIsCut(src, pat, s + 1, budget);
      FirstCopied(src, pat, s, Onward(src, pat, s + 1, budget), budget, again, blocked);
    } else {
      CutRest(src, pat, s, budget, again, blocked);
    }
  }

  lemma FirstCopied(src: string, pat: string, s: nat, ys: seq<Piece>, budget: nat, again: bool, blocked: bool)
    requires s < |src| && (blocked ==> At(pat, 0) == '^') && (again || NoWay(src, pat, Start(pat), s, []))
    requires Cut(src, pat, ys, s + 1, budget, false, At(pat, 0) == '^')
    ensures Cut(src, pat, [Copied(s, s + 1)] + ys, s, budget, again, blocked)
  {
    hide Best, NoWay;
    var x := Copied(s, s + 1);
    assert ([x] + ys)[..0] == [];
    assert PieceOk(src, pat, [x] + ys, 0, budget, again, blocked);
    hide PieceOk;
    CountFirst(x, []);
    CutFirst(src, pat, x, ys, budget, again, blocked);
  }

  // ----- replacement strings

  /** A number as the decimal digits Lua writes. */
  function Decimal(n: nat): string {
    if n < 10 then [('0' as int + n) as char] else Decimal(n / 10) + [('0' as int + n % 10) as char]
  }

  datatype Option<T> = None | Some(value: T)

  /** A capture as a Lua value: a string or a position. */
  datatype CapValue = Str(s: string) | Pos(n: nat)

  /** push_onecapture: capture i, or the whole match when there is none; None when it throws. */
  function OneValue(src: string, i: nat, s: nat, e: nat, caps: seq<Cap>): Option<CapValue>
    requires s <= e <= |src|
  {
    if i >= |caps| then (if i == 0 then Some(Str(src[s..e])) else None)
    else if caps[i].len == CAP_UNFINISHED then None
    else if caps[i].len == CAP_POSITION then Some(Pos(caps[i].init + 1))
    else if caps[i].len >= 0 && caps[i].init + caps[i].len <= |src| then
      Some(Str(src[caps[i].init..caps[i].init + caps[i].len]))
    else None
  }

  /** The text of capture i. */
  function OneCapture(src: string, i: nat, s: nat, e: nat, caps: seq<Cap>): Option<string>
    requires s <= e <= |src|
  {
    match OneValue(src, i, s, e, caps)
    case Some(Str(t)) => Some(t)
    case Some(Pos(n)) => Some(Decimal(n))
    case None => None
  }

  /** push_captures: captures i .. n; None when one of them throws. */
  function Values(src: string, i: nat, n: nat, s: nat, e: nat, caps: seq<Cap>): Option<seq<CapValue>>
    requires s <= e <= |src|
    decreases n - i
  {
    if i >= n then Some([])
    else
      var x, rest := OneValue(src, i, s, e, caps), Values(src, i + 1, n, s, e, caps);
      if x.None? || rest.None? then None else Some([x.value] + rest.value)
  }

  function AllValues(src: string, s: nat, e: nat, caps: seq<Cap>): Option<seq<CapValue>>
    requires s <= e <= |src|
  {
    Values(src, 0, if caps == [] then 1 else |caps|, s, e, caps)
  }

  // ----- what a capture and a replacement string stand for, after the manual

  /** Capture i is the value v: a position counted from 1, or the text it holds; the whole
      match stands in for the first one when there are none. */
  ghost predicate Shows(src: string, i: nat, s: nat, e: nat, caps: seq<Cap>, v: CapValue)
    requires s <= e <= |src|
  {
    match v
    case Pos(n) => i < |caps| && caps[i].len == -2 && n == caps[i].init + 1
    case Str(t) =>
      || (i == 0 && caps == [] && |t| == e - s && forall j :: 0 <= j < |t| ==> t[j] == src[s + j])
      || (i < |caps| && caps[i].len == |t| && caps[i].init + |t| <= |src|
          && forall j :: 0 <= j < |t| ==> t[j] == src[caps[i].init + j])
  }

  lemma ValueShows(src: string, i: nat, s: nat, e: nat, caps: seq<Cap>, v: CapValue)
    requires s <= e <= |src|
    ensures OneValue(src, i, s, e, caps) == Some(v) <==> Shows(src, i, s, e, caps, v)
  {
    if Shows(src, i, s, e, caps, v) && v.Str? {
      assert v.s == if i < |caps| then src[caps[i].init..caps[i].init + caps[i].len] else src[s..e];
    }
  }

  ghost predicate NoValue(src: string, i: nat, s: nat, e: nat, caps: seq<Cap>)
    requires s <= e <= |src|
  {
    forall v :: !Shows(src, i, s, e, caps, v)
  }

  /** All captures, in order; the whole match when there are none. */
  lemma {:induction false} ValuesShow(src: string, i: nat, n: nat, s: nat, e: nat, caps: seq<Cap>)
    requires s <= e <= |src| && i <= n
    ensures var vs := Values(src, i, n, s, e, caps);
      && (vs.Some? ==>
          |vs.value| == n - i && forall j :: 0 <= j < n - i ==> Shows(src, i + j, s, e, caps, vs.value[j]))
      && (vs.None? ==> exists j: nat :: i <= j < n && NoValue(src, j, s, e, caps))
    decreases n - i
  {
    hide Shows, OneValue;
    forall j: nat, v ensures OneValue(src, j, s, e, caps) == Some(v) <==> Shows(src, j, s, e, caps, v) {
      ValueShows(src, j, s, e, caps, v);
    }
    if i < n {
      ValuesShow(src, i + 1, n, s, e, caps);
      var v := OneValue(src, i, s, e, caps);
      var vs := Values(src, i + 1, n, s, e, caps);
      if v.None? { assert NoValue(src, i, s, e, caps); }
      if v.Some? && vs.Some? {
        forall j | 0 <= j < n - i
          ensures Shows(src, i + j, s, e, caps, ([v.value] + vs.value)[j])
        {
          if j > 0 { assert Shows(src, i + 1 + (j - 1), s, e, caps, vs.value[j - 1]); }
        }
      }
    }
  }

  /** The number that decimal digits write. */
  ghost function Value(t: string): int {
    if t == "" then 0 else 10 * Value(t[..|t| - 1]) + (t[|t| - 1] as int - 48)
  }

  ghost predicate Writes(t: string, n: nat) {
    t != "" && (t[0] == '0' ==> |t| == 1) && (forall i :: 0 <= i < |t| ==> '0' <= t[i] <= '9') && Value(t) == n
  }

  lemma {:induction false} DecimalWrites(n: nat)
    ensures Writes(Decimal(n), n) && (n > 0 ==> Decimal(n)[0] != '0')
  {
    if n >= 10 {
      DecimalWrites(n / 10);
      assert Decimal(n)[..|Decimal(n)| - 1] == Decimal(n / 10);
    } else {
      assert Decimal(n)[..0] == "";
    }
  }

  /** The text of a value stands at j in out, up to k. */
  ghost predicate Puts(out: string, j: nat, k: nat, v: CapValue) {
    j <= k <= |out| && if v.Str? then out[j..k] == v.s else Writes(out[j..k], v.n)
  }

  /** out, from j on, is the replacement string from i on: %0 stands for the match, %1 to %9
      for captures, % with any other character for that character. */
  ghost predicate Fills(src: string, repl: string, i: nat, s: nat, e: nat, caps: seq<Cap>, out: string, j: nat)
    requires s <= e <= |src|
    decreases |repl| - i
  {
    j <= |out| &&
    if i >= |repl| then j == |out|
    else if repl[i] != '%' then j < |out| && out[j] == repl[i] && Fills(src, repl, i + 1, s, e, caps, out, j + 1)
    else
      var d := At(repl, i + 1);
      if !('0' <= d <= '9') then j < |out| && out[j] == d && Fills(src, repl, i + 2, s, e, caps, out, j + 1)
      else if d == '0' then
        j + (e - s) <= |out| && out[j..j + (e - s)] == src[s..e]
          && Fills(src, repl, i + 2, s, e, caps, out, j + (e - s))
      else
        var c, i' := d as int - 49, i + 2;
        exists v, k: nat :: Shows(src, c, s, e, caps, v) && Puts(out, j, k, v)
          && Fills(src, repl, i', s, e, caps, out, k)
  }

  lemma {:induction false} WritesOne(t: string, n: nat)
    requires t != "" && (forall i :: 0 <= i < |t| ==> '0' <= t[i] <= '9') && Value(t) == n
    ensures n >= 0 && (t[0] != '0' || |t| == 1 ==> t == Decimal(n)) && (t[0] != '0' ==> n > 0)
    decreases |t|
  {
    var m := |t| - 1;
    if m > 0 {
      ValuePositive(t[..m]);
      WritesOne(t[..m], Value(t[..m]));
      assert t == t[..m] + [t[m]];
    } else {
      assert t[..0] == "";
    }
  }

  lemma {:induction false} ValuePositive(t: string)
    requires forall i :: 0 <= i < |t| ==> '0' <= t[i] <= '9'
    ensures Value(t) >= 0
  {
    if t != "" { ValuePositive(t[..|t| - 1]); }
  }

  /** The replacement string stands for exactly the text that the manual says. */
  lemma {:induction false} ReplaceFills(src: string, repl: string, i: nat, s: nat, e: nat, caps: seq<Cap>, out: string,
                                        j: nat)
    requires s <= e <= |src| && j <= |out|
    ensures Fills(src, repl, i, s, e, caps, out, j) <==> Replace(src, repl, i, s, e, caps) == Some(out[j..])
    decreases |repl| - i
  {
    hide OneCapture, Prefix, Shows, Puts;
    if i >= |repl| {
      assert Replace(src, repl, i, s, e, caps) == Some("");
      assert out[j..] == "" <==> j == |out|;
    } else if repl[i] != '%' {
      if j < |out| { ReplaceFills(src, repl, i + 1, s, e, caps, out, j + 1); }
      PrefixStands([repl[i]], Replace(src, repl, i + 1, s, e, caps), out, j);
    } else {
      var d := At(repl, i + 1);
      if !('0' <= d <= '9') {
        if j < |out| { ReplaceFills(src, repl, i + 2, s, e, caps, out, j + 1); }
        PrefixStands([d], Replace(src, repl, i + 2, s, e, caps), out, j);
      } else if d == '0' {
        if j + (e - s) <= |out| { ReplaceFills(src, repl, i + 2, s, e, caps, out, j + (e - s)); }
        PrefixStands(src[s..e], Replace(src, repl, i + 2, s, e, caps), out, j);
      } else {
        CaptureFills(src, repl, i, s, e, caps, out, j);
      }
    }
  }

  lemma AddsFilled(src: string, repl: string, s: nat, e: nat, caps: seq<Cap>)
    requires s <= e <= |src|
    ensures var r := Replace(src, repl, 0, s, e, caps);
      if r.Some? then Fills(src, repl, 0, s, e, caps, r.value, 0)
      else forall out :: !Fills(src, repl, 0, s, e, caps, out, 0)
  {
    hide Fills, Replace;
    forall out ensures Fills(src, repl, 0, s, e, caps, out, 0) <==> Replace(src, repl, 0, s, e, caps) == Some(out) {
      ReplaceFills(src, repl, 0, s, e, caps, out, 0);
      assert out[0..] == out;
    }
  }

  lemma PrefixStands(a: string, b: Option<string>, out: string, j: nat)
    requires j <= |out|
    ensures Prefix(Some(a), b) == Some(out[j..]) <==>
      j + |a| <= |out| && out[j..j + |a|] == a && b == Some(out[j + |a|..])
  {
    if j + |a| <= |out| {
      assert out[j..] == out[j..j + |a|] + out[j + |a|..];
      if b.Some? && a + b.value == out[j..] {
        assert out[j..][..|a|] == a && out[j..][|a|..] == b.value;
      }
    } else if b.Some? {
      assert |a + b.value| > |out[j..]|;
    }
  }

  lemma {:induction false} CaptureFills(src: string, repl: string, i: nat, s: nat, e: nat, caps: seq<Cap>, out: string,
                                        j: nat)
    requires s <= e <= |src| && j <= |out| && i < |repl| && repl[i] == '%' && '1' <= At(repl, i + 1) <= '9'
    ensures Fills(src, repl, i, s, e, caps, out, j) <==> Replace(src, repl, i, s, e, caps) == Some(out[j..])
    decreases |repl| - i, 0
  {
    hide Shows, OneValue, Decimal, Value;
    var c, i' := At(repl, i + 1) as int - 49, i + 2;
    forall v ensures OneValue(src, c, s, e, caps) == Some(v) <==> Shows(src, c, s, e, caps, v) {
      ValueShows(src, c, s, e, caps, v);
    }
    var t := OneCapture(src, c, s, e, caps);
    if t.Some? {
      var v := OneValue(src, c, s, e, caps).value;
      var k := j + |t.value|;
      if v.Pos? { DecimalWrites(v.n); }
      PrefixStands(t.value, Replace(src, repl, i', s, e, caps), out, j);
      if k <= |out| { ReplaceFills(src, repl, i', s, e, caps, out, k); }
      forall m: nat | Puts(out, j, m, v)
        ensures m == k && out[j..k] == t.value
      {
        if v.Pos? { WritesOne(out[j..m], v.n); }
      }
      if k <= |out| && out[j..k] == t.value { assert Puts(out, j, k, v); }
    }
  }

  /** What a function or a table answers: nil or false, a string or number, or something else
      (or an error). */
  datatype Answer = Keep | Put(s: string) | Bad

  /** The third argument of gsub: a string, a function, which may answer differently each
      time it is called, or a table. */
  datatype Repl = Text(t: string) | Call(f: (nat, seq<CapValue>) -> Answer) | Table(g: CapValue -> Answer)

  /** What a replacement string stands for at a match; None when it throws. */
  function Replace(src: string, repl: string, i: nat, s: nat, e: nat, caps: seq<Cap>): Option<string>
    requires s <= e <= |src|
    decreases |repl| - i
  {
    if i >= |repl| then Some("")
    else if repl[i] != ESC then Prefix(Some([repl[i]]), Replace(src, repl, i + 1, s, e, caps))
    else
      var d := At(repl, i + 1);
      var here := if !IsDigit(d) then Some([d]) else if d == '0' then Some(src[s..e])
        else OneCapture(src, d as int - '1' as int, s, e, caps);
      Prefix(here, Replace(src, repl, i + 2, s, e, caps))
  }

  function Prefix(a: Option<string>, b: Option<string>): Option<string> {
    if a.None? || b.None? then None else Some(a.value + b.value)
  }

  /** A match for which the answer is nil or false stays as it is. */
  function Answered(a: Answer, whole: string): Option<string> {
    match a
    case Keep => Some(whole)
    case Put(t) => Some(t)
    case Bad => None
  }

  /** add_value for the k-th match: what stands in its place; None when it throws. */
  function Replaced(src: string, repl: Repl, k: nat, s: nat, e: nat, caps: seq<Cap>): Option<string>
    requires s <= e <= |src|
  {
    match repl
    case Text(t) => Replace(src, t, 0, s, e, caps)
    case Call(f) =>
      var vs := AllValues(src, s, e, caps);
      if vs.None? then None else Answered(f(k, vs.value), src[s..e])
    case Table(g) =>
      var v := OneValue(src, 0, s, e, caps);
      if v.None? then None else Answered(g(v.value), src[s..e])
  }

  /** The result of gsub, piece by piece, when k matches have been replaced before. */
  ghost function Rendered(src: string, repl: Repl, xs: seq<Piece>, k: nat): Option<string>
    requires PiecesOk(src, xs)
  {
    if xs == [] then Some("")
    else if xs[0].Copied? then Prefix(Some(src[xs[0].from..xs[0].to]), Rendered(src, repl, xs[1..], k))
    else Prefix(Replaced(src, repl, k, xs[0].from, xs[0].to, xs[0].caps), Rendered(src, repl, xs[1..], k + 1))
  }

  /** Every match is replaced by itself, as with "%0", or by a function or table whose answer
      is nil, as long as captures are finished. */
  ghost predicate KeepsAll(src: string, repl: Repl, xs: seq<Piece>, k: nat)
    requires PiecesOk(src, xs)
  {
    xs != [] ==>
      && (xs[0].Matched? ==>
          Replaced(src, repl, k, xs[0].from, xs[0].to, xs[0].caps) == Some(src[xs[0].from..xs[0].to]))
      && KeepsAll(src, repl, xs[1..], if xs[0].Matched? then k + 1 else k)
  }

  /** Replacing every match by itself leaves the text as it was. */
  lemma {:induction false} KeepIsIdentity(src: string, repl: Repl, xs: seq<Piece>, k: nat)
    requires PiecesOk(src, xs) && KeepsAll(src, repl, xs, k)
    ensures Rendered(src, repl, xs, k) == Some(SourceText(src, xs))
  {
    if xs != [] { KeepIsIdentity(src, repl, xs[1..], if xs[0].Matched? then k + 1 else k); }
  }

  lemma {:induction false} WholeMatchIsIdentity(src: string, xs: seq<Piece>, k: nat)
    requires PiecesOk(src, xs)
    ensures Rendered(src, Text("%0"), xs, k) == Some(SourceText(src, xs))
  {
    if xs != [] {
      WholeMatchIsIdentity(src, xs[1..], if xs[0].Matched? then k + 1 else k);
      if xs[0].Matched? { WholeMatch(src, xs[0].from, xs[0].to, xs[0].caps); }
    }
  }

  lemma WholeMatch(src: string, s: nat, e: nat, caps: seq<Cap>)
    requires s <= e <= |src|
    ensures Replace(src, "%0", 0, s, e, caps) == Some(src[s..e])
  {
    assert Replace(src, "%0", 2, s, e, caps) == Some("");
    assert src[s..e] + "" == src[s..e];
  }

  // ----- gsub itself

  /** add_s: the replacement string with its captures filled in. */
  method AddS(ms: MatchState, repl: string, s: nat, e: nat) returns (r: Option<string>)
    requires ms.Valid() && s <= e <= |ms.src|
    ensures r == Replace(ms.src, repl, 0, s, e, ms.Caps())
    ensures r.Some? ==> Fills(ms.src, repl, 0, s, e, ms.Caps(), r.value, 0)
    ensures r.None? ==> forall out :: !Fills(ms.src, repl, 0, s, e, ms.Caps(), out, 0)
  {
    hide Fills;
    AddsFilled(ms.src, repl, s, e, ms.Caps());
    var b, i := "", 0;
    ghost var caps := ms.Caps();
    ghost var all := Replace(ms.src, repl, 0, s, e, caps);
    if all.Some? { assert "" + all.value == all.value; }
    while i < |repl|
      invariant 0 <= i && all == Prefix(Some(b), Replace(ms.src, repl, i, s, e, caps))
      decreases |repl| - i
    {
      ghost var b0, i0 := b, i;
      var here: Option<string>;
      if repl[i] != ESC {
        here := Some([repl[i]]);
      } else {
        i := i + 1;
        var d := At(repl, i);
        if !IsDigit(d) {
          here := Some([d]);
        } else if d == '0' {
          here := Some(ms.src[s..e]);
        } else {
          here := OneCapture(ms.src, d as int - '1' as int, s, e, ms.capture[..ms.level]);
        }
      }
      i := i + 1;
      PrefixAssoc(b0, here, Replace(ms.src, repl, i, s, e, caps));
      if here.None? { return None; }
      b := b + here.value;
    }
    assert b + "" == b;
    r := Some(b);
  }

  lemma PrefixAssoc(b: string, x: Option<string>, y: Option<string>)
    ensures Prefix(Some(b), Prefix(x, y)) == if x.None? then None else Prefix(Some(b + x.value), y)
  {
    if x.Some? && y.Some? { assert b + (x.value + y.value) == (b + x.value) + y.value; }
  }

  /** push_captures. */
  method PushCaptures(ms: MatchState, s: nat, e: nat) returns (r: Option<seq<CapValue>>)
    requires ms.Valid() && s <= e <= |ms.src|
    ensures r == AllValues(ms.src, s, e, ms.Caps())
    ensures r.Some? ==>
        |r.value| == (if ms.level == 0 then 1 else ms.level)
        && forall j :: 0 <= j < |r.value| ==> Shows(ms.src, j, s, e, ms.Caps(), r.value[j])
    ensures r.None? ==> exists j: nat :: j <= ms.level && NoValue(ms.src, j, s, e, ms.Caps())
  {
    hide OneValue, Shows, NoValue;
    var n: nat := if ms.level == 0 then 1 else ms.level;
    ValuesShow(ms.src, 0, n, s, e, ms.Caps());
    var vs, i: nat := [], 0;
    ghost var caps := ms.Caps();
    ghost var all := Values(ms.src, 0, n, s, e, caps);
    assert n == if caps == [] then 1 else |caps|;
    if all.Some? { assert [] + all.value == all.value; }
    while i < n
      invariant i <= n
      invariant var rest := Values(ms.src, i, n, s, e, caps); all == if rest.None? then None else Some(vs + rest.value)
    {
      var v := OneValue(ms.src, i, s, e, ms.capture[..ms.level]);
      ghost var rest := Values(ms.src, i + 1, n, s, e, caps);
      if v.None? { return None; }
      if rest.Some? { assert vs + ([v.value] + rest.value) == vs + [v.value] + rest.value; }
      vs := vs + [v.value];
      i := i + 1;
    }
    assert vs + [] == vs;
    r := Some(vs);
  }

  /** add_value, for the k-th match. */
  method AddValue(ms: MatchState, repl: Repl, k: nat, s: nat, e: nat) returns (r: Option<string>)
    requires ms.Valid() && s <= e <= |ms.src|
    ensures r == Replaced(ms.src, repl, k, s, e, ms.Caps())
  {
    hide Replace, OneValue, AllValues;
    var answer: Answer;
    match repl {
      case Text(t) =>
        r := AddS(ms, t, s, e);
        return;
      case Call(f) =>
        var vs := PushCaptures(ms, s, e);
        if vs.None? { return None; }
        answer := f(k, vs.value);
      case Table(g) =>
        var v := OneValue(ms.src, 0, s, e, ms.capture[..ms.level]);
        if v.None? { return None; }
        answer := g(v.value);
    }
    r := Answered(answer, ms.src[s..e]);
  }

  /** string.gsub. */
  method Gsub(src: string, pat: string, repl: Repl, maxS: nat) returns (out: Option<string>, n: nat)
    ensures PiecesOk(src, Pieces(src, pat, 0, maxS)) && Cut(src, pat, Pieces(src, pat, 0, maxS), 0, maxS, false, false)
    ensures GoodPattern(pat) ==> out == Rendered(src, repl, Pieces(src, pat, 0, maxS), 0)
    ensures out.None? ==>
        Rendered(src, repl, Pieces(src, pat, 0, maxS), 0).None?
        || exists s: nat :: s <= |src| && ThrowsFrom(src, pat, s)
    ensures out.Some? ==>
        out == Rendered(src, repl, Pieces(src, pat, 0, maxS), 0) && n == CountMatched(Pieces(src, pat, 0, maxS))
  {
    hide Sem, Matches, Pieces, CopyOne, Onward, Rendered, CountMatched, SourceText, Replaced, WellFormed, Throws, Found,
      Leftmost, CanMatch, GoesOn,
      MakeUp, CapOk, TextOf, ThrowsFrom, GoodPattern, OneValue, Answered, Best, NoWay, Cut, PiecesOk, Prefix;
    PiecesAreCut(src, pat, 0, maxS);
    PiecesFit(src, pat, 0, maxS);
    var ms := new MatchState(src, pat);
    var anchor := At(pat, 0) == '^';
    var p: nat := if anchor then 1 else 0;
    var b, s: nat := "", 0;
    n := 0;
    ghost var all := Pieces(src, pat, 0, maxS);
    ghost var rest := all;
    StartUp(src, repl, all);
    while n < maxS
      invariant ms.Valid() && fresh(ms) && fresh(ms.capture) && ms.src == src && ms.pat == pat
      invariant n <= maxS && s <= |src| && rest == Pieces(src, pat, s, maxS - n) && GoesOn(src, repl, all, b, n, rest)
      decreases |src| - s
    {
      ms.level, ms.depth := 0, 0;
      assert ms.Caps() == [];
      CallThrowsFrom(ms, p, s);
      if GoodPattern(pat) { GoodNeverThrows(src, pat, s); }
      var r := ms.Match(s, p);
      if r.Error? { return None, n; }
      FoundMeans(src, pat, p, s, [], r, ms.Caps());
      OnePiece(src, pat, s, maxS - n, r, ms.Caps());
      if r.To? {
        var text := AddValue(ms, repl, n, s, r.e);
        TextOfMatch(src, repl, n, s, r.e, ms.Caps());
        ghost var next := if r.e > s then Onward(src, pat, r.e, maxS - n - 1) else CopyOne(src, pat, s, maxS - n - 1);
        TakePiece(src, repl, all, b, n, Matched(s, r.e, ms.Caps()), next);
        if text.None? { return None, n; }
        n := n + 1;
        b := b + text.value;
        rest := next;
      } else {
        rest := CopyOne(src, pat, s, maxS - n);
      }
      if r.To? && r.e > s {
        s := r.e;
      } else if s < |src| {
        OneChar(src, pat, s, maxS - n);
        TextOfCopy(src, repl, n, s, s + 1);
        TakePiece(src, repl, all, b, n, Copied(s, s + 1), Onward(src, pat, s + 1, maxS - n));
        b := b + src[s..s + 1];
        s := s + 1;
        rest := Onward(src, pat, s, maxS - n);
      } else {
        OneChar(src, pat, s, maxS - n);
        break;
      }
      AnchorOnce(src, pat, s, maxS - n);
      if anchor { break; }
    }
    LastPiece(src, pat, s);
    assert src[s..|src|] == src[s..];
    TextOfCopy(src, repl, n, s, |src|);
    TakePiece(src, repl, all, b, n, Copied(s, |src|), []);
    EndUp(src, repl, all, b + src[s..], n);
    out := Some(b + src[s..]);
  }

  ghost predicate GoesOn(src: string, repl: Repl, all: seq<Piece>, b: string, n: nat, rest: seq<Piece>) {
    && PiecesOk(src, all) && PiecesOk(src, rest)
    && Rendered(src, repl, all, 0) == Prefix(Some(b), Rendered(src, repl, rest, n))
      && CountMatched(all) == n + CountMatched(rest)
  }

  lemma PiecesFit(src: string, pat: string, s: nat, budget: nat)
    requires s <= |src|
    ensures PiecesOk(src, Pieces(src, pat, s, budget))
  {
    PiecesAreSource(src, pat, s, budget);
  }

  lemma StartUp(src: string, repl: Repl, all: seq<Piece>)
    requires PiecesOk(src, all)
    ensures GoesOn(src, repl, all, "", 0, all)
  {
    var x := Rendered(src, repl, all, 0);
    if x.Some? { assert "" + x.value == x.value; }
  }

  lemma EndUp(src: string, repl: Repl, all: seq<Piece>, b: string, n: nat)
    requires GoesOn(src, repl, all, b, n, [])
    ensures Rendered(src, repl, all, 0) == Some(b) && CountMatched(all) == n
  {
    assert b + "" == b;
  }

  /** What a piece becomes. */
  ghost function TextOf(src: string, repl: Repl, k: nat, x: Piece): Option<string> {
    if x.from <= x.to <= |src| then
      (if x.Copied? then Some(src[x.from..x.to]) else Replaced(src, repl, k, x.from, x.to, x.caps)) else None
  }

  lemma TextOfMatch(src: string, repl: Repl, k: nat, s: nat, e: nat, caps: seq<Cap>)
    requires s <= e <= |src|
    ensures TextOf(src, repl, k, Matched(s, e, caps)) == Replaced(src, repl, k, s, e, caps)
  {
  }

  lemma TextOfCopy(src: string, repl: Repl, k: nat, s: nat, e: nat)
    requires s <= e <= |src|
    ensures TextOf(src, repl, k, Copied(s, e)) == Some(src[s..e])
  {
  }

  lemma CallThrowsFrom(ms: MatchState, p: nat, s: nat)
    requires p == Start(ms.pat) && s <= |ms.src| && ms.depth == 0
    ensures ms.CallThrows(p, s, []) <==> ThrowsFrom(ms.src, ms.pat, s)
  {
  }

  /** One more piece is written out. */
  lemma TakePiece(src: string, repl: Repl, all: seq<Piece>, b: string, n: nat, x: Piece, rest: seq<Piece>)
    ensures GoesOn(src, repl, all, b, n, [x] + rest) ==> x.from <= x.to <= |src|
    ensures GoesOn(src, repl, all, b, n, [x] + rest) && TextOf(src, repl, n, x).Some? ==>
      GoesOn(src, repl, all, b + TextOf(src, repl, n, x).value, if x.Matched? then n + 1 else n, rest)
    ensures GoesOn(src, repl, all, b, n, [x] + rest) && TextOf(src, repl, n, x).None? ==>
        Rendered(src, repl, all, 0).None?
  {
    hide Replaced;
    var xs := [x] + rest;
    assert xs[1..] == rest && xs[0] == x;
    if GoesOn(src, repl, all, b, n, xs) {
      var text := TextOf(src, repl, n, x);
      PiecesRest(src, xs);
      PrefixAssoc(b, text, Rendered(src, repl, rest, if x.Matched? then n + 1 else n));
    }
  }

  lemma PiecesRest(src: string, xs: seq<Piece>)
    requires PiecesOk(src, xs) && xs != []
    ensures PiecesOk(src, xs[1..])
  {
  }

  lemma OnePiece(src: string, pat: string, s: nat, budget: nat, r: Res, caps: seq<Cap>)
    requires s <= |src| && budget > 0 && !r.Error? && Found(r, Sem(src, pat, Start(pat), s, []), [], caps)
      && (r.To? ==> s <= r.e <= |src|)
    ensures Pieces(src, pat, s, budget) == match r
      case To(e) => [Matched(s, e, caps)] +
        (if s < e then Onward(src, pat, e, budget - 1) else CopyOne(src, pat, s, budget - 1))
      case _ => CopyOne(src, pat, s, budget)
  {
    hide Sem;
  }

  lemma OneChar(src: string, pat: string, s: nat, budget: nat)
    requires s <= |src|
    ensures CopyOne(src, pat, s, budget) == if s < |src| then [Copied(s, s + 1)] + Onward(src, pat, s + 1, budget)
      else [Copied(s, s)]
  {
  }

  lemma AnchorOnce(src: string, pat: string, s: nat, budget: nat)
    requires s <= |src|
    ensures Onward(src, pat, s, budget) == if At(pat, 0) == '^' then [Copied(s, |src|)] else Pieces(src, pat, s, budget)
  {
  }

  lemma LastPiece(src: string, pat: string, s: nat)
    requires s <= |src|
    ensures Pieces(src, pat, s, 0) == [Copied(s, |src|)] && [Copied(s, |src|)] + [] == [Copied(s, |src|)]
  {
  }

  /** gsub(s, pat, "%0") gives back s, for every pattern that throws no error. */
  lemma GsubIdentity(src: string, pat: string, maxS: nat)
    ensures PiecesOk(src, Pieces(src, pat, 0, maxS))
      && Rendered(src, Text("%0"), Pieces(src, pat, 0, maxS), 0) == Some(src)
  {
    hide Pieces, Rendered;
    PiecesAreSource(src, pat, 0, maxS);
    WholeMatchIsIdentity(src, Pieces(src, pat, 0, maxS), 0);
    assert src[0..] == src;
  }
}
