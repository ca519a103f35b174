/** What Lua's patterns mean, after section 5.4.1 of the Lua 5.1 Reference Manual: the ways in
    which a pattern matches and which of them is preferred, without regard to how the
    matcher searches.  And that the first result of the search is the preferred one. */
module LuaManual {
  import opened LuaPattern

  // ----- character classes

  ghost predicate Between(c: char, lo: int, hi: int) {
    lo <= c as int <= hi
  }

  /** The classes by their ASCII codes. */
  ghost predicate OfClass(letter: char, c: char) {
    match letter
    case 'a' => Between(c, 65, 90) || Between(c, 97, 122)
    case 'c' => Between(c, 0, 31) || Between(c, 127, 127)
    case 'd' => Between(c, 48, 57)
    case 'g' => Between(c, 33, 126)
    case 'l' => Between(c, 97, 122)
    case 'p' => Between(c, 33, 47) || Between(c, 58, 64) || Between(c, 91, 96) || Between(c, 123, 126)
    case 's' => Between(c, 9, 13) || Between(c, 32, 32)
    case 'u' => Between(c, 65, 90)
    case 'w' => Between(c, 48, 57) || Between(c, 65, 90) || Between(c, 97, 122)
    case 'x' => Between(c, 48, 57) || Between(c, 65, 70) || Between(c, 97, 102)
    case _ => false
  }

  /** %x holds for c: a class, in upper case its complement; %z for NUL, %Z for the others;
      any other character stands for itself. */
  ghost predicate ClassHolds(x: char, c: char) {
    if x in "acdglpsuwx" then OfClass(x, c)
    else if x in "ACDGLPSUWX" then !OfClass((x as int + 32) as char, c)
    else if x == 'z' then c == '\0'
    else if x == 'Z' then c != '\0'
    else c == x
  }

  // ----- sets

  /** Some element of the set from position q to the closing bracket at e holds for c. */
  ghost predicate SetHolds(pat: string, q: nat, e: nat, c: char)
    requires e <= |pat|
    decreases e - q
  {
    q < e &&
    if pat[q] == '%' then ClassHolds(At(pat, q + 1), c) || SetHolds(pat, q + 2, e, c)
    else if q + 2 < e && pat[q + 1] == '-' then pat[q] <= c <= pat[q + 2] || SetHolds(pat, q + 3, e, c)
    else c == pat[q] || SetHolds(pat, q + 1, e, c)
  }

  /** The bracket at e closes the set whose contents begin at q: the first one that is not the
      first character and not escaped. */
  ghost predicate Closes(pat: string, q: nat, e: nat)
    decreases |pat| - q
  {
    q < e < |pat| && pat[q] != '\0' &&
    var x := if pat[q] == '%' && pat[q + 1] != '\0' then q + 2 else q + 1;
    if x == e then pat[e] == ']' else x < e && pat[x] != ']' && Closes(pat, x, e)
  }

  /** A single character class: what stands at p and before e. */
  ghost predicate ItemIs(pat: string, p: nat, e: nat) {
    p < e <= |pat| && pat[p] != '\0' &&
    if pat[p] == '%' then e == p + 2 && pat[p + 1] != '\0'
    else if pat[p] == '[' then Closes(pat, if At(pat, p + 1) == '^' then p + 2 else p + 1, e - 1)
    else e == p + 1
  }

  ghost predicate SetIs(pat: string, p: nat, e: nat, c: char)
    requires 0 < e <= |pat|
  {
    if At(pat, p + 1) == '^' then !SetHolds(pat, p + 2, e - 1, c) else SetHolds(pat, p + 1, e - 1, c)
  }

  ghost predicate ItemHolds(pat: string, p: nat, e: nat, c: char)
    requires p < e <= |pat|
  {
    if pat[p] == '.' then true
    else if pat[p] == '%' then ClassHolds(At(pat, p + 1), c)
    else if pat[p] == '[' then SetIs(pat, p, e, c)
    else c == pat[p]
  }

  // ----- balanced strings

  /** Opening less closing brackets in src[i..j]; a bracket that is both closes. */
  ghost function Depth(src: string, i: nat, j: nat, b: char, e: char): int
    requires j <= |src|
    decreases j - i
  {
    if i >= j then 0
    else (if src[i] == e then -1 else if src[i] == b then 1 else 0) + Depth(src, i + 1, j, b, e)
  }

  /** At t the brackets that are open at i, `open` in number, are closed for the first time. */
  ghost predicate ClosedAt(src: string, i: nat, t: nat, b: char, e: char, open: nat) {
    i < t <= |src| && open + Depth(src, i, t, b, e) == 0
    && forall j :: i <= j < t ==> open + Depth(src, i, j, b, e) > 0
  }

  /** src[s..t] begins with b and ends with the e that matches it. */
  ghost predicate Balanced(src: string, s: nat, t: nat, b: char, e: char) {
    s < |src| && src[s] == b && ClosedAt(src, s + 1, t, b, e, 1)
  }

  // ----- ways to match

  /** How often a class with a suffix matches. */
  datatype Step = Step(suffix: char, times: nat)

  /** The pattern from p on matches at s, with these repetitions one after the other. */
  ghost predicate Derives(src: string, pat: string, p: nat, s: nat, caps: seq<Cap>, o: Out, ds: seq<Step>)
    requires p <= |pat| && s <= |src|
    decreases |pat| - p, 1
  {
    var c, d := At(pat, p), At(pat, p + 1);
    if c == '\0' then o == Out(s, caps) && ds == []
    else if c == '$' && d == '\0' then s == |src| && o == Out(s, caps) && ds == []
    else if c == '(' then
      |caps| < 32 &&
      if d == ')' then Derives(src, pat, p + 2, s, caps + [Cap(s, -2)], o, ds)
      else Derives(src, pat, p + 1, s, caps + [Cap(s, -1)], o, ds)
    else if c == ')' then
      exists l: nat :: IsLastOpen(caps, l) && caps[l].init <= s
        && Derives(src, pat, p + 1, s, caps[l := Cap(caps[l].init, s - caps[l].init)], o, ds)
    else if c == '%' && d == 'b' then
      p + 4 <= |pat| && pat[p + 2] != '\0' && pat[p + 3] != '\0' &&
      var x, y, q := pat[p + 2], pat[p + 3], p + 4;
      exists t: nat :: Balanced(src, s, t, x, y) && Derives(src, pat, q, t, caps, o, ds)
    else if c == '%' && d == 'f' then
      At(pat, p + 2) == '[' &&
      exists e: nat :: ItemIs(pat, p + 2, e) && AtFrontier(src, s, pat, p + 2, e)
        && Derives(src, pat, e, s, caps, o, ds)
    else if c == '%' && '0' <= d <= '9' then
      d != '0' &&
      var l := d as int - '1' as int;
      l < |caps| && StandsAgain(src, s, caps[l]) && Derives(src, pat, p + 2, s + caps[l].len, caps, o, ds)
    else DerivesItem(src, pat, p, s, caps, o, ds)
  }

  /** l is the last capture that is not closed. */
  ghost predicate IsLastOpen(caps: seq<Cap>, l: nat) {
    l < |caps| && caps[l].len == -1 && forall j :: l < j < |caps| ==> caps[j].len != -1
  }

  /** The text of a closed capture stands at s. */
  ghost predicate StandsAgain(src: string, s: nat, c: Cap) {
    c.len >= 0 && c.init + c.len <= |src| && s + c.len <= |src| && src[s..s + c.len] == src[c.init..c.init + c.len]
  }

  /** The character before s is not in the set, the one at s is; NUL stands at both ends. */
  ghost predicate AtFrontier(src: string, s: nat, pat: string, p: nat, e: nat)
    requires s <= |src| && 0 < e <= |pat|
  {
    !SetIs(pat, p, e, if s == 0 then '\0' else src[s - 1]) && SetIs(pat, p, e, if s < |src| then src[s] else '\0')
  }

  ghost predicate DerivesItem(src: string, pat: string, p: nat, s: nat, caps: seq<Cap>, o: Out, ds: seq<Step>)
    requires p < |pat| && s <= |src|
    decreases |pat| - p, 0
  {
    exists e: nat :: ItemIs(pat, p, e) &&
      if At(pat, e) in "?*+-" then
        && ds != [] && ds[0].suffix == At(pat, e) && Many(src, pat, p, e, s, ds[0].times)
        && (At(pat, e) == '?' ==> ds[0].times <= 1) && (At(pat, e) == '+' ==> ds[0].times >= 1)
        && Derives(src, pat, e + 1, s + ds[0].times, caps, o, ds[1..])
      else Many(src, pat, p, e, s, 1) && Derives(src, pat, e, s + 1, caps, o, ds)
  }

  /** The class holds for the k characters from s on. */
  ghost predicate Many(src: string, pat: string, p: nat, e: nat, s: nat, k: nat)
    requires p < e <= |pat|
  {
    s + k <= |src| && forall j :: s <= j < s + k ==> ItemHolds(pat, p, e, src[j])
  }

  /** Where the two ways to match part first, ds has more repetitions, or fewer before '-'. */
  ghost predicate Preferred(ds: seq<Step>, es: seq<Step>) {
    exists i: nat :: PartAt(ds, es, i)
  }

  ghost predicate PartAt(ds: seq<Step>, es: seq<Step>, i: nat) {
    && i < |ds| && i < |es| && ds[..i] == es[..i] && ds[i].suffix == es[i].suffix
    && if ds[i].suffix == '-' then ds[i].times < es[i].times else ds[i].times > es[i].times
  }

  /** ds is the way to match that is preferred to all others; it gives o. */
  ghost predicate Leads(src: string, pat: string, p: nat, s: nat, caps: seq<Cap>, o: Out, ds: seq<Step>)
    requires p <= |pat| && s <= |src|
  {
    && Derives(src, pat, p, s, caps, o, ds)
    && forall o', es :: Derives(src, pat, p, s, caps, o', es) ==> (o' == o && es == ds) || Preferred(ds, es)
  }

  ghost predicate Best(src: string, pat: string, p: nat, s: nat, caps: seq<Cap>, o: Out)
    requires p <= |pat| && s <= |src|
  {
    exists ds :: Leads(src, pat, p, s, caps, o, ds)
  }

  /** There is no way to match. */
  ghost predicate NoWay(src: string, pat: string, p: nat, s: nat, caps: seq<Cap>)
    requires p <= |pat| && s <= |src|
  {
    forall o, ds :: !Derives(src, pat, p, s, caps, o, ds)
  }

  // ----- the matcher's helpers mean the same

  lemma ClassSame(x: char, c: char)
    ensures ClassHolds(x, c) <==> MatchClass(c, x)
  {
  }

  lemma {:induction false} SetSame(pat: string, p: nat, e: nat, c: char)
    requires e <= |pat|
    ensures HasElem(c, Elems(pat, p, e)) <==> SetHolds(pat, p + 1, e, c)
    decreases e - p
  {
    hide MatchClass, ClassHolds, HasElem;
    var q := p + 1;
    if q >= e {
      NoElem(c);
    } else if pat[q] == '%' {
      var rest := if q + 1 < e then Elems(pat, q + 1, e) else [];
      assert Elems(pat, p, e) == [Class(At(pat, q + 1))] + rest;
      assert SetHolds(pat, q, e, c) <==> ClassHolds(At(pat, q + 1), c) || SetHolds(pat, q + 2, e, c);
      if q + 1 < e { SetSame(pat, q + 1, e, c); } else { NoElem(c); }
      ClassSame(At(pat, q + 1), c);
      HasMore(c, Class(At(pat, q + 1)), rest);
    } else if q + 2 < e && pat[q + 1] == '-' {
      assert Elems(pat, p, e) == [Range(pat[q], pat[q + 2])] + Elems(pat, q + 2, e);
      SetSame(pat, q + 2, e, c);
      HasMore(c, Range(pat[q], pat[q + 2]), Elems(pat, q + 2, e));
    } else {
      assert Elems(pat, p, e) == [One(pat[q])] + Elems(pat, q, e);
      SetSame(pat, q, e, c);
      HasMore(c, One(pat[q]), Elems(pat, q, e));
    }
  }

  lemma NoElem(c: char)
    ensures !HasElem(c, [])
  {
  }

  lemma HasMore(c: char, x: Elem, xs: seq<Elem>)
    ensures HasElem(c, [x] + xs) <==> InElem(c, x) || HasElem(c, xs)
  {
    if InElem(c, x) { assert x in [x] + xs; }
    if HasElem(c, xs) {
      var y :| y in xs && InElem(c, y);
      assert y in [x] + xs;
    }
  }

  lemma {:induction false} ClosesSame(pat: string, q: nat, e: nat)
    ensures Closes(pat, q, e) <==> SetEnd(pat, q) == e + 1
    decreases |pat| - q
  {
    if q < |pat| && pat[q] != '\0' {
      var x := if pat[q] == '%' && At(pat, q + 1) != '\0' then q + 2 else q + 1;
      ClosesSame(pat, x, e);
    }
  }

  lemma ItemSame(pat: string, p: nat, e: nat)
    requires p < |pat| && pat[p] != '\0'
    ensures ItemIs(pat, p, e) <==> e != 0 && ClassEnd(pat, p) == e
  {
    hide SetEnd, Closes;
    if e > 0 { ClosesSame(pat, if At(pat, p + 1) == '^' then p + 2 else p + 1, e - 1); }
  }

  lemma SetIsSame(pat: string, p: nat, e: nat, c: char)
    requires 0 < e <= |pat|
    ensures SetIs(pat, p, e, c) <==> InSet(c, pat, p, e - 1)
  {
    hide SetHolds, HasElem;
    SetSame(pat, p, e - 1, c);
    SetSame(pat, p + 1, e - 1, c);
  }

  lemma HoldsSame(pat: string, p: nat, e: nat, c: char)
    requires p < e <= |pat|
    ensures ItemHolds(pat, p, e, c) <==> Single(c, pat, p, e)
  {
    hide SetIs, InSet, ClassHolds, MatchClass;
    SetIsSame(pat, p, e, c);
    ClassSame(At(pat, p + 1), c);
  }

  lemma ManySame(src: string, pat: string, p: nat, e: nat, s: nat, k: nat)
    requires p < e <= |pat| && s <= |src|
    ensures Many(src, pat, p, e, s, k) <==> Repeated(src, pat, p, e, s, s + k)
    ensures Many(src, pat, p, e, s, k) <==> k <= RunLength(src, pat, p, e, s)
  {
    hide ItemHolds, Single;
    forall c ensures ItemHolds(pat, p, e, c) <==> Single(c, pat, p, e) { HoldsSame(pat, p, e, c); }
    RunIsLongest(src, pat, p, e, s, s + k);
  }

  lemma {:induction false} BalanceEndSame(src: string, i: nat, b: char, e: char, open: nat, t: nat)
    requires open >= 1
    ensures t != 0 && BalanceEnd(src, i, b, e, open) == t <==> ClosedAt(src, i, t, b, e, open)
    decreases |src| - i
  {
    if i < |src| {
      var x := if src[i] == e then -1 else if src[i] == b then 1 else 0;
      if open + x > 0 {
        BalanceEndSame(src, i + 1, b, e, open + x, t);
        ClosedLater(src, i, t, b, e, open);
      } else {
        assert Depth(src, i, i + 1, b, e) == x + Depth(src, i + 1, i + 1, b, e);
      }
    }
  }

  lemma ClosedLater(src: string, i: nat, t: nat, b: char, e: char, open: nat)
    requires i < |src|
    requires var x := if src[i] == e then -1 else if src[i] == b then 1 else 0; open + x > 0 && open > 0
    ensures var x := if src[i] == e then -1 else if src[i] == b then 1 else 0;
      ClosedAt(src, i, t, b, e, open) <==> ClosedAt(src, i + 1, t, b, e, open + x)
  {
    var x := if src[i] == e then -1 else if src[i] == b then 1 else 0;
    forall j: nat | i < j <= |src|
      ensures Depth(src, i, j, b, e) == x + Depth(src, i + 1, j, b, e)
    {
    }
    if ClosedAt(src, i, t, b, e, open) {
      assert t != i + 1 by { assert Depth(src, i, i + 1, b, e) == x + Depth(src, i + 1, i + 1, b, e); }
      var i' := i + 1;
      forall j | i' <= j < t
        ensures open + x + Depth(src, i', j, b, e) > 0
      {
        assert open + Depth(src, i, j, b, e) > 0;
      }
    }
    if ClosedAt(src, i + 1, t, b, e, open + x) {
      forall j | i <= j < t ensures open + Depth(src, i, j, b, e) > 0 {
        if j > i { assert open + x + Depth(src, i + 1, j, b, e) > 0; }
      }
    }
  }

  lemma BalancedSame(src: string, s: nat, t: nat, b: char, e: char)
    ensures Balanced(src, s, t, b, e) <==> t != 0 && Balance(src, s, b, e) == t
  {
    hide Depth, BalanceEnd;
    if s < |src| { BalanceEndSame(src, s + 1, b, e, 1, t); }
  }

  // ----- the first result of the search is the preferred match

  lemma {:induction false} LongFirst(rest: nat -> seq<Out>, s: nat, i: nat) returns (t: nat)
    requires Longest(rest, s, i) != []
    ensures s <= t <= s + i && rest(t) != [] && Longest(rest, s, i)[0] == rest(t)[0]
    ensures forall u: nat :: t < u <= s + i ==> rest(u) == []
  {
    if rest(s + i) != [] { return s + i; }
    t := LongFirst(rest, s, i - 1);
  }

  lemma {:induction false} ShortFirst(rest: nat -> seq<Out>, s: nat, n: nat) returns (t: nat)
    requires Shortest(rest, s, n) != []
    ensures s <= t <= s + n && rest(t) != [] && Shortest(rest, s, n)[0] == rest(t)[0]
    ensures forall u: nat :: s <= u < t ==> rest(u) == []
    decreases n
  {
    if rest(s) != [] { return s; }
    t := ShortFirst(rest, s + 1, n - 1);
  }

  /** Of all places from s to s + n where one can go on, t is the one to prefer. */
  ghost predicate NoneBetter(suffix: char, rest: nat -> seq<Out>, s: nat, n: nat, t: nat) {
    forall u: nat :: s <= u <= s + n && u != t && rest(u) != [] ==>
      || (suffix == '?' && u > s + 1)
      || (suffix == '+' && u == s)
      || (if suffix == '-' then t < u else u < t)
  }

  /** The repetitions of the first way to go on, and that all others are less preferred. */
  lemma ChoiceFirst(suffix: char, rest: nat -> seq<Out>, s: nat, n: nat) returns (t: nat)
    requires suffix in "?*+-" && Choices(suffix, rest, s, n) != []
    ensures s <= t <= s + n && (suffix == '?' ==> t <= s + 1) && (suffix == '+' ==> s < t)
    ensures rest(t) != [] && Choices(suffix, rest, s, n)[0] == rest(t)[0] && NoneBetter(suffix, rest, s, n, t)
  {
    if suffix == '?' {
      t := if n > 0 && rest(s + 1) != [] then s + 1 else s;
    } else if suffix == '*' {
      t := LongFirst(rest, s, n);
    } else if suffix == '+' {
      t := LongFirst(rest, s + 1, n - 1);
    } else {
      t := ShortFirst(rest, s, n);
    }
  }

  /** Only what the matcher's list holds can be derived. */
  lemma {:induction false} DerivesInSem(src: string, pat: string, p: nat, s: nat, caps: seq<Cap>, o: Out,
                                        ds: seq<Step>)
    requires p <= |pat| && s <= |src| && Derives(src, pat, p, s, caps, o, ds)
    ensures o in Sem(src, pat, p, s, caps)
    decreases |pat| - p, 1
  {
    hide Balance, Depth, SetIs, InSet, ClassEnd, Closes, DerivesItem, SemItem;
    var c, d := At(pat, p), At(pat, p + 1);
    if c == '\0' || (c == '$' && d == '\0') {
    } else if c == '(' {
      DerivesInSem(src, pat, if d == ')' then p + 2 else p + 1, s, caps + [Cap(s, if d == ')' then -2 else -1)], o, ds);
    } else if c == ')' {
      var l := ToClose(caps);
      assert forall k: nat :: IsLastOpen(caps, k) ==> k == l;
      DerivesInSem(src, pat, p + 1, s, caps[l := Cap(caps[l].init, s - caps[l].init)], o, ds);
    } else if c == '%' && d == 'b' {
      var x, y, q := pat[p + 2], pat[p + 3], p + 4;
      var t: nat :| Balanced(src, s, t, x, y) && Derives(src, pat, q, t, caps, o, ds);
      BalancedSame(src, s, t, x, y);
      DerivesInSem(src, pat, q, t, caps, o, ds);
    } else if c == '%' && d == 'f' {
      var e: nat :| ItemIs(pat, p + 2, e) && AtFrontier(src, s, pat, p + 2, e) && Derives(src, pat, e, s, caps, o, ds);
      ItemSame(pat, p + 2, e);
      FrontierSame(src, s, pat, p + 2, e);
      DerivesInSem(src, pat, e, s, caps, o, ds);
    } else if c == '%' && '0' <= d <= '9' {
      DerivesInSem(src, pat, p + 2, s + caps[d as int - '1' as int].len, caps, o, ds);
    } else {
      ItemInSem(src, pat, p, s, caps, o, ds);
    }
  }

  lemma FrontierSame(src: string, s: nat, pat: string, p: nat, e: nat)
    requires s <= |src| && 0 < e <= |pat|
    ensures AtFrontier(src, s, pat, p, e) <==> Frontier(src, s, pat, p, e)
  {
    hide SetIs, InSet;
    SetIsSame(pat, p, e, if s == 0 then '\0' else src[s - 1]);
    SetIsSame(pat, p, e, At(src, s));
  }

  lemma {:induction false} ItemInSem(src: string, pat: string, p: nat, s: nat, caps: seq<Cap>, o: Out, ds: seq<Step>)
    requires p < |pat| && pat[p] != '\0' && s <= |src| && DerivesItem(src, pat, p, s, caps, o, ds)
    ensures o in SemItem(src, pat, p, s, caps)
    decreases |pat| - p, 0
  {
    hide ItemIs, ClassEnd, Derives, Sem, Many, Choices;
    var e := ItemEnd(src, pat, p, s, caps, o, ds);
    var n := RunLength(src, pat, p, e, s);
    if At(pat, e) in "?*+-" {
      var k := ds[0].times;
      ManySame(src, pat, p, e, s, k);
      DerivesInSem(src, pat, e + 1, s + k, caps, o, ds[1..]);
      var rest := Rest(src, pat, e + 1, caps);
      assert o in rest(s + k);
      InChoices(At(pat, e), rest, s, n, k, o);
    } else {
      ManySame(src, pat, p, e, s, 1);
      DerivesInSem(src, pat, e, s + 1, caps, o, ds);
    }
  }

  /** The end of the class of a derivation is that of the matcher. */
  lemma ItemEnd(src: string, pat: string, p: nat, s: nat, caps: seq<Cap>, o: Out, ds: seq<Step>) returns (e: nat)
    requires p < |pat| && pat[p] != '\0' && s <= |src| && DerivesItem(src, pat, p, s, caps, o, ds)
    ensures p < e <= |pat| && e == ClassEnd(pat, p) && ItemIs(pat, p, e)
    ensures if At(pat, e) in "?*+-" then
              && ds != [] && ds[0].suffix == At(pat, e) && Many(src, pat, p, e, s, ds[0].times)
              && s + ds[0].times <= |src|
              && (At(pat, e) == '?' ==> ds[0].times <= 1) && (At(pat, e) == '+' ==> ds[0].times >= 1)
              && Derives(src, pat, e + 1, s + ds[0].times, caps, o, ds[1..])
            else Many(src, pat, p, e, s, 1) && s + 1 <= |src| && Derives(src, pat, e, s + 1, caps, o, ds)
  {
    hide Derives, Closes, ClassEnd;
    e :| ItemIs(pat, p, e) &&
      if At(pat, e) in "?*+-" then
        && ds != [] && ds[0].suffix == At(pat, e) && Many(src, pat, p, e, s, ds[0].times)
        && (At(pat, e) == '?' ==> ds[0].times <= 1) && (At(pat, e) == '+' ==> ds[0].times >= 1)
        && Derives(src, pat, e + 1, s + ds[0].times, caps, o, ds[1..])
      else Many(src, pat, p, e, s, 1) && Derives(src, pat, e, s + 1, caps, o, ds);
    ItemSame(pat, p, e);
  }

  lemma InChoices(suffix: char, rest: nat -> seq<Out>, s: nat, n: nat, k: nat, o: Out)
    requires suffix in "?*+-" && k <= n && (suffix == '?' ==> k <= 1) && (suffix == '+' ==> k >= 1) && o in rest(s + k)
    ensures o in Choices(suffix, rest, s, n)
  {
    hide Longest, Shortest;
    var t := s + k;
    if suffix == '*' {
      InLongest(rest, s, n, o);
    } else if suffix == '+' {
      InLongest(rest, s + 1, n - 1, o);
    } else if suffix == '-' {
      InShortest(rest, s, n, o);
    }
    assert o in rest(t);
  }

  /** The first of the matcher's list is preferred to all other ways to match. */
  lemma {:induction false} FirstLeads(src: string, pat: string, p: nat, s: nat, caps: seq<Cap>)
                                      returns (ds: seq<Step>)
    requires p <= |pat| && s <= |src| && Sem(src, pat, p, s, caps) != []
    ensures Leads(src, pat, p, s, caps, Sem(src, pat, p, s, caps)[0], ds)
    decreases |pat| - p, 1
  {
    hide Balance, Depth, SetIs, InSet, ClassEnd, Closes, DerivesItem, SemItem, Preferred;
    var c, d := At(pat, p), At(pat, p + 1);
    if c == '\0' || (c == '$' && d == '\0') {
      ds := [];
      forall o', es: seq<Step>
        ensures Derives(src, pat, p, s, caps, o', es) <==> o' == Out(s, caps) && es == [] && (c == '$' ==> s == |src|)
      {
      }
    } else if c == '(' || c == ')' || (c == '%' && (d == 'b' || d == 'f' || '0' <= d <= '9')) {
      var q, t, caps' := OneWay(src, pat, p, s, caps);
      ds := FirstLeads(src, pat, q, t, caps');
      hide Sem, Derives;
    } else {
      ds := ItemLeads(src, pat, p, s, caps);
      forall o', es: seq<Step>
        ensures Derives(src, pat, p, s, caps, o', es) <==> DerivesItem(src, pat, p, s, caps, o', es)
      {
      }
    }
  }

  /** Anything but a class has one way to match: everything goes on at q and t. */
  lemma OneWay(src: string, pat: string, p: nat, s: nat, caps: seq<Cap>) returns (q: nat, t: nat, caps': seq<Cap>)
    requires p <= |pat| && s <= |src| && Sem(src, pat, p, s, caps) != []
    requires var c, d := At(pat, p), At(pat, p + 1);
      c == '(' || c == ')' || (c == '%' && (d == 'b' || d == 'f' || '0' <= d <= '9'))
    ensures p < q <= |pat| && t <= |src| && Sem(src, pat, p, s, caps) == Sem(src, pat, q, t, caps')
    ensures forall o, ds :: Derives(src, pat, p, s, caps, o, ds) <==> Derives(src, pat, q, t, caps', o, ds)
  {
    hide Balance, Depth, SetIs, InSet, ClassEnd, Closes, DerivesItem, SemItem;
    var c, d := At(pat, p), At(pat, p + 1);
    if c == '(' {
      q, t, caps' := if d == ')' then p + 2 else p + 1, s, caps + [Cap(s, if d == ')' then -2 else -1)];
    } else if c == ')' {
      var l := ToClose(caps);
      assert IsLastOpen(caps, l) && forall k: nat :: IsLastOpen(caps, k) ==> k == l;
      q, t, caps' := p + 1, s, caps[l := Cap(caps[l].init, s - caps[l].init)];
    } else if d == 'b' {
      var x, y := pat[p + 2], pat[p + 3];
      q, t, caps' := p + 4, Balance(src, s, x, y), caps;
      forall e: nat ensures Balanced(src, s, e, x, y) <==> e == t { BalancedSame(src, s, e, x, y); }
    } else if d == 'f' {
      var i := p + 2;
      q, t, caps' := ClassEnd(pat, i), s, caps;
      forall e: nat ensures ItemIs(pat, i, e) <==> e == q { ItemSame(pat, i, e); }
      FrontierSame(src, s, pat, i, q);
    } else {
      q, t, caps' := p + 2, s + caps[d as int - '1' as int].len, caps;
    }
    forall o, ds: seq<Step>
      ensures Derives(src, pat, p, s, caps, o, ds) <==> Derives(src, pat, q, t, caps', o, ds)
    {
    }
  }

  lemma {:induction false} ItemLeads(src: string, pat: string, p: nat, s: nat, caps: seq<Cap>) returns (ds: seq<Step>)
    requires p < |pat| && pat[p] != '\0' && s <= |src| && SemItem(src, pat, p, s, caps) != []
    ensures DerivesItem(src, pat, p, s, caps, SemItem(src, pat, p, s, caps)[0], ds)
    ensures forall o', es :: DerivesItem(src, pat, p, s, caps, o', es) ==>
        (o' == SemItem(src, pat, p, s, caps)[0] && es == ds) || Preferred(ds, es)
    decreases |pat| - p, 0
  {
    hide Derives, Sem, ItemIs, ClassEnd, Choices, Many, Preferred;
    var e := ClassEnd(pat, p);
    ItemSame(pat, p, e);
    var n := RunLength(src, pat, p, e, s);
    if At(pat, e) in "?*+-" {
      var rest := Rest(src, pat, e + 1, caps);
      var t := ChoiceFirst(At(pat, e), rest, s, n);
      var es := FirstLeads(src, pat, e + 1, t, caps);
      ds := [Step(At(pat, e), t - s)] + es;
      SuffixLeads(src, pat, p, e, s, caps, t, es, Sem(src, pat, e + 1, t, caps)[0]);
    } else {
      ManySame(src, pat, p, e, s, 1);
      ds := FirstLeads(src, pat, e, s + 1, caps);
      PlainLeads(src, pat, p, e, s, caps, Sem(src, pat, e, s + 1, caps)[0], ds);
    }
  }

  lemma PlainLeads(src: string, pat: string, p: nat, e: nat, s: nat, caps: seq<Cap>, o: Out, ds: seq<Step>)
    requires p < |pat| && pat[p] != '\0' && ItemIs(pat, p, e) && s + 1 <= |src| && At(pat, e) !in "?*+-"
      && p < e <= |pat| && Many(src, pat, p, e, s, 1) && Leads(src, pat, e, s + 1, caps, o, ds)
    ensures DerivesItem(src, pat, p, s, caps, o, ds)
    ensures forall o', es :: DerivesItem(src, pat, p, s, caps, o', es) ==> (o' == o && es == ds) || Preferred(ds, es)
  {
    hide Derives, DerivesItem, Many, Preferred, ClassEnd, ItemIs;
    ItemIntro(src, pat, p, e, s, caps, o, ds);
    forall o', es | DerivesItem(src, pat, p, s, caps, o', es)
      ensures (o' == o && es == ds) || Preferred(ds, es)
    {
      var e' := ItemEnd(src, pat, p, s, caps, o', es);
      ItemSame(pat, p, e);
    }
  }

  lemma ItemIntro(src: string, pat: string, p: nat, e: nat, s: nat, caps: seq<Cap>, o: Out, ds: seq<Step>)
    requires p < e <= |pat| && s <= |src| && ItemIs(pat, p, e)
    requires if At(pat, e) in "?*+-" then
               && ds != [] && ds[0].suffix == At(pat, e) && Many(src, pat, p, e, s, ds[0].times)
               && s + ds[0].times <= |src|
               && (At(pat, e) == '?' ==> ds[0].times <= 1) && (At(pat, e) == '+' ==> ds[0].times >= 1)
               && Derives(src, pat, e + 1, s + ds[0].times, caps, o, ds[1..])
             else Many(src, pat, p, e, s, 1) && s + 1 <= |src| && Derives(src, pat, e, s + 1, caps, o, ds)
    ensures DerivesItem(src, pat, p, s, caps, o, ds)
  {
  }

  lemma SuffixLeads(src: string, pat: string, p: nat, e: nat, s: nat, caps: seq<Cap>, t: nat, es: seq<Step>, o: Out)
    requires p < e < |pat| && pat[p] != '\0' && ItemIs(pat, p, e) && s <= t <= |src| && At(pat, e) in "?*+-"
    requires var rest := Rest(src, pat, e + 1, caps); var n := RunLength(src, pat, p, e, s); var suffix := At(pat, e);
      && t <= s + n && (suffix == '?' ==> t <= s + 1) && (suffix == '+' ==> s < t)
      && NoneBetter(suffix, rest, s, n, t)
    requires Leads(src, pat, e + 1, t, caps, o, es)
    ensures DerivesItem(src, pat, p, s, caps, o, [Step(At(pat, e), t - s)] + es)
    ensures forall o', fs :: DerivesItem(src, pat, p, s, caps, o', fs) ==>
        (o' == o && fs == [Step(At(pat, e), t - s)] + es) || Preferred([Step(At(pat, e), t - s)] + es, fs)
  {
    hide Derives, DerivesItem, Many, Preferred, ClassEnd, ItemIs, Sem;
    var ds := [Step(At(pat, e), t - s)] + es;
    assert ds[1..] == es && s + (t - s) == t;
    ManySame(src, pat, p, e, s, t - s);
    ItemIntro(src, pat, p, e, s, caps, o, ds);
    var rest := Rest(src, pat, e + 1, caps);
    forall o', fs: seq<Step> | DerivesItem(src, pat, p, s, caps, o', fs)
      ensures (o' == o && fs == ds) || Preferred(ds, fs)
    {
      ItemSame(pat, p, e);
      var e' := ItemEnd(src, pat, p, s, caps, o', fs);
      var u := s + fs[0].times;
      ManySame(src, pat, p, e, s, fs[0].times);
      DerivesInSem(src, pat, e + 1, u, caps, o', fs[1..]);
      assert rest(u) != [];
      assert fs == [fs[0]] + fs[1..];
      if u == t {
        if fs[1..] != es || o' != o { StepBehind(ds[0], es, fs[1..]); }
      } else {
        assert ds[..0] == fs[..0];
        assert PartAt(ds, fs, 0);
        PartsPreferred(ds, fs, 0);
      }
    }
  }

  lemma PartsPreferred(ds: seq<Step>, es: seq<Step>, i: nat)
    requires PartAt(ds, es, i)
    ensures Preferred(ds, es)
  {
  }

  lemma StepBehind(x: Step, ds: seq<Step>, es: seq<Step>)
    requires Preferred(ds, es)
    ensures Preferred([x] + ds, [x] + es)
  {
    var i: nat :| PartAt(ds, es, i);
    assert ([x] + ds)[..i + 1] == [x] + ds[..i] && ([x] + es)[..i + 1] == [x] + es[..i];
    assert PartAt([x] + ds, [x] + es, i + 1);
  }

  /** What a match must be, given the manual's account of it: the preferred way, or none. */
  lemma SemIsBest(src: string, pat: string, p: nat, s: nat, caps: seq<Cap>)
    requires p <= |pat| && s <= |src|
    ensures Sem(src, pat, p, s, caps) != [] ==> Best(src, pat, p, s, caps, Sem(src, pat, p, s, caps)[0])
    ensures Sem(src, pat, p, s, caps) == [] ==> NoWay(src, pat, p, s, caps)
  {
    hide Sem, Derives, Leads;
    if Sem(src, pat, p, s, caps) != [] {
      var ds := FirstLeads(src, pat, p, s, caps);
    } else {
      forall o, ds ensures !Derives(src, pat, p, s, caps, o, ds) {
        if Derives(src, pat, p, s, caps, o, ds) { DerivesInSem(src, pat, p, s, caps, o, ds); }
      }
    }
  }

  lemma PartsOnce(ds: seq<Step>, es: seq<Step>, i: nat, j: nat)
    requires PartAt(ds, es, i)
    ensures !PartAt(es, ds, j)
  {
    if i < j && j < |ds| && j < |es| {
      assert es[..j][i] == es[i] && ds[..j][i] == ds[i];
    } else if j < i {
      assert ds[..i][j] == ds[j] && es[..i][j] == es[j];
    }
  }

  /** There is at most one preferred match. */
  lemma BestIsOne(src: string, pat: string, p: nat, s: nat, caps: seq<Cap>, o: Out, o': Out)
    requires p <= |pat| && s <= |src| && Best(src, pat, p, s, caps, o) && Best(src, pat, p, s, caps, o')
    ensures o == o'
  {
    hide Derives, PartAt;
    var ds: seq<Step> :| Leads(src, pat, p, s, caps, o, ds);
    var es: seq<Step> :| Leads(src, pat, p, s, caps, o', es);
    forall i: nat, j: nat | PartAt(ds, es, i)
      ensures !PartAt(es, ds, j)
    {
      PartsOnce(ds, es, i, j);
    }
  }
}
