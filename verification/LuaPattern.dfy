/** Lua patterns (section 5.4.1 of the Lua 5.1 Reference Manual): what a pattern matches,
    as the ordered list of all ways to match (lib_string.c:163-451).

    Strings are sequences of bytes written as characters below 256.  A pattern ends at its
    first NUL or after its last character, where C strings hold a NUL. */
module LuaPattern {
  const CAP_UNFINISHED: int := -1
  const CAP_POSITION: int := -2
  const LUA_MAXCAPTURES: nat := 32
  const LJ_MAX_XLEVEL: nat := 200
  const ESC: char := '%'
  const NUL: char := '\0'

  datatype Cap = Cap(init: nat, len: int)
  datatype Out = Out(e: nat, caps: seq<Cap>)

  function At(t: string, i: nat): char {
    if i < |t| then t[i] else NUL
  }

  // ----- single characters

  predicate IsDigit(c: char) { '0' <= c <= '9' }
  predicate IsLower(c: char) { 'a' <= c <= 'z' }
  predicate IsUpper(c: char) { 'A' <= c <= 'Z' }
  predicate IsAlpha(c: char) { IsLower(c) || IsUpper(c) }
  predicate IsGraph(c: char) { '!' <= c <= '~' }

  /** The classes that match_class_map knows, by their lower case letter. */
  function ClassOf(letter: char, c: char): (r: bool)
  {
    match letter
    case 'a' => IsAlpha(c)
    case 'c' => c as int < 32 || c as int == 127
    case 'd' => IsDigit(c)
    case 'g' => IsGraph(c)
    case 'l' => IsLower(c)
    case 'p' => IsGraph(c) && !IsAlpha(c) && !IsDigit(c)
    case 's' => c == ' ' || 9 <= c as int <= 13
    case 'u' => IsUpper(c)
    case 'w' => IsAlpha(c) || IsDigit(c)
    case 'x' => IsDigit(c) || 'a' <= c <= 'f' || 'A' <= c <= 'F'
    case _ => false
  }

  predicate IsClassLetter(c: char) {
    c in "acdglpsuwx"
  }

  function ToLower(c: char): char {
    if IsUpper(c) then (c as int + 32) as char else c
  }

  /** match_class: a class, its complement in upper case, or the character itself. */
  predicate MatchClass(c: char, cl: char) {
    if IsAlpha(cl) && IsClassLetter(ToLower(cl)) then ClassOf(ToLower(cl), c) == IsLower(cl)
    else if cl == 'z' then c == NUL
    else if cl == 'Z' then c != NUL
    else cl == c
  }

  // ----- sets

  /** An element of a set: a class, a range or a character. */
  datatype Elem = Class(cl: char) | Range(lo: char, hi: char) | One(c: char)

  /** The elements of the set whose text lies behind position p and before ec. */
  function Elems(pat: string, p: nat, ec: nat): seq<Elem>
    decreases ec - p
  {
    var q := p + 1;
    if q >= ec then []
    else if At(pat, q) == ESC then [Class(At(pat, q + 1))] + (if q + 1 < ec then Elems(pat, q + 1, ec) else [])
    else if At(pat, q + 1) == '-' && q + 2 < ec then [Range(At(pat, q), At(pat, q + 2))] + Elems(pat, q + 2, ec)
    else [One(At(pat, q))] + Elems(pat, q, ec)
  }

  predicate InElem(c: char, x: Elem) {
    match x
    case Class(cl) => MatchClass(c, cl)
    case Range(lo, hi) => lo <= c <= hi
    case One(d) => c == d
  }

  predicate HasElem(c: char, xs: seq<Elem>) {
    exists x :: x in xs && InElem(c, x)
  }

  /** The set at p, which ends before ec, holds c. */
  predicate InSet(c: char, pat: string, p: nat, ec: nat) {
    if At(pat, p + 1) == '^' then !HasElem(c, Elems(pat, p + 1, ec)) else HasElem(c, Elems(pat, p, ec))
  }

  /** Where the text of a set ends, from position q in it; 0 when it does not. */
  function SetEnd(pat: string, q: nat): (r: nat)
    ensures r != 0 ==> q + 1 < r <= |pat|
    decreases |pat| - q
  {
    if At(pat, q) == NUL then 0
    else
      var x := if At(pat, q) == ESC && At(pat, q + 1) != NUL then q + 2 else q + 1;
      if At(pat, x) == ']' then x + 1 else SetEnd(pat, x)
  }

  /** classend: the end of the single character class at p, or 0 when it is malformed. */
  function ClassEnd(pat: string, p: nat): (r: nat)
    requires p < |pat|
    ensures r != 0 ==> p < r <= |pat|
  {
    if pat[p] == ESC then (if At(pat, p + 1) == NUL then 0 else p + 2)
    else if pat[p] == '[' then SetEnd(pat, if At(pat, p + 1) == '^' then p + 2 else p + 1)
    else p + 1
  }

  /** singlematch. */
  predicate Single(c: char, pat: string, p: nat, ep: nat)
    requires p < |pat| && 0 < ep
  {
    match pat[p]
    case '.' => true
    case '%' => MatchClass(c, At(pat, p + 1))
    case '[' => InSet(c, pat, p, ep - 1)
    case x => x == c
  }

  // ----- balanced strings

  /** The end of the balanced string with `open` brackets pending at i, or 0. */
  function BalanceEnd(src: string, i: nat, b: char, e: char, open: nat): (r: nat)
    ensures r != 0 ==> i < r <= |src|
    decreases |src| - i
  {
    if i >= |src| then 0
    else if src[i] == e then (if open <= 1 then i + 1 else BalanceEnd(src, i + 1, b, e, open - 1))
    else if src[i] == b then BalanceEnd(src, i + 1, b, e, open + 1)
    else BalanceEnd(src, i + 1, b, e, open)
  }

  function Balance(src: string, s: nat, b: char, e: char): (r: nat)
    ensures r != 0 ==> s + 1 < r <= |src|
  {
    if s < |src| && src[s] == b then BalanceEnd(src, s + 1, b, e, 1) else 0
  }

  // ----- captures

  /** The capture that ')' closes: the last unfinished one, or |caps|. */
  function ToClose(caps: seq<Cap>): (r: nat)
    ensures r <= |caps| && (r < |caps| ==> caps[r].len == CAP_UNFINISHED)
    ensures forall i :: 0 <= i < |caps| && (r == |caps| || r < i) ==> caps[i].len != CAP_UNFINISHED
  {
    if caps == [] then 0
    else
      var n := |caps| - 1;
      if caps[n].len == CAP_UNFINISHED then n
      else
        var r := ToClose(caps[..n]);
        if r == n then n + 1 else r
  }

  /** The capture a digit refers to; |caps| when there is none that is closed. */
  function Referred(caps: seq<Cap>, d: char): (r: nat)
    ensures r <= |caps| && (r < |caps| ==> caps[r].len != CAP_UNFINISHED)
  {
    var l := d as int - '1' as int;
    if l < 0 || l >= |caps| || caps[l].len == CAP_UNFINISHED then |caps| else l
  }

  /** The text of a capture stands at s. */
  predicate Repeats(src: string, s: nat, c: Cap) {
    c.len >= 0 && s + c.len <= |src| && c.init + c.len <= |src| && src[c.init..c.init + c.len] == src[s..s + c.len]
  }

  /** The frontier before s: from outside the set to inside. */
  predicate Frontier(src: string, s: nat, pat: string, p: nat, ep: nat)
    requires 0 < ep && s <= |src|
  {
    !InSet(if s == 0 then NUL else src[s - 1], pat, p, ep - 1) && InSet(At(src, s), pat, p, ep - 1)
  }

  // ----- all matches, in the order of preference

  /** The ways to go on after i repetitions, then after fewer. */
  function Longest(rest: nat -> seq<Out>, s: nat, i: nat): seq<Out> {
    rest(s + i) + (if i == 0 then [] else Longest(rest, s, i - 1))
  }

  /** The ways to go on after no repetition, then after more, up to n. */
  function Shortest(rest: nat -> seq<Out>, s: nat, n: nat): seq<Out>
    decreases n
  {
    rest(s) + (if n == 0 then [] else Shortest(rest, s + 1, n - 1))
  }

  predicate IsSuffix(c: char) { c == '?' || c == '*' || c == '+' || c == '-' }

  /** The ways to go on after a class with a suffix that can match up to n times. */
  function Choices(suffix: char, rest: nat -> seq<Out>, s: nat, n: nat): seq<Out> {
    match suffix
    case '?' => (if n > 0 then rest(s + 1) else []) + rest(s)
    case '*' => Longest(rest, s, n)
    case '+' => if n > 0 then Longest(rest, s + 1, n - 1) else []
    case _ => Shortest(rest, s, n)
  }

  /** How often the class at p matches from s on. */
  function RunLength(src: string, pat: string, p: nat, ep: nat, s: nat): (r: nat)
    requires p < |pat| && 0 < ep && s <= |src|
    ensures s + r <= |src|
    decreases |src| - s
  {
    if s < |src| && Single(src[s], pat, p, ep) then 1 + RunLength(src, pat, p, ep, s + 1) else 0
  }

  /** All ways to match the pattern from p on at s: the end and the captures of each, the
      preferred first.  A malformed pattern does not match. */
  function Sem(src: string, pat: string, p: nat, s: nat, caps: seq<Cap>): seq<Out>
    requires p <= |pat| && s <= |src|
    decreases |pat| - p, 0, 1
  {
    var c, d := At(pat, p), At(pat, p + 1);
    if c == NUL then [Out(s, caps)]
    else if c == '(' then
      if |caps| >= LUA_MAXCAPTURES then []
      else if d == ')' then Sem(src, pat, p + 2, s, caps + [Cap(s, CAP_POSITION)])
      else Sem(src, pat, p + 1, s, caps + [Cap(s, CAP_UNFINISHED)])
    else if c == ')' then
      var l := ToClose(caps);
      if l < |caps| && caps[l].init <= s then Sem(src, pat, p + 1, s, caps[l := Cap(caps[l].init, s - caps[l].init)])
        else []
    else if c == ESC && d == 'b' then
      if At(pat, p + 2) == NUL || At(pat, p + 3) == NUL then []
      else
        var e := Balance(src, s, At(pat, p + 2), At(pat, p + 3));
        if e == 0 then [] else Sem(src, pat, p + 4, e, caps)
    else if c == ESC && d == 'f' then
      if At(pat, p + 2) != '[' then []
      else
        var ep := ClassEnd(pat, p + 2);
        if ep != 0 && Frontier(src, s, pat, p + 2, ep) then Sem(src, pat, ep, s, caps) else []
    else if c == ESC && IsDigit(d) then
      var l := Referred(caps, d);
      if l < |caps| && Repeats(src, s, caps[l]) then Sem(src, pat, p + 2, s + caps[l].len, caps) else []
    else if c == '$' && d == NUL then
      if s == |src| then [Out(s, caps)] else []
    else SemItem(src, pat, p, s, caps)
  }

  /** A single character class, possibly repeated. */
  function SemItem(src: string, pat: string, p: nat, s: nat, caps: seq<Cap>): seq<Out>
    requires p < |pat| && s <= |src|
    decreases |pat| - p, 0, 0
  {
    var ep := ClassEnd(pat, p);
    if ep == 0 then []
    else
      var n := RunLength(src, pat, p, ep, s);
      if IsSuffix(At(pat, ep)) then Choices(At(pat, ep), Rest(src, pat, ep + 1, caps), s, n)
      else if n > 0 then Sem(src, pat, ep, s + 1, caps)
      else []
  }

  /** The ways to match the rest of the pattern from each place. */
  function Rest(src: string, pat: string, q: nat, caps: seq<Cap>): nat -> seq<Out>
    requires q <= |pat|
    decreases |pat| - q, 1
  {
    (t: nat) => if t <= |src| then Sem(src, pat, q, t, caps) else []
  }

  // ----- when the search throws

  /** One of the tries from s + i repetitions on down throws before one succeeds. */
  predicate LongThrows(throws: nat -> bool, rest: nat -> seq<Out>, s: nat, i: nat) {
    throws(s + i) || (rest(s + i) == [] && i > 0 && LongThrows(throws, rest, s, i - 1))
  }

  /** One of the tries from no repetition on up to n throws before one succeeds. */
  predicate ShortThrows(throws: nat -> bool, rest: nat -> seq<Out>, s: nat, n: nat)
    decreases n
  {
    throws(s) || (rest(s) == [] && n > 0 && ShortThrows(throws, rest, s + 1, n - 1))
  }

  /** The search for the pattern from p on at s throws: it comes to something malformed, to
      more than 32 captures or to more than `room` nested calls before it succeeds. */
  predicate Throws(src: string, pat: string, p: nat, s: nat, caps: seq<Cap>, room: nat)
    requires p <= |pat| && s <= |src|
    decreases |pat| - p, 0, 1
  {
    var c, d := At(pat, p), At(pat, p + 1);
    if c == NUL then false
    else if c == '(' then
      || |caps| >= LUA_MAXCAPTURES || room == 0
      || (if d == ')' then Throws(src, pat, p + 2, s, caps + [Cap(s, CAP_POSITION)], room - 1)
          else Throws(src, pat, p + 1, s, caps + [Cap(s, CAP_UNFINISHED)], room - 1))
    else if c == ')' then
      var l := ToClose(caps);
      || l == |caps| || room == 0
      || (caps[l].init <= s && Throws(src, pat, p + 1, s, caps[l := Cap(caps[l].init, s - caps[l].init)], room - 1))
    else if c == ESC && d == 'b' then
      || At(pat, p + 2) == NUL || At(pat, p + 3) == NUL
      || (var e := Balance(src, s, At(pat, p + 2), At(pat, p + 3)); e != 0 && Throws(src, pat, p + 4, e, caps, room))
    else if c == ESC && d == 'f' then
      || At(pat, p + 2) != '['
      || (var ep := ClassEnd(pat, p + 2);
        ep == 0 || (Frontier(src, s, pat, p + 2, ep) && Throws(src, pat, ep, s, caps, room)))
    else if c == ESC && IsDigit(d) then
      var l := Referred(caps, d);
      l == |caps| || (Repeats(src, s, caps[l]) && Throws(src, pat, p + 2, s + caps[l].len, caps, room))
    else if c == '$' && d == NUL then false
    else ThrowsItem(src, pat, p, s, caps, room)
  }

  predicate ThrowsItem(src: string, pat: string, p: nat, s: nat, caps: seq<Cap>, room: nat)
    requires p < |pat| && s <= |src|
    decreases |pat| - p, 0, 0
  {
    var ep := ClassEnd(pat, p);
    if ep == 0 then true
    else
      var n := RunLength(src, pat, p, ep, s);
      if IsSuffix(At(pat, ep)) then
        var throws, rest := ThrowsAt(src, pat, ep + 1, caps, room), Rest(src, pat, ep + 1, caps);
        match At(pat, ep)
        case '?' => (n > 0 && throws(s + 1))
          || ((n > 0 ==> rest(s + 1) == []) && Throws(src, pat, ep + 1, s, caps, room))
        case '*' => LongThrows(throws, rest, s, n)
        case '+' => n > 0 && LongThrows(throws, rest, s + 1, n - 1)
        case _ => ShortThrows(throws, rest, s, n)
      else n > 0 && Throws(src, pat, ep, s + 1, caps, room)
  }

  /** A nested call throws at each place. */
  function ThrowsAt(src: string, pat: string, q: nat, caps: seq<Cap>, room: nat): nat -> bool
    requires q <= |pat|
    decreases |pat| - q, 1
  {
    (t: nat) => room == 0 || (t <= |src| && Throws(src, pat, q, t, caps, room - 1))
  }

  // ----- patterns that throw no error

  /** Which captures are still unfinished. */
  function Shape(caps: seq<Cap>): (r: seq<bool>)
    ensures |r| == |caps| && forall i :: 0 <= i < |caps| ==> r[i] == (caps[i].len == CAP_UNFINISHED)
  {
    seq(|caps|, i requires 0 <= i < |caps| => caps[i].len == CAP_UNFINISHED)
  }

  function LastOpen(open: seq<bool>): (r: nat)
    ensures r <= |open| && (r < |open| ==> open[r])
  {
    if open == [] then 0
    else
      var n := |open| - 1;
      if open[n] then n
      else
        var r := LastOpen(open[..n]);
        if r == n then n + 1 else r
  }

  /** The pattern from p on is well formed: classes and sets end, captures are closed only
      when open and referred to only when closed, and there are no more than 32 of them; and
      captures and suffixes are no more than `room`. */
  predicate WellFormed(pat: string, p: nat, open: seq<bool>, room: nat)
    requires p <= |pat|
    decreases |pat| - p
  {
    var c, d := At(pat, p), At(pat, p + 1);
    if c == NUL then true
    else if c == '(' then
      |open| < LUA_MAXCAPTURES && room > 0 &&
      if d == ')' then WellFormed(pat, p + 2, open + [false], room - 1)
        else WellFormed(pat, p + 1, open + [true], room - 1)
    else if c == ')' then
      var l := LastOpen(open);
      l < |open| && room > 0 && WellFormed(pat, p + 1, open[l := false], room - 1)
    else if c == ESC && d == 'b' then
      At(pat, p + 2) != NUL && At(pat, p + 3) != NUL && WellFormed(pat, p + 4, open, room)
    else if c == ESC && d == 'f' then
      At(pat, p + 2) == '[' &&
      var ep := ClassEnd(pat, p + 2);
      ep != 0 && WellFormed(pat, ep, open, room)
    else if c == ESC && IsDigit(d) then
      var l := d as int - '1' as int;
      0 <= l < |open| && !open[l] && WellFormed(pat, p + 2, open, room)
    else if c == '$' && d == NUL then true
    else
      var ep := ClassEnd(pat, p);
      ep != 0 && (if IsSuffix(At(pat, ep)) then room > 0 && WellFormed(pat, ep + 1, open, room - 1)
        else WellFormed(pat, ep, open, room))
  }

  lemma {:induction false} Roomier(pat: string, p: nat, open: seq<bool>, room: nat)
    requires p <= |pat| && WellFormed(pat, p, open, room)
    ensures WellFormed(pat, p, open, room + 1)
    decreases |pat| - p
  {
    var c, d := At(pat, p), At(pat, p + 1);
    if c == NUL {
    } else if c == '(' {
      if d == ')' {
        Roomier(pat, p + 2, open + [false], room - 1);
      } else { Roomier(pat, p + 1, open + [true], room - 1); }
    } else if c == ')' {
      Roomier(pat, p + 1, open[LastOpen(open) := false], room - 1);
    } else if c == ESC && d == 'b' {
      Roomier(pat, p + 4, open, room);
    } else if c == ESC && d == 'f' {
      Roomier(pat, ClassEnd(pat, p + 2), open, room);
    } else if c == ESC && IsDigit(d) {
      Roomier(pat, p + 2, open, room);
    } else if c == '$' && d == NUL {
    } else {
      var ep := ClassEnd(pat, p);
      if IsSuffix(At(pat, ep)) { Roomier(pat, ep + 1, open, room - 1); } else { Roomier(pat, ep, open, room); }
    }
  }

  lemma {:induction false} OpenIsToClose(caps: seq<Cap>)
    ensures LastOpen(Shape(caps)) == ToClose(caps)
  {
    if caps != [] {
      var n := |caps| - 1;
      OpenIsToClose(caps[..n]);
      assert Shape(caps)[..n] == Shape(caps[..n]);
    }
  }

  /** A well formed pattern throws nowhere. */
  lemma {:induction false} WellFormedNeverThrows(src: string, pat: string, p: nat, s: nat, caps: seq<Cap>, room: nat)
    requires p <= |pat| && s <= |src| && WellFormed(pat, p, Shape(caps), room)
    ensures !Throws(src, pat, p, s, caps, room)
    decreases |pat| - p, 1
  {
    hide ThrowsItem, Balance, Frontier, ClassEnd, RunLength;
    var c, d := At(pat, p), At(pat, p + 1);
    if c == NUL {
    } else if c == '(' {
      var cap := Cap(s, if d == ')' then CAP_POSITION else CAP_UNFINISHED);
      assert Shape(caps + [cap]) == Shape(caps) + [d != ')'];
      WellFormedNeverThrows(src, pat, if d == ')' then p + 2 else p + 1, s, caps + [cap], room - 1);
    } else if c == ')' {
      OpenIsToClose(caps);
      var l := ToClose(caps);
      if caps[l].init <= s {
        var caps' := caps[l := Cap(caps[l].init, s - caps[l].init)];
        assert Shape(caps') == Shape(caps)[l := false];
        WellFormedNeverThrows(src, pat, p + 1, s, caps', room - 1);
      }
    } else if c == ESC && d == 'b' {
      var e := Balance(src, s, At(pat, p + 2), At(pat, p + 3));
      if e != 0 { WellFormedNeverThrows(src, pat, p + 4, e, caps, room); }
    } else if c == ESC && d == 'f' {
      WellFormedNeverThrows(src, pat, ClassEnd(pat, p + 2), s, caps, room);
    } else if c == ESC && IsDigit(d) {
      var l := Referred(caps, d);
      if Repeats(src, s, caps[l]) { WellFormedNeverThrows(src, pat, p + 2, s + caps[l].len, caps, room); }
    } else if c == '$' && d == NUL {
    } else {
      ItemNeverThrows(src, pat, p, s, caps, room);
    }
  }

  lemma {:induction false} ItemNeverThrows(src: string, pat: string, p: nat, s: nat, caps: seq<Cap>, room: nat)
    requires p < |pat| && s <= |src|
    requires var ep := ClassEnd(pat, p);
      ep != 0 && (if IsSuffix(At(pat, ep)) then room > 0 && WellFormed(pat, ep + 1, Shape(caps), room - 1)
        else WellFormed(pat, ep, Shape(caps), room))
    ensures !ThrowsItem(src, pat, p, s, caps, room)
    decreases |pat| - p, 0
  {
    hide Throws, WellFormed, ClassEnd;
    var ep := ClassEnd(pat, p);
    var n := RunLength(src, pat, p, ep, s);
    if IsSuffix(At(pat, ep)) {
      var throws, rest := ThrowsAt(src, pat, ep + 1, caps, room), Rest(src, pat, ep + 1, caps);
      forall t: nat ensures !throws(t) {
        if t <= |src| { WellFormedNeverThrows(src, pat, ep + 1, t, caps, room - 1); }
      }
      NoneThrows(throws, rest, s, n);
      if n > 0 { NoneThrows(throws, rest, s + 1, n - 1); }
      Roomier(pat, ep + 1, Shape(caps), room - 1);
      WellFormedNeverThrows(src, pat, ep + 1, s, caps, room);
    } else if n > 0 {
      WellFormedNeverThrows(src, pat, ep, s + 1, caps, room);
    }
  }

  lemma {:induction false} NoneThrows(throws: nat -> bool, rest: nat -> seq<Out>, s: nat, n: nat)
    requires forall t: nat :: !throws(t)
    ensures !LongThrows(throws, rest, s, n) && !ShortThrows(throws, rest, s, n)
    decreases n
  {
    if n > 0 {
      NoneThrows(throws, rest, s, n - 1);
      NoneThrows(throws, rest, s + 1, n - 1);
    }
  }

  // ----- what it means to match, without an order

  /** The class at p matches everything from s to t. */
  predicate Repeated(src: string, pat: string, p: nat, ep: nat, s: nat, t: nat)
    requires p < |pat| && 0 < ep
  {
    s <= t <= |src| && forall j :: s <= j < t ==> Single(src[j], pat, p, ep)
  }

  /** The pattern from p on can match at s with this end and these captures. */
  ghost predicate Matches(src: string, pat: string, p: nat, s: nat, caps: seq<Cap>, o: Out)
    requires p <= |pat| && s <= |src|
    decreases |pat| - p, 1
  {
    var c, d := At(pat, p), At(pat, p + 1);
    if c == NUL then o == Out(s, caps)
    else if c == '(' then
      |caps| < LUA_MAXCAPTURES &&
      if d == ')' then Matches(src, pat, p + 2, s, caps + [Cap(s, CAP_POSITION)], o)
      else Matches(src, pat, p + 1, s, caps + [Cap(s, CAP_UNFINISHED)], o)
    else if c == ')' then
      var l := ToClose(caps);
      l < |caps| && caps[l].init <= s && Matches(src, pat, p + 1, s, caps[l := Cap(caps[l].init, s - caps[l].init)], o)
    else if c == ESC && d == 'b' then
      At(pat, p + 2) != NUL && At(pat, p + 3) != NUL &&
      var e := Balance(src, s, At(pat, p + 2), At(pat, p + 3));
      e != 0 && Matches(src, pat, p + 4, e, caps, o)
    else if c == ESC && d == 'f' then
      At(pat, p + 2) == '[' &&
      var ep := ClassEnd(pat, p + 2);
      ep != 0 && Frontier(src, s, pat, p + 2, ep) && Matches(src, pat, ep, s, caps, o)
    else if c == ESC && IsDigit(d) then
      var l := Referred(caps, d);
      l < |caps| && Repeats(src, s, caps[l]) && Matches(src, pat, p + 2, s + caps[l].len, caps, o)
    else if c == '$' && d == NUL then s == |src| && o == Out(s, caps)
    else MatchesItem(src, pat, p, s, caps, o)
  }

  ghost predicate MatchesItem(src: string, pat: string, p: nat, s: nat, caps: seq<Cap>, o: Out)
    requires p < |pat| && s <= |src|
    decreases |pat| - p, 0
  {
    var ep := ClassEnd(pat, p);
    ep != 0 &&
    match At(pat, ep)
    case '?' => exists t: nat :: t <= s + 1 && Repeated(src, pat, p, ep, s, t) && Matches(src, pat, ep + 1, t, caps, o)
    case '*' => exists t: nat :: Repeated(src, pat, p, ep, s, t) && Matches(src, pat, ep + 1, t, caps, o)
    case '+' => exists t: nat :: s < t && Repeated(src, pat, p, ep, s, t) && Matches(src, pat, ep + 1, t, caps, o)
    case '-' => exists t: nat :: Repeated(src, pat, p, ep, s, t) && Matches(src, pat, ep + 1, t, caps, o)
    case _ => Repeated(src, pat, p, ep, s, s + 1) && Matches(src, pat, ep, s + 1, caps, o)
  }

  lemma {:induction false} RunIsLongest(src: string, pat: string, p: nat, ep: nat, s: nat, t: nat)
    requires p < |pat| && 0 < ep && s <= |src|
    ensures Repeated(src, pat, p, ep, s, t) <==> s <= t <= s + RunLength(src, pat, p, ep, s)
    decreases |src| - s
  {
    if s < |src| && s < t {
      RunIsLongest(src, pat, p, ep, s + 1, t);
      assert Repeated(src, pat, p, ep, s, t) <==> Single(src[s], pat, p, ep) && Repeated(src, pat, p, ep, s + 1, t);
    }
  }

  lemma {:induction false} InLongest(rest: nat -> seq<Out>, s: nat, i: nat, o: Out)
    ensures o in Longest(rest, s, i) <==> exists t: nat :: s <= t <= s + i && o in rest(t)
  {
    if i > 0 {
      InLongest(rest, s, i - 1, o);
    }
  }

  lemma {:induction false} InShortest(rest: nat -> seq<Out>, s: nat, i: nat, o: Out)
    ensures o in Shortest(rest, s, i) <==> exists t: nat :: s <= t <= s + i && o in rest(t)
    decreases i
  {
    if i > 0 {
      InShortest(rest, s + 1, i - 1, o);
    }
  }

  /** The list holds exactly the ways to match: nothing is missed, nothing is invented. */
  lemma {:induction false} SemIsMatches(src: string, pat: string, p: nat, s: nat, caps: seq<Cap>, o: Out)
    requires p <= |pat| && s <= |src|
    ensures o in Sem(src, pat, p, s, caps) <==> Matches(src, pat, p, s, caps, o)
    decreases |pat| - p, 1
  {
    var c, d := At(pat, p), At(pat, p + 1);
    if c == NUL {
    } else if c == '(' {
      if |caps| < LUA_MAXCAPTURES {
        if d == ')' { SemIsMatches(src, pat, p + 2, s, caps + [Cap(s, CAP_POSITION)], o); }
        else { SemIsMatches(src, pat, p + 1, s, caps + [Cap(s, CAP_UNFINISHED)], o); }
      }
    } else if c == ')' {
      var l := ToClose(caps);
      if l < |caps| && caps[l].init <= s {
        SemIsMatches(src, pat, p + 1, s, caps[l := Cap(caps[l].init, s - caps[l].init)], o);
      }
    } else if c == ESC && d == 'b' {
      if At(pat, p + 2) != NUL && At(pat, p + 3) != NUL {
        var e := Balance(src, s, At(pat, p + 2), At(pat, p + 3));
        if e != 0 { SemIsMatches(src, pat, p + 4, e, caps, o); }
      }
    } else if c == ESC && d == 'f' {
      if At(pat, p + 2) == '[' {
        var ep := ClassEnd(pat, p + 2);
        if ep != 0 { SemIsMatches(src, pat, ep, s, caps, o); }
      }
    } else if c == ESC && IsDigit(d) {
      var l := Referred(caps, d);
      if l < |caps| && Repeats(src, s, caps[l]) { SemIsMatches(src, pat, p + 2, s + caps[l].len, caps, o); }
    } else if c == '$' && d == NUL {
    } else {
      ItemIsMatches(src, pat, p, s, caps, o);
    }
  }

  lemma {:induction false} ItemIsMatches(src: string, pat: string, p: nat, s: nat, caps: seq<Cap>, o: Out)
    requires p < |pat| && s <= |src|
    ensures o in SemItem(src, pat, p, s, caps) <==> MatchesItem(src, pat, p, s, caps, o)
    decreases |pat| - p, 0
  {
    hide Sem, Matches, Single;
    var ep := ClassEnd(pat, p);
    if ep != 0 {
      if IsSuffix(At(pat, ep)) {
        var rest := Rest(src, pat, ep + 1, caps);
        forall t: nat | t <= |src|
          ensures o in rest(t) <==> Matches(src, pat, ep + 1, t, caps, o)
        {
          SemIsMatches(src, pat, ep + 1, t, caps, o);
        }
        ItemRepeats(src, pat, p, ep, s, caps, o, rest);
      } else if s < |src| {
        SemIsMatches(src, pat, ep, s + 1, caps, o);
        assert Repeated(src, pat, p, ep, s, s + 1) <==> Single(src[s], pat, p, ep);
      }
    }
  }

  /** The places up to which a repeated class may go. */
  predicate Allowed(suffix: char, s: nat, n: nat, t: nat) {
    s <= t <= s + n && (suffix == '+' ==> s < t) && (suffix == '?' ==> t <= s + 1)
  }

  lemma ItemRepeats(src: string, pat: string, p: nat, ep: nat, s: nat, caps: seq<Cap>, o: Out, rest: nat -> seq<Out>)
    requires p < |pat| && s <= |src| && 0 < ep < |pat| && ep == ClassEnd(pat, p) && IsSuffix(At(pat, ep))
    requires rest == Rest(src, pat, ep + 1, caps)
    requires forall t: nat :: t <= |src| ==> (o in rest(t) <==> Matches(src, pat, ep + 1, t, caps, o))
    ensures o in SemItem(src, pat, p, s, caps) <==> MatchesItem(src, pat, p, s, caps, o)
  {
    hide Matches, MatchesItem, Sem, Single, Repeated, RunLength, Choices;
    var n := RunLength(src, pat, p, ep, s);
    InChoices(At(pat, ep), rest, s, n, o);
    ItemAllowed(src, pat, p, ep, s, caps, o, n);
  }

  lemma ItemAllowed(src: string, pat: string, p: nat, ep: nat, s: nat, caps: seq<Cap>, o: Out, n: nat)
    requires p < |pat| && s <= |src| && 0 < ep < |pat| && ep == ClassEnd(pat, p) && IsSuffix(At(pat, ep))
      && n == RunLength(src, pat, p, ep, s)
    ensures MatchesItem(src, pat, p, s, caps, o) <==>
        exists t: nat :: Allowed(At(pat, ep), s, n, t) && Matches(src, pat, ep + 1, t, caps, o)
  {
    hide Matches, Single, Repeated, RunLength;
    forall t: nat ensures Repeated(src, pat, p, ep, s, t) <==> s <= t <= s + n { RunIsLongest(src, pat, p, ep, s, t); }
    if MatchesItem(src, pat, p, s, caps, o) {
      var t: nat :| Repeated(src, pat, p, ep, s, t) && Allowed(At(pat, ep), s, n, t)
        && Matches(src, pat, ep + 1, t, caps, o);
    }
    if t: nat :| Allowed(At(pat, ep), s, n, t) && Matches(src, pat, ep + 1, t, caps, o) {
      assert Repeated(src, pat, p, ep, s, t);
    }
  }

  lemma InChoices(suffix: char, rest: nat -> seq<Out>, s: nat, n: nat, o: Out)
    requires IsSuffix(suffix)
    ensures o in Choices(suffix, rest, s, n) <==> exists t: nat :: Allowed(suffix, s, n, t) && o in rest(t)
  {
    match suffix
    case '*' => InLongest(rest, s, n, o);
    case '-' => InShortest(rest, s, n, o);
    case '+' => if n > 0 { InLongest(rest, s + 1, n - 1, o); }
    case _ =>
      assert Allowed('?', s, n, s) && (n > 0 ==> Allowed('?', s, n, s + 1));
      assert forall t: nat :: Allowed('?', s, n, t) ==> t == s || (n > 0 && t == s + 1);
  }
}
