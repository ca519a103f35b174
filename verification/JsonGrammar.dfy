/** JSON texts and what they denote, after RFC 8259, without regard to how MiniJSON reads and
    prints them.  And that MiniJSON reads every such text as what it denotes, and prints a
    text that denotes the value. */
module JsonGrammar {
  import opened MiniJson

  // ----- white space and words (section 2)

  ghost predicate Ws(c: nat) {
    c == 0x20 || c == 0x09 || c == 0x0A || c == 0x0D
  }

  ghost predicate Blank(t: Text, p: nat, q: nat) {
    p <= q <= |t| && forall i :: p <= i < q ==> Ws(t[i])
  }

  ghost predicate Word(t: Text, p: nat, q: nat, w: seq<nat>) {
    p + |w| == q <= |t| && forall i :: 0 <= i < |w| ==> t[p + i] == w[i]
  }

  // ----- strings (section 7)

  /** A backslash and c stand for the character u. */
  ghost predicate Escaped(c: nat, u: nat) {
    || (c == 0x22 && u == 0x22) || (c == 0x5C && u == 0x5C) || (c == 0x2F && u == 0x2F)
    || (c == 0x62 && u == 0x08) || (c == 0x66 && u == 0x0C) || (c == 0x6E && u == 0x0A)
    || (c == 0x72 && u == 0x0D) || (c == 0x74 && u == 0x09)
  }

  /** What the hexadecimal digit c is worth, in either case; -1 if it is none. */
  ghost function Nibble(c: nat): int {
    if 0x30 <= c <= 0x39 then c - 0x30
    else if 0x41 <= c <= 0x46 then c - 0x41 + 10
    else if 0x61 <= c <= 0x66 then c - 0x61 + 10
    else -1
  }

  ghost predicate FourHex(t: Text, p: nat, u: nat) {
    && p + 4 <= |t| && Nibble(t[p]) >= 0 && Nibble(t[p + 1]) >= 0 && Nibble(t[p + 2]) >= 0 && Nibble(t[p + 3]) >= 0
    && u == 0x1000 * Nibble(t[p]) + 0x100 * Nibble(t[p + 1]) + 0x10 * Nibble(t[p + 2]) + Nibble(t[p + 3])
  }

  /** t[p..q] are the characters between the quotes of the string s. */
  ghost predicate Chars(t: Text, p: nat, q: nat, s: Text)
    decreases q - p
  {
    p <= q <= |t| &&
    if p == q then s == []
    else
      s != [] &&
      if t[p] != 0x5C then t[p] != 0x22 && t[p] >= 0x20 && s[0] == t[p] && Chars(t, p + 1, q, s[1..])
      else
        || (p + 2 <= q && Escaped(t[p + 1], s[0]) && Chars(t, p + 2, q, s[1..]))
        || (p + 6 <= q && t[p + 1] == 0x75 && FourHex(t, p + 2, s[0]) && Chars(t, p + 6, q, s[1..]))
  }

  ghost predicate String(t: Text, p: nat, q: nat, s: Text) {
    p + 2 <= q <= |t| && t[p] == 0x22 && t[q - 1] == 0x22 && Chars(t, p + 1, q - 1, s)
  }

  // ----- numbers (section 6)

  ghost predicate Decimals(t: Text, p: nat, q: nat) {
    p < q <= |t| && forall i :: p <= i < q ==> 0x30 <= t[i] <= 0x39
  }

  ghost function Amount(t: Text, p: nat, q: nat): int
    requires q <= |t|
    decreases q - p
  {
    if q <= p then 0 else 10 * Amount(t, p, q - 1) + t[q - 1] - 0x30
  }

  /** An integer without superfluous zeros, from p to q. */
  ghost predicate Integer(t: Text, p: nat, q: nat) {
    p < |t| &&
    var a := if t[p] == 0x2D then p + 1 else p;
    Decimals(t, a, q) && (t[a] == 0x30 ==> q == a + 1)
  }

  ghost function IntegerAmount(t: Text, p: nat, q: nat): int
    requires p < |t| && q <= |t|
  {
    if t[p] == 0x2D then 0 - Amount(t, p + 1, q) else Amount(t, p, q)
  }

  ghost predicate Fraction(t: Text, p: nat, q: nat) {
    p < |t| && t[p] == 0x2E && Decimals(t, p + 1, q)
  }

  ghost predicate Exponent(t: Text, p: nat, q: nat) {
    p + 1 < |t| && (t[p] == 0x65 || t[p] == 0x45)
    && Decimals(t, if t[p + 1] == 0x2B || t[p + 1] == 0x2D then p + 2 else p + 1, q)
  }

  /** A number with a fraction, an exponent or both. */
  ghost predicate Real(t: Text, p: nat, q: nat) {
    exists m: nat, k: nat ::
      Integer(t, p, m) && (k == m || Fraction(t, m, k)) && (q == k || Exponent(t, k, q)) && m < q
  }

  // ----- values, lists and dictionaries (sections 3 to 5)

  /** t[p..q] denotes the value v.  A number with a fraction or an exponent denotes itself, as
      the word that is to be converted. */
  ghost predicate Denotes(t: Text, p: nat, q: nat, v: Value)
    decreases q - p, 1
  {
    p < q <= |t| &&
    match v
    case Null => Word(t, p, q, [0x6E, 0x75, 0x6C, 0x6C])
    case Bool(b) => if b then Word(t, p, q, [0x74, 0x72, 0x75, 0x65]) else Word(t, p, q, [0x66, 0x61, 0x6C, 0x73, 0x65])
    case Int(n) => Integer(t, p, q) && IntegerAmount(t, p, q) == n
    case Double(w) => Real(t, p, q) && w == t[p..q]
    case Str(s) => String(t, p, q, s)
    case List(xs) =>
      t[p] == 0x5B && if xs == [] then t[q - 1] == 0x5D && p + 1 < q && Blank(t, p + 1, q - 1)
        else Items(t, p + 1, q, xs)
    case Dict(es) =>
      t[p] == 0x7B && ((t[q - 1] == 0x7D && p + 1 < q && Blank(t, p + 1, q - 1) && es == [])
        || Members(t, p + 1, q, [], es))
  }

  /** From p to the closing bracket before q stand the elements xs. */
  ghost predicate Items(t: Text, p: nat, q: nat, xs: seq<Value>)
    decreases q - p, 0
  {
    xs != [] && exists a: nat, b: nat, c: nat ::
      p <= a < b <= c < q <= |t| && Blank(t, p, a) && Denotes(t, a, b, xs[0]) && Blank(t, b, c) &&
      if |xs| == 1 then t[c] == 0x5D && q == c + 1 else t[c] == 0x2C && Items(t, c + 1, q, xs[1..])
  }

  /** From p to the closing brace before q stand members that make the dictionary es out of
      the dictionary es0. */
  ghost predicate Members(t: Text, p: nat, q: nat, es0: seq<Entry>, es: seq<Entry>)
    decreases q - p, 0
  {
    exists m: Member, e: Entry, es1: seq<Entry> ::
      MemberAt(t, p, q, m, e) && Assigned(es0, e, es1) &&
      if t[m.end] == 0x7D then q == m.end + 1 && es == es1 else t[m.end] == 0x2C && Members(t, m.end + 1, q, es1, es)
  }

  /** A member: the name from a to b, a colon at c, the value from d to e, and the next comma or
      the closing brace at `end`. */
  datatype Member = Member(a: nat, b: nat, c: nat, d: nat, e: nat, end: nat)

  ghost predicate MemberAt(t: Text, p: nat, q: nat, m: Member, x: Entry)
    decreases q - p, 0, 0
  {
    && p <= m.a < m.b <= m.c < m.d < m.e <= m.end < q <= |t|
    && Blank(t, p, m.a) && String(t, m.a, m.b, x.key) && Blank(t, m.b, m.c) && t[m.c] == 0x3A
    && Blank(t, m.c + 1, m.d) && Denotes(t, m.d, m.e, x.value) && Blank(t, m.e, m.end)
  }

  /** The entry x is assigned: it replaces the one with its name, or is added. */
  ghost predicate Assigned(es0: seq<Entry>, x: Entry, es1: seq<Entry>) {
    || (exists i :: 0 <= i < |es0| && es0[i].key == x.key && es1 == es0[i := x])
    || ((forall i :: 0 <= i < |es0| ==> es0[i].key != x.key) && es1 == es0 + [x])
  }

  /** The whole text denotes v, which ends at q. */
  ghost predicate Json(t: Text, q: nat, v: Value) {
    exists p: nat :: Blank(t, 0, p) && Denotes(t, p, q, v) && Blank(t, q, |t|)
  }

  /** What MiniJSON makes of the numbers: integers that do not fit into 64 bits with a sign and
      numbers with an exponent but no point become 0. */
  ghost function Stored(v: Value): (r: Value)
    ensures v.List? ==> r.List? && |r.xs| == |v.xs|
    ensures v.Dict? ==> r.Dict? && |r.es| == |v.es|
  {
    match v
    case Int(n) => if -0x8000_0000_0000_0000 <= n < 0x8000_0000_0000_0000 then v else Int(0)
    case Double(w) => if 0x2E in w then v else Int(0)
    case List(xs) => List(seq(|xs|, i requires 0 <= i < |xs| => Stored(xs[i])))
    case Dict(es) => Dict(seq(|es|, i requires 0 <= i < |es| => Entry(es[i].key, Stored(es[i].value))))
    case _ => v
  }

  // ----- reading

  lemma {:induction false} EatBlank(t: Text, r: nat, p: nat)
    requires Blank(t, r, p) && p < |t| && !IsWhite(t[p])
    ensures Eat(t, r) == Got((), p)
    decreases p - r
  {
    if r < p { EatBlank(t, r + 1, p); }
  }

  /** White space before a token is skipped. */
  lemma TokenBehind(t: Text, r: nat, p: nat)
    requires Blank(t, r, p) && p < |t| && !IsWhite(t[p])
    ensures NextToken(t, r) == NextToken(t, p)
  {
    EatBlank(t, r, p);
    EatBlank(t, p, p);
  }

  lemma {:induction false} CharsRead(t: Text, p: nat, q: nat, s: Text)
    requires Chars(t, p, q, s) && q < |t| && t[q] == 0x22
    ensures ReadChars(t, p) == Got(s, q + 1)
    decreases q - p
  {
    hide HexOf, Nibble;
    if p < q {
      assert s == [s[0]] + s[1..];
      if t[p] != 0x5C {
        CharsRead(t, p + 1, q, s[1..]);
      } else if p + 2 <= q && Escaped(t[p + 1], s[0]) && Chars(t, p + 2, q, s[1..]) {
        CharsRead(t, p + 2, q, s[1..]);
      } else {
        CharsRead(t, p + 6, q, s[1..]);
        HexRead(t, p + 2, s[0]);
      }
    }
  }

  lemma HexRead(t: Text, p: nat, u: nat)
    requires FourHex(t, p, u)
    ensures HexOf(t[p..p + 4]) == Num(u)
  {
    var h := t[p..p + 4];
    assert forall i :: 0 <= i < 4 ==> h[i] == t[p + i] && HexValue(h[i]) == Nibble(t[p + i]);
    hide Hexadecimal;
    FourBack(h);
  }

  lemma StringRead(t: Text, p: nat, q: nat, s: Text)
    requires String(t, p, q, s)
    ensures NextToken(t, p) == Got(StringStart, p) && ReadChars(t, p + 1) == Got(s, q) && t[p] == C('"')
  {
    CharsRead(t, p + 1, q - 1, s);
  }

  lemma WordRead(t: Text, p: nat, q: nat, w: string)
    requires (w == "null" || w == "true" || w == "false") && Word(t, p, q, Ascii(w)) && Delimited(t, q)
    ensures NextToken(t, p) == Got(if w == "null" then NullWord else if w == "true" then True else False, q)
  {
    assert t[p..q] == Ascii(w);
    NameBack(t, p, w);
  }

  lemma {:induction false} AmountIs(t: Text, p: nat, q: nat)
    requires Decimals(t, p, q)
    ensures AllDigits(t[p..q]) && NatOf(t[p..q]) == Amount(t, p, q)
    decreases q - p
  {
    if p + 1 < q {
      AmountIs(t, p, q - 1);
      assert t[p..q][..q - p - 1] == t[p..q - 1];
    } else {
      assert Amount(t, p, p) == 0;
    }
  }

  /** Characters of numbers: they end no word. */
  ghost predicate NumberChars(t: Text, p: nat, q: nat) {
    p <= q <= |t| && forall i :: p <= i < q ==>
      0x30 <= t[i] <= 0x39 || t[i] == 0x2B || t[i] == 0x2D || t[i] == 0x2E || t[i] == 0x45 || t[i] == 0x65
  }

  lemma NumberRead(t: Text, p: nat, q: nat)
    requires p < q && NumberChars(t, p, q) && (t[p] == 0x2D || 0x30 <= t[p] <= 0x39) && Delimited(t, q)
    ensures NextToken(t, p) == Got(NumberStart, p) && WordEnd(t, p) == q
  {
    var w := t[p..q];
    assert forall i :: 0 <= i < |w| ==> w[i] == t[p + i] && !IsWordBreak(w[i]);
    WordBack(t, p, w);
    NumberToken(t, p);
  }

  lemma IntegerRead(t: Text, p: nat, q: nat)
    requires Integer(t, p, q) && Delimited(t, q)
    ensures p < q && NextToken(t, p) == Got(NumberStart, p) && WordEnd(t, p) == q && C('.') !in t[p..q]
    ensures var n := IntegerAmount(t, p, q);
      LongOf(t[p..q]) == if -0x8000_0000_0000_0000 <= n < 0x8000_0000_0000_0000 then n else 0
  {
    hide Delimited, WordEnd, NextToken, NatOf, Amount;
    var w := t[p..q];
    assert NumberChars(t, p, q);
    NumberRead(t, p, q);
    assert forall i :: 0 <= i < |w| ==> w[i] == t[p + i];
    assert DropNuls(w) == w;
    if t[p] == 0x2D {
      AmountIs(t, p + 1, q);
      assert w[1..] == t[p + 1..q] && w[0] == C('-');
    } else {
      AmountIs(t, p, q);
    }
  }

  lemma RealRead(t: Text, p: nat, q: nat)
    requires Real(t, p, q) && Delimited(t, q)
    ensures p < q && NextToken(t, p) == Got(NumberStart, p) && WordEnd(t, p) == q
    ensures C('.') !in t[p..q] ==> LongOf(t[p..q]) == 0
  {
    hide Delimited, WordEnd, NextToken, NatOf, Amount, Integer, Fraction, Exponent;
    var m: nat, k: nat :|
      Integer(t, p, m) && (k == m || Fraction(t, m, k)) && (q == k || Exponent(t, k, q)) && m < q;
    IntegerChars(t, p, m);
    if k != m { FractionChars(t, m, k); }
    if q != k { ExponentChars(t, k, q); }
    assert NumberChars(t, p, q);
    NumberRead(t, p, q);
    var w := t[p..q];
    assert forall i :: 0 <= i < |w| ==> w[i] == t[p + i];
    if k != m {
      assert w[m - p] == C('.');
    } else {
      assert DropNuls(w) == w;
      assert w[k - p] == t[k];
      assert w[1..] != [] && w[k - p] == w[1..][k - p - 1];
    }
  }

  lemma IntegerChars(t: Text, p: nat, m: nat)
    requires Integer(t, p, m)
    ensures p < m && NumberChars(t, p, m) && (t[p] == 0x2D || 0x30 <= t[p] <= 0x39)
  {
  }

  lemma FractionChars(t: Text, m: nat, k: nat)
    requires Fraction(t, m, k)
    ensures m < k && NumberChars(t, m, k) && t[m] == 0x2E
  {
  }

  lemma ExponentChars(t: Text, k: nat, q: nat)
    requires Exponent(t, k, q)
    ensures k < q && NumberChars(t, k, q) && (t[k] == 0x65 || t[k] == 0x45) && 0x30 <= t[q - 1] <= 0x39
  {
  }

  /** A value is read as what it denotes, at any place of a text and after white space. */
  lemma {:induction false} ValueRead(t: Text, r: nat, p: nat, q: nat, v: Value, f: nat)
    requires Blank(t, r, p) && Denotes(t, p, q, v) && Delimited(t, q) && f >= 2 * (|t| - p) + 1
    ensures var k := NextToken(t, r);
      k.Got? && Begins(k.value) && ReadByToken(t, k.value, k.pos, f) == Got(Stored(v), q)
    decreases q - p, 1
  {
    hide NextToken, WordEnd, ReadChars, LongOf, ReadItems, ReadEntries, Integer, Real, String, Delimited, Items,
      Members;
    ValueStarts(t, p, q, v);
    TokenBehind(t, r, p);
    match v {
      case Null => WordIs(t, p, q, "null");
      case Bool(b) => WordIs(t, p, q, if b then "true" else "false");
      case Int(n) => IntegerRead(t, p, q);
      case Double(w) => RealRead(t, p, q);
      case Str(s) => StringRead(t, p, q, s);
      case List(xs) =>
        TokenAt(t, p, C('['));
        ListRead(t, p, q, v, f - 1);
      case Dict(es) =>
        TokenAt(t, p, C('{'));
        DictRead(t, p, q, v, f - 1);
    }
  }

  /** A value begins with no white space. */
  lemma ValueStarts(t: Text, p: nat, q: nat, v: Value)
    requires Denotes(t, p, q, v)
    ensures p < q <= |t| && !IsWhite(t[p])
  {
    hide Items, Members;
    if v.Double? {
      var m: nat, k: nat :|
        Integer(t, p, m) && (k == m || Fraction(t, m, k)) && (q == k || Exponent(t, k, q)) && m < q;
    }
    if v.Null? { WordStarts(t, p, q, [0x6E, 0x75, 0x6C, 0x6C]); }
    if v.Bool? {
      WordStarts(t, p, q, if v.b then [0x74, 0x72, 0x75, 0x65] else [0x66, 0x61, 0x6C, 0x73, 0x65]);
    }
  }

  lemma WordStarts(t: Text, p: nat, q: nat, w: seq<nat>)
    requires Word(t, p, q, w) && w != []
    ensures t[p] == w[0]
  {
    assert t[p + 0] == w[0];
  }

  lemma WordIs(t: Text, p: nat, q: nat, w: string)
    requires (w == "null" && Word(t, p, q, [0x6E, 0x75, 0x6C, 0x6C]))
      || (w == "true" && Word(t, p, q, [0x74, 0x72, 0x75, 0x65]))
      || (w == "false" && Word(t, p, q, [0x66, 0x61, 0x6C, 0x73, 0x65]))
    requires Delimited(t, q)
    ensures NextToken(t, p) == Got(if w == "null" then NullWord else if w == "true" then True else False, q)
  {
    hide NextToken, Delimited;
    assert Ascii("null") == [0x6E, 0x75, 0x6C, 0x6C] && Ascii("true") == [0x74, 0x72, 0x75, 0x65];
    assert Ascii("false") == [0x66, 0x61, 0x6C, 0x73, 0x65];
    WordRead(t, p, q, w);
  }

  /** What follows a value ends its word. */
  lemma AfterValue(t: Text, b: nat, c: nat)
    requires Blank(t, b, c) && c < |t| && (t[c] == 0x2C || t[c] == 0x3A || t[c] == 0x5D || t[c] == 0x7D)
    ensures Delimited(t, b) && NextToken(t, b) == NextToken(t, c)
  {
    TokenBehind(t, b, c);
  }

  lemma {:induction false} ListRead(t: Text, p: nat, q: nat, v: Value, f: nat)
    requires v.List? && Denotes(t, p, q, v) && f >= 2 * (|t| - p)
    ensures ReadItems(t, p + 1, [], f) == Got(Stored(v), q)
    decreases q - p, 0
  {
    hide NextToken, Items, ReadItems, Stored;
    if v.xs == [] {
      AfterValue(t, p + 1, q - 1);
      TokenAt(t, q - 1, C(']'));
      ListEnds(t, p + 1, [], f, q);
      StoredEmpty();
    } else {
      ItemsRead(t, p + 1, q, v.xs, [], f);
      assert [] + StoredAll(v.xs) == StoredAll(v.xs);
      StoredList(v);
    }
  }

  lemma StoredEmpty()
    ensures Stored(List([])) == List([]) && Stored(Dict([])) == Dict([])
  {
    assert Stored(List([])).xs == [] && Stored(Dict([])).es == [];
  }

  ghost function StoredAll(xs: seq<Value>): (r: seq<Value>)
    ensures |r| == |xs| && forall i :: 0 <= i < |xs| ==> r[i] == Stored(xs[i])
  {
    seq(|xs|, i requires 0 <= i < |xs| => Stored(xs[i]))
  }

  lemma StoredList(v: Value)
    requires v.List?
    ensures Stored(v) == List(StoredAll(v.xs))
  {
    assert Stored(v).xs == StoredAll(v.xs);
  }

  lemma ListEnds(t: Text, p: nat, xs: seq<Value>, f: nat, q: nat)
    requires f > 0 && NextToken(t, p) == Got(SquareClose, q)
    ensures ReadItems(t, p, xs, f) == Got(List(xs), q)
  {
    hide NextToken;
  }

  lemma Comma(t: Text, p: nat, xs: seq<Value>, es: seq<Entry>, f: nat, c: nat)
    requires f > 0 && NextToken(t, p) == Got(Token.Comma, c)
    ensures ReadItems(t, p, xs, f) == ReadItems(t, c, xs, f - 1)
      && ReadEntries(t, p, es, f) == ReadEntries(t, c, es, f - 1)
  {
    hide NextToken;
  }

  lemma {:induction false} ItemsRead(t: Text, p: nat, q: nat, xs: seq<Value>, acc: seq<Value>, f: nat)
    requires Items(t, p, q, xs) && f >= 2 * (|t| - p) + 2
    ensures ReadItems(t, p, acc, f) == Got(List(acc + StoredAll(xs)), q)
    decreases q - p, 2
  {
    hide NextToken, ReadItems, Stored, Denotes, Blank, Delimited, ReadByToken;
    var a: nat, b: nat, c: nat :|
      p <= a < b <= c < q <= |t| && Blank(t, p, a) && Denotes(t, a, b, xs[0]) && Blank(t, b, c) &&
      if |xs| == 1 then t[c] == 0x5D && q == c + 1 else t[c] == 0x2C && Items(t, c + 1, q, xs[1..]);
    AfterValue(t, b, c);
    ValueRead(t, p, a, b, xs[0], f - 1);
    var k := NextToken(t, p);
    ItemStep(t, p, acc, f, k.value, k.pos, Stored(xs[0]), b);
    TokenAt(t, c, t[c]);
    if |xs| == 1 {
      ListEnds(t, b, acc + [Stored(xs[0])], f - 1, q);
      assert StoredAll(xs) == [Stored(xs[0])];
    } else {
      Comma(t, b, acc + [Stored(xs[0])], [], f - 1, c + 1);
      ItemsRead(t, c + 1, q, xs[1..], acc + [Stored(xs[0])], f - 2);
      assert acc + [Stored(xs[0])] + StoredAll(xs[1..]) == acc + StoredAll(xs);
    }
  }

  ghost function StoredEntries(es: seq<Entry>): (r: seq<Entry>)
    ensures |r| == |es| && forall i :: 0 <= i < |es| ==> r[i] == Entry(es[i].key, Stored(es[i].value))
  {
    seq(|es|, i requires 0 <= i < |es| => Entry(es[i].key, Stored(es[i].value)))
  }

  lemma StoredDict(v: Value)
    requires v.Dict?
    ensures Stored(v) == Dict(StoredEntries(v.es))
  {
    assert Stored(v).es == StoredEntries(v.es);
  }

  predicate KeysApart(es: seq<Entry>) {
    forall i, j :: 0 <= i < j < |es| ==> es[i].key != es[j].key
  }

  /** table[name] = value does what an assignment does. */
  lemma {:induction false} PutAssigns(es0: seq<Entry>, x: Entry, es1: seq<Entry>)
    requires KeysApart(es0) && Assigned(es0, x, es1)
    ensures KeysApart(es1) && Put(StoredEntries(es0), x.key, Stored(x.value)) == StoredEntries(es1)
  {
    hide Stored;
    if forall i :: 0 <= i < |es0| ==> es0[i].key != x.key {
      PutNew(StoredEntries(es0), x.key, Stored(x.value));
      assert StoredEntries(es0) + [Entry(x.key, Stored(x.value))] == StoredEntries(es0 + [x]);
    } else {
      var i :| 0 <= i < |es0| && es0[i].key == x.key && es1 == es0[i := x];
      PutOld(StoredEntries(es0), x.key, Stored(x.value), i);
      assert StoredEntries(es0)[i := Entry(x.key, Stored(x.value))] == StoredEntries(es1);
    }
  }

  lemma {:induction false} PutOld(es: seq<Entry>, key: Text, v: Value, i: nat)
    requires i < |es| && es[i].key == key && forall j :: 0 <= j < i ==> es[j].key != key
    ensures Put(es, key, v) == es[i := Entry(key, v)]
  {
    if i > 0 {
      PutOld(es[1..], key, v, i - 1);
      assert [es[0]] + es[1..][i - 1 := Entry(key, v)] == es[i := Entry(key, v)];
    }
  }

  lemma {:induction false} DictRead(t: Text, p: nat, q: nat, v: Value, f: nat)
    requires v.Dict? && Denotes(t, p, q, v) && f >= 2 * (|t| - p)
    ensures ReadEntries(t, p + 1, [], f) == Got(Stored(v), q)
    decreases q - p, 0
  {
    hide NextToken, Members, ReadEntries, Stored;
    if t[q - 1] == 0x7D && p + 1 < q && Blank(t, p + 1, q - 1) && v.es == [] {
      AfterValue(t, p + 1, q - 1);
      TokenAt(t, q - 1, C('}'));
      DictEnds(t, p + 1, [], f, q);
      StoredEmpty();
    } else {
      MembersRead(t, p + 1, q, [], v.es, f);
      assert StoredEntries([]) == [];
      StoredDict(v);
    }
  }

  lemma DictEnds(t: Text, p: nat, es: seq<Entry>, f: nat, q: nat)
    requires f > 0 && NextToken(t, p) == Got(CurlyClose, q)
    ensures ReadEntries(t, p, es, f) == Got(Dict(es), q)
  {
    hide NextToken;
  }

  lemma {:induction false} MembersRead(t: Text, p: nat, q: nat, es0: seq<Entry>, es: seq<Entry>, f: nat)
    requires Members(t, p, q, es0, es) && KeysApart(es0) && f >= 2 * (|t| - p) + 2
    ensures ReadEntries(t, p, StoredEntries(es0), f) == Got(Dict(StoredEntries(es)), q)
    decreases q - p, 2
  {
    hide NextToken, ReadEntries, Stored, Denotes, String, Blank, Assigned, Put, KeysApart;
    var m: Member, x: Entry, es1: seq<Entry> :|
      MemberAt(t, p, q, m, x) && Assigned(es0, x, es1) &&
      if t[m.end] == 0x7D then q == m.end + 1 && es == es1 else t[m.end] == 0x2C && Members(t, m.end + 1, q, es1, es);
    MemberRead(t, p, q, es0, m, x, f);
    PutAssigns(es0, x, es1);
    MemberEnds(t, p, q, m, x);
    TokenAt(t, m.end, t[m.end]);
    if t[m.end] == 0x7D {
      DictEnds(t, m.e, StoredEntries(es1), f - 1, q);
    } else {
      Comma(t, m.e, [], StoredEntries(es1), f - 1, m.end + 1);
      MembersRead(t, m.end + 1, q, es1, es, f - 2);
    }
  }

  lemma MemberEnds(t: Text, p: nat, q: nat, m: Member, x: Entry)
    requires MemberAt(t, p, q, m, x) && (t[m.end] == 0x7D || t[m.end] == 0x2C)
    ensures p < m.e <= m.end < q <= |t| && Delimited(t, m.e) && NextToken(t, m.e) == NextToken(t, m.end)
  {
    hide Denotes, String, NextToken, Delimited;
    AfterValue(t, m.e, m.end);
  }

  lemma {:induction false} MemberRead(t: Text, p: nat, q: nat, es0: seq<Entry>, m: Member, x: Entry, f: nat)
    requires MemberAt(t, p, q, m, x) && (t[m.end] == 0x7D || t[m.end] == 0x2C) && f >= 2 * (|t| - p) + 2
    ensures ReadEntries(t, p, StoredEntries(es0), f)
      == ReadEntries(t, m.e, Put(StoredEntries(es0), x.key, Stored(x.value)), f - 1)
    decreases q - p, 1
  {
    hide NextToken, ReadEntries, Stored, Put, Denotes, Delimited, ReadByToken, ReadChars, String;
    StringRead(t, m.a, m.b, x.key);
    TokenBehind(t, p, m.a);
    AfterValue(t, m.b, m.c);
    TokenAt(t, m.c, C(':'));
    MemberEnds(t, p, q, m, x);
    ValueRead(t, m.c + 1, m.d, m.e, x.value, f - 1);
    EntryStep(t, p, StoredEntries(es0), f, m.a, x.key, m.b, m.c, Stored(x.value), m.e);
  }

  /** Every JSON text is read as what it denotes, but for the numbers that MiniJSON cannot store;
      the reader then stands behind the value. */
  lemma JsonIsRead(t: Text, q: nat, v: Value)
    requires Json(t, q, v)
    ensures Deserialize(t) == Got(Stored(v), q)
  {
    hide Denotes, ReadByToken, NextToken, Stored, Delimited;
    var p: nat :| Blank(t, 0, p) && Denotes(t, p, q, v) && Blank(t, q, |t|);
    BlankEnds(t, q);
    ValueRead(t, 0, p, q, v, 2 * |t| + 1);
  }

  lemma BlankEnds(t: Text, q: nat)
    requires Blank(t, q, |t|)
    ensures Delimited(t, q)
  {
  }

  // ----- printing

  lemma {:induction false} CharsPrinted(t: Text, p: nat, s: Text)
    requires Units(s) && At(t, p, PrintChars(s))
    ensures Chars(t, p, p + |PrintChars(s)|, s)
    decreases |s|
  {
    hide PrintChar, Chars;
    if s == [] {
      CharsNone(t, p);
    } else {
      var h := PrintChar(s[0]);
      AtSplit(t, p, h, PrintChars(s[1..]));
      CharsPrinted(t, p + |h|, s[1..]);
      CharPrinted(t, p, p + |PrintChars(s)|, s);
    }
  }

  lemma CharsNone(t: Text, p: nat)
    requires p <= |t|
    ensures Chars(t, p, p, [])
  {
  }

  lemma CharPrinted(t: Text, p: nat, q: nat, s: Text)
    requires s != [] && s[0] < 0x1_0000 && At(t, p, PrintChar(s[0])) && Chars(t, p + |PrintChar(s[0])|, q, s[1..])
    ensures Chars(t, p, q, s)
  {
    var c := s[0];
    var h := PrintChar(c);
    AtOne(t, p, h, 0);
    if |h| > 1 { AtOne(t, p, h, 1); }
    if |h| == 6 {
      assert h == Ascii("\\u") + Hex4(c) && t[p] == 0x5C && t[p + 1] == 0x75;
      AtSplit(t, p, Ascii("\\u"), Hex4(c));
      HexPrinted(t, p + 2, c);
      hide FourHex, PrintChar, Hex4, At;
      assert Chars(t, p + 6, q, s[1..]);
    } else if |h| == 2 {
      assert Escaped(t[p + 1], c);
      hide PrintChar, At, Escaped, FourHex;
    } else {
      hide At, Escaped, FourHex;
    }
  }

  lemma HexPrinted(t: Text, p: nat, c: nat)
    requires c < 0x1_0000 && At(t, p, Hex4(c))
    ensures FourHex(t, p, c)
  {
    var h := Hex4(c);
    AtOne(t, p, h, 0);
    AtOne(t, p, h, 1);
    AtOne(t, p, h, 2);
    AtOne(t, p, h, 3);
    NibbleBack(c / 0x1000);
    NibbleBack(c / 0x100 % 16);
    NibbleBack(c / 16 % 16);
    NibbleBack(c % 16);
    hide Nibble, HexDigit;
    FourDigits(c);
  }

  lemma NibbleBack(d: nat)
    requires d < 16
    ensures Nibble(HexDigit(d)) == d
  {
  }

  lemma StringPrinted(t: Text, p: nat, s: Text)
    requires Units(s) && At(t, p, PrintStr(s))
    ensures String(t, p, p + |PrintStr(s)|, s) && |PrintStr(s)| >= 2
  {
    hide PrintChars, Chars;
    var q, h := [C('"')], PrintChars(s);
    assert PrintStr(s) == q + (h + q);
    AtSplit(t, p, q, h + q);
    AtSplit(t, p + 1, h, q);
    AtOne(t, p, q, 0);
    AtOne(t, p + 1 + |h|, q, 0);
    CharsPrinted(t, p + 1, s);
  }

  lemma {:induction false} DigitsPrinted(t: Text, p: nat, n: nat)
    requires At(t, p, Digits(n))
    ensures Decimals(t, p, p + |Digits(n)|) && Amount(t, p, p + |Digits(n)|) == n
    ensures if t[p] == 0x30 then n == 0 && |Digits(n)| == 1 else n > 0
  {
    if n < 10 {
      AtOne(t, p, Digits(n), 0);
      assert Amount(t, p, p) == 0;
    } else {
      var h, d := Digits(n / 10), [C('0') + n % 10];
      AtSplit(t, p, h, d);
      DigitsPrinted(t, p, n / 10);
      AtOne(t, p + |h|, d, 0);
    }
  }

  lemma IntPrinted(t: Text, p: nat, n: int)
    requires At(t, p, PrintInt(n))
    ensures var q := p + |PrintInt(n)|; p < q <= |t| && Integer(t, p, q) && IntegerAmount(t, p, q) == n
  {
    hide Amount;
    AtOne(t, p, PrintInt(n), 0);
    if n < 0 {
      AtSplit(t, p, [C('-')], Digits(-n));
      DigitsPrinted(t, p + 1, -n);
    } else {
      DigitsPrinted(t, p, n);
    }
  }

  lemma WordPrinted(t: Text, p: nat, w: string)
    requires At(t, p, Ascii(w))
    ensures Word(t, p, p + |w|, Ascii(w))
  {
    forall i | 0 <= i < |w| ensures t[p + i] == Ascii(w)[i] { AtOne(t, p, Ascii(w), i); }
  }

  /** What is printed denotes the value, wherever it stands in a text. */
  lemma {:induction false} PrintedDenotes(t: Text, p: nat, v: Value)
    requires Fine(v) && At(t, p, Print(v))
    ensures Denotes(t, p, p + |Print(v)|, v)
    decreases v, 1, 0
  {
    hide PrintStr, PrintInt, PrintItems, PrintEntries, Integer, String, Items, Members;
    match v {
      case Null =>
        WordPrinted(t, p, "null");
        assert Ascii("null") == [0x6E, 0x75, 0x6C, 0x6C];
      case Bool(b) =>
        WordPrinted(t, p, if b then "true" else "false");
        assert Ascii("true") == [0x74, 0x72, 0x75, 0x65] && Ascii("false") == [0x66, 0x61, 0x6C, 0x73, 0x65];
      case Int(n) => IntPrinted(t, p, n);
      case Str(s) => StringPrinted(t, p, s);
      case List(xs) => ListPrinted(t, p, v);
      case Dict(es) => DictPrinted(t, p, v);
    }
  }

  lemma BlankNone(t: Text, p: nat)
    requires p <= |t|
    ensures Blank(t, p, p)
  {
  }

  lemma {:induction false} ListPrinted(t: Text, p: nat, v: Value)
    requires v.List? && Fine(v) && At(t, p, Print(v))
    ensures Denotes(t, p, p + |Print(v)|, v)
    decreases v, 0, |v.xs| + 1
  {
    hide Items, PrintItems;
    var q := p + |Print(v)|;
    Opened(t, p, C('['), PrintItems(v, 0) + [C(']')], Print(v));
    AtSplit(t, p + 1, PrintItems(v, 0), [C(']')]);
    AtOne(t, q - 1, [C(']')], 0);
    if v.xs == [] { NoItems(v); } else { ItemsPrinted(t, p + 1, v, 0); }
  }

  lemma NoItems(v: Value)
    requires Fine(v)
    ensures v.List? && v.xs == [] ==> PrintItems(v, 0) == []
    ensures v.Dict? && v.es == [] ==> PrintEntries(v, 0) == []
  {
  }

  lemma {:induction false} ItemsPrinted(t: Text, p: nat, v: Value, i: nat)
    requires v.List? && Fine(v) && i < |v.xs| && At(t, p, PrintItems(v, i) + [C(']')])
    ensures var a := p + |Separator(i)|; Items(t, a, p + |PrintItems(v, i)| + 1, v.xs[i..])
    decreases v, 0, |v.xs| - i
  {
    hide Print, PrintItems, Denotes, Items, Fine, Delimited;
    ItemCut(t, p, v, i);
    var a: nat := p + |Separator(i)|;
    PrintedDenotes(t, a, v.xs[i]);
    var b: nat := a + |Print(v.xs[i])|;
    var q := p + |PrintItems(v, i)| + 1;
    if i + 1 < |v.xs| {
      ItemCut(t, b, v, i + 1);
      ItemsPrinted(t, b, v, i + 1);
    } else {
      LastItem(t, b, v);
    }
    ItemsIntro(t, a, b, q, v.xs, i);
  }

  lemma LastItem(t: Text, b: nat, v: Value)
    requires v.List? && Fine(v) && At(t, b, PrintItems(v, |v.xs|) + [C(']')])
    ensures PrintItems(v, |v.xs|) == [] && b < |t| && t[b] == 0x5D
  {
    AtOne(t, b, [C(']')], 0);
  }

  lemma ItemsIntro(t: Text, a: nat, b: nat, q: nat, xs: seq<Value>, i: nat)
    requires i < |xs| && a < b < q <= |t| && Denotes(t, a, b, xs[i])
    requires if i + 1 < |xs| then t[b] == 0x2C && Items(t, b + 1, q, xs[i + 1..]) else t[b] == 0x5D && q == b + 1
    ensures Items(t, a, q, xs[i..])
  {
    hide Denotes;
    BlankNone(t, a);
    BlankNone(t, b);
    assert xs[i..][1..] == xs[i + 1..] && xs[i..][0] == xs[i];
  }

  lemma {:induction false} DictPrinted(t: Text, p: nat, v: Value)
    requires v.Dict? && Fine(v) && At(t, p, Print(v))
    ensures Denotes(t, p, p + |Print(v)|, v)
    decreases v, 0, |v.es| + 1
  {
    hide Members, PrintEntries;
    var q := p + |Print(v)|;
    Opened(t, p, C('{'), PrintEntries(v, 0) + [C('}')], Print(v));
    AtSplit(t, p + 1, PrintEntries(v, 0), [C('}')]);
    AtOne(t, q - 1, [C('}')], 0);
    if v.es == [] { NoItems(v); } else { EntriesPrinted(t, p + 1, v, 0); }
  }

  lemma {:induction false} EntriesPrinted(t: Text, p: nat, v: Value, i: nat)
    requires v.Dict? && Fine(v) && i < |v.es| && At(t, p, PrintEntries(v, i) + [C('}')])
    ensures var a := p + |Separator(i)|; Members(t, a, p + |PrintEntries(v, i)| + 1, v.es[..i], v.es)
    decreases v, 0, |v.es| - i
  {
    hide Print, PrintEntries, PrintStr, Denotes, Members, String, Fine, Delimited, Units;
    EntryCut(t, p, v, i);
    var a: nat := p + |Separator(i)|;
    var b: nat := a + |PrintStr(v.es[i].key)|;
    var e: nat := b + 1 + |Print(v.es[i].value)|;
    StringPrinted(t, a, v.es[i].key);
    PrintedDenotes(t, b + 1, v.es[i].value);
    var q := p + |PrintEntries(v, i)| + 1;
    if i + 1 < |v.es| {
      EntryCut(t, e, v, i + 1);
      EntriesPrinted(t, e, v, i + 1);
    } else {
      LastEntry(t, e, v);
    }
    MembersIntro(t, a, b, e, q, v.es, i);
  }

  lemma LastEntry(t: Text, b: nat, v: Value)
    requires v.Dict? && Fine(v) && At(t, b, PrintEntries(v, |v.es|) + [C('}')])
    ensures PrintEntries(v, |v.es|) == [] && b < |t| && t[b] == 0x7D
  {
    AtOne(t, b, [C('}')], 0);
  }

  lemma MembersIntro(t: Text, a: nat, b: nat, e: nat, q: nat, es: seq<Entry>, i: nat)
    requires i < |es| && a < b < b + 1 < e < q <= |t| && String(t, a, b, es[i].key) && t[b] == 0x3A
      && Denotes(t, b + 1, e, es[i].value) && forall j :: 0 <= j < i ==> es[j].key != es[i].key
    requires if i + 1 < |es| then t[e] == 0x2C && Members(t, e + 1, q, es[..i + 1], es) else t[e] == 0x7D && q == e + 1
    ensures Members(t, a, q, es[..i], es)
  {
    hide Denotes, String;
    BlankNone(t, a);
    BlankNone(t, b);
    BlankNone(t, b + 1);
    BlankNone(t, e);
    var m := Member(a, b, b, b + 1, e, e);
    assert MemberAt(t, a, q, m, es[i]);
    assert es[..i + 1] == es[..i] + [es[i]];
    assert Assigned(es[..i], es[i], es[..i + 1]);
    if i + 1 == |es| { assert es[..i + 1] == es; }
  }

  /** What Serialize prints is a JSON text of the value. */
  lemma PrintIsJson(v: Value)
    requires Fine(v)
    ensures Json(Print(v), |Print(v)|, v)
  {
    hide Denotes, Print;
    var t := Print(v);
    AtAll(t);
    PrintedDenotes(t, 0, v);
    BlankNone(t, 0);
    BlankNone(t, |t|);
    assert Blank(t, 0, 0) && Denotes(t, 0, |t|, v) && Blank(t, |t|, |t|);
  }

  /** A JSON text is read as the value it denotes if and only if MiniJSON can store its numbers:
      integers fit into 64 bits with a sign, and numbers with an exponent have a point. */
  predicate Storable(v: Value) {
    match v
    case Int(n) => -0x8000_0000_0000_0000 <= n < 0x8000_0000_0000_0000
    case Double(w) => 0x2E in w
    case List(xs) => forall i :: 0 <= i < |xs| ==> Storable(xs[i])
    case Dict(es) => forall i :: 0 <= i < |es| ==> Storable(es[i].value)
    case _ => true
  }

  lemma {:induction false} StoredSame(v: Value)
    ensures Stored(v) == v <==> Storable(v)
  {
    match v {
      case List(xs) =>
        forall i | 0 <= i < |xs| ensures Stored(v).xs[i] == xs[i] <==> Storable(xs[i]) { StoredSame(xs[i]); }
        if Storable(v) { assert Stored(v).xs == xs; }
      case Dict(es) =>
        forall i | 0 <= i < |es| ensures Stored(v).es[i] == es[i] <==> Storable(es[i].value) {
          StoredSame(es[i].value);
        }
        if Storable(v) { assert Stored(v).es == es; }
      case _ =>
    }
  }

  lemma JsonIsKept(t: Text, q: nat, v: Value)
    requires Json(t, q, v)
    ensures Deserialize(t) == Got(v, q) <==> Storable(v)
  {
    hide *;
    JsonIsRead(t, q, v);
    StoredSame(v);
  }

  /** A number with an exponent but no point is lost: 1e5 is read as 0. */
  lemma ExponentIsLost()
    ensures Json(Ascii("1e5"), 3, Double(Ascii("1e5"))) && Deserialize(Ascii("1e5")) == Got(Int(0), 3)
  {
    var t := Ascii("1e5");
    assert t == [0x31, 0x65, 0x35] && t[0..3] == t;
    assert Integer(t, 0, 1) && Exponent(t, 1, 3);
    BlankNone(t, 0);
    BlankNone(t, 3);
    assert Blank(t, 0, 0) && Denotes(t, 0, 3, Double(t)) && Blank(t, 3, |t|);
    JsonIsRead(t, 3, Double(t));
  }

  /** A text denotes one value only. */
  lemma DenotesOne(t: Text, q: nat, v: Value, q': nat, v': Value)
    requires Json(t, q, v) && Json(t, q', v') && Storable(v) && Storable(v')
    ensures q == q' && v == v'
  {
    hide *;
    JsonIsKept(t, q, v);
    JsonIsKept(t, q', v');
  }
}
