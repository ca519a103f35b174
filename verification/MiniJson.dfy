/** MiniJSON (client/Assets/Scripts/Json/MiniJSON.cs): what the serializer prints and the
    parser reads, as functions.  Text is a sequence of UTF-16 code units. */
module MiniJson {
  type Text = seq<nat>

  /** A dictionary is the list of its entries in the order of enumeration.  A double is the
      word that Double.TryParse gets. */
  datatype Value =
    | Null | Bool(b: bool) | Int(n: int) | Double(word: Text) | Str(s: Text)
    | List(xs: seq<Value>) | Dict(es: seq<Entry>)
  datatype Entry = Entry(key: Text, value: Value)

  const INT64_MIN: int := -0x8000_0000_0000_0000
  const INT64_MAX: int := 0x7fff_ffff_ffff_ffff
  const UINT64_MAX: int := 0xffff_ffff_ffff_ffff

  function Ascii(s: string): (r: Text)
    ensures |r| == |s| && forall i :: 0 <= i < |s| ==> r[i] == s[i] as int
  {
    seq(|s|, i requires 0 <= i < |s| => s[i] as int)
  }

  function C(c: char): nat { c as int }

  predicate Units(s: Text) {
    forall i :: 0 <= i < |s| ==> s[i] < 0x1_0000
  }

  /** What can be serialized without a floating point number: signed and unsigned 64-bit
      integers, strings, lists, and dictionaries, whose keys are distinct. */
  predicate Fine(v: Value) {
    match v
    case Int(n) => INT64_MIN <= n <= UINT64_MAX
    case Double(_) => false
    case Str(s) => Units(s)
    case List(xs) => forall i :: 0 <= i < |xs| ==> Fine(xs[i])
    case Dict(es) =>
      && (forall i :: 0 <= i < |es| ==> Units(es[i].key) && Fine(es[i].value))
      && (forall i, j :: 0 <= i < j < |es| ==> es[i].key != es[j].key)
    case _ => true
  }

  /** What comes back: unsigned integers that no signed one can hold become 0. */
  function SignedInt(n: int): int {
    if INT64_MIN <= n <= INT64_MAX then n else 0
  }

  function Signed(v: Value): (r: Value)
    ensures v.List? ==> r.List? && |r.xs| == |v.xs|
    ensures v.Dict? ==> r.Dict? && |r.es| == |v.es|
  {
    match v
    case Int(n) => Int(SignedInt(n))
    case List(xs) => List(seq(|xs|, i requires 0 <= i < |xs| => Signed(xs[i])))
    case Dict(es) => Dict(seq(|es|, i requires 0 <= i < |es| => Entry(es[i].key, Signed(es[i].value))))
    case _ => v
  }

  lemma SignedItem(v: Value, i: nat)
    requires v.List? && i < |v.xs|
    ensures Signed(v).xs[i] == Signed(v.xs[i])
  {
  }

  lemma SignedEntry(v: Value, i: nat)
    requires v.Dict? && i < |v.es|
    ensures Signed(v).es[i] == Entry(v.es[i].key, Signed(v.es[i].value))
  {
  }

  /** All integers fit into 64 bits with a sign. */
  predicate AllSigned(v: Value) {
    match v
    case Int(n) => INT64_MIN <= n <= INT64_MAX
    case List(xs) => forall i :: 0 <= i < |xs| ==> AllSigned(xs[i])
    case Dict(es) => forall i :: 0 <= i < |es| ==> AllSigned(es[i].value)
    case _ => true
  }

  lemma {:induction false} SignedSame(v: Value)
    ensures Signed(v) == v <==> AllSigned(v)
  {
    match v {
      case List(xs) =>
        forall i | 0 <= i < |xs| ensures Signed(v).xs[i] == xs[i] <==> AllSigned(xs[i]) { SignedSame(xs[i]); }
        if AllSigned(v) { assert Signed(v).xs == xs; }
      case Dict(es) =>
        forall i | 0 <= i < |es| ensures Signed(v).es[i] == es[i] <==> AllSigned(es[i].value) {
          SignedSame(es[i].value);
        }
        if AllSigned(v) { assert Signed(v).es == es; }
      case _ =>
    }
  }

  // ----- printing

  function Digits(n: nat): (r: Text)
    ensures |r| > 0 && forall i :: 0 <= i < |r| ==> C('0') <= r[i] <= C('9')
  {
    if n < 10 then [C('0') + n] else Digits(n / 10) + [C('0') + n % 10]
  }

  function PrintInt(n: int): (r: Text)
    ensures |r| > 0
  {
    if n < 0 then [C('-')] + Digits(-n) else Digits(n)
  }

  function HexDigit(d: nat): nat
    requires d < 16
  {
    if d < 10 then C('0') + d else C('a') + (d - 10)
  }

  function Hex4(c: nat): (r: Text)
    requires c < 0x1_0000
    ensures |r| == 4
  {
    [HexDigit(c / 0x1000), HexDigit(c / 0x100 % 16), HexDigit(c / 16 % 16), HexDigit(c % 16)]
  }

  function PrintChar(c: nat): (r: Text)
    requires c < 0x1_0000
    ensures |r| > 0
  {
    if c == C('"') then Ascii("\\\"")
    else if c == C('\\') then Ascii("\\\\")
    else if c == 8 then Ascii("\\b")
    else if c == 12 then Ascii("\\f")
    else if c == 10 then Ascii("\\n")
    else if c == 13 then Ascii("\\r")
    else if c == 9 then Ascii("\\t")
    else if 32 <= c <= 126 then [c]
    else Ascii("\\u") + Hex4(c)
  }

  function PrintChars(s: Text): Text
    requires Units(s)
  {
    if s == [] then [] else PrintChar(s[0]) + PrintChars(s[1..])
  }

  function PrintStr(s: Text): Text
    requires Units(s)
  {
    [C('"')] + PrintChars(s) + [C('"')]
  }

  function Print(v: Value): (r: Text)
    requires Fine(v)
    ensures |r| > 0
    decreases v, 1, 0
  {
    match v
    case Null => Ascii("null")
    case Bool(b) => if b then Ascii("true") else Ascii("false")
    case Int(n) => PrintInt(n)
    case Str(s) => PrintStr(s)
    case List(xs) => [C('[')] + PrintItems(v, 0) + [C(']')]
    case Dict(es) => [C('{')] + PrintEntries(v, 0) + [C('}')]
  }

  /** The elements from i on, each but the first after a comma. */
  function PrintItems(v: Value, i: nat): Text
    requires v.List? && Fine(v) && i <= |v.xs|
    decreases v, 0, |v.xs| - i
  {
    if i == |v.xs| then [] else (if i == 0 then [] else [C(',')]) + Print(v.xs[i]) + PrintItems(v, i + 1)
  }

  function PrintEntries(v: Value, i: nat): Text
    requires v.Dict? && Fine(v) && i <= |v.es|
    decreases v, 0, |v.es| - i
  {
    if i == |v.es| then []
    else
      (if i == 0 then [] else [C(',')]) +
      PrintStr(v.es[i].key) + [C(':')] + Print(v.es[i].value) + PrintEntries(v, i + 1)
  }

  // ----- the grammar of strings

  /** The characters of a JSON string (section 7 of RFC 8259): plain ones, two-character
      escapes and escapes of four hexadecimal digits. */
  predicate IsJsonChars(t: Text) {
    if t == [] then true
    else if t[0] != C('\\') then 0x20 <= t[0] && t[0] != C('"') && IsJsonChars(t[1..])
    else if |t| > 1 && IsEscape(t[1]) then IsJsonChars(t[2..])
    else |t| > 5 && t[1] == C('u') && (forall i :: 2 <= i < 6 ==> HexValue(t[i]) < 16) && IsJsonChars(t[6..])
  }

  predicate IsEscape(c: nat) {
    c == C('"') || c == C('\\') || c == C('/') || c == C('b') || c == C('f') || c == C('n') || c == C('r')
      || c == C('t')
  }

  predicate IsJsonString(t: Text) {
    |t| >= 2 && t[0] == C('"') == t[|t| - 1] && IsJsonChars(t[1..|t| - 1])
  }

  /** What is printed for a string is a JSON string of ASCII characters. */
  lemma PrintStrIsJson(s: Text)
    requires Units(s)
    ensures IsJsonString(PrintStr(s)) && forall i :: 0 <= i < |PrintStr(s)| ==> 0x20 <= PrintStr(s)[i] < 0x7f
  {
    hide IsJsonChars, PrintChars;
    PrintCharsAreJson(s);
    assert PrintStr(s)[1..|PrintStr(s)| - 1] == PrintChars(s);
  }

  lemma {:induction false} PrintCharsAreJson(s: Text)
    requires Units(s)
    ensures IsJsonChars(PrintChars(s)) && forall i :: 0 <= i < |PrintChars(s)| ==> 0x20 <= PrintChars(s)[i] < 0x7f
  {
    if s != [] {
      PrintCharsAreJson(s[1..]);
      hide PrintChar, IsJsonChars;
      PrintCharIsJson(s[0], PrintChars(s[1..]));
    }
  }

  lemma PrintCharIsJson(c: nat, rest: Text)
    requires c < 0x1_0000 && IsJsonChars(rest)
    ensures IsJsonChars(PrintChar(c) + rest) && forall i :: 0 <= i < |PrintChar(c)| ==> 0x20 <= PrintChar(c)[i] < 0x7f
  {
    var h := PrintChar(c);
    var t := h + rest;
    assert t[|h|..] == rest;
    if |h| == 6 {
      DigitBack(c / 0x1000);
      DigitBack(c / 0x100 % 16);
      DigitBack(c / 16 % 16);
      DigitBack(c % 16);
      assert h[2..] == Hex4(c) && t[2] == h[2] && t[3] == h[3] && t[4] == h[4] && t[5] == h[5];
    }
  }

  // ----- reading

  /** An exception (no character left to convert, malformed escape), no result within the
      fuel, or a value and the position behind it. */
  datatype Read<T> = Threw | Endless | Got(value: T, pos: nat)

  predicate IsWhite(c: nat) {
    c == 32 || 9 <= c <= 13 || c == 0x85 || c == 0xa0 || c == 0x1680 || 0x2000 <= c <= 0x200a || c == 0x2028
      || c == 0x2029 || c == 0x202f || c == 0x205f || c == 0x3000
  }

  predicate IsWordBreak(c: nat) {
    IsWhite(c) || c == C('{') || c == C('}') || c == C('[') || c == C(']') || c == C(',') || c == C(':') || c == C('"')
  }

  datatype Token =
    | NoToken | CurlyOpen | CurlyClose | SquareOpen | SquareClose | Colon | Comma
    | StringStart | NumberStart | True | False | NullWord

  /** EatWhitespace; looking at a character that is not there throws. */
  function Eat(t: Text, pos: nat): (r: Read<()>)
    ensures !r.Endless?
    ensures r.Got? ==> pos <= r.pos
    decreases |t| - pos
  {
    if pos >= |t| then Threw
    else if !IsWhite(t[pos]) then Got((), pos)
    else if pos + 1 == |t| then Got((), pos + 1)
    else Eat(t, pos + 1)
  }

  /** NextWord. */
  function WordEnd(t: Text, pos: nat): (r: nat)
    requires pos < |t|
    ensures pos <= r <= |t|
    decreases |t| - pos
  {
    if IsWordBreak(t[pos]) then pos else if pos + 1 == |t| then pos + 1 else WordEnd(t, pos + 1)
  }

  function NextToken(t: Text, pos: nat): (r: Read<Token>)
    ensures r.Got? ==> pos <= r.pos
  {
    var e := Eat(t, pos);
    if e.Threw? then Threw
    else
      var p := e.pos;
      if p >= |t| then Got(NoToken, p)
      else
        var c := t[p];
        if c == C('{') then Got(CurlyOpen, p)
        else if c == C('}') then Got(CurlyClose, p + 1)
        else if c == C('[') then Got(SquareOpen, p)
        else if c == C(']') then Got(SquareClose, p + 1)
        else if c == C(',') then Got(Comma, p + 1)
        else if c == C('"') then Got(StringStart, p)
        else if c == C(':') then Got(Colon, p)
        else if C('0') <= c <= C('9') || c == C('-') then Got(NumberStart, p)
        else
          var q := WordEnd(t, p);
          Got(if t[p..q] == Ascii("false") then False else if t[p..q] == Ascii("true") then True
            else if t[p..q] == Ascii("null") then NullWord else NoToken, q)
  }

  /** The value of a hexadecimal digit, or 16. */
  function HexValue(c: nat): nat {
    if C('0') <= c <= C('9') then c - C('0')
    else if C('a') <= c <= C('f') then c - C('a') + 10
    else if C('A') <= c <= C('F') then c - C('A') + 10
    else 16
  }

  datatype Number = None | Num(n: nat)

  /** Hexadecimal digits. */
  function Hexadecimal(w: Text): Number {
    if w == [] then Num(0)
    else
      var d, high := HexValue(w[|w| - 1]), Hexadecimal(w[..|w| - 1]);
      if high.None? || d == 16 then None else Num(16 * high.n + d)
  }

  /** Convert.ToInt32 in base 16: a plus sign and a prefix 0x are accepted. */
  function HexOf(w: Text): Number {
    var u := if w != [] && w[0] == C('+') then w[1..] else w;
    var x := if |u| > 1 && u[0] == C('0') && (u[1] == C('x') || u[1] == C('X')) then u[2..] else u;
    if x == [] then None else Hexadecimal(x)
  }

  /** The character an escape letter stands for; escapes that are not known vanish. */
  function Unescape(c: nat): Text {
    if c == C('"') || c == C('\\') || c == C('/') then [c]
    else if c == C('b') then [8]
    else if c == C('f') then [12]
    else if c == C('n') then [10]
    else if c == C('r') then [13]
    else if c == C('t') then [9]
    else []
  }

  /** The loop of ParseString, behind the opening quote; a string may end with the text.
    */
  function ReadChars(t: Text, pos: nat): (r: Read<Text>)
    ensures r.Got? ==> pos <= r.pos
    decreases |t| - pos
  {
    if pos >= |t| then Got([], pos)
    else if t[pos] == C('"') then Got([], pos + 1)
    else if t[pos] != C('\\') then Then([t[pos]], ReadChars(t, pos + 1))
    else if pos + 1 >= |t| then Got([], pos + 1)
    else if t[pos + 1] != C('u') then Then(Unescape(t[pos + 1]), ReadChars(t, pos + 2))
    else if pos + 6 > |t| || HexOf(t[pos + 2..pos + 6]).None? then Threw
    else Then([HexOf(t[pos + 2..pos + 6]).n], ReadChars(t, pos + 6))
  }

  function Then(s: Text, r: Read<Text>): (r': Read<Text>)
    ensures r'.Got? <==> r.Got?
    ensures r.Got? ==> r'.pos == r.pos && r'.value == s + r.value
  {
    match r
    case Got(v, p) => Got(s + v, p)
    case _ => r
  }

  predicate AllDigits(w: Text) {
    w != [] && forall i :: 0 <= i < |w| ==> C('0') <= w[i] <= C('9')
  }

  function NatOf(w: Text): nat
    requires AllDigits(w)
  {
    if |w| == 1 then w[0] - C('0') else 10 * NatOf(w[..|w| - 1]) + (w[|w| - 1] - C('0'))
  }

  function DropNuls(w: Text): Text {
    if w != [] && w[|w| - 1] == 0 then DropNuls(w[..|w| - 1]) else w
  }

  /** Int64.TryParse of a word that begins with a digit or a sign; 0 when it fails.  NUL
      characters at the end are ignored. */
  function LongOf(word: Text): int {
    var w := DropNuls(word);
    var n: int := if AllDigits(w) then NatOf(w)
      else if w != [] && w[0] == C('-') && AllDigits(w[1..]) then 0 - NatOf(w[1..]) else 0;
    if INT64_MIN <= n <= INT64_MAX then n else 0
  }

  /** table[name] = value. */
  function Put(es: seq<Entry>, key: Text, v: Value): seq<Entry> {
    if es == [] then [Entry(key, v)]
    else if es[0].key == key then [Entry(key, v)] + es[1..]
    else [es[0]] + Put(es[1..], key, v)
  }

  /** json.Read(). */
  function Skip(t: Text, pos: nat): (r: nat)
    ensures pos < |t| ==> r == pos + 1
    ensures pos >= |t| ==> r == pos
  {
    if pos < |t| then pos + 1 else pos
  }

  /** ParseByToken. */
  function ReadByToken(t: Text, tok: Token, pos: nat, fuel: nat): (r: Read<Value>)
    decreases fuel, 1
  {
    if fuel == 0 then Endless
    else
      match tok
      case StringStart => (match ReadChars(t, Skip(t, pos)) case Got(s, p) => Got(Str(s),
        p) case Threw => Threw case Endless => Endless)
      case NumberStart =>
        if pos >= |t| then Threw
        else
          var q := WordEnd(t, pos);
          Got(if C('.') in t[pos..q] then Double(t[pos..q]) else Int(LongOf(t[pos..q])), q)
      case CurlyOpen => ReadEntries(t, Skip(t, pos), [], fuel - 1)
      case SquareOpen => ReadItems(t, Skip(t, pos), [], fuel - 1)
      case True => Got(Bool(true), pos)
      case False => Got(Bool(false), pos)
      case _ => Got(Null, pos)
  }

  /** ParseValue. */
  function ReadValue(t: Text, pos: nat, fuel: nat): Read<Value>
    decreases fuel, 2
  {
    match NextToken(t, pos)
    case Got(tok, p) => ReadByToken(t, tok, p, fuel)
    case Threw => Threw
    case Endless => Endless
  }

  /** The loop of ParseArray. */
  function ReadItems(t: Text, pos: nat, xs: seq<Value>, fuel: nat): Read<Value>
    decreases fuel, 3
  {
    if fuel == 0 then Endless
    else
      match NextToken(t, pos)
      case Threw => Threw
      case Endless => Endless
      case Got(tok, p) =>
        if tok.NoToken? then Got(Null, p)
        else if tok.Comma? then ReadItems(t, p, xs, fuel - 1)
        else if tok.SquareClose? then Got(List(xs), p)
        else
          match ReadByToken(t, tok, p, fuel - 1)
          case Got(v, q) => ReadItems(t, q, xs + [v], fuel - 1)
          case Threw => Threw
          case Endless => Endless
  }

  /** The loop of ParseObject. */
  function ReadEntries(t: Text, pos: nat, es: seq<Entry>, fuel: nat): Read<Value>
    decreases fuel, 3
  {
    if fuel == 0 then Endless
    else
      match NextToken(t, pos)
      case Threw => Threw
      case Endless => Endless
      case Got(tok, p) =>
        if tok.NoToken? then Got(Null, p)
        else if tok.Comma? then ReadEntries(t, p, es, fuel - 1)
        else if tok.CurlyClose? then Got(Dict(es), p)
        else
          match ReadChars(t, Skip(t, p))
          case Threw => Threw
          case Endless => Endless
          case Got(name, q) =>
            match NextToken(t, q)
            case Threw => Threw
            case Endless => Endless
            case Got(colon, r) =>
              if !colon.Colon? then Got(Null, r)
              else
                match ReadValue(t, Skip(t, r), fuel - 1)
                case Got(v, u) => ReadEntries(t, u, Put(es, name, v), fuel - 1)
                case Threw => Threw
                case Endless => Endless
  }

  // ----- the round trip

  /** The text x stands in t at pos. */
  predicate At(t: Text, pos: nat, x: Text) {
    pos + |x| <= |t| && t[pos..pos + |x|] == x
  }

  lemma AtSplit(t: Text, pos: nat, x: Text, y: Text)
    ensures At(t, pos, x + y) <==> At(t, pos, x) && At(t, pos + |x|, y)
  {
    if pos + |x + y| <= |t| {
      assert t[pos..pos + |x + y|] == t[pos..pos + |x|] + t[pos + |x|..pos + |x| + |y|];
    }
    if At(t, pos, x + y) {
      assert t[pos..pos + |x|] == (x + y)[..|x|] == x;
      assert t[pos + |x|..pos + |x| + |y|] == (x + y)[|x|..] == y;
    }
  }

  lemma AtOne(t: Text, pos: nat, x: Text, i: nat)
    requires At(t, pos, x) && i < |x|
    ensures t[pos + i] == x[i]
  {
    assert t[pos..pos + |x|][i] == t[pos + i];
  }

  /** Behind a printed value comes the end of the text or a character that ends words. */
  predicate Delimited(t: Text, pos: nat) {
    pos == |t| || (pos < |t| && IsWordBreak(t[pos]))
  }

  lemma HexBack(c: nat)
    requires c < 0x1_0000
    ensures HexOf(Hex4(c)) == Num(c)
  {
    DigitBack(c / 0x1000);
    DigitBack(c / 0x100 % 16);
    DigitBack(c / 16 % 16);
    DigitBack(c % 16);
    FourDigits(c);
    DigitsOnly(c);
    hide HexDigit, HexValue, Hexadecimal;
    FourBack(Hex4(c));
  }

  lemma FourDigits(c: nat)
    requires c < 0x1_0000
    ensures 0x1000 * (c / 0x1000) + 0x100 * (c / 0x100 % 16) + 16 * (c / 16 % 16) + c % 16 == c
  {
    var a := c / 16;
    var b := a / 16;
    assert c / 0x100 == b && c / 0x1000 == b / 16;
    assert c == 16 * a + c % 16 && a == 16 * b + a % 16 && b == 16 * (b / 16) + b % 16;
  }

  lemma DigitsOnly(c: nat)
    requires c < 0x1_0000
    ensures var h := Hex4(c); h[0] != C('+') && h[1] != C('x') && h[1] != C('X')
  {
  }

  lemma FourBack(h: Text)
    requires |h| == 4 && forall i :: 0 <= i < 4 ==> HexValue(h[i]) < 16
    ensures Hexadecimal(h) ==
      Num(0x1000 * HexValue(h[0]) + 0x100 * HexValue(h[1]) + 16 * HexValue(h[2]) + HexValue(h[3]))
  {
    hide HexValue;
    assert h[..3][..2] == h[..2] && h[..2][..1] == h[..1] && h[..1][..0] == [];
    assert Hexadecimal(h[..1]) == Num(HexValue(h[0]));
    assert Hexadecimal(h[..2]) == Num(16 * HexValue(h[0]) + HexValue(h[1]));
    assert Hexadecimal(h[..3]) == Num(0x100 * HexValue(h[0]) + 16 * HexValue(h[1]) + HexValue(h[2]));
  }

  lemma DigitBack(d: nat)
    requires d < 16
    ensures HexValue(HexDigit(d)) == d
  {
  }

  /** Escaped characters are read back. */
  lemma {:induction false} CharsBack(t: Text, pos: nat, s: Text)
    requires Units(s) && At(t, pos, PrintChars(s) + [C('"')])
    ensures ReadChars(t, pos) == Got(s, pos + |PrintChars(s)| + 1)
    decreases |s|
  {
    hide PrintChar, ReadChars;
    if s == [] {
      AtOne(t, pos, [C('"')], 0);
      CharsEnd(t, pos);
    } else {
      var h, rest := PrintChar(s[0]), PrintChars(s[1..]) + [C('"')];
      assert PrintChars(s) + [C('"')] == h + rest;
      AtSplit(t, pos, h, rest);
      CharsBack(t, pos + |h|, s[1..]);
      CharBack(t, pos, s[0]);
      assert [s[0]] + s[1..] == s;
    }
  }

  lemma CharsEnd(t: Text, pos: nat)
    requires pos < |t| && t[pos] == C('"')
    ensures ReadChars(t, pos) == Got([], pos + 1)
  {
  }

  lemma CharBack(t: Text, pos: nat, c: nat)
    requires c < 0x1_0000 && At(t, pos, PrintChar(c)) && pos + |PrintChar(c)| < |t|
    ensures ReadChars(t, pos) == Then([c], ReadChars(t, pos + |PrintChar(c)|))
  {
    var h := PrintChar(c);
    AtOne(t, pos, h, 0);
    if |h| > 1 { AtOne(t, pos, h, 1); }
    if |h| == 6 {
      HexBack(c);
      assert t[pos + 2..pos + 6] == t[pos..pos + 6][2..] == Hex4(c);
    }
  }

  lemma StrBack(t: Text, pos: nat, s: Text)
    requires Units(s) && At(t, pos, PrintStr(s))
    ensures t[pos] == C('"') && NextToken(t, pos) == Got(StringStart, pos)
      && ReadChars(t, pos + 1) == Got(s, pos + |PrintStr(s)|)
  {
    AtOne(t, pos, PrintStr(s), 0);
    assert PrintStr(s) == [C('"')] + (PrintChars(s) + [C('"')]);
    AtSplit(t, pos, [C('"')], PrintChars(s) + [C('"')]);
    CharsBack(t, pos + 1, s);
  }

  lemma {:induction false} NatBack(n: nat)
    ensures AllDigits(Digits(n)) && NatOf(Digits(n)) == n
  {
    if n >= 10 {
      NatBack(n / 10);
      assert Digits(n)[..|Digits(n)| - 1] == Digits(n / 10);
    }
  }

  /** A word without breaks that is followed by one is read as a whole. */
  lemma {:induction false} WordBack(t: Text, pos: nat, w: Text)
    requires w != [] && At(t, pos, w) && Delimited(t, pos + |w|) && forall i :: 0 <= i < |w| ==> !IsWordBreak(w[i])
    ensures WordEnd(t, pos) == pos + |w|
    decreases |w|
  {
    AtOne(t, pos, w, 0);
    if |w| > 1 {
      assert w == w[..1] + w[1..];
      AtSplit(t, pos, w[..1], w[1..]);
      WordBack(t, pos + 1, w[1..]);
    }
  }

  lemma LongBack(n: int)
    ensures LongOf(PrintInt(n)) == SignedInt(n)
  {
    var w := PrintInt(n);
    if n < 0 {
      NatBack(-n);
      assert w[1..] == Digits(-n) && w[0] == C('-');
    } else {
      NatBack(n);
    }
    hide Digits, PrintInt, NatOf;
    assert DropNuls(w) == w;
    assert n < 0 ==> !AllDigits(w);
  }

  lemma IntChars(n: int, i: nat)
    requires i < |PrintInt(n)|
    ensures var c := PrintInt(n)[i]; (c == C('-') || C('0') <= c <= C('9')) && !IsWordBreak(c) && c != C('.')
  {
    if n < 0 && i > 0 { assert PrintInt(n)[i] == Digits(-n)[i - 1]; }
  }

  lemma NumberToken(t: Text, pos: nat)
    requires pos < |t| && (t[pos] == C('-') || C('0') <= t[pos] <= C('9'))
    ensures NextToken(t, pos) == Got(NumberStart, pos)
  {
  }

  lemma IntBack(t: Text, pos: nat, n: int)
    requires At(t, pos, PrintInt(n)) && Delimited(t, pos + |PrintInt(n)|)
    ensures NextToken(t, pos) == Got(NumberStart, pos) && pos < |t|
    ensures var q := WordEnd(t, pos);
      q == pos + |PrintInt(n)| && C('.') !in t[pos..q] && LongOf(t[pos..q]) == SignedInt(n)
  {
    hide LongOf, PrintInt, SignedInt, IsWordBreak, NextToken, WordEnd, Delimited;
    var w := PrintInt(n);
    forall i | 0 <= i < |w| ensures !IsWordBreak(w[i]) && w[i] != C('.') {
      IntChars(n, i);
    }
    IntChars(n, 0);
    LongBack(n);
    WordBack(t, pos, w);
    AtOne(t, pos, w, 0);
    NumberToken(t, pos);
  }

  lemma NameBack(t: Text, pos: nat, w: string)
    requires (w == "null" || w == "true" || w == "false") && At(t, pos, Ascii(w)) && Delimited(t, pos + |w|)
    ensures NextToken(t, pos) == Got(if w == "null" then NullWord else if w == "true" then True else False, pos + |w|)
  {
    WordBack(t, pos, Ascii(w));
    AtOne(t, pos, Ascii(w), 0);
    if w == "true" { assert Ascii("true")[0] != Ascii("false")[0]; }
    if w == "null" { assert Ascii("null")[0] != Ascii("false")[0] && Ascii("null")[0] != Ascii("true")[0]; }
  }

  /** Fuel that is enough to read back a value. */
  function Need(v: Value): (r: nat)
    ensures r > 0
    decreases v, 1, 0
  {
    match v
    case List(xs) => 1 + NeedItems(v, 0)
    case Dict(es) => 1 + NeedEntries(v, 0)
    case _ => 1
  }

  function NeedItems(v: Value, i: nat): (r: nat)
    requires v.List? && i <= |v.xs|
    ensures r > 0
    decreases v, 0, |v.xs| - i
  {
    if i == |v.xs| then 1 else 2 + Need(v.xs[i]) + NeedItems(v, i + 1)
  }

  function NeedEntries(v: Value, i: nat): (r: nat)
    requires v.Dict? && i <= |v.es|
    ensures r > 0
    decreases v, 0, |v.es| - i
  {
    if i == |v.es| then 1 else 2 + Need(v.es[i].value) + NeedEntries(v, i + 1)
  }

  lemma TokenAt(t: Text, pos: nat, c: nat)
    requires pos < |t| && t[pos] == c
    ensures c == C('[') ==> NextToken(t, pos) == Got(SquareOpen, pos)
    ensures c == C('{') ==> NextToken(t, pos) == Got(CurlyOpen, pos)
    ensures c == C(':') ==> NextToken(t, pos) == Got(Colon, pos)
    ensures c == C(',') ==> NextToken(t, pos) == Got(Comma, pos + 1)
    ensures c == C(']') ==> NextToken(t, pos) == Got(SquareClose, pos + 1)
    ensures c == C('}') ==> NextToken(t, pos) == Got(CurlyClose, pos + 1)
  {
  }

  function Separator(i: nat): Text {
    if i == 0 then [] else [C(',')]
  }

  predicate Begins(k: Token) {
    !k.NoToken? && !k.Comma? && !k.SquareClose? && !k.CurlyClose? && !k.Colon?
  }

  lemma ItemStep(t: Text, pos: nat, xs: seq<Value>, fuel: nat, k: Token, p: nat, v: Value, q: nat)
    requires fuel > 0 && NextToken(t, pos) == Got(k, p) && Begins(k) && ReadByToken(t, k, p, fuel - 1) == Got(v, q)
    ensures ReadItems(t, pos, xs, fuel) == ReadItems(t, q, xs + [v], fuel - 1)
  {
    hide ReadByToken, NextToken;
  }

  lemma EntryStep(t: Text, pos: nat, es: seq<Entry>, fuel: nat, p: nat, name: Text, q: nat, r: nat, v: Value, u: nat)
    requires fuel > 0 && NextToken(t, pos) == Got(StringStart, p) && ReadChars(t, Skip(t, p)) == Got(name, q)
    requires NextToken(t, q) == Got(Colon, r) && ReadValue(t, Skip(t, r), fuel - 1) == Got(v, u)
    ensures ReadEntries(t, pos, es, fuel) == ReadEntries(t, u, Put(es, name, v), fuel - 1)
  {
    hide ReadValue, NextToken, ReadChars;
  }

  lemma CommaStep(t: Text, pos: nat, i: nat, xs: seq<Value>, es: seq<Entry>, fuel: nat)
    requires fuel > 0 && (i > 0 ==> pos < |t| && t[pos] == C(','))
    ensures var f: nat := if i == 0 then fuel else fuel - 1;
      ReadItems(t, pos, xs, fuel) == ReadItems(t, pos + |Separator(i)|, xs, f)
        && ReadEntries(t, pos, es, fuel) == ReadEntries(t, pos + |Separator(i)|, es, f)
  {
    if i > 0 {
      TokenAt(t, pos, C(','));
      hide NextToken;
    }
  }

  lemma Opened(t: Text, pos: nat, c: nat, rest: Text, whole: Text)
    requires At(t, pos, whole) && |whole| == 1 + |rest| && whole[0] == c && whole[1..] == rest
    ensures pos < |t| && t[pos] == c && At(t, pos + 1, rest)
    ensures c == C('[') ==> NextToken(t, pos) == Got(SquareOpen, pos)
    ensures c == C('{') ==> NextToken(t, pos) == Got(CurlyOpen, pos)
  {
    assert whole == [c] + rest;
    AtSplit(t, pos, [c], rest);
    AtOne(t, pos, [c], 0);
    TokenAt(t, pos, c);
  }

  /** The round trip: what is printed is read back, up to its last character. */
  lemma {:induction false} ValueBack(t: Text, pos: nat, v: Value, fuel: nat)
    requires Fine(v) && At(t, pos, Print(v)) && Delimited(t, pos + |Print(v)|) && fuel >= Need(v)
    ensures ReadValue(t, pos, fuel) == Got(Signed(v), pos + |Print(v)|)
    ensures var k := NextToken(t, pos);
      k.Got? && Begins(k.value) && ReadByToken(t, k.value, k.pos, fuel) == Got(Signed(v), pos + |Print(v)|)
    decreases v, 1, 0
  {
    hide NextToken, WordEnd, ReadChars, LongOf, PrintStr, PrintInt, ReadItems, ReadEntries, PrintItems, PrintEntries;
    match v {
      case Null => NameBack(t, pos, "null");
      case Bool(b) => NameBack(t, pos, if b then "true" else "false");
      case Int(n) => IntBack(t, pos, n);
      case Str(s) => StrBack(t, pos, s);
      case List(xs) =>
        Opened(t, pos, C('['), PrintItems(v, 0) + [C(']')], Print(v));
        ItemsBack(t, pos + 1, v, 0, fuel - 1);
      case Dict(es) =>
        Opened(t, pos, C('{'), PrintEntries(v, 0) + [C('}')], Print(v));
        EntriesBack(t, pos + 1, v, 0, fuel - 1);
    }
  }

  lemma ItemsText(v: Value, i: nat)
    requires v.List? && Fine(v) && i < |v.xs|
    ensures PrintItems(v, i) + [C(']')] == Separator(i) + (Print(v.xs[i]) + (PrintItems(v, i + 1) + [C(']')]))
  {
    hide Print;
  }

  lemma ItemCut(t: Text, pos: nat, v: Value, i: nat)
    requires v.List? && Fine(v) && i < |v.xs| && At(t, pos, PrintItems(v, i) + [C(']')])
    ensures Fine(v.xs[i])
    ensures var p := pos + |Separator(i)|; var q := p + |Print(v.xs[i])|;
      (i > 0 ==> pos < |t| && t[pos] == C(',')) && At(t, p, Print(v.xs[i])) && Delimited(t, q)
        && At(t, q, PrintItems(v, i + 1) + [C(']')])
      && q + |PrintItems(v, i + 1)| == pos + |PrintItems(v, i)|
  {
    var comma, here, rest := Separator(i), Print(v.xs[i]), PrintItems(v, i + 1) + [C(']')];
    ItemsText(v, i);
    assert PrintItems(v, i) + [C(']')] == comma + (here + rest);
    hide Print;
    AtSplit(t, pos, comma, here + rest);
    AtSplit(t, pos + |comma|, here, rest);
    AfterItem(t, pos + |comma| + |here|, v, i + 1);
    if i > 0 { AtOne(t, pos, comma, 0); }
  }

  lemma ItemsEnd(t: Text, pos: nat, v: Value, fuel: nat)
    requires v.List? && Fine(v) && At(t, pos, PrintItems(v, |v.xs|) + [C(']')]) && fuel > 0
    ensures ReadItems(t, pos, Signed(v).xs, fuel) == Got(Signed(v), pos + |PrintItems(v, |v.xs|)| + 1)
  {
    AtOne(t, pos, [C(']')], 0);
    TokenAt(t, pos, C(']'));
    hide NextToken;
  }

  lemma {:induction false} ItemsBack(t: Text, pos: nat, v: Value, i: nat, fuel: nat)
    requires v.List? && Fine(v) && i <= |v.xs| && At(t, pos, PrintItems(v, i) + [C(']')]) && fuel >= NeedItems(v, i)
    ensures ReadItems(t, pos, Signed(v).xs[..i], fuel) == Got(Signed(v), pos + |PrintItems(v, i)| + 1)
    decreases v, 0, |v.xs| - i
  {
    hide *;
    if i == |v.xs| {
      assert Signed(v).xs[..i] == Signed(v).xs;
      ItemsEnd(t, pos, v, fuel);
    } else {
      var f: nat := if i == 0 then fuel else fuel - 1;
      var p: nat := pos + |Separator(i)|;
      ItemFuel(v, i, f);
      ItemCut(t, pos, v, i);
      CommaStep(t, pos, i, Signed(v).xs[..i], [], fuel);
      ItemBack(t, p, v, i, f);
      ItemsBack(t, p + |Print(v.xs[i])|, v, i + 1, f - 1);
    }
  }

  lemma ItemBack(t: Text, pos: nat, v: Value, i: nat, fuel: nat)
    requires v.List? && i < |v.xs| && Fine(v.xs[i]) && At(t, pos, Print(v.xs[i]))
      && Delimited(t, pos + |Print(v.xs[i])|)
    requires fuel > 0 && fuel - 1 >= Need(v.xs[i])
    ensures ReadItems(t, pos, Signed(v).xs[..i], fuel) ==
      ReadItems(t, pos + |Print(v.xs[i])|, Signed(v).xs[..i + 1], fuel - 1)
    decreases v, 0, 0
  {
    hide *;
    ValueBack(t, pos, v.xs[i], fuel - 1);
    var k := NextToken(t, pos);
    var xs := Signed(v).xs;
    SignedItem(v, i);
    ItemStep(t, pos, xs[..i], fuel, k.value, k.pos, xs[i], pos + |Print(v.xs[i])|);
    assert xs[..i] + [xs[i]] == xs[..i + 1];
  }

  lemma ItemFuel(v: Value, i: nat, f: nat)
    requires v.List? && i < |v.xs| && f + 1 >= NeedItems(v, i)
    ensures f > 1 && f - 1 >= Need(v.xs[i]) && f - 1 >= NeedItems(v, i + 1)
  {
  }

  lemma AfterItem(t: Text, pos: nat, v: Value, i: nat)
    requires v.List? && Fine(v) && 0 < i <= |v.xs| && At(t, pos, PrintItems(v, i) + [C(']')])
    ensures Delimited(t, pos)
  {
    hide Print;
    AtOne(t, pos, PrintItems(v, i) + [C(']')], 0);
  }

  lemma EntriesText(v: Value, i: nat)
    requires v.Dict? && Fine(v) && i < |v.es|
    ensures PrintEntries(v, i) + [C('}')] ==
      Separator(i) + (PrintStr(v.es[i].key) + ([C(':')] + (Print(v.es[i].value) + (PrintEntries(v, i + 1) + [C('}')]))))
  {
    hide Print, PrintStr;
  }

  lemma EntryFuel(v: Value, i: nat, f: nat)
    requires v.Dict? && i < |v.es| && f + 1 >= NeedEntries(v, i)
    ensures f > 1 && f - 1 >= Need(v.es[i].value) && f - 1 >= NeedEntries(v, i + 1)
  {
  }

  lemma FineEntry(v: Value, i: nat)
    requires v.Dict? && Fine(v) && i < |v.es|
    ensures Units(v.es[i].key) && Fine(v.es[i].value) && forall j :: 0 <= j < i ==> v.es[j].key != v.es[i].key
  {
  }

  lemma EntryCut(t: Text, pos: nat, v: Value, i: nat)
    requires v.Dict? && Fine(v) && i < |v.es| && At(t, pos, PrintEntries(v, i) + [C('}')])
    ensures Units(v.es[i].key) && Fine(v.es[i].value) && forall j :: 0 <= j < i ==> v.es[j].key != v.es[i].key
    ensures i > 0 ==> pos < |t| && t[pos] == C(',')
    ensures var p := pos + |Separator(i)|; var q := p + |PrintStr(v.es[i].key)|;
      var r := q + 1 + |Print(v.es[i].value)|;
      At(t, p, PrintStr(v.es[i].key)) && q < |t| && t[q] == C(':')
      && At(t, q + 1, Print(v.es[i].value)) && Delimited(t, r) && At(t, r, PrintEntries(v, i + 1) + [C('}')])
      && r + |PrintEntries(v, i + 1)| == pos + |PrintEntries(v, i)|
  {
    hide *;
    FineEntry(v, i);
    var e := v.es[i];
    var key, here, rest := PrintStr(e.key), Print(e.value), PrintEntries(v, i + 1) + [C('}')];
    EntriesText(v, i);
    EntryParts(t, pos, i, key, here, rest);
    assert |PrintEntries(v, i) + [C('}')]| == |Separator(i) + (key + ([C(':')] + (here + rest)))|;
    AfterEntry(t, pos + |Separator(i)| + |key| + 1 + |here|, v, i + 1);
  }

  lemma EntryParts(t: Text, pos: nat, i: nat, key: Text, here: Text, rest: Text)
    requires At(t, pos, Separator(i) + (key + ([C(':')] + (here + rest))))
    ensures i > 0 ==> pos < |t| && t[pos] == C(',')
    ensures var p := pos + |Separator(i)|; var q := p + |key|;
      At(t, p, key) && q < |t| && t[q] == C(':') && At(t, q + 1, here) && At(t, q + 1 + |here|, rest)
  {
    var colon := [C(':')];
    AtSplit(t, pos, Separator(i), key + (colon + (here + rest)));
    AtSplit(t, pos + |Separator(i)|, key, colon + (here + rest));
    AtSplit(t, pos + |Separator(i)| + |key|, colon, here + rest);
    AtSplit(t, pos + |Separator(i)| + |key| + 1, here, rest);
    AtOne(t, pos + |Separator(i)| + |key|, colon, 0);
    if i > 0 { AtOne(t, pos, Separator(i), 0); }
  }

  lemma EntriesEnd(t: Text, pos: nat, v: Value, fuel: nat)
    requires v.Dict? && Fine(v) && At(t, pos, PrintEntries(v, |v.es|) + [C('}')]) && fuel > 0
    ensures ReadEntries(t, pos, Signed(v).es, fuel) == Got(Signed(v), pos + |PrintEntries(v, |v.es|)| + 1)
  {
    AtOne(t, pos, [C('}')], 0);
    TokenAt(t, pos, C('}'));
    hide NextToken;
  }

  lemma {:induction false} EntriesBack(t: Text, pos: nat, v: Value, i: nat, fuel: nat)
    requires v.Dict? && Fine(v) && i <= |v.es| && At(t, pos, PrintEntries(v, i) + [C('}')]) && fuel >= NeedEntries(v, i)
    ensures ReadEntries(t, pos, Signed(v).es[..i], fuel) == Got(Signed(v), pos + |PrintEntries(v, i)| + 1)
    decreases v, 0, |v.es| - i
  {
    hide *;
    if i == |v.es| {
      assert Signed(v).es[..i] == Signed(v).es;
      EntriesEnd(t, pos, v, fuel);
    } else {
      var f: nat := if i == 0 then fuel else fuel - 1;
      var p: nat := pos + |Separator(i)|;
      EntryFuel(v, i, f);
      EntryCut(t, pos, v, i);
      CommaStep(t, pos, i, [], Signed(v).es[..i], fuel);
      EntryBack(t, p, v, i, f);
      EntriesBack(t, p + |PrintStr(v.es[i].key)| + 1 + |Print(v.es[i].value)|, v, i + 1, f - 1);
    }
  }

  lemma EntryBack(t: Text, p: nat, v: Value, i: nat, fuel: nat)
    requires v.Dict? && i < |v.es| && Units(v.es[i].key) && Fine(v.es[i].value) && fuel > 0
      && fuel - 1 >= Need(v.es[i].value)
    requires forall j :: 0 <= j < i ==> v.es[j].key != v.es[i].key
    requires var q := p + |PrintStr(v.es[i].key)|;
      At(t, p, PrintStr(v.es[i].key)) && q < |t| && t[q] == C(':') && At(t, q + 1, Print(v.es[i].value))
        && Delimited(t, q + 1 + |Print(v.es[i].value)|)
    ensures ReadEntries(t, p, Signed(v).es[..i], fuel)
      == ReadEntries(t, p + |PrintStr(v.es[i].key)| + 1 + |Print(v.es[i].value)|, Signed(v).es[..i + 1], fuel - 1)
    decreases v, 0, 0
  {
    hide *;
    var e := v.es[i];
    var q: nat := p + |PrintStr(e.key)|;
    StrBack(t, p, e.key);
    TokenAt(t, q, C(':'));
    ValueBack(t, q + 1, e.value, fuel - 1);
    var es, back := Signed(v).es, Signed(e.value);
    EntryStep(t, p, es[..i], fuel, p, e.key, q, q, back, q + 1 + |Print(e.value)|);
    forall j | 0 <= j <= i ensures es[j] == Entry(v.es[j].key, Signed(v.es[j].value)) { SignedEntry(v, j); }
    PutNew(es[..i], e.key, back);
    assert es[..i] + [Entry(e.key, back)] == es[..i + 1];
  }

  lemma AfterEntry(t: Text, pos: nat, v: Value, i: nat)
    requires v.Dict? && Fine(v) && 0 < i <= |v.es| && At(t, pos, PrintEntries(v, i) + [C('}')])
    ensures Delimited(t, pos)
  {
    hide Print, PrintStr;
    AtOne(t, pos, PrintEntries(v, i) + [C('}')], 0);
  }

  lemma {:induction false} PutNew(es: seq<Entry>, key: Text, v: Value)
    requires forall i :: 0 <= i < |es| ==> es[i].key != key
    ensures Put(es, key, v) == es + [Entry(key, v)]
  {
    if es != [] {
      PutNew(es[1..], key, v);
      assert es == [es[0]] + es[1..];
    }
  }

  // ----- termination

  lemma TokenMoves(t: Text, pos: nat)
    requires pos <= |t|
    ensures !NextToken(t, pos).Endless?
    ensures var k := NextToken(t, pos); k.Got? ==>
      && pos <= k.pos <= |t|
      && (k.value.Comma? || k.value.SquareClose? || k.value.CurlyClose? ==> pos < k.pos)
      && (k.value.True? || k.value.False? || k.value.NullWord? ==> pos < k.pos)
      && (k.value.CurlyOpen? || k.value.SquareOpen? || k.value.StringStart? || k.value.Colon? ==> k.pos < |t|)
      && (k.value.NumberStart? ==> k.pos < |t| && !IsWordBreak(t[k.pos]))
      && (k.value.Colon? ==> t[k.pos] == C(':'))
  {
    EatMoves(t, pos);
  }

  lemma EatMoves(t: Text, pos: nat)
    requires pos <= |t|
    ensures var e := Eat(t, pos); !e.Endless? && (e.Got? ==> pos <= e.pos <= |t|)
    decreases |t| - pos
  {
    if pos < |t| { EatMoves(t, pos + 1); }
  }

  lemma {:induction false} CharsMove(t: Text, pos: nat)
    requires pos <= |t|
    ensures var r := ReadChars(t, pos); !r.Endless? && (r.Got? ==> pos <= r.pos <= |t|)
    decreases |t| - pos
  {
    hide HexOf;
    if pos < |t| { CharsMove(t, pos + 1); }
    if pos + 2 <= |t| { CharsMove(t, pos + 2); }
    if pos + 6 <= |t| { CharsMove(t, pos + 6); }
  }

  /** A colon where an element of a list is due is never passed: the loop adds null for ever. */
  lemma {:induction false} ColonSticks(t: Text, pos: nat, xs: seq<Value>, fuel: nat)
    requires NextToken(t, pos).Got? && NextToken(t, pos).value.Colon?
    ensures ReadItems(t, pos, xs, fuel).Endless?
    decreases fuel
  {
    var p := NextToken(t, pos).pos;
    ColonStays(t, pos);
    if fuel > 1 {
      ColonSticks(t, p, xs + [Null], fuel - 1);
    }
  }

  lemma ColonStays(t: Text, pos: nat)
    requires NextToken(t, pos).Got? && NextToken(t, pos).value.Colon?
    ensures var p := NextToken(t, pos).pos; NextToken(t, p) == Got(Colon, p) && C(':') in t
  {
  }

  /** Readings from pos that agree for all fuel from the bound on; only a colon makes them
      endless, and otherwise they move behind pos. */
  ghost predicate Decided(t: Text, pos: nat, a: Read<Value>, b: Read<Value>) {
    a == b && (a.Endless? ==> C(':') in t) && (a.Got? ==> pos <= a.pos <= |t|)
  }

  lemma {:induction false} TokenDecided(t: Text, k: Token, p: nat, f: nat, g: nat)
    requires p <= |t| && f >= 2 * (|t| - p) + 1 && g >= 2 * (|t| - p) + 1
    requires k.CurlyOpen? || k.SquareOpen? || k.StringStart? ==> p < |t|
    requires k.NumberStart? ==> p < |t| && !IsWordBreak(t[p])
    ensures Decided(t, p, ReadByToken(t, k, p, f), ReadByToken(t, k, p, g))
    ensures var r := ReadByToken(t, k, p, f);
      r.Got? && (k.CurlyOpen? || k.SquareOpen? || k.StringStart? || k.NumberStart?) ==> p < r.pos
    decreases |t| - p, 1
  {
    hide ReadItems, ReadEntries, ReadChars, LongOf;
    match k {
      case StringStart => CharsMove(t, p + 1);
      case CurlyOpen => EntriesDecided(t, p + 1, [], f - 1, g - 1);
      case SquareOpen => ItemsDecided(t, p + 1, [], f - 1, g - 1);
      case _ =>
    }
  }

  lemma {:induction false} ValueDecided(t: Text, pos: nat, f: nat, g: nat)
    requires pos <= |t| && f >= 2 * (|t| - pos) + 1 && g >= 2 * (|t| - pos) + 1
    ensures Decided(t, pos, ReadValue(t, pos, f), ReadValue(t, pos, g))
    decreases |t| - pos, 2
  {
    hide ReadByToken, NextToken;
    TokenMoves(t, pos);
    var k := NextToken(t, pos);
    if k.Got? { TokenDecided(t, k.value, k.pos, f, g); }
  }

  lemma {:induction false} ItemsDecided(t: Text, pos: nat, xs: seq<Value>, f: nat, g: nat)
    requires pos <= |t| && f >= 2 * (|t| - pos) + 2 && g >= 2 * (|t| - pos) + 2
    ensures Decided(t, pos, ReadItems(t, pos, xs, f), ReadItems(t, pos, xs, g))
    decreases |t| - pos, 3
  {
    hide ReadByToken, NextToken;
    TokenMoves(t, pos);
    var k := NextToken(t, pos);
    if k.Got? {
      if k.value.Comma? {
        ItemsDecided(t, k.pos, xs, f - 1, g - 1);
      } else if k.value.Colon? {
        ColonStays(t, pos);
        ColonSticks(t, pos, xs, f);
        ColonSticks(t, pos, xs, g);
      } else if !k.value.NoToken? && !k.value.SquareClose? {
        TokenDecided(t, k.value, k.pos, f - 1, g - 1);
        var r := ReadByToken(t, k.value, k.pos, f - 1);
        if r.Got? {
          ItemsDecided(t, r.pos, xs + [r.value], f - 1, g - 1);
        }
      }
    }
  }

  lemma {:induction false} EntriesDecided(t: Text, pos: nat, es: seq<Entry>, f: nat, g: nat)
    requires pos <= |t| && f >= 2 * (|t| - pos) + 2 && g >= 2 * (|t| - pos) + 2
    ensures Decided(t, pos, ReadEntries(t, pos, es, f), ReadEntries(t, pos, es, g))
    decreases |t| - pos, 3
  {
    hide ReadValue, NextToken, ReadChars, Put;
    TokenMoves(t, pos);
    var k := NextToken(t, pos);
    if k.Got? && k.value.Comma? {
      EntriesDecided(t, k.pos, es, f - 1, g - 1);
    } else if k.Got? && !k.value.CurlyClose? && !k.value.NoToken? {
      var name := ReadChars(t, Skip(t, k.pos));
      CharsMove(t, Skip(t, k.pos));
      if name.Got? {
        var colon := NextToken(t, name.pos);
        TokenMoves(t, name.pos);
        if colon.Got? && colon.value.Colon? {
          ValueDecided(t, colon.pos + 1, f - 1, g - 1);
          var v := ReadValue(t, colon.pos + 1, f - 1);
          if v.Got? {
            EntriesDecided(t, v.pos, Put(es, name.value, v.value), f - 1, g - 1);
          }
        }
      }
    }
  }

  // ----- which texts are read for ever

  /** A list or a dictionary that is open. */
  datatype Open = InList | InDict

  /** Scans a text with the open lists and dictionaries, the innermost first: is there a colon
      where an element of a list is due?  White space, words and strings are skipped; where
      the reader would throw, the scan ends. */
  predicate ScanFrom(t: Text, pos: nat, open: seq<Open>)
    requires pos <= |t|
    decreases |t| - pos, |open|, 1
  {
    if open == [] then false
    else
      TokenMoves(t, pos);
      var next := NextToken(t, pos);
      if !next.Got? then false
      else
        var k, p := next.value, next.pos;
        if k.NoToken? || (if open[0].InList? then k.SquareClose? else k.CurlyClose?) then ScanFrom(t, p, open[1..])
        else if k.Comma? then ScanFrom(t, p, open)
        else if open[0].InList? then k.Colon? || ScanValue(t, k, p, pos, open)
        else
          CharsMove(t, Skip(t, p));
          var name := ReadChars(t, Skip(t, p));
          if !name.Got? then false
          else
            TokenMoves(t, name.pos);
            var colon := NextToken(t, name.pos);
            if !colon.Got? then false
            else if !colon.value.Colon? then ScanFrom(t, colon.pos, open[1..])
            else
              TokenMoves(t, colon.pos + 1);
              var v := NextToken(t, colon.pos + 1);
              v.Got? && ScanValue(t, v.value, v.pos, pos, open)
  }

  /** A value that begins with the token k at p; the scan has come from position `from`. */
  predicate ScanValue(t: Text, k: Token, p: nat, from: nat, open: seq<Open>)
    requires from <= p <= |t|
    requires k.CurlyOpen? || k.SquareOpen? || k.StringStart? ==> p < |t|
    requires k.NumberStart? ==> p < |t| && !IsWordBreak(t[p])
    requires from < p || k.CurlyOpen? || k.SquareOpen? || k.StringStart? || k.NumberStart?
    decreases |t| - from, |open|, 0
  {
    if k.StringStart? then
      CharsMove(t, p + 1);
      var s := ReadChars(t, p + 1);
      s.Got? && ScanFrom(t, s.pos, open)
    else ScanFrom(t, if k.NumberStart? then WordEnd(t, p) else if k.CurlyOpen? || k.SquareOpen? then p + 1 else p,
                  if k.CurlyOpen? then [InDict] + open else if k.SquareOpen? then [InList] + open else open)
  }

  /** A colon stands where an element of a list is due. */
  predicate StrayColon(t: Text) {
    TokenMoves(t, 0);
    var k := NextToken(t, 0);
    k.Got? && (k.value.CurlyOpen? || k.value.SquareOpen?)
      && ScanFrom(t, k.pos + 1, [if k.value.CurlyOpen? then InDict else InList])
  }

  /** What a scan goes on to when a value has been read, has not ended or has thrown. */
  predicate GoesOn(t: Text, r: Read<Value>, open: seq<Open>)
    requires r.Got? ==> r.pos <= |t|
  {
    r.Endless? || (r.Got? && ScanFrom(t, r.pos, open))
  }

  lemma {:induction false} TokenScan(t: Text, k: Token, p: nat, f: nat, from: nat, open: seq<Open>)
    requires from <= p <= |t| && f >= 2 * (|t| - p) + 1
    requires k.CurlyOpen? || k.SquareOpen? || k.StringStart? ==> p < |t|
    requires k.NumberStart? ==> p < |t| && !IsWordBreak(t[p])
    requires from < p || k.CurlyOpen? || k.SquareOpen? || k.StringStart? || k.NumberStart?
    ensures var r := ReadByToken(t, k, p, f);
      (r.Got? ==> r.pos <= |t|) && (ScanValue(t, k, p, from, open) <==> GoesOn(t, r, open))
    decreases |t| - p, 1
  {
    hide ReadItems, ReadEntries, ReadChars, LongOf, ScanFrom;
    TokenDecided(t, k, p, f, f);
    match k {
      case StringStart => CharsMove(t, p + 1);
      case CurlyOpen => EntriesScan(t, p + 1, [], f - 1, open);
      case SquareOpen => ItemsScan(t, p + 1, [], f - 1, open);
      case _ =>
    }
  }

  lemma {:induction false} ItemsScan(t: Text, pos: nat, xs: seq<Value>, f: nat, open: seq<Open>)
    requires pos <= |t| && f >= 2 * (|t| - pos) + 2
    ensures var r := ReadItems(t, pos, xs, f);
      (r.Got? ==> r.pos <= |t|) && (ScanFrom(t, pos, [InList] + open) <==> GoesOn(t, r, open))
    decreases |t| - pos, 3
  {
    hide ReadByToken, NextToken, ScanValue;
    ItemsDecided(t, pos, xs, f, f);
    TokenMoves(t, pos);
    assert ([InList] + open)[1..] == open;
    var k := NextToken(t, pos);
    if k.Got? {
      if k.value.Comma? {
        ItemsScan(t, k.pos, xs, f - 1, open);
      } else if k.value.Colon? {
        ColonSticks(t, pos, xs, f);
      } else if !k.value.NoToken? && !k.value.SquareClose? {
        TokenScan(t, k.value, k.pos, f - 1, pos, [InList] + open);
        TokenDecided(t, k.value, k.pos, f - 1, f - 1);
        var r := ReadByToken(t, k.value, k.pos, f - 1);
        if r.Got? { ItemsScan(t, r.pos, xs + [r.value], f - 1, open); }
      }
    }
  }

  lemma {:induction false} EntriesScan(t: Text, pos: nat, es: seq<Entry>, f: nat, open: seq<Open>)
    requires pos <= |t| && f >= 2 * (|t| - pos) + 2
    ensures var r := ReadEntries(t, pos, es, f);
      (r.Got? ==> r.pos <= |t|) && (ScanFrom(t, pos, [InDict] + open) <==> GoesOn(t, r, open))
    decreases |t| - pos, 3
  {
    hide ReadByToken, NextToken, ReadChars, Put, ScanValue;
    EntriesDecided(t, pos, es, f, f);
    TokenMoves(t, pos);
    assert ([InDict] + open)[1..] == open;
    var k := NextToken(t, pos);
    if k.Got? && k.value.Comma? {
      EntriesScan(t, k.pos, es, f - 1, open);
    } else if k.Got? && !k.value.CurlyClose? && !k.value.NoToken? {
      var name := ReadChars(t, Skip(t, k.pos));
      CharsMove(t, Skip(t, k.pos));
      if name.Got? {
        var colon := NextToken(t, name.pos);
        TokenMoves(t, name.pos);
        if colon.Got? && colon.value.Colon? {
          TokenMoves(t, colon.pos + 1);
          ValueDecided(t, colon.pos + 1, f - 1, f - 1);
          var k' := NextToken(t, colon.pos + 1);
          if k'.Got? { TokenScan(t, k'.value, k'.pos, f - 1, pos, [InDict] + open); }
          var v := ReadValue(t, colon.pos + 1, f - 1);
          if v.Got? { EntriesScan(t, v.pos, Put(es, name.value, v.value), f - 1, open); }
        }
      }
    }
  }

  // ----- deserialization

  /** Deserialize, with as many turns as can make a difference. */
  function Deserialize(t: Text): Read<Value> {
    ReadValue(t, 0, 2 * |t| + 1)
  }

  /** Reading ends within 2|t| + 1 nested turns or never; and never exactly when a colon
      stands where an element of a list is due. */
  lemma DeserializeDecides(t: Text, fuel: nat)
    requires fuel >= 2 * |t| + 1
    ensures ReadValue(t, 0, fuel) == Deserialize(t)
    ensures Deserialize(t).Endless? <==> StrayColon(t)
  {
    hide ReadByToken, NextToken, ScanFrom, ScanValue, ReadItems, ReadEntries, ReadChars;
    ValueDecided(t, 0, fuel, 2 * |t| + 1);
    TokenMoves(t, 0);
    var k, f := NextToken(t, 0), 2 * |t| + 1;
    if k.Got? {
      if k.value.CurlyOpen? || k.value.SquareOpen? {
        TokenScan(t, k.value, k.pos, f, 0, []);
        OpenScan(t, k.value, k.pos);
      } else {
        PlainEnds(t, k.value, k.pos, f);
      }
    }
    NothingOpen(t);
  }

  lemma NothingOpen(t: Text)
    ensures forall p: nat :: p <= |t| ==> !ScanFrom(t, p, [])
  {
  }

  lemma OpenScan(t: Text, k: Token, p: nat)
    requires p < |t| && (k.CurlyOpen? || k.SquareOpen?)
    ensures ScanValue(t, k, p, 0, []) == ScanFrom(t, p + 1, [if k.CurlyOpen? then InDict else InList])
  {
    hide ScanFrom;
    assert [InDict] + [] == [InDict] && [InList] + [] == [InList];
  }

  /** A value that is no list and no dictionary ends. */
  lemma PlainEnds(t: Text, k: Token, p: nat, f: nat)
    requires p <= |t| && f > 0 && !k.CurlyOpen? && !k.SquareOpen? && (k.StringStart? ==> p < |t|)
    ensures !ReadByToken(t, k, p, f).Endless?
  {
    if k.StringStart? { CharsMove(t, p + 1); }
  }

  /** Without a colon reading always ends. */
  lemma NoColonEnds(t: Text)
    requires C(':') !in t
    ensures !StrayColon(t)
  {
    ValueDecided(t, 0, 2 * |t| + 1, 2 * |t| + 1);
    DeserializeDecides(t, 2 * |t| + 1);
  }

  /** Reading a printed value ends, dictionaries with their colons included. */
  lemma PrintedEnds(v: Value)
    requires Fine(v)
    ensures !StrayColon(Print(v))
  {
    hide *;
    ReadsBack(v);
    DeserializeDecides(Print(v), 2 * |Print(v)| + 1);
  }

  /** The smallest text that is read for ever. */
  lemma ColonInListIsEndless(fuel: nat)
    ensures ReadValue(Ascii("[:"), 0, fuel).Endless?
  {
    var t := Ascii("[:");
    TokenAt(t, 0, C('['));
    TokenAt(t, 1, C(':'));
    if fuel > 0 { ColonSticks(t, 1, [], fuel - 1); }
  }

  /** Deserialize(Serialize(v)) is v but for unsigned integers from 2^63 on, which become 0;
      and the whole text is consumed. */
  lemma ReadsBack(v: Value)
    requires Fine(v)
    ensures Deserialize(Print(v)) == Got(Signed(v), |Print(v)|)
  {
    hide *;
    var t := Print(v);
    var fuel := 2 * |t| + 1 + Need(v);
    AtAll(t);
    ValueBack(t, 0, v, fuel);
    DeserializeDecides(t, fuel);
  }

  /** The value comes back if and only if no integer in it needs an unsigned type. */
  lemma RoundTrip(v: Value)
    requires Fine(v)
    ensures Deserialize(Print(v)) == Got(v, |Print(v)|) <==> AllSigned(v)
  {
    hide *;
    ReadsBack(v);
    SignedSame(v);
  }

  /** The smallest integer that is lost. */
  lemma UnsignedIsLost()
    ensures var v := Int(0x8000_0000_0000_0000); Fine(v) && Deserialize(Print(v)) == Got(Int(0), |Print(v)|)
  {
    ReadsBack(Int(0x8000_0000_0000_0000));
  }

  lemma AtAll(t: Text)
    ensures At(t, 0, t) && Delimited(t, |t|)
  {
    assert t[0..0 + |t|] == t;
  }
}
