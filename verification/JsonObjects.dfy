/** The serializer and the parser of MiniJSON as the objects they are: one appends to a
    builder, the other moves through a reader. */
module JsonObjects {
  import opened MiniJson
  import opened JsonGrammar

  lemma StringsRead(t: Text, p: nat)
    ensures forall q, s :: String(t, p, q, s) ==> ReadChars(t, Skip(t, p)) == Got(s, q)
  {
    forall q, s | String(t, p, q, s)
      ensures ReadChars(t, Skip(t, p)) == Got(s, q)
    {
      StringRead(t, p, q, s);
    }
  }

  lemma FineItem(v: Value, i: nat)
    requires v.List? && Fine(v) && i < |v.xs|
    ensures Fine(v.xs[i])
  {
  }

  lemma ItemsGrow(b: Text, v: Value, i: nat)
    requires v.List? && Fine(v) && i < |v.xs|
    ensures b + PrintItems(v, i) == (if i == 0 then b else b + [C(',')]) + Print(v.xs[i]) + PrintItems(v, i + 1)
  {
    hide Print;
    var comma := if i == 0 then [] else [C(',')];
    assert PrintItems(v, i) == comma + Print(v.xs[i]) + PrintItems(v, i + 1);
    hide PrintItems;
  }

  lemma EntriesGrow(b: Text, v: Value, i: nat)
    requires v.Dict? && Fine(v) && i < |v.es|
    ensures b + PrintEntries(v, i) ==
      (if i == 0 then b else b + [C(',')]) + PrintStr(v.es[i].key) + [C(':')] + Print(v.es[i].value) +
      PrintEntries(v, i + 1)
  {
    hide Print, PrintStr;
    var comma := if i == 0 then [] else [C(',')];
    assert PrintEntries(v, i) ==
      comma + PrintStr(v.es[i].key) + [C(':')] + Print(v.es[i].value) + PrintEntries(v, i + 1);
    hide PrintEntries;
  }

  lemma CharsGrow(b: Text, s: Text, i: nat)
    requires Units(s) && i < |s|
    ensures s[i] < 0x1_0000 && Units(s[i..]) && Units(s[i + 1..])
      && b + PrintChars(s[i..]) == b + PrintChar(s[i]) + PrintChars(s[i + 1..])
  {
    hide PrintChar;
    assert s[i..][1..] == s[i + 1..];
  }

  class Serializer {
    var builder: Text

    constructor ()
      ensures builder == []
    {
      builder := [];
    }

    method SerializeValue(v: Value)
      requires Fine(v)
      modifies this
      ensures builder == old(builder) + Print(v)
      decreases v, 1, 0
    {
      match v {
        case Null => builder := builder + Ascii("null");
        case Str(s) => SerializeString(s);
        case Bool(b) => builder := builder + Ascii(if b then "true" else "false");
        case List(xs) => SerializeArray(v);
        case Dict(es) => SerializeObject(v);
        case Int(n) => builder := builder + PrintInt(n);
      }
    }

    method SerializeArray(v: Value)
      requires v.List? && Fine(v)
      modifies this
      ensures builder == old(builder) + [C('[')] + PrintItems(v, 0) + [C(']')]
      decreases v, 0, 0
    {
      builder := builder + [C('[')];
      var first := true;
      for i := 0 to |v.xs|
        invariant first == (i == 0)
        invariant builder + PrintItems(v, i) == old(builder) + [C('[')] + PrintItems(v, 0)
      {
        hide *;
        ItemsGrow(builder, v, i);
        FineItem(v, i);
        if !first { builder := builder + [C(',')]; }
        SerializeValue(v.xs[i]);
        first := false;
      }
      builder := builder + [C(']')];
    }

    method SerializeObject(v: Value)
      requires v.Dict? && Fine(v)
      modifies this
      ensures builder == old(builder) + [C('{')] + PrintEntries(v, 0) + [C('}')]
      decreases v, 0, 0
    {
      builder := builder + [C('{')];
      var first := true;
      for i := 0 to |v.es|
        invariant first == (i == 0)
        invariant builder + PrintEntries(v, i) == old(builder) + [C('{')] + PrintEntries(v, 0)
      {
        hide *;
        EntriesGrow(builder, v, i);
        FineEntry(v, i);
        if !first { builder := builder + [C(',')]; }
        SerializeString(v.es[i].key);
        builder := builder + [C(':')];
        SerializeValue(v.es[i].value);
        first := false;
      }
      builder := builder + [C('}')];
    }

    method SerializeString(s: Text)
      requires Units(s)
      modifies this
      ensures builder == old(builder) + PrintStr(s)
    {
      builder := builder + [C('"')];
      for i := 0 to |s|
        invariant Units(s[i..]) && builder + PrintChars(s[i..]) == old(builder) + [C('"')] + PrintChars(s)
      {
        hide *;
        CharsGrow(builder, s, i);
        builder := builder + PrintChar(s[i]);
      }
      assert s[|s|..] == [] && builder == old(builder) + [C('"')] + PrintChars(s);
      builder := builder + [C('"')];
      assert builder == old(builder) + PrintStr(s);
    }
  }

  /** A reader over json that stands at pos.  Where a method returns Threw or Endless, the
      position no longer matters. */
  class Parser {
    const json: Text
    var pos: nat

    constructor (text: Text)
      ensures json == text && pos == 0
    {
      json := text;
      pos := 0;
    }

    predicate Left<T>(r: Read<T>)
      reads this
    {
      r.Got? ==> pos == r.pos
    }

    method EatWhitespace() returns (r: Read<()>)
      modifies this
      ensures r == Eat(json, old(pos)) && Left(r)
    {
      if pos >= |json| { return Threw; }
      while IsWhite(json[pos])
        invariant pos < |json| && Eat(json, pos) == Eat(json, old(pos))
        decreases |json| - pos
      {
        pos := pos + 1;
        if pos == |json| { return Got((), pos); }
      }
      return Got((), pos);
    }

    method NextWord() returns (word: Text)
      requires pos < |json|
      modifies this
      ensures pos == WordEnd(json, old(pos)) && word == json[old(pos)..pos]
    {
      word := [];
      while !IsWordBreak(json[pos])
        invariant old(pos) <= pos < |json| && WordEnd(json, pos) == WordEnd(json, old(pos))
          && word == json[old(pos)..pos]
        decreases |json| - pos
      {
        word := word + [json[pos]];
        pos := pos + 1;
        if pos == |json| { return; }
      }
    }

    method ReadToken() returns (r: Read<Token>)
      modifies this
      ensures r == NextToken(json, old(pos)) && Left(r)
    {
      var eaten := EatWhitespace();
      if eaten.Threw? { return Threw; }
      if pos >= |json| { return Got(NoToken, pos); }
      var c := json[pos];
      if c == C('{') { return Got(CurlyOpen, pos); }
      if c == C('}') { pos := pos + 1; return Got(CurlyClose, pos); }
      if c == C('[') { return Got(SquareOpen, pos); }
      if c == C(']') { pos := pos + 1; return Got(SquareClose, pos); }
      if c == C(',') { pos := pos + 1; return Got(Token.Comma, pos); }
      if c == C('"') { return Got(StringStart, pos); }
      if c == C(':') { return Got(Colon, pos); }
      if C('0') <= c <= C('9') || c == C('-') { return Got(NumberStart, pos); }
      var word := NextWord();
      return Got(if word == Ascii("false") then False else if word == Ascii("true") then True
        else if word == Ascii("null") then NullWord else NoToken, pos);
    }

    method ParseString() returns (r: Read<Text>)
      modifies this
      ensures r == ReadChars(json, Skip(json, old(pos))) && Left(r)
      ensures forall q, s :: String(json, old(pos), q, s) ==> r == Got(s, q)
    {
      hide HexOf, Unescape, ReadChars, Then, String;
      StringsRead(json, pos);
      pos := Skip(json, pos);
      ghost var start := pos;
      var s := [];
      ThenNothing(json, pos);
      while pos < |json|
        invariant ReadChars(json, start) == Then(s, ReadChars(json, pos))
        decreases |json| - pos
      {
        CharsTurn(s, json, pos);
        var c := json[pos];
        pos := pos + 1;
        if c == C('"') { return Got(s, pos); }
        if c != C('\\') {
          s := s + [c];
        } else {
          if pos == |json| { return Got(s, pos); }
          c := json[pos];
          pos := pos + 1;
          if c != C('u') {
            s := s + Unescape(c);
          } else {
            if pos + 4 > |json| { return Threw; }
            var hex := json[pos..pos + 4];
            pos := pos + 4;
            if HexOf(hex).None? { return Threw; }
            s := s + [HexOf(hex).n];
          }
        }
      }
      CharsAtEnd(s, json, pos);
      return Got(s, pos);
    }

    method ParseNumber() returns (r: Read<Value>)
      requires pos < |json|
      modifies this
      ensures var q := WordEnd(json, old(pos));
        r == Got(if C('.') in json[old(pos)..q] then Double(json[old(pos)..q]) else Int(LongOf(json[old(pos)..q])), q)
        && Left(r)
    {
      var number := NextWord();
      return Got(if C('.') in number then Double(number) else Int(LongOf(number)), pos);
    }

    method ParseByToken(k: Token, fuel: nat) returns (r: Read<Value>)
      modifies this
      ensures r == ReadByToken(json, k, old(pos), fuel) && Left(r)
      decreases fuel, 1
    {
      hide ReadItems, ReadEntries, ReadChars, LongOf, WordEnd;
      if fuel == 0 { return Endless; }
      match k {
        case StringStart =>
          var s := ParseString();
          match s {
            case Got(v, p) => return Got(Str(v), p);
            case Threw => return Threw;
            case Endless => return Endless;
          }
        case NumberStart =>
          if pos >= |json| { return Threw; }
          r := ParseNumber();
        case CurlyOpen => r := ParseObject(fuel - 1);
        case SquareOpen => r := ParseArray(fuel - 1);
        case True => r := Got(Bool(true), pos);
        case False => r := Got(Bool(false), pos);
        case _ => r := Got(Null, pos);
      }
    }

    method ParseValue(fuel: nat) returns (r: Read<Value>)
      modifies this
      ensures r == ReadValue(json, old(pos), fuel) && Left(r)
      decreases fuel, 2
    {
      hide ReadByToken, NextToken;
      var k := ReadToken();
      match k {
        case Got(tok, p) => r := ParseByToken(tok, fuel);
        case Threw => r := Threw;
        case Endless => r := Endless;
      }
    }

    method ParseArray(fuel: nat) returns (r: Read<Value>)
      modifies this
      ensures r == ReadItems(json, Skip(json, old(pos)), [], fuel) && Left(r)
      decreases fuel, 0
    {
      hide ReadByToken, NextToken, ReadItems;
      pos := Skip(json, pos);
      ghost var start := pos;
      var xs := [];
      var turns: nat := fuel;
      while turns > 0
        invariant turns <= fuel && ReadItems(json, start, [], fuel) == ReadItems(json, pos, xs, turns)
        decreases turns
      {
        ItemsTurn(json, pos, xs, turns);
        var k := ReadToken();
        turns := turns - 1;
        match k {
          case Threw => return Threw;
          case Endless => return Endless;
          case Got(tok, p) =>
            if tok.NoToken? { return Got(Null, pos); }
            if tok.SquareClose? { return Got(List(xs), pos); }
            if !tok.Comma? {
              var v := ParseByToken(tok, turns);
              match v {
                case Got(x, q) => xs := xs + [x];
                case Threw => return Threw;
                case Endless => return Endless;
              }
            }
        }
      }
      NoTurns(json, pos, xs, []);
      return Endless;
    }

    method ParseObject(fuel: nat) returns (r: Read<Value>)
      modifies this
      ensures r == ReadEntries(json, Skip(json, old(pos)), [], fuel) && Left(r)
      decreases fuel, 0
    {
      hide ReadValue, NextToken, ReadChars, Put, ReadEntries;
      pos := Skip(json, pos);
      ghost var start := pos;
      var table := [];
      var turns: nat := fuel;
      while turns > 0
        invariant turns <= fuel && ReadEntries(json, start, [], fuel) == ReadEntries(json, pos, table, turns)
        decreases turns
      {
        EntriesTurn(json, pos, table, turns);
        var k := ReadToken();
        if !k.Got? { return if k.Threw? then Threw else Endless; }
        turns := turns - 1;
        if k.value.NoToken? { return Got(Null, pos); }
        if k.value.CurlyClose? { return Got(Dict(table), pos); }
        if !k.value.Comma? {
          var name := ParseString();
          if !name.Got? { return if name.Threw? then Threw else Endless; }
          var colon := ReadToken();
          if !colon.Got? { return if colon.Threw? then Threw else Endless; }
          if !colon.value.Colon? { return Got(Null, pos); }
          pos := Skip(json, pos);
          var v := ParseValue(turns);
          if !v.Got? { return v; }
          table := Put(table, name.value, v.value);
        }
      }
      NoTurns(json, pos, [], table);
      return Endless;
    }
  }

  /** What one turn of the loop over the elements does. */
  lemma ItemsTurn(t: Text, pos: nat, xs: seq<Value>, fuel: nat)
    requires fuel > 0
    ensures var k := NextToken(t, pos); var r := ReadItems(t, pos, xs, fuel);
      if !k.Got? then r == (if k.Threw? then Threw else Endless)
      else if k.value.NoToken? then r == Got(Null, k.pos)
      else if k.value.Comma? then r == ReadItems(t, k.pos, xs, fuel - 1)
      else if k.value.SquareClose? then r == Got(List(xs), k.pos)
      else
        var v := ReadByToken(t, k.value, k.pos, fuel - 1);
        if v.Got? then r == ReadItems(t, v.pos, xs + [v.value], fuel - 1) else r == v
  {
    hide ReadByToken, NextToken;
  }

  /** What one turn of the loop over the entries does. */
  lemma EntriesTurn(t: Text, pos: nat, es: seq<Entry>, fuel: nat)
    requires fuel > 0
    ensures var k := NextToken(t, pos);
      if !k.Got? then ReadEntries(t, pos, es, fuel) == (if k.Threw? then Threw else Endless)
      else if k.value.NoToken? then ReadEntries(t, pos, es, fuel) == Got(Null, k.pos)
      else if k.value.Comma? then ReadEntries(t, pos, es, fuel) == ReadEntries(t, k.pos, es, fuel - 1)
      else if k.value.CurlyClose? then ReadEntries(t, pos, es, fuel) == Got(Dict(es), k.pos)
      else EntryTurn(t, k.pos, es, fuel, ReadEntries(t, pos, es, fuel))
  {
    hide ReadValue, NextToken, ReadChars, Put;
  }

  lemma NoTurns(t: Text, pos: nat, xs: seq<Value>, es: seq<Entry>)
    ensures ReadItems(t, pos, xs, 0) == Endless && ReadEntries(t, pos, es, 0) == Endless
  {
  }

  ghost predicate EntryTurn(t: Text, p: nat, es: seq<Entry>, fuel: nat, r: Read<Value>)
    requires fuel > 0
  {
    var name := ReadChars(t, Skip(t, p));
    if !name.Got? then r == (if name.Threw? then Threw else Endless)
    else
      var colon := NextToken(t, name.pos);
      if !colon.Got? then r == (if colon.Threw? then Threw else Endless)
      else if !colon.value.Colon? then r == Got(Null, colon.pos)
      else
        var v := ReadValue(t, Skip(t, colon.pos), fuel - 1);
        if v.Got? then r == ReadEntries(t, v.pos, Put(es, name.value, v.value), fuel - 1) else r == v
  }

  lemma ThenNothing(t: Text, pos: nat)
    ensures Then([], ReadChars(t, pos)) == ReadChars(t, pos)
  {
    hide ReadChars;
    match ReadChars(t, pos) {
      case Got(v, p) => assert [] + v == v;
      case _ =>
    }
  }

  /** What one turn of the loop over the characters of a string does. */
  lemma CharsTurn(s: Text, t: Text, pos: nat)
    requires pos < |t|
    ensures var r := Then(s, ReadChars(t, pos));
      if t[pos] == C('"') then r == Got(s, pos + 1)
      else if t[pos] != C('\\') then r == Then(s + [t[pos]], ReadChars(t, pos + 1))
      else if pos + 1 >= |t| then r == Got(s, pos + 1)
      else if t[pos + 1] != C('u') then r == Then(s + Unescape(t[pos + 1]), ReadChars(t, pos + 2))
      else if pos + 6 > |t| || HexOf(t[pos + 2..pos + 6]).None? then r == Threw
      else r == Then(s + [HexOf(t[pos + 2..pos + 6]).n], ReadChars(t, pos + 6))
  {
    hide HexOf, Unescape, ReadChars;
    CharsUnfold(t, pos);
    ThenMore(s, t, pos);
  }

  /** The same for the function alone. */
  lemma CharsUnfold(t: Text, pos: nat)
    requires pos < |t|
    ensures var r := ReadChars(t, pos);
      if t[pos] == C('"') then r == Got([], pos + 1)
      else if t[pos] != C('\\') then r == Then([t[pos]], ReadChars(t, pos + 1))
      else if pos + 1 >= |t| then r == Got([], pos + 1)
      else if t[pos + 1] != C('u') then r == Then(Unescape(t[pos + 1]), ReadChars(t, pos + 2))
      else if pos + 6 > |t| || HexOf(t[pos + 2..pos + 6]).None? then r == Threw
      else r == Then([HexOf(t[pos + 2..pos + 6]).n], ReadChars(t, pos + 6))
  {
    hide HexOf, Unescape, Then;
  }

  lemma ThenMore(s: Text, t: Text, pos: nat)
    requires pos < |t|
    ensures s + [] == s && Then(s, Threw) == Threw && Then(s, Got([], pos + 1)) == Got(s, pos + 1)
    ensures Then(s, Then([t[pos]], ReadChars(t, pos + 1))) == Then(s + [t[pos]], ReadChars(t, pos + 1))
    ensures pos + 1 < |t| ==>
      Then(s, Then(Unescape(t[pos + 1]), ReadChars(t, pos + 2))) ==
        Then(s + Unescape(t[pos + 1]), ReadChars(t, pos + 2))
    ensures pos + 6 <= |t| && HexOf(t[pos + 2..pos + 6]).Num? ==>
      var n := HexOf(t[pos + 2..pos + 6]).n;
        Then(s, Then([n], ReadChars(t, pos + 6))) == Then(s + [n], ReadChars(t, pos + 6))
  {
    hide HexOf, Unescape, ReadChars, Then;
    ThenThen(s, [t[pos]], t, pos + 1);
    if pos + 1 < |t| { ThenThen(s, Unescape(t[pos + 1]), t, pos + 2); }
    if pos + 6 <= |t| && HexOf(t[pos + 2..pos + 6]).Num? { ThenThen(s, [HexOf(t[pos + 2..pos + 6]).n], t, pos + 6); }
    ThenEnd(s, pos + 1);
  }

  lemma CharsAtEnd(s: Text, t: Text, pos: nat)
    requires pos >= |t|
    ensures Then(s, ReadChars(t, pos)) == Got(s, pos)
  {
    ThenEnd(s, pos);
  }

  lemma ThenEnd(s: Text, p: nat)
    ensures s + [] == s && Then(s, Threw) == Threw && Then(s, Got([], p)) == Got(s, p)
  {
  }

  /** One more piece in front of what is still to be read. */
  lemma ThenThen(s: Text, u: Text, t: Text, q: nat)
    ensures Then(s, Then(u, ReadChars(t, q))) == Then(s + u, ReadChars(t, q))
  {
    hide ReadChars;
    match ReadChars(t, q) {
      case Got(v, p) => assert s + (u + v) == (s + u) + v;
      case _ =>
    }
  }

  /** Parser.Parse: every JSON text is read as the value it denotes, with 0 for the numbers that
      cannot be stored. */
  method Parse(text: Text, fuel: nat) returns (r: Read<Value>)
    requires fuel >= 2 * |text| + 1
    ensures forall q, v :: Json(text, q, v) ==> r == Got(Stored(v), q) && (r == Got(v, q) <==> Storable(v))
  {
    hide *;
    var parser := new Parser(text);
    r := parser.ParseValue(fuel);
    DeserializeDecides(text, fuel);
    forall q, v | Json(text, q, v)
      ensures r == Got(Stored(v), q) && (r == Got(v, q) <==> Storable(v))
    {
      JsonIsRead(text, q, v);
      JsonIsKept(text, q, v);
    }
  }

  /** Serialize, then Deserialize: the value comes back, if its integers are signed ones, and
      the reader is at the end. */
  method SerializeThenParse(v: Value, fuel: nat) returns (text: Text, r: Read<Value>)
    requires Fine(v) && fuel >= 2 * |Print(v)| + 1
    ensures text == Print(v) && Json(text, |text|, v)
    ensures r == Got(Signed(v), |text|) && (r == Got(v, |text|) <==> AllSigned(v))
  {
    PrintIsJson(v);
    var serializer := new Serializer();
    serializer.SerializeValue(v);
    text := serializer.builder;
    var parser := new Parser(text);
    r := parser.ParseValue(fuel);
    ReadsBack(v);
    RoundTrip(v);
    DeserializeDecides(text, fuel);
  }
}
