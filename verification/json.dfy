/** The slice of JSON the components use: `JSON.stringify` of an array of
    strings, and `JSON.parse` read only as far as "an array of strings",
    "some other JSON value" or "throws" (RFC 8259, sections 2 to 7). */
module Json {
  import opened Wrappers

  /** How the components read the outcome of `JSON.parse(text)`. */
  datatype ParseResult = Fail | NotArray | Arr(items: seq<string>)

  /** A parsed JSON value, keeping only what the components inspect. */
  datatype Value = Str(text: string) | List(elems: seq<Value>) | Scalar | Object

  // ---------------------------------------------------------------------------
  // JSON.stringify(array of strings)
  // ---------------------------------------------------------------------------

  /** Lower-case hexadecimal digit of `n`. */
  function HexDigit(n: nat): (c: char)
    requires n < 16
    ensures HexValue(c) == Some(n)
  {
    if n < 10 then ('0' as int + n) as char else ('a' as int + n - 10) as char
  }

  /** How `JSON.stringify` writes one character inside a string literal:
      quote and backslash escaped, the five control characters with a short
      escape, other control characters as `\u00XX`, everything else as is. */
  function EscapeChar(c: char): (e: string)
    ensures 1 <= |e| <= 6
    ensures |e| == 1 <==> e == [c]
    ensures forall k :: 0 <= k < |e| ==> e[k] != '"' || (k > 0 && e[k - 1] == '\\')
  {
    var n := c as int;
    if c == '"' then ['\\', '"']
    else if c == '\\' then ['\\', '\\']
    else if n == 0x08 then ['\\', 'b']
    else if n == 0x09 then ['\\', 't']
    else if n == 0x0A then ['\\', 'n']
    else if n == 0x0C then ['\\', 'f']
    else if n == 0x0D then ['\\', 'r']
    else if n < 0x20 then ['\\', 'u', '0', '0', HexDigit(n / 16), HexDigit(n % 16)]
    else [c]
  }

  /** The characters of `s` as written between the quotes. */
  function EscapeBody(s: string): (e: string)
    ensures |e| >= |s|
  {
    if s == [] then [] else EscapeChar(s[0]) + EscapeBody(s[1..])
  }

  /** `JSON.stringify(s)` for a string `s`. */
  function Quote(s: string): (q: string)
    ensures |q| >= 2 && q[0] == '"' && q[|q| - 1] == '"'
  {
    ['"'] + EscapeBody(s) + ['"']
  }

  /** The quoted elements separated by commas. */
  function JoinQuoted(xs: seq<string>): (j: string)
    ensures xs == [] <==> j == []
    ensures j != [] ==> j[0] == '"'
  {
    if xs == [] then []
    else if |xs| == 1 then Quote(xs[0])
    else Quote(xs[0]) + [','] + JoinQuoted(xs[1..])
  }

  /** `JSON.stringify(xs)` for an array of strings: no white space at all. */
  function Stringify(xs: seq<string>): (j: string)
    ensures |j| >= 2 && j[0] == '[' && j[|j| - 1] == ']'
    ensures xs == [] <==> j == "[]"
  {
    ['['] + JoinQuoted(xs) + [']']
  }

  // ---------------------------------------------------------------------------
  // JSON.parse
  // ---------------------------------------------------------------------------

  /** The four JSON white-space characters. */
  predicate IsWs(c: char) {
    c == ' ' || c == '\t' || c == '\n' || c == '\r'
  }

  predicate IsDigit(c: char) {
    '0' <= c <= '9'
  }

  /** Value of a hexadecimal digit of either case. */
  function HexValue(c: char): (v: Option<nat>)
    ensures v.Some? ==> v.value < 16
  {
    if '0' <= c <= '9' then Some(c as int - '0' as int)
    else if 'a' <= c <= 'f' then Some(c as int - 'a' as int + 10)
    else if 'A' <= c <= 'F' then Some(c as int - 'A' as int + 10)
    else None
  }

  /** The number written by four hexadecimal digits. */
  function Hex4(s: string): (v: Option<nat>)
    requires |s| == 4
    ensures v.Some? ==> v.value < 0x10000
  {
    match (HexValue(s[0]), HexValue(s[1]), HexValue(s[2]), HexValue(s[3]))
    case (Some(a), Some(b), Some(c), Some(d)) => Some(a * 0x1000 + b * 0x100 + c * 0x10 + d)
    case _ => None
  }

  /** `s` without its leading JSON white space. */
  function SkipWs(s: string): (r: string)
    ensures |r| <= |s| && r == s[|s| - |r|..]
    ensures r != [] ==> !IsWs(r[0])
  {
    if s != [] && IsWs(s[0]) then SkipWs(s[1..]) else s
  }

  /** `s` without its leading decimal digits. */
  function SkipDigits(s: string): (r: string)
    ensures |r| <= |s| && r == s[|s| - |r|..]
    ensures r != [] ==> !IsDigit(r[0])
  {
    if s != [] && IsDigit(s[0]) then SkipDigits(s[1..]) else s
  }

  /** One step through the inside of a string literal. */
  datatype CharStep = Close(rest: string) | Char(c: char, rest: string) | Bad

  /** Reads the next character of a string literal, or its closing quote.
      Raw control characters are refused, as RFC 8259 section 7 demands. */
  function ParseChar(s: string): (r: CharStep)
    ensures !r.Bad? ==> |r.rest| < |s|
  {
    if s == [] then Bad
    else if s[0] == '"' then Close(s[1..])
    else if s[0] == '\\' then ParseEscape(s[1..])
    else if (s[0] as int) < 0x20 then Bad
    else Char(s[0], s[1..])
  }

  /** Reads an escape sequence, `t` being what follows the backslash. A
      `\u` escape of a surrogate must be the high half of a pair; a lone
      surrogate has no Unicode scalar value and is refused. */
  function ParseEscape(t: string): (r: CharStep)
    ensures !r.Bad? ==> |r.rest| < |t|
  {
    if t == [] then Bad
    else if t[0] == '"' then Char('"', t[1..])
    else if t[0] == '\\' then Char('\\', t[1..])
    else if t[0] == '/' then Char('/', t[1..])
    else if t[0] == 'b' then Char(0x08 as char, t[1..])
    else if t[0] == 'f' then Char(0x0C as char, t[1..])
    else if t[0] == 'n' then Char('\n', t[1..])
    else if t[0] == 'r' then Char('\r', t[1..])
    else if t[0] == 't' then Char('\t', t[1..])
    else if t[0] == 'u' && |t| >= 5 then
      match Hex4(t[1..5])
      case None => Bad
      case Some(u) =>
        if u < 0xD800 || 0xDFFF < u then Char(u as char, t[5..])
        else if u <= 0xDBFF && |t| >= 11 && t[5] == '\\' && t[6] == 'u' then
          match Hex4(t[7..11])
          case Some(l) =>
            if 0xDC00 <= l <= 0xDFFF then
              Char((0x10000 + (u - 0xD800) * 0x400 + (l - 0xDC00)) as char, t[11..])
            else Bad
          case None => Bad
        else Bad
    else Bad
  }

  /** Reads the rest of a string literal after its opening quote. */
  function ParseStringBody(s: string): (r: Option<(string, string)>)
    ensures r.Some? ==> |r.value.1| < |s|
    decreases |s|
  {
    match ParseChar(s)
    case Bad => None
    case Close(rest) => Some(([], rest))
    case Char(c, rest) =>
      match ParseStringBody(rest)
      case None => None
      case Some((t, r)) => Some(([c] + t, r))
  }

  /** Reads the optional fraction of a number. */
  function ParseFraction(s: string): (r: Option<string>)
    ensures r.Some? ==> |r.value| <= |s|
  {
    if s != [] && s[0] == '.' then
      var d := SkipDigits(s[1..]);
      if |d| == |s| - 1 then None else Some(d)
    else Some(s)
  }

  /** Reads the optional exponent of a number. */
  function ParseExponent(s: string): (r: Option<string>)
    ensures r.Some? ==> |r.value| <= |s|
  {
    if s != [] && (s[0] == 'e' || s[0] == 'E') then
      var e := s[1..];
      var f := if e != [] && (e[0] == '+' || e[0] == '-') then e[1..] else e;
      var g := SkipDigits(f);
      if |g| == |f| then None else Some(g)
    else Some(s)
  }

  /** Reads a number: optional minus, integer part without leading zeros,
      optional fraction, optional exponent. */
  function ParseNumber(s: string): (r: Option<string>)
    ensures r.Some? ==> |r.value| < |s|
  {
    var a := if s != [] && s[0] == '-' then s[1..] else s;
    if a == [] || !IsDigit(a[0]) then None
    else
      var b := if a[0] == '0' then a[1..] else SkipDigits(a);
      match ParseFraction(b)
      case None => None
      case Some(c) => ParseExponent(c)
  }

  /** Reads the literal `word` at the start of `s`. */
  function ParseWord(s: string, word: string): (r: Option<(Value, string)>)
    requires |word| > 0
    ensures r.Some? ==> |r.value.1| < |s|
  {
    if |s| >= |word| && s[..|word|] == word then Some((Scalar, s[|word|..])) else None
  }

  /** Reads one JSON value at the very start of `s`. */
  function ParseValue(s: string): (r: Option<(Value, string)>)
    ensures r.Some? ==> |r.value.1| < |s|
    decreases |s|, 0
  {
    if s == [] then None
    else if s[0] == '"' then
      match ParseStringBody(s[1..])
      case None => None
      case Some((t, rest)) => Some((Str(t), rest))
    else if s[0] == '[' then ParseArray(SkipWs(s[1..]))
    else if s[0] == '{' then ParseObject(SkipWs(s[1..]))
    else if s[0] == 't' then ParseWord(s, "true")
    else if s[0] == 'f' then ParseWord(s, "false")
    else if s[0] == 'n' then ParseWord(s, "null")
    else if s[0] == '-' || IsDigit(s[0]) then
      match ParseNumber(s)
      case None => None
      case Some(rest) => Some((Scalar, rest))
    else None
  }

  /** Reads an array after its opening bracket and white space. */
  function ParseArray(s: string): (r: Option<(Value, string)>)
    ensures r.Some? ==> |r.value.1| < |s|
    decreases |s|, 2
  {
    if s != [] && s[0] == ']' then Some((List([]), s[1..]))
    else
      match ParseElements(s)
      case None => None
      case Some((es, rest)) => Some((List(es), rest))
  }

  /** Reads `value ws (, ws value ws)* ]`. */
  function ParseElements(s: string): (r: Option<(seq<Value>, string)>)
    ensures r.Some? ==> |r.value.1| < |s|
    decreases |s|, 1
  {
    match ParseValue(s)
    case None => None
    case Some((v, rest)) => ElementsAfter(v, rest, |s|)
  }

  /** What follows element `v`: the closing bracket or a comma and the
      remaining elements. `bound` is the length of the text `v` started, so
      `rest` is shorter. */
  function ElementsAfter(v: Value, rest: string, bound: nat): (r: Option<(seq<Value>, string)>)
    requires |rest| < bound
    ensures r.Some? ==> |r.value.1| < bound
    decreases bound, 0
  {
    var t := SkipWs(rest);
    if t != [] && t[0] == ']' then Some(([v], t[1..]))
    else if t != [] && t[0] == ',' then
      match ParseElements(SkipWs(t[1..]))
      case None => None
      case Some((vs, r)) => Some(([v] + vs, r))
    else None
  }

  /** Reads an object after its opening brace and white space. */
  function ParseObject(s: string): (r: Option<(Value, string)>)
    ensures r.Some? ==> |r.value.1| < |s|
    decreases |s|, 2
  {
    if s != [] && s[0] == '}' then Some((Object, s[1..]))
    else ParseMembers(s)
  }

  /** Reads `"key" ws : ws value ws (, ws "key" ...)* }`. */
  function ParseMembers(s: string): (r: Option<(Value, string)>)
    ensures r.Some? ==> |r.value.1| < |s|
    decreases |s|, 1
  {
    if s == [] || s[0] != '"' then None
    else
      match ParseStringBody(s[1..])
      case None => None
      case Some((_, afterKey)) =>
        var t := SkipWs(afterKey);
        if t == [] || t[0] != ':' then None
        else
          match ParseValue(SkipWs(t[1..]))
          case None => None
          case Some((_, rest)) =>
            var w := SkipWs(rest);
            if w != [] && w[0] == '}' then Some((Object, w[1..]))
            else if w != [] && w[0] == ',' then ParseMembers(SkipWs(w[1..]))
            else None
  }

  /** Every element is a string. */
  predicate AllStrings(es: seq<Value>) {
    forall k :: 0 <= k < |es| ==> es[k].Str?
  }

  /** How the components read a parsed value. */
  function Classify(v: Value): (r: ParseResult)
    ensures r.Arr? <==> v.List? && AllStrings(v.elems)
    ensures r.NotArray? <==> !v.List?
    ensures r.Arr? ==> (|r.items| == |v.elems|
      && forall k :: 0 <= k < |r.items| ==> v.elems[k] == Str(r.items[k]))
  {
    match v
    case List(es) =>
      if AllStrings(es) then Arr(seq(|es|, k requires 0 <= k < |es| => es[k].text)) else Fail
    case _ => NotArray
  }

  /** `JSON.parse(text)`: one value, surrounded by nothing but white space. */
  function Parse(text: string): (r: ParseResult)
    ensures text == [] ==> r == Fail
  {
    match ParseValue(SkipWs(text))
    case None => Fail
    case Some((v, rest)) => if SkipWs(rest) == [] then Classify(v) else Fail
  }

  // ---------------------------------------------------------------------------
  // Round trip
  // ---------------------------------------------------------------------------

  lemma ConcatAssoc(a: string, b: string, c: string)
    ensures a + b + c == a + (b + c)
  {
  }

  /** The parser reads every escaped character back. */
  lemma EscapeCharRoundTrip(c: char, rest: string)
    ensures ParseChar(EscapeChar(c) + rest) == Char(c, rest)
  {
    var n := c as int;
    var e := EscapeChar(c);
    var s := e + rest;
    if c != '"' && c != '\\' && n != 0x08 && n != 0x09 && n != 0x0A && n != 0x0C && n != 0x0D && n < 0x20 {
      var u := ['u', '0', '0', HexDigit(n / 16), HexDigit(n % 16)];
      assert e == ['\\'] + u;
      assert s[1..] == u + rest;
      UnicodeEscapeRoundTrip(n, rest);
    } else if |e| == 2 {
      assert s[1..][1..] == rest;
    } else {
      assert s[1..] == rest;
    }
  }

  /** A `\u00XX` escape reads back as the control character it names. */
  lemma UnicodeEscapeRoundTrip(n: nat, rest: string)
    requires n < 0x20
    ensures ParseEscape(['u', '0', '0', HexDigit(n / 16), HexDigit(n % 16)] + rest) == Char(n as char, rest)
  {
    var t := ['u', '0', '0', HexDigit(n / 16), HexDigit(n % 16)] + rest;
    assert t[1..5] == ['0', '0', HexDigit(n / 16), HexDigit(n % 16)];
    assert Hex4(t[1..5]) == Some(n);
    assert t[5..] == rest;
  }

  /** A quoted body followed by the closing quote reads back as the string. */
  lemma {:induction false} BodyRoundTrip(s: string, rest: string)
    ensures ParseStringBody(EscapeBody(s) + ['"'] + rest) == Some((s, rest))
  {
    if s == [] {
      assert EscapeBody(s) + ['"'] + rest == ['"'] + rest;
      assert ParseChar(['"'] + rest) == Close(rest);
    } else {
      var tail := EscapeBody(s[1..]) + ['"'] + rest;
      calc {
        EscapeBody(s) + ['"'] + rest;
        (EscapeChar(s[0]) + EscapeBody(s[1..])) + ['"'] + rest;
        { ConcatAssoc(EscapeChar(s[0]), EscapeBody(s[1..]), ['"']); }
        (EscapeChar(s[0]) + (EscapeBody(s[1..]) + ['"'])) + rest;
        { ConcatAssoc(EscapeChar(s[0]), EscapeBody(s[1..]) + ['"'], rest); }
        EscapeChar(s[0]) + tail;
      }
      EscapeCharRoundTrip(s[0], tail);
      BodyRoundTrip(s[1..], rest);
      assert [s[0]] + s[1..] == s;
    }
  }

  /** A quoted string reads back as a string value. */
  lemma QuoteRoundTrip(x: string, rest: string)
    ensures ParseValue(Quote(x) + rest) == Some((Str(x), rest))
  {
    var s := Quote(x) + rest;
    assert s[1..] == EscapeBody(x) + ['"'] + rest;
    BodyRoundTrip(x, rest);
  }

  /** The last element, closed by the bracket. */
  lemma LastElementRoundTrip(x: string, rest: string)
    ensures ParseElements(Quote(x) + ([']'] + rest)) == Some(([Str(x)], rest))
  {
    QuoteRoundTrip(x, [']'] + rest);
    assert SkipWs([']'] + rest) == [']'] + rest;
    assert ([']'] + rest)[1..] == rest;
  }

  /** An element followed by a comma and more quoted elements. */
  lemma NextElementRoundTrip(x: string, tail: string)
    requires tail != [] && tail[0] == '"'
    ensures ParseElements(Quote(x) + ([','] + tail)) ==
      match ParseElements(tail)
      case None => None
      case Some((vs, r)) => Some(([Str(x)] + vs, r))
  {
    QuoteRoundTrip(x, [','] + tail);
    CommaStep(Str(x), tail, |Quote(x) + ([','] + tail)|);
  }

  /** A comma directly followed by a string element. */
  lemma CommaStep(v: Value, tail: string, bound: nat)
    requires |tail| + 1 < bound
    requires tail != [] && tail[0] == '"'
    ensures ElementsAfter(v, [','] + tail, bound) ==
      match ParseElements(tail)
      case None => None
      case Some((vs, r)) => Some(([v] + vs, r))
  {
    assert SkipWs([','] + tail) == [','] + tail;
    assert ([','] + tail)[1..] == tail;
    assert SkipWs(tail) == tail;
  }

  /** How `JoinQuoted` splits off its first element. */
  lemma JoinShape(xs: seq<string>, rest: string)
    requires |xs| > 1
    ensures JoinQuoted(xs) + [']'] + rest
      == Quote(xs[0]) + ([','] + (JoinQuoted(xs[1..]) + [']'] + rest))
  {
    var q, j := Quote(xs[0]), JoinQuoted(xs[1..]);
    assert JoinQuoted(xs) == q + [','] + j;
    ConcatAssoc(q + [','], j, [']']);
    ConcatAssoc(q + [','], j + [']'], rest);
    ConcatAssoc(q, [','], j + [']'] + rest);
  }

  function Strs(xs: seq<string>): seq<Value> {
    seq(|xs|, k requires 0 <= k < |xs| => Str(xs[k]))
  }

  lemma StrsCons(xs: seq<string>)
    requires xs != []
    ensures Strs(xs) == [Str(xs[0])] + Strs(xs[1..])
  {
  }

  /** The comma-joined quoted strings, closed by a bracket, read back as the
      list of string values. */
  lemma {:induction false} ElementsRoundTrip(xs: seq<string>, rest: string)
    requires xs != []
    ensures ParseElements(JoinQuoted(xs) + [']'] + rest) == Some((Strs(xs), rest))
  {
    if |xs| == 1 {
      assert JoinQuoted(xs) + [']'] + rest == Quote(xs[0]) + ([']'] + rest);
      LastElementRoundTrip(xs[0], rest);
      assert Strs(xs) == [Str(xs[0])];
    } else {
      var tail := JoinQuoted(xs[1..]) + [']'] + rest;
      calc {
        ParseElements(JoinQuoted(xs) + [']'] + rest);
        { JoinShape(xs, rest); }
        ParseElements(Quote(xs[0]) + ([','] + tail));
        { ElementsRoundTrip(xs[1..], rest); NextElementRoundTrip(xs[0], tail); }
        Some(([Str(xs[0])] + Strs(xs[1..]), rest));
        { StrsCons(xs); }
        Some((Strs(xs), rest));
      }
    }
  }

  /** `Stringify` writes one array value and nothing after it. */
  lemma ArrayValueRoundTrip(xs: seq<string>)
    ensures ParseValue(Stringify(xs)) == Some((List(Strs(xs)), []))
  {
    if xs == [] {
      EmptyArrayRoundTrip(xs);
    } else {
      FilledArrayRoundTrip(xs);
    }
  }

  lemma EmptyArrayRoundTrip(xs: seq<string>)
    requires xs == []
    ensures ParseValue(Stringify(xs)) == Some((List(Strs(xs)), []))
  {
    var j := Stringify(xs);
    OpenBracket(j);
    StringifyBody(xs);
    EmptyArrayBody(j[1..]);
    assert j[1..][1..] == [];
    assert Strs(xs) == [];
  }

  lemma FilledArrayRoundTrip(xs: seq<string>)
    requires xs != []
    ensures ParseValue(Stringify(xs)) == Some((List(Strs(xs)), []))
  {
    var j := Stringify(xs);
    OpenBracket(j);
    StringifyBody(xs);
    ElementsRoundTrip(xs, []);
    ArrayBody(j[1..]);
  }

  /** After the opening bracket come the elements and the closing one. */
  lemma StringifyBody(xs: seq<string>)
    ensures Stringify(xs)[1..] == JoinQuoted(xs) + [']'] + []
  {
    ConcatAssoc(['['], JoinQuoted(xs), [']']);
    assert JoinQuoted(xs) + [']'] + [] == JoinQuoted(xs) + [']'];
  }

  /** A text starting with a bracket is read as an array. */
  lemma OpenBracket(s: string)
    requires s != [] && s[0] == '['
    ensures ParseValue(s) == ParseArray(SkipWs(s[1..]))
  {
  }

  /** A closing bracket right away ends an empty array. */
  lemma EmptyArrayBody(s: string)
    requires s != [] && s[0] == ']'
    ensures ParseArray(SkipWs(s)) == Some((List([]), s[1..]))
  {
    assert SkipWs(s) == s;
  }

  /** An array body that opens with a string is read element by element. */
  lemma ArrayBody(s: string)
    requires s != [] && s[0] == '"'
    ensures ParseArray(SkipWs(s)) ==
      match ParseElements(s)
      case None => None
      case Some((es, rest)) => Some((List(es), rest))
  {
    assert SkipWs(s) == s;
  }

  /** A text holding one value and nothing else, not even white space,
      parses as that value. */
  lemma WholeText(text: string, v: Value)
    requires text == [] || !IsWs(text[0])
    requires ParseValue(text) == Some((v, []))
    ensures Parse(text) == Classify(v)
  {
    assert SkipWs(text) == text;
  }

  lemma ClassifyStrs(xs: seq<string>)
    ensures Classify(List(Strs(xs))) == Arr(xs)
  {
  }

  /** Parsing what `Stringify` wrote gives back exactly the same strings. */
  lemma StringifyRoundTrip(xs: seq<string>)
    ensures Parse(Stringify(xs)) == Arr(xs)
  {
    ArrayValueRoundTrip(xs);
    WholeText(Stringify(xs), List(Strs(xs)));
    ClassifyStrs(xs);
  }

  lemma {:induction false} SkipAllDigits(s: string)
    requires forall k :: 0 <= k < |s| ==> IsDigit(s[k])
    ensures SkipDigits(s) == []
  {
    if s != [] {
      SkipAllDigits(s[1..]);
    }
  }

  /** A numeral without a leading zero is a JSON number: valid JSON, but not
      an array. */
  lemma NumeralIsNotArray(s: string)
    requires s != [] && s[0] != '0'
    requires forall k :: 0 <= k < |s| ==> IsDigit(s[k])
    ensures Parse(s) == NotArray
  {
    SkipAllDigits(s);
    assert ParseNumber(s) == Some([]);
    assert ParseValue(s) == Some((Scalar, []));
    WholeText(s, Scalar);
  }

  /** A character no JSON value can start with. */
  predicate CannotStartJson(c: char) {
    !IsWs(c) && !IsDigit(c) && c !in "\"[{tfn-"
  }

  /** Text that starts with such a character is not JSON. */
  lemma NotJsonStart(s: string)
    requires s != [] && CannotStartJson(s[0])
    ensures Parse(s) == Fail
  {
    assert SkipWs(s) == s;
    assert ParseValue(s) == None;
  }
}
