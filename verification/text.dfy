/** JavaScript's `String.prototype.trim`, over Unicode scalar values. */
module Text {

  /** The characters `trim` strips: ECMAScript WhiteSpace and LineTerminator
      (tab, vertical tab, form feed, space, no-break space, the byte order mark,
      the Zs separators, line feed, carriage return, U+2028 and U+2029). */
  predicate IsWhite(c: char) {
    var n := c as int;
    n == 0x09 || n == 0x0A || n == 0x0B || n == 0x0C || n == 0x0D || n == 0x20
    || n == 0xA0 || n == 0x1680 || (0x2000 <= n <= 0x200A)
    || n == 0x2028 || n == 0x2029 || n == 0x202F || n == 0x205F
    || n == 0x3000 || n == 0xFEFF
  }

  /** Nothing but white space, so `!!s.trim()` is false. */
  predicate Blank(s: string) {
    forall k :: 0 <= k < |s| ==> IsWhite(s[k])
  }

  /** `s` without its leading white space. */
  function TrimStart(s: string): (r: string)
    ensures |r| <= |s| && r == s[|s| - |r|..]
    ensures Blank(s[..|s| - |r|])
    ensures r != [] ==> !IsWhite(r[0])
  {
    if s != [] && IsWhite(s[0]) then
      var r := TrimStart(s[1..]);
      assert s[..|s| - |r|] == [s[0]] + s[1..][..|s[1..]| - |r|];
      r
    else s
  }

  /** `s` without its trailing white space. */
  function TrimEnd(s: string): (r: string)
    ensures |r| <= |s| && r == s[..|r|]
    ensures Blank(s[|r|..])
    ensures r != [] ==> !IsWhite(r[|r| - 1])
  {
    if s != [] && IsWhite(s[|s| - 1]) then
      var r := TrimEnd(s[..|s| - 1]);
      assert s[|r|..] == s[..|s| - 1][|r|..] + [s[|s| - 1]];
      r
    else s
  }

  /** `s.trim()`: what is left of `s` once white space is removed from both
      ends (`TrimPieces` names the two removed pieces). It is empty exactly
      when `s` is blank. */
  function Trim(s: string): (r: string)
    ensures |r| <= |s|
    ensures r == [] <==> Blank(s)
    ensures r != [] ==> !IsWhite(r[0]) && !IsWhite(r[|r| - 1])
  {
    var a := TrimStart(s);
    var r := TrimEnd(a);
    if r == [] then
      assert a == [];
      assert s[..|s|] == s;
      r
    else
      r
  }

  /** `Trim` removes a blank prefix and a blank suffix and nothing else. */
  lemma TrimPieces(s: string) returns (p: string, q: string)
    ensures s == p + Trim(s) + q
    ensures Blank(p) && Blank(q)
  {
    var a := TrimStart(s);
    var r := TrimEnd(a);
    p := StartPiece(s);
    q := EndPiece(a);
    ConcatAssoc(p, r, q);
  }

  lemma ConcatAssoc(p: string, r: string, q: string)
    ensures p + r + q == p + (r + q)
  {
  }

  lemma StartPiece(s: string) returns (p: string)
    ensures s == p + TrimStart(s) && Blank(p)
  {
    p := s[..|s| - |TrimStart(s)|];
  }

  lemma EndPiece(a: string) returns (q: string)
    ensures a == TrimEnd(a) + q && Blank(q)
  {
    q := a[|TrimEnd(a)|..];
  }

  /** Trimming twice is trimming once. */
  lemma TrimIdempotent(s: string)
    ensures Trim(Trim(s)) == Trim(s)
  {
    var t := Trim(s);
    if t != [] {
      assert TrimStart(t) == t;
      assert TrimEnd(t) == t;
    }
  }
}
