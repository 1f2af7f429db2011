/**
 * String operations the quiz generator relies on, restricted to ASCII:
 * whitespace as JavaScript's `\s` and `String.prototype.trim` see it,
 * `toLowerCase`/`toUpperCase` on letters, `includes`, and decimal
 * rendering of the counts that template literals interpolate.
 */
module Text {

  /** The ASCII members of JavaScript's whitespace class. */
  predicate IsWhite(c: char) {
    c == ' ' || c == '\t' || c == '\n' || c == '\r' || c == '\U{0B}' || c == '\U{0C}'
  }

  predicate AllWhite(s: string) {
    forall i :: 0 <= i < |s| ==> IsWhite(s[i])
  }

  predicate NoWhite(s: string) {
    forall i :: 0 <= i < |s| ==> !IsWhite(s[i])
  }

  predicate IsUpper(c: char) { 'A' <= c <= 'Z' }

  predicate NoUpper(s: string) {
    forall i :: 0 <= i < |s| ==> !IsUpper(s[i])
  }

  predicate IsLower(c: char) { 'a' <= c <= 'z' }

  function LowerChar(c: char): char {
    if IsUpper(c) then (c as int + 32) as char else c
  }

  function UpperChar(c: char): char {
    if IsLower(c) then (c as int - 32) as char else c
  }

  /** `String.prototype.toLowerCase`, on ASCII letters: it leaves no capital. */
  function ToLower(s: string): (r: string)
    ensures |r| == |s| && NoUpper(r)
  {
    seq(|s|, i requires 0 <= i < |s| => LowerChar(s[i]))
  }

  /** Lower-casing changes no letter into another: each character keeps its upper-case form. */
  lemma ToLowerUpToCase(s: string)
    ensures forall i :: 0 <= i < |s| ==> UpperChar(ToLower(s)[i]) == UpperChar(s[i])
  {
  }

  lemma ToLowerKeepsLower(s: string)
    requires NoUpper(s)
    ensures ToLower(s) == s
  {
  }

  /** Lower-casing works character by character, so it distributes over concatenation. */
  lemma ToLowerAppend(a: string, b: string, c: string)
    ensures ToLower(a + b + c) == ToLower(a) + ToLower(b) + ToLower(c)
  {
  }

  // ---------------------------------------------------------------------
  // trim

  /** Drops the leading whitespace of `s`. */
  function TrimStart(s: string): (r: string)
    ensures |r| <= |s| && r == s[|s| - |r|..]
    ensures forall i :: 0 <= i < |s| - |r| ==> IsWhite(s[i])
    ensures r == [] || !IsWhite(r[0])
  {
    if s != [] && IsWhite(s[0]) then TrimStart(s[1..]) else s
  }

  /** Drops the trailing whitespace of `s`. */
  function TrimEnd(s: string): (r: string)
    ensures |r| <= |s| && r == s[..|r|]
    ensures forall i :: |r| <= i < |s| ==> IsWhite(s[i])
    ensures r == [] || !IsWhite(r[|r| - 1])
  {
    if s != [] && IsWhite(s[|s| - 1]) then TrimEnd(s[..|s| - 1]) else s
  }

  /**
   * `String.prototype.trim`: the result neither starts nor ends with
   * whitespace; `TrimSplits` and `TrimKeepsCore` show it is `s` with exactly
   * its surrounding whitespace dropped.
   */
  function Trim(s: string): (r: string)
    ensures |r| <= |s|
    ensures r == [] || (!IsWhite(r[0]) && !IsWhite(r[|r| - 1]))
  {
    var t := TrimStart(s);
    var r := TrimEnd(t);
    assert r != [] ==> r[0] == t[0];
    r
  }

  /**
   * The JavaScript test `!s.trim()`: the trimmed string is empty, which
   * happens exactly when every character is whitespace.
   */
  predicate IsBlank(s: string)
    ensures IsBlank(s) <==> AllWhite(s)
  {
    Trim(s) == []
  }

  lemma {:induction false} TrimStartDropsWhitePrefix(w: string, x: string)
    requires AllWhite(w)
    ensures TrimStart(w + x) == TrimStart(x)
  {
    if w != [] {
      assert (w + x)[0] == w[0];
      assert (w + x)[1..] == w[1..] + x;
      TrimStartDropsWhitePrefix(w[1..], x);
    } else {
      assert w + x == x;
    }
  }

  lemma {:induction false} TrimStartAppend(t: string, y: string)
    requires !AllWhite(t)
    ensures TrimStart(t + y) == TrimStart(t) + y
  {
    assert t != [];
    if IsWhite(t[0]) {
      assert (t + y)[1..] == t[1..] + y;
      assert !AllWhite(t[1..]) by {
        var i :| 0 <= i < |t| && !IsWhite(t[i]);
        assert t[1..][i - 1] == t[i];
      }
      TrimStartAppend(t[1..], y);
    }
  }

  lemma {:induction false} TrimEndDropsWhiteSuffix(x: string, w: string)
    requires AllWhite(w)
    ensures TrimEnd(x + w) == TrimEnd(x)
  {
    if w != [] {
      var w' := w[..|w| - 1];
      assert (x + w)[..|x + w| - 1] == x + w';
      TrimEndDropsWhiteSuffix(x, w');
    } else {
      assert x + w == x;
    }
  }

  /** An all-whitespace string trims to nothing. */
  lemma TrimOfAllWhite(s: string)
    requires AllWhite(s)
    ensures Trim(s) == []
  {
    assert s + [] == s;
    TrimStartDropsWhitePrefix(s, []);
  }

  /** Whitespace before a string is trimmed away. */
  lemma TrimPrependWhite(w: string, x: string)
    requires AllWhite(w)
    ensures Trim(w + x) == Trim(x)
  {
    TrimStartDropsWhitePrefix(w, x);
  }

  /** Whitespace after a string with some other character in it is trimmed away. */
  lemma TrimAppendWhite(t: string, w: string)
    requires !AllWhite(t) && AllWhite(w)
    ensures Trim(t + w) == Trim(t)
  {
    TrimStartAppend(t, w);
    TrimEndDropsWhiteSuffix(TrimStart(t), w);
  }

  /**
   * Whitespace around a string never changes what `trim` returns for it:
   * the model's reply is trimmed before it is parsed.
   */
  lemma TrimIgnoresSurroundingWhitespace(w1: string, t: string, w2: string)
    requires AllWhite(w1) && AllWhite(w2)
    ensures Trim(w1 + t + w2) == Trim(t)
  {
    assert w1 + t + w2 == w1 + (t + w2);
    TrimPrependWhite(w1, t + w2);
    if AllWhite(t) {
      assert AllWhite(t + w2);
      TrimOfAllWhite(t + w2);
      TrimOfAllWhite(t);
    } else {
      TrimAppendWhite(t, w2);
    }
  }

  /** A string that neither starts nor ends with whitespace is its own trim. */
  lemma TrimKeepsCore(t: string)
    requires t == [] || (!IsWhite(t[0]) && !IsWhite(t[|t| - 1]))
    ensures Trim(t) == t
  {
  }

  lemma TrimStartSplits(s: string) returns (w: string)
    ensures AllWhite(w) && s == w + TrimStart(s)
  {
    var k := |s| - |TrimStart(s)|;
    w := s[..k];
    assert s == s[..k] + s[k..];
  }

  lemma TrimEndSplits(t: string) returns (w: string)
    ensures AllWhite(w) && t == TrimEnd(t) + w
  {
    var k := |TrimEnd(t)|;
    w := t[k..];
    assert t == t[..k] + t[k..];
  }

  /** Every string is its trim with whitespace on either side. */
  lemma TrimSplits(s: string) returns (w1: string, w2: string)
    ensures AllWhite(w1) && AllWhite(w2)
    ensures s == w1 + Trim(s) + w2
  {
    w1 := TrimStartSplits(s);
    w2 := TrimEndSplits(TrimStart(s));
  }

  /** Trimming twice is trimming once. */
  lemma TrimIdempotent(s: string)
    ensures Trim(Trim(s)) == Trim(s)
  {
    TrimKeepsCore(Trim(s));
  }

  // ---------------------------------------------------------------------
  // includes

  /** `sub` occurs in `s` starting at index `i`. */
  predicate OccursAt(s: string, sub: string, i: int) {
    0 <= i && i + |sub| <= |s| && s[i..i + |sub|] == sub
  }

  /** `s.includes(sub)`. */
  predicate Contains(s: string, sub: string)
    ensures Contains(s, sub) ==> |sub| <= |s|
    ensures sub == [] ==> Contains(s, sub)
  {
    assert sub == [] ==> OccursAt(s, sub, 0);
    exists i | 0 <= i <= |s| - |sub| :: OccursAt(s, sub, i)
  }

  /** The converse of `ContainsInfix`: an occurrence splits the string around it. */
  lemma ContainsSplits(s: string, sub: string) returns (a: string, b: string)
    requires Contains(s, sub)
    ensures s == a + sub + b
  {
    var i :| 0 <= i <= |s| - |sub| && OccursAt(s, sub, i);
    a, b := s[..i], s[i + |sub|..];
    assert s == s[..i] + s[i..i + |sub|] + s[i + |sub|..];
  }

  lemma ContainsInfix(a: string, sub: string, b: string)
    ensures Contains(a + sub + b, sub)
  {
    var s := a + sub + b;
    assert OccursAt(s, sub, |a|);
  }

  // ---------------------------------------------------------------------
  // decimal numerals

  function DigitChar(d: nat): char
    requires d < 10
  {
    ('0' as int + d) as char
  }

  predicate IsDigit(c: char) { '0' <= c <= '9' }

  /** The decimal numeral a template literal prints for a non-negative integer. */
  function NatToString(n: nat): (s: string)
    ensures |s| >= 1
    ensures forall i :: 0 <= i < |s| ==> IsDigit(s[i])
    ensures |s| > 1 ==> s[0] != '0'
  {
    if n < 10 then [DigitChar(n)] else NatToString(n / 10) + [DigitChar(n % 10)]
  }

  /** The value of a string of decimal digits. */
  function ParseNat(s: string): nat
    requires forall i :: 0 <= i < |s| ==> IsDigit(s[i])
  {
    if s == [] then 0
    else
      assert IsDigit(s[|s| - 1]);
      ParseNat(s[..|s| - 1]) * 10 + (s[|s| - 1] as int - '0' as int)
  }

  /** Reading back a printed numeral gives the number: printing is injective. */
  lemma {:induction false} ParseNatToString(n: nat)
    ensures ParseNat(NatToString(n)) == n
  {
    var s := NatToString(n);
    if n >= 10 {
      ParseNatToString(n / 10);
      assert s[..|s| - 1] == NatToString(n / 10);
    }
  }

  /**
   * Where two strings agree up to a numeral followed by something other
   * than a digit, the numerals agree.
   */
  lemma NumeralBeforeSpace(h: string, d1: string, x1: string, d2: string, x2: string)
    requires forall i :: 0 <= i < |d1| ==> IsDigit(d1[i])
    requires forall i :: 0 <= i < |d2| ==> IsDigit(d2[i])
    requires x1 != [] && !IsDigit(x1[0]) && x2 != [] && !IsDigit(x2[0])
    requires h + d1 + x1 == h + d2 + x2
    ensures d1 == d2
  {
    var s := h + d1 + x1;
    var k := if |d1| < |d2| then |d1| else |d2|;
    assert IsDigit(s[|h| + k]) <==> k < |d1|;
    assert IsDigit(s[|h| + k]) <==> k < |d2|;
    assert d1 == s[|h|..|h| + |d1|];
    assert d2 == s[|h|..|h| + |d2|];
  }

  lemma NatToStringInjective(m: nat, n: nat)
    requires NatToString(m) == NatToString(n)
    ensures m == n
  {
    ParseNatToString(m);
    ParseNatToString(n);
  }
}
