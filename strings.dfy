/**
 * The string operations the system relies on: decimal rendering of a count in a
 * template literal, the ordering used to sort report ids, and `String.prototype.trim`.
 */
module Strings {

  // ---------------------------------------------------------------------------
  // Decimal rendering, as in the template literal `user-${users.length}`
  // ---------------------------------------------------------------------------

  function DigitChar(d: nat): (c: char)
    requires d < 10
    ensures '0' <= c <= '9'
  {
    "0123456789"[d]
  }

  /** The decimal numeral of `n`, with no leading zeros. */
  function NatToString(n: nat): (s: string)
    ensures |s| >= 1
    ensures forall i :: 0 <= i < |s| ==> '0' <= s[i] <= '9'
    ensures n >= 10 ==> |s| >= 2
  {
    if n < 10 then [DigitChar(n)] else NatToString(n / 10) + [DigitChar(n % 10)]
  }

  lemma DigitCharInjective(a: nat, b: nat)
    requires a < 10 && b < 10 && DigitChar(a) == DigitChar(b)
    ensures a == b
  {
  }

  /** Distinct numbers render as distinct numerals. */
  lemma {:induction false} NatToStringInjective(a: nat, b: nat)
    requires NatToString(a) == NatToString(b)
    ensures a == b
  {
    var sa, sb := NatToString(a), NatToString(b);
    if a < 10 && b < 10 {
      DigitCharInjective(a, b);
    } else if a >= 10 && b >= 10 {
      assert sa[|sa| - 1] == DigitChar(a % 10);
      assert sb[|sb| - 1] == DigitChar(b % 10);
      DigitCharInjective(a % 10, b % 10);
      assert sa[..|sa| - 1] == NatToString(a / 10);
      assert sb[..|sb| - 1] == NatToString(b / 10);
      NatToStringInjective(a / 10, b / 10);
    }
  }

  /** Prefixing both numerals with the same text keeps them distinct. */
  lemma PrefixedNatInjective(prefix: string, a: nat, b: nat)
    requires prefix + NatToString(a) == prefix + NatToString(b)
    ensures a == b
  {
    var x, y := prefix + NatToString(a), prefix + NatToString(b);
    assert x[|prefix|..] == NatToString(a);
    assert y[|prefix|..] == NatToString(b);
    NatToStringInjective(a, b);
  }

  // ---------------------------------------------------------------------------
  // Ordering of strings (the model of `localeCompare`)
  // ---------------------------------------------------------------------------

  /** Lexicographic order by code point: `a` sorts before or with `b`; a prefix sorts first. */
  predicate StrLe(a: string, b: string): (r: bool)
    ensures a <= b ==> r
  {
    if a == [] then true
    else if b == [] then false
    else if a[0] != b[0] then a[0] < b[0]
    else StrLe(a[1..], b[1..])
  }

  lemma {:induction false} StrLeTotal(a: string, b: string)
    ensures StrLe(a, b) || StrLe(b, a)
  {
    if a != [] && b != [] && a[0] == b[0] {
      StrLeTotal(a[1..], b[1..]);
    }
  }

  lemma {:induction false} StrLeTransitive(a: string, b: string, c: string)
    requires StrLe(a, b) && StrLe(b, c)
    ensures StrLe(a, c)
  {
    if a != [] && b != [] && c != [] && a[0] == b[0] && b[0] == c[0] {
      StrLeTransitive(a[1..], b[1..], c[1..]);
    }
  }

  lemma {:induction false} StrLeAntisymmetric(a: string, b: string)
    requires StrLe(a, b) && StrLe(b, a)
    ensures a == b
  {
    if a != [] && b != [] {
      StrLeAntisymmetric(a[1..], b[1..]);
      assert a == [a[0]] + a[1..] && b == [b[0]] + b[1..];
    }
  }

  // ---------------------------------------------------------------------------
  // `String.prototype.trim`
  // ---------------------------------------------------------------------------

  /**
   * The characters `trim` strips: ECMAScript's WhiteSpace (tab, vertical tab,
   * form feed, space, no-break space, byte order mark and the Space_Separator
   * category) and LineTerminator (line feed, carriage return, line and
   * paragraph separators).
   */
  predicate IsJsWhitespace(c: char)
  {
    c == '\t' || c == '\n' || c == '\U{B}' || c == '\U{C}' || c == '\r' || c == ' ' ||
    c == '\U{A0}' || c == '\U{1680}' || ('\U{2000}' <= c <= '\U{200A}') ||
    c == '\U{2028}' || c == '\U{2029}' || c == '\U{202F}' || c == '\U{205F}' ||
    c == '\U{3000}' || c == '\U{FEFF}'
  }

  // The trimming functions are written over any whitespace predicate `ws`;
  // `Trim` instantiates them with ECMAScript's. Keeping the proofs generic
  // keeps the long character disjunction of `IsJsWhitespace` out of them,
  // which the verifier handles far more cheaply; the `Trim` lemmas below
  // only instantiate the generic ones.

  predicate AllIn(s: string, ws: char -> bool)
  {
    forall i :: 0 <= i < |s| ==> ws(s[i])
  }

  predicate AllWhitespace(s: string)
  {
    AllIn(s, IsJsWhitespace)
  }

  /** The number of whitespace characters `s` starts with. */
  function Leading(s: string, ws: char -> bool): (k: nat)
    ensures k <= |s| && AllIn(s[..k], ws)
    ensures k == |s| || !ws(s[k])
  {
    if s != [] && ws(s[0]) then
      var k := 1 + Leading(s[1..], ws);
      assert s[..k] == [s[0]] + s[1..][..k - 1];
      k
    else 0
  }

  /** Drops trailing whitespace: the result is a prefix of `s` with no trailing whitespace. */
  function TrimEnd(s: string, ws: char -> bool): (r: string)
    ensures |r| <= |s| && r == s[..|r|]
    ensures AllIn(s[|r|..], ws)
    ensures r == [] || !ws(r[|r| - 1])
  {
    if s != [] && ws(s[|s| - 1]) then TrimEnd(s[..|s| - 1], ws) else s
  }

  /**
   * Both ends trimmed: the slice of `s` that starts after its leading
   * whitespace and is followed only by whitespace, with none at either end.
   */
  function TrimBoth(s: string, ws: char -> bool): (r: string)
    ensures r == [] || (!ws(r[0]) && !ws(r[|r| - 1]))
    ensures Leading(s, ws) + |r| <= |s| && r == s[Leading(s, ws)..Leading(s, ws) + |r|]
    ensures AllIn(s[Leading(s, ws) + |r|..], ws)
  {
    var k := Leading(s, ws);
    var t := s[k..];
    var r := TrimEnd(t, ws);
    assert s[k + |r|..] == t[|r|..];
    r
  }

  lemma AllInAppend(a: string, b: string, ws: char -> bool)
    requires AllIn(a, ws) && AllIn(b, ws)
    ensures AllIn(a + b, ws)
  {
    forall k | 0 <= k < |a + b| ensures ws((a + b)[k]) {
      if k < |a| { assert (a + b)[k] == a[k]; } else { assert (a + b)[k] == b[k - |a|]; }
    }
  }

  lemma TrimBothEmptyIff(s: string, ws: char -> bool)
    ensures TrimBoth(s, ws) == [] <==> AllIn(s, ws)
  {
    var k := Leading(s, ws);
    if TrimBoth(s, ws) == [] {
      assert s == s[..k] + s[k..];
      AllInAppend(s[..k], s[k..], ws);
    }
  }

  lemma NoEdgeWhitespaceTrimsBothToItself(r: string, ws: char -> bool)
    requires r == [] || (!ws(r[0]) && !ws(r[|r| - 1]))
    ensures TrimBoth(r, ws) == r
  {
    assert Leading(r, ws) == 0;
    assert r[0..] == r;
    assert TrimEnd(r, ws) == r;
  }

  /**
   * `s.trim()`: the slice of `s` after its leading whitespace that is followed
   * only by whitespace and neither starts nor ends with whitespace.
   */
  function Trim(s: string): (r: string)
    ensures r == [] || (!IsJsWhitespace(r[0]) && !IsJsWhitespace(r[|r| - 1]))
    ensures Leading(s, IsJsWhitespace) + |r| <= |s|
    ensures r == s[Leading(s, IsJsWhitespace)..Leading(s, IsJsWhitespace) + |r|]
    ensures AllWhitespace(s[..Leading(s, IsJsWhitespace)])
    ensures AllWhitespace(s[Leading(s, IsJsWhitespace) + |r|..])
  {
    TrimBoth(s, IsJsWhitespace)
  }

  /** Trimming gives the empty string exactly when the input is all whitespace. */
  lemma TrimEmptyIff(s: string)
    ensures Trim(s) == [] <==> AllWhitespace(s)
  {
    TrimBothEmptyIff(s, IsJsWhitespace);
  }

  /** Trimming twice is trimming once. */
  lemma TrimIdempotent(s: string)
    ensures Trim(Trim(s)) == Trim(s)
  {
    NoEdgeWhitespaceTrimsToItself(Trim(s));
  }

  lemma NoEdgeWhitespaceTrimsToItself(r: string)
    requires r == [] || (!IsJsWhitespace(r[0]) && !IsJsWhitespace(r[|r| - 1]))
    ensures Trim(r) == r
  {
    NoEdgeWhitespaceTrimsBothToItself(r, IsJsWhitespace);
  }
}
