/** The two JavaScript string operations the validators rely on:
    `String.prototype.trim` and `String.prototype.length`. */
module Text {

  /** The WhiteSpace and LineTerminator code points of ECMAScript, which `trim` strips. */
  const JsWhitespace: set<char> := {
    '\t', '\n', '\U{B}', '\U{C}', '\r', ' ', '\U{A0}', '\U{1680}',
    '\U{2000}', '\U{2001}', '\U{2002}', '\U{2003}', '\U{2004}', '\U{2005}',
    '\U{2006}', '\U{2007}', '\U{2008}', '\U{2009}', '\U{200A}',
    '\U{2028}', '\U{2029}', '\U{202F}', '\U{205F}', '\U{3000}', '\U{FEFF}'
  }

  predicate IsJsWhitespace(c: char) {
    c in JsWhitespace
  }

  predicate AllWhitespace(s: string) {
    forall i :: 0 <= i < |s| ==> IsJsWhitespace(s[i])
  }

  /** Strips leading white space (`TrimStartShape` states what it leaves). */
  function TrimStart(s: string): (r: string) {
    if s != [] && IsJsWhitespace(s[0]) then TrimStart(s[1..]) else s
  }

  /** Strips trailing white space (`TrimEndShape` states what it leaves). */
  function TrimEnd(s: string): (r: string) {
    if s != [] && IsJsWhitespace(s[|s| - 1]) then TrimEnd(s[..|s| - 1]) else s
  }

  /** `s.trim()` (`TrimShape` states what it leaves). */
  function Trim(s: string): (r: string) {
    TrimEnd(TrimStart(s))
  }

  /** What TrimStart removes is all white space, and what it leaves is a suffix of `s`
      that starts with a non-white character, if any. */
  lemma {:induction false} TrimStartShape(s: string)
    ensures var r := TrimStart(s);
      && |r| <= |s| && r == s[|s| - |r|..]
      && AllWhitespace(s[..|s| - |r|])
      && (r == [] || !IsJsWhitespace(r[0]))
  {
    if s != [] && IsJsWhitespace(s[0]) {
      TrimStartShape(s[1..]);
      var r := TrimStart(s[1..]);
      assert s[1..][|s| - 1 - |r|..] == s[|s| - |r|..];
      forall i | 0 <= i < |s| - |r| ensures IsJsWhitespace(s[i]) {
        if i > 0 { assert s[i] == s[1..][..|s| - 1 - |r|][i - 1]; }
      }
      assert forall i :: 0 <= i < |s| - |r| ==> s[..|s| - |r|][i] == s[i];
    }
  }

  /** What TrimEnd removes is all white space, and what it leaves is a prefix of `s`
      that ends with a non-white character, if any. */
  lemma {:induction false} TrimEndShape(s: string)
    ensures var r := TrimEnd(s);
      && |r| <= |s| && r == s[..|r|]
      && AllWhitespace(s[|r|..])
      && (r == [] || !IsJsWhitespace(r[|r| - 1]))
  {
    if s != [] && IsJsWhitespace(s[|s| - 1]) {
      var t := s[..|s| - 1];
      TrimEndShape(t);
      var r := TrimEnd(t);
      assert t[..|r|] == s[..|r|];
      forall i | |r| <= i < |s| ensures IsJsWhitespace(s[i]) {
        if i < |s| - 1 { assert s[i] == t[|r|..][i - |r|]; }
      }
      assert forall i :: 0 <= i < |s| - |r| ==> s[|r|..][i] == s[|r| + i];
    }
  }

  /** `s` is white space, then `Trim(s)`, then white space, and `Trim(s)` neither starts
      nor ends with white space. */
  lemma TrimShape(s: string)
    ensures var r, lead := Trim(s), |s| - |TrimStart(s)|;
      && 0 <= lead && lead + |r| <= |s| && r == s[lead..lead + |r|]
      && AllWhitespace(s[..lead]) && AllWhitespace(s[lead + |r|..])
      && (r == [] || (!IsJsWhitespace(r[0]) && !IsJsWhitespace(r[|r| - 1])))
  {
    var t := TrimStart(s);
    TrimStartShape(s);
    TrimEndShape(t);
    var r, lead := TrimEnd(t), |s| - |t|;
    TrimPieces(s, t, r, lead);
  }

  /** The pieces of the two-step trim, restated as slices of `s`. */
  lemma TrimPieces(s: string, t: string, r: string, lead: nat)
    requires lead <= |s| && t == s[lead..] && |r| <= |t| && r == t[..|r|]
    requires AllWhitespace(t[|r|..]) && (r == [] || !IsJsWhitespace(t[0]))
    ensures lead + |r| <= |s| && r == s[lead..lead + |r|]
    ensures AllWhitespace(s[lead + |r|..])
    ensures r == [] || !IsJsWhitespace(r[0])
  {
    SlicesOfSuffix(s, lead, |r|);
    assert r != [] ==> r[0] == t[0];
  }

  /** Cutting a suffix of `s` at `n` cuts `s` itself `n` places further on. */
  lemma SlicesOfSuffix(s: string, lead: nat, n: nat)
    requires lead + n <= |s|
    ensures s[lead..][..n] == s[lead..lead + n]
    ensures s[lead..][n..] == s[lead + n..]
  {
  }

  /** `s.trim() === ''` exactly when `s` consists of white space only. */
  lemma TrimBlankIff(s: string)
    ensures Trim(s) == [] <==> AllWhitespace(s)
  {
    TrimShape(s);
    var r := Trim(s);
    var lead := |s| - |TrimStart(s)|;
    if r == [] {
      forall i | 0 <= i < |s| ensures IsJsWhitespace(s[i]) {
        if i < lead { assert s[i] == s[..lead][i]; } else { assert s[i] == s[lead..][i - lead]; }
      }
    } else {
      assert r[0] == s[lead];
    }
  }

  /** Trimming twice is trimming once. */
  lemma TrimIdempotent(s: string)
    ensures Trim(Trim(s)) == Trim(s)
  {
    TrimShape(s);
    var r := Trim(s);
    assert TrimStart(r) == r;
    assert TrimEnd(r) == r;
  }

  /** `s.length`: JavaScript counts UTF-16 code units, so a character outside the
      Basic Multilingual Plane (a surrogate pair) counts twice (`Utf16LengthBounds`). */
  function Utf16Length(s: string): (n: nat) {
    if s == [] then 0
    else Utf16Length(s[..|s| - 1]) + (if s[|s| - 1] as int > 0xFFFF then 2 else 1)
  }

  /** The UTF-16 length is between the number of characters and twice that, and equals
      the number of characters exactly when every character is in the Basic Multilingual
      Plane. */
  lemma {:induction false} Utf16LengthBounds(s: string)
    ensures |s| <= Utf16Length(s) <= 2 * |s|
    ensures Utf16Length(s) == |s| <==> forall i :: 0 <= i < |s| ==> s[i] as int <= 0xFFFF
  {
    if s != [] {
      var t := s[..|s| - 1];
      Utf16LengthBounds(t);
      assert forall i :: 0 <= i < |t| ==> t[i] == s[i];
    }
  }
}
