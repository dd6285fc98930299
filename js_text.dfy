/** The two JavaScript string operations the components rely on, over strings as sequences of
    characters (JavaScript counts UTF-16 code units; the two agree on the Basic Multilingual Plane
    text the components handle): `String.prototype.trim` (ECMAScript section 22.1.3.32, which strips the
    WhiteSpace and LineTerminator code points of sections 12.2 and 12.3) and
    `String.prototype.includes`. */
module JsText {

  /** WhiteSpace (section 12.2: TAB, VT, FF, SP, NBSP, ZWNBSP and the Unicode "Zs" category)
      and LineTerminator (section 12.3: LF, CR, LS, PS). */
  const Whitespace: set<char> := {
    '\t', '\U{B}', '\U{C}', ' ', '\U{A0}', '\U{FEFF}',
    '\U{1680}', '\U{2000}', '\U{2001}', '\U{2002}', '\U{2003}', '\U{2004}', '\U{2005}', '\U{2006}',
    '\U{2007}', '\U{2008}', '\U{2009}', '\U{200A}', '\U{202F}', '\U{205F}', '\U{3000}',
    '\n', '\r', '\U{2028}', '\U{2029}'
  }

  predicate IsWhitespace(c: char) {
    c in Whitespace
  }

  predicate AllWhitespace(s: string) {
    forall i :: 0 <= i < |s| ==> IsWhitespace(s[i])
  }

  /** Where `trim`'s forward scan from `i` stops: the first index at or after `i` that does not
      hold whitespace, or `|s|`. */
  function StartIndex(s: string, i: nat): (k: nat)
    requires i <= |s|
    ensures i <= k <= |s|
    ensures forall m :: i <= m < k ==> IsWhitespace(s[m])
    ensures k == |s| || !IsWhitespace(s[k])
    decreases |s| - i
  {
    if i < |s| && IsWhitespace(s[i]) then StartIndex(s, i + 1) else i
  }

  /** Where `trim`'s backward scan from `j` stops, not going below `lo`: just after the last index
      before `j` that does not hold whitespace, or `lo`. */
  function EndIndex(s: string, lo: nat, j: nat): (k: nat)
    requires lo <= j <= |s|
    ensures lo <= k <= j
    ensures forall m :: k <= m < j ==> IsWhitespace(s[m])
    ensures k == lo || !IsWhitespace(s[k - 1])
    decreases j
  {
    if lo < j && IsWhitespace(s[j - 1]) then EndIndex(s, lo, j - 1) else j
  }

  /** `s.trim()`: the part between the leading and the trailing whitespace. */
  function Trim(s: string): (r: string)
    ensures |r| <= |s|
    ensures r == [] || (!IsWhitespace(r[0]) && !IsWhitespace(r[|r| - 1]))
  {
    var a := StartIndex(s, 0);
    var b := EndIndex(s, a, |s|);
    assert a < b ==> s[a..b][0] == s[a] && s[a..b][b - a - 1] == s[b - 1];
    s[a..b]
  }

  /** `trim` removes exactly a whitespace prefix and a whitespace suffix, and leaves no whitespace
      at either end of what it keeps. */
  lemma TrimSpec(s: string)
    ensures exists a, b :: 0 <= a <= b <= |s| && Trim(s) == s[a..b] &&
                           (forall m :: 0 <= m < a ==> IsWhitespace(s[m])) &&
                           (forall m :: b <= m < |s| ==> IsWhitespace(s[m]))
    ensures Trim(s) == [] || (!IsWhitespace(Trim(s)[0]) && !IsWhitespace(Trim(s)[|Trim(s)| - 1]))
  {
    var a := StartIndex(s, 0);
    var b := EndIndex(s, a, |s|);
    assert Trim(s) == s[a..b];
    if a < b {
      assert Trim(s)[0] == s[a];
      assert Trim(s)[|Trim(s)| - 1] == s[b - 1];
    }
  }

  /** A string is blank (`!s.trim()` in JavaScript) exactly when every character is whitespace. */
  lemma TrimEmptyIffAllWhitespace(s: string)
    ensures Trim(s) == [] <==> AllWhitespace(s)
  {
    var a := StartIndex(s, 0);
    var b := EndIndex(s, a, |s|);
    if a < b {
      assert !IsWhitespace(s[a]);
    }
  }

  /** Trimming twice is the same as trimming once. */
  lemma TrimIdempotent(s: string)
    ensures Trim(Trim(s)) == Trim(s)
  {
    var r := Trim(s);
    TrimSpec(s);
    if r != [] {
      assert StartIndex(r, 0) == 0;
      assert EndIndex(r, 0, |r|) == |r|;
    }
  }

  /** `w` occurs in `s` starting at index `i`. */
  predicate OccursAt(s: string, w: string, i: int) {
    0 <= i <= |s| - |w| && s[i..i + |w|] == w
  }

  /** `s.includes(w)`: `w` occurs in `s` as a contiguous run. */
  function Includes(s: string, w: string): (b: bool)
    ensures b ==> |w| <= |s|
    ensures w <= s ==> b
    decreases |s|
  {
    |w| <= |s| && (s[..|w|] == w || Includes(s[1..], w))
  }

  /** `Includes` agrees with the definition "`w` occurs at some index of `s`". */
  lemma {:induction false} IncludesSpec(s: string, w: string)
    ensures Includes(s, w) <==> exists i :: OccursAt(s, w, i)
    decreases |s|
  {
    if |w| <= |s| && s[..|w|] != w {
      IncludesSpec(s[1..], w);
      if Includes(s[1..], w) {
        var i :| OccursAt(s[1..], w, i);
        assert s[1..][i..i + |w|] == s[i + 1..i + 1 + |w|];
        assert OccursAt(s, w, i + 1);
      }
      if exists i :: OccursAt(s, w, i) {
        var i :| OccursAt(s, w, i);
        assert i != 0;
        assert s[1..][i - 1..i - 1 + |w|] == s[i..i + |w|];
        assert OccursAt(s[1..], w, i - 1);
      }
    } else if |w| <= |s| {
      assert OccursAt(s, w, 0);
    } else {
      assert forall i :: !OccursAt(s, w, i);
    }
  }
}
