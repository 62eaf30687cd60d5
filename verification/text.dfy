/**
 * The two string primitives the execute script relies on:
 * `String.prototype.trim` and `String.prototype.indexOf`, together with
 * the substring relation that CSS attribute selectors of the form
 * `[src*="..."]` test.
 */
module Text {

  /**
   * The code points `String.prototype.trim` removes: the ECMAScript
   * WhiteSpace production (TAB, VT, FF, SPACE, NO-BREAK SPACE, ZWNBSP and
   * the Unicode space separators) and the LineTerminator production
   * (LF, CR, LINE SEPARATOR, PARAGRAPH SEPARATOR).
   */
  predicate IsWhitespace(c: char) {
    || c == '\t' || c == '\U{B}' || c == '\U{C}' || c == ' '
    || c == '\U{A0}' || c == '\U{FEFF}' || c == '\U{1680}'
    || ('\U{2000}' <= c <= '\U{200A}')
    || c == '\U{202F}' || c == '\U{205F}' || c == '\U{3000}'
    || c == '\n' || c == '\r' || c == '\U{2028}' || c == '\U{2029}'
  }

  predicate AllWhitespace(s: string) {
    forall i :: 0 <= i < |s| ==> IsWhitespace(s[i])
  }

  /** `r` sits at offset `i` of `s` with nothing but whitespace around it. */
  predicate TrimmedAt(s: string, r: string, i: nat) {
    && i + |r| <= |s|
    && s[i..i + |r|] == r
    && AllWhitespace(s[..i])
    && AllWhitespace(s[i + |r|..])
  }

  /** Neither end of `r` is whitespace. */
  predicate CleanEdges(r: string) {
    r == [] || (!IsWhitespace(r[0]) && !IsWhitespace(r[|r| - 1]))
  }

  /** Index of the first non-whitespace character of `s` at or after `k`. */
  function SkipWhitespace(s: string, k: nat): (i: nat)
    requires k <= |s|
    ensures k <= i <= |s|
    ensures forall j :: k <= j < i ==> IsWhitespace(s[j])
    ensures i < |s| ==> !IsWhitespace(s[i])
    decreases |s| - k
  {
    if k == |s| || !IsWhitespace(s[k]) then k else SkipWhitespace(s, k + 1)
  }

  /** Scanning backwards from `k` down to `lo`: the end of the last non-whitespace character. */
  function SkipWhitespaceBack(s: string, lo: nat, k: nat): (i: nat)
    requires lo <= k <= |s|
    ensures lo <= i <= k
    ensures forall j :: i <= j < k ==> IsWhitespace(s[j])
    ensures lo < i ==> !IsWhitespace(s[i - 1])
    decreases k
  {
    if k == lo || !IsWhitespace(s[k - 1]) then k else SkipWhitespaceBack(s, lo, k - 1)
  }

  /**
   * `String.prototype.trim`: the slice of `s` left after removing
   * whitespace from both ends.
   */
  function Trim(s: string): (r: string)
    ensures exists i :: TrimmedAt(s, r, i)
    ensures CleanEdges(r)
  {
    var i := SkipWhitespace(s, 0);
    var j := SkipWhitespaceBack(s, i, |s|);
    assert TrimmedAt(s, s[i..j], i);
    s[i..j]
  }

  /**
   * There is only one way to cut whitespace off both ends of a string
   * and keep a slice with clean edges.
   */
  lemma TrimmedSliceUnique(s: string, r1: string, i1: nat, r2: string, i2: nat)
    requires TrimmedAt(s, r1, i1) && CleanEdges(r1)
    requires TrimmedAt(s, r2, i2) && CleanEdges(r2)
    ensures r1 == r2
  {
    if r1 == [] {
      WhitespaceAroundEmpty(s, i1);
      if r2 != [] {
        TrimmedSliceBounds(s, r2, i2);
      }
    } else if r2 == [] {
      WhitespaceAroundEmpty(s, i2);
      TrimmedSliceBounds(s, r1, i1);
    } else {
      TrimmedSliceBounds(s, r1, i1);
      TrimmedSliceBounds(s, r2, i2);
      assert i1 == i2 && |r1| == |r2|;
    }
  }

  /**
   * A non-empty clean-edged slice starts at the first non-whitespace
   * character of `s` and ends after the last one.
   */
  lemma TrimmedSliceBounds(s: string, r: string, i: nat)
    requires TrimmedAt(s, r, i) && CleanEdges(r) && r != []
    ensures !IsWhitespace(s[i]) && !IsWhitespace(s[i + |r| - 1])
    ensures forall j :: 0 <= j < i ==> IsWhitespace(s[j])
    ensures forall j :: i + |r| <= j < |s| ==> IsWhitespace(s[j])
  {
    assert s[i] == r[0] && s[i + |r| - 1] == r[|r| - 1];
    forall j | 0 <= j < i
      ensures IsWhitespace(s[j])
    {
      assert s[..i][j] == s[j];
    }
    forall j | i + |r| <= j < |s|
      ensures IsWhitespace(s[j])
    {
      assert s[i + |r|..][j - i - |r|] == s[j];
    }
  }

  /** A string that trims to nothing at some offset is whitespace throughout. */
  lemma WhitespaceAroundEmpty(s: string, i: nat)
    requires TrimmedAt(s, [], i)
    ensures AllWhitespace(s)
  {
    forall j | 0 <= j < |s|
      ensures IsWhitespace(s[j])
    {
      if j < i {
        assert s[..i][j] == s[j];
      } else {
        assert s[i..][j - i] == s[j];
      }
    }
  }

  /** Trim gives the unique clean-edged slice: any such slice is the trimmed string. */
  lemma TrimCharacterized(s: string, r: string, i: nat)
    requires TrimmedAt(s, r, i) && CleanEdges(r)
    ensures Trim(s) == r
  {
    var t := Trim(s);
    var k :| TrimmedAt(s, t, k);
    TrimmedSliceUnique(s, t, k, r, i);
  }

  /** Trimming twice is trimming once. */
  lemma TrimIdempotent(s: string)
    ensures Trim(Trim(s)) == Trim(s)
  {
    var t := Trim(s);
    assert TrimmedAt(t, t, 0);
    TrimCharacterized(t, t, 0);
  }

  /** `m` occurs in `s` starting at index `i`. */
  predicate OccursAt(s: string, m: string, i: nat) {
    i + |m| <= |s| && s[i..i + |m|] == m
  }

  /** `m` is a substring of `s`: the test behind the CSS `[attr*="m"]` selector. */
  predicate Contains(s: string, m: string) {
    exists i: nat | i <= |s| :: OccursAt(s, m, i)
  }

  /** The search of `indexOf` from index `k` on. */
  function IndexOfFrom(s: string, m: string, k: nat): (r: int)
    requires k <= |s|
    ensures r == -1 || (k <= r && OccursAt(s, m, r))
    ensures r == -1 ==> forall i: nat :: k <= i ==> !OccursAt(s, m, i)
    ensures r != -1 ==> forall i: nat :: k <= i < r ==> !OccursAt(s, m, i)
    decreases |s| - k
  {
    if k + |m| > |s| then -1
    else if s[k..k + |m|] == m then k
    else IndexOfFrom(s, m, k + 1)
  }

  /**
   * `String.prototype.indexOf` as the script uses it: -1 when `m` does not
   * occur in `s`, otherwise the first position where it occurs. Positions
   * count code points rather than UTF-16 code units; the script only
   * compares the result with -1, where the two agree.
   */
  function IndexOf(s: string, m: string): (r: int)
    ensures r == -1 <==> !Contains(s, m)
    ensures r != -1 ==> 0 <= r && OccursAt(s, m, r)
    ensures r != -1 ==> forall i: nat :: i < r ==> !OccursAt(s, m, i)
  {
    IndexOfFrom(s, m, 0)
  }

  /** Number of occurrences of `c` in `s`. */
  function Count(s: string, c: char): (n: nat)
    ensures n <= |s|
  {
    if s == [] then 0 else (if s[0] == c then 1 else 0) + Count(s[1..], c)
  }

  lemma {:induction false} CountConcat(a: string, b: string, c: char)
    ensures Count(a + b, c) == Count(a, c) + Count(b, c)
  {
    if a != [] {
      assert (a + b)[1..] == a[1..] + b;
      CountConcat(a[1..], b, c);
    } else {
      assert a + b == b;
    }
  }
}
