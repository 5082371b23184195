/**
 * The JavaScript string operations the editor uses: global replacement
 * (`s.replace(/p/g, r)`), first-occurrence replacement (`s.replace(p, r)`
 * with a string pattern) and white-space trimming.
 */
module JsText {

  /** `s.replace(/pat/g, rep)`: every occurrence of `pat`, scanning left to right, not overlapping. */
  function ReplaceAll(s: string, pat: string, rep: string): string
    requires pat != []
    decreases |s|
  {
    if s == [] then []
    else if pat <= s then rep + ReplaceAll(s[|pat|..], pat, rep)
    else [s[0]] + ReplaceAll(s[1..], pat, rep)
  }

  /** `pat` occurs in `s` at index `i`. */
  predicate OccursAt(s: string, pat: string, i: int) {
    0 <= i && i + |pat| <= |s| && s[i..i + |pat|] == pat
  }

  /** `s.replace(pat, rep)` with a string pattern: only the first occurrence is replaced. */
  function ReplaceFirst(s: string, pat: string, rep: string): string
    requires pat != []
    decreases |s|
  {
    if pat <= s then rep + s[|pat|..]
    else if s == [] then []
    else [s[0]] + ReplaceFirst(s[1..], pat, rep)
  }

  /** An occurrence in the tail is an occurrence one place further on in the whole. */
  lemma OccursShift(s: string, pat: string, i: nat)
    requires s != []
    ensures OccursAt(s[1..], pat, i) <==> OccursAt(s, pat, i + 1)
  {
    if i + |pat| <= |s| - 1 {
      assert s[1..][i..i + |pat|] == s[i + 1..i + 1 + |pat|];
    }
  }

  /** Where `pat` does not occur, nothing is replaced. */
  lemma {:induction false} ReplaceFirstAbsent(s: string, pat: string, rep: string)
    requires pat != []
    requires forall i :: !OccursAt(s, pat, i)
    ensures ReplaceFirst(s, pat, rep) == s
    decreases |s|
  {
    if s != [] {
      assert !OccursAt(s, pat, 0);
      assert !(pat <= s);
      forall i ensures !OccursAt(s[1..], pat, i) {
        if i >= 0 { OccursShift(s, pat, i); }
      }
      ReplaceFirstAbsent(s[1..], pat, rep);
    }
  }

  /** Otherwise exactly the first occurrence is replaced. */
  lemma {:induction false} ReplaceFirstAt(s: string, pat: string, rep: string, i: int)
    requires pat != []
    requires OccursAt(s, pat, i)
    requires forall j | 0 <= j < i :: !OccursAt(s, pat, j)
    ensures ReplaceFirst(s, pat, rep) == s[..i] + rep + s[i + |pat|..]
    decreases |s|
  {
    if i == 0 {
      assert pat <= s;
    } else {
      assert !OccursAt(s, pat, 0);
      assert !(pat <= s);
      OccursShift(s, pat, i - 1);
      forall j | 0 <= j < i - 1 ensures !OccursAt(s[1..], pat, j) {
        OccursShift(s, pat, j);
      }
      ReplaceFirstAt(s[1..], pat, rep, i - 1);
      assert ReplaceFirst(s, pat, rep) == [s[0]] + ReplaceFirst(s[1..], pat, rep);
      SpliceTail(s, rep, i, i + |pat|);
    }
  }

  /** Splicing `t` into `s` past its first character splices it into the tail. */
  lemma SpliceTail(s: string, t: string, i: int, k: int)
    requires 1 <= i <= k <= |s|
    ensures s[..i] + t + s[k..] == [s[0]] + (s[1..][..i - 1] + t + s[1..][k - 1..])
  {
    assert s[..i] == [s[0]] + s[1..][..i - 1];
    assert s[k..] == s[1..][k - 1..];
  }

  /** White space and line terminators as ECMAScript trims them (sections 7.2 and 7.3 of ECMA-262, edition 5.1). */
  predicate IsWhiteSpace(c: char) {
    c == '\t' || c == '\n' || c == '\U{B}' || c == '\U{C}' || c == '\r' || c == ' ' ||
    c == '\U{A0}' || c == '\U{1680}' || ('\U{2000}' <= c <= '\U{200A}') ||
    c == '\U{2028}' || c == '\U{2029}' || c == '\U{202F}' || c == '\U{205F}' ||
    c == '\U{3000}' || c == '\U{FEFF}'
  }

  /** Drops the leading white space, as `parseFloat` does before reading a number. */
  function TrimStart(s: string): (r: string)
    ensures r <= s || (|r| <= |s| && r == s[|s| - |r|..])
    ensures r == [] || !IsWhiteSpace(r[0])
    ensures forall i | 0 <= i < |s| - |r| :: IsWhiteSpace(s[i])
    decreases |s|
  {
    if s != [] && IsWhiteSpace(s[0]) then TrimStart(s[1..]) else s
  }

  /** Drops the trailing white space. */
  function TrimEnd(s: string): (r: string)
    ensures r <= s
    ensures r == [] || !IsWhiteSpace(r[|r| - 1])
    ensures forall i | |r| <= i < |s| :: IsWhiteSpace(s[i])
    decreases |s|
  {
    if s != [] && IsWhiteSpace(s[|s| - 1]) then TrimEnd(s[..|s| - 1]) else s
  }

  /** `String.prototype.trim`, used by `Number(text)`. */
  function Trim(s: string): string {
    TrimEnd(TrimStart(s))
  }

  /** Replacing a pattern whose first character never occurs leaves a prefix untouched. */
  lemma {:induction false} ReplaceAllSkips(d: string, rest: string, pat: string, rep: string)
    requires pat != []
    requires forall i | 0 <= i < |d| :: d[i] != pat[0]
    ensures ReplaceAll(d + rest, pat, rep) == d + ReplaceAll(rest, pat, rep)
    decreases |d|
  {
    if d == [] {
      assert d + rest == rest;
    } else {
      assert (d + rest)[0] == d[0];
      assert !(pat <= d + rest);
      assert (d + rest)[1..] == d[1..] + rest;
      ReplaceAllSkips(d[1..], rest, pat, rep);
    }
  }

  /** A string without the pattern's first character is left as it is. */
  lemma ReplaceAllAbsent(s: string, pat: string, rep: string)
    requires pat != []
    requires forall i | 0 <= i < |s| :: s[i] != pat[0]
    ensures ReplaceAll(s, pat, rep) == s
  {
    ReplaceAllSkips(s, [], pat, rep);
    assert s + [] == s;
  }

  /** An occurrence at the front is replaced and the scan resumes after it. */
  lemma ReplaceAllMatch(rest: string, pat: string, rep: string)
    requires pat != []
    ensures ReplaceAll(pat + rest, pat, rep) == rep + ReplaceAll(rest, pat, rep)
  {
    assert pat <= pat + rest;
    assert (pat + rest)[|pat|..] == rest;
  }

  /**
   * A piece `c` that is not a prefix of the pattern, does not start with it,
   * and holds the pattern's first character at most at its own front, can
   * never be part of a match: the scan passes over it unchanged.
   */
  predicate Inert(c: string, pat: string) {
    c != [] && pat != [] && !(c <= pat) && !(pat <= c) &&
    forall i | 1 <= i < |c| :: c[i] != pat[0]
  }

  lemma ReplaceAllInert(c: string, rest: string, pat: string, rep: string)
    requires Inert(c, pat)
    ensures ReplaceAll(c + rest, pat, rep) == c + ReplaceAll(rest, pat, rep)
  {
    var s := c + rest;
    assert !(pat <= s) by {
      if |c| >= |pat| {
        assert s[..|pat|] == c[..|pat|];
      } else {
        assert s[..|c|] == c;
      }
    }
    assert s[1..] == c[1..] + rest;
    ReplaceAllSkips(c[1..], rest, pat, rep);
  }

  /** Replacing a single character distributes over concatenation. */
  lemma {:induction false} ReplaceCharConcat(a: string, b: string, c: char, rep: string)
    ensures ReplaceAll(a + b, [c], rep) == ReplaceAll(a, [c], rep) + ReplaceAll(b, [c], rep)
    decreases |a|
  {
    if a == [] {
      assert a + b == b;
    } else {
      assert (a + b)[0] == a[0];
      assert ([c] <= a + b) == ([c] <= a);
      assert (a + b)[1..] == a[1..] + b;
      ReplaceCharConcat(a[1..], b, c, rep);
    }
  }

  /** The characters of a single-character replacement come from the input or from the replacement. */
  lemma {:induction false} ReplaceCharFrom(s: string, c: char, rep: string, x: char)
    requires x in ReplaceAll(s, [c], rep)
    ensures (x in s && x != c) || x in rep
    decreases |s|
  {
    if s != [] {
      var tail := ReplaceAll(s[1..], [c], rep);
      if [c] <= s {
        assert ReplaceAll(s, [c], rep) == rep + tail;
        if x !in rep { ReplaceCharFrom(s[1..], c, rep, x); }
      } else {
        assert ReplaceAll(s, [c], rep) == [s[0]] + tail;
        if x != s[0] { ReplaceCharFrom(s[1..], c, rep, x); }
      }
    }
  }
}
