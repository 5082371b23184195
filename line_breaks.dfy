/**
 * How the browser treats line breaks in the markup `renderEditor` writes
 * (HTML Living Standard): the input stream turns CR LF and a lone CR
 * into LF (section 13.2.3.5, "Preprocessing the input stream"), a
 * `<textarea>` start tag ignores one LF right after it (section 13.2.6.4.7,
 * "The in body insertion mode"), and a text `<input>` strips every line
 * break from its value (section 4.10.5.1.2, "Text (type=text) state").
 */
module LineBreaks {
  import opened Escaping

  predicate IsLineBreak(c: char) { c == '\n' || c == '\r' }

  predicate NoCR(s: string) { forall i | 0 <= i < |s| :: s[i] != '\r' }

  predicate NoLineBreak(s: string) { forall i | 0 <= i < |s| :: !IsLineBreak(s[i]) }

  /** Input stream preprocessing: each CR LF pair and each remaining CR become one LF. */
  function NormalizeNewlines(s: string): (r: string)
    ensures NoCR(r)
    ensures |r| <= |s|
    decreases |s|
  {
    if s == [] then []
    else if s[0] == '\r' then "\n" + NormalizeNewlines(if |s| > 1 && s[1] == '\n' then s[2..] else s[1..])
    else [s[0]] + NormalizeNewlines(s[1..])
  }

  /** The value sanitization of a text input: every CR and LF is removed, and nothing else. */
  function StripNewlines(s: string): (r: string)
    ensures NoLineBreak(r)
    ensures |r| <= |s|
    ensures |r| == |s| <==> NoLineBreak(s)
    ensures NoLineBreak(s) ==> r == s
    ensures forall c | !IsLineBreak(c) :: multiset(r)[c] == multiset(s)[c]
    decreases |s|
  {
    if s == [] then []
    else
      assert s == [s[0]] + s[1..];
      if IsLineBreak(s[0]) then StripNewlines(s[1..])
      else [s[0]] + StripNewlines(s[1..])
  }

  /** A single character is kept exactly when it is not a line break. */
  lemma StripNewlinesChar(c: char)
    ensures StripNewlines([c]) == if IsLineBreak(c) then [] else [c]
  {
    assert [c][1..] == [];
  }

  /**
   * Stripping works piece by piece; with `StripNewlinesChar` this fixes the
   * result: the characters other than CR and LF, in their order.
   */
  lemma {:induction false} StripNewlinesConcat(a: string, b: string)
    ensures StripNewlines(a + b) == StripNewlines(a) + StripNewlines(b)
    decreases |a|
  {
    if a == [] {
      assert a + b == b;
    } else {
      assert (a + b)[0] == a[0];
      assert (a + b)[1..] == a[1..] + b;
      StripNewlinesConcat(a[1..], b);
    }
  }

  /** The LF a `<textarea>` start tag swallows. */
  function DropLeadingNewline(s: string): string {
    if s != [] && s[0] == '\n' then s[1..] else s
  }

  /** Text without CR is left as it is by preprocessing. */
  lemma {:induction false} NormalizeWithoutCR(s: string)
    requires NoCR(s)
    ensures NormalizeNewlines(s) == s
    decreases |s|
  {
    if s != [] {
      NormalizeWithoutCR(s[1..]);
    }
  }

  /** Preprocessing passes over a piece without CR unchanged. */
  lemma {:induction false} NormalizeSkips(c: string, rest: string)
    requires NoCR(c)
    ensures NormalizeNewlines(c + rest) == c + NormalizeNewlines(rest)
    decreases |c|
  {
    if c == [] {
      assert c + rest == rest;
    } else {
      assert (c + rest)[0] == c[0];
      assert (c + rest)[1..] == c[1..] + rest;
      NormalizeSkips(c[1..], rest);
    }
  }

  /** The text escaping starts with LF exactly when the text does. */
  lemma EncodeStartsWithNewline(w: string)
    ensures var e := Encode(w, TextReferences, 3);
      (e != [] && e[0] == '\n') <==> (w != [] && w[0] == '\n')
  {
    if w != [] {
      TextChunk(w[0]);
    }
  }

  /** Preprocessing and the text escaping commute: neither touches what the other rewrites. */
  lemma {:induction false} NormalizeEncode(s: string)
    ensures NormalizeNewlines(Encode(s, TextReferences, 3)) == Encode(NormalizeNewlines(s), TextReferences, 3)
    decreases |s|
  {
    var t := TextReferences;
    if s != [] {
      TextChunk(s[0]);
      var e := Encode(s, t, 3);
      assert e == Chunk(s[0], t, 3) + Encode(s[1..], t, 3);
      if s[0] == '\r' {
        var tail := if |s| > 1 && s[1] == '\n' then s[2..] else s[1..];
        if |s| > 1 && s[1] == '\n' {
          TextChunk(s[1]);
          assert s[1..][1..] == s[2..];
          assert e == "\r" + ("\n" + Encode(s[2..], t, 3));
          assert e[1..][1..] == Encode(tail, t, 3);
        } else {
          EncodeStartsWithNewline(s[1..]);
          assert e[1..] == Encode(tail, t, 3);
        }
        NormalizeEncode(tail);
        TextChunk('\n');
        EncodeCons('\n', NormalizeNewlines(tail), t, 3);
      } else {
        NormalizeSkips(Chunk(s[0], t, 3), Encode(s[1..], t, 3));
        NormalizeEncode(s[1..]);
        EncodeCons(s[0], NormalizeNewlines(s[1..]), t, 3);
      }
    }
  }

  /** The swallowed LF of the escaped text is the text's own leading LF. */
  lemma DropLeadingEncode(w: string)
    ensures DropLeadingNewline(Encode(w, TextReferences, 3)) == Encode(DropLeadingNewline(w), TextReferences, 3)
  {
    EncodeStartsWithNewline(w);
    if w != [] && w[0] == '\n' {
      TextChunk(w[0]);
    }
  }

  /**
   * The browser's reading of escaped text-area content: line breaks are
   * normalized and a leading LF is lost, and nothing else changes.
   */
  lemma TextareaReadsEscaped(s: string)
    ensures UnescapeText(DropLeadingNewline(NormalizeNewlines(EscapeText(s)))) ==
            DropLeadingNewline(NormalizeNewlines(s))
  {
    var w := DropLeadingNewline(NormalizeNewlines(s));
    EscapeTextEncodes(s);
    NormalizeEncode(s);
    DropLeadingEncode(NormalizeNewlines(s));
    EscapeTextEncodes(w);
  }

  /** A text area keeps its text exactly when the text has no CR and does not start with LF. */
  lemma TextareaReadKeeps(s: string)
    ensures DropLeadingNewline(NormalizeNewlines(s)) == s <==> NoCR(s) && !(s != [] && s[0] == '\n')
  {
    if NoCR(s) {
      NormalizeWithoutCR(s);
    }
  }
}
