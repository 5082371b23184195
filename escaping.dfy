/**
 * HTML escaping in the editor's cell helpers (script.js, `createInput` and
 * `createTextarea`), and the decoding that reads the escaped text back.
 *
 * Escaping runs one global replacement per escaped character, in a fixed
 * order; the references it inserts are listed in a table. A table whose first
 * entry escapes '&' and whose references all start with '&' can be undone by
 * replacing the references back in the reverse order.
 */
module Escaping {
  import opened JsText

  /** Escaped characters and their references, in the order the passes run. */
  type Table = seq<(char, string)>

  /** The first k passes: `s.replace(/c0/g, r0)` … `.replace(/c(k-1)/g, r(k-1))`. */
  function EscapePasses(s: string, t: Table, k: nat): string
    requires k <= |t|
  {
    if k == 0 then s else ReplaceAll(EscapePasses(s, t, k - 1), [t[k - 1].0], t[k - 1].1)
  }

  /** The reverse passes: reference k-1 back to its character first, down to reference 0. */
  function UnescapePasses(u: string, t: Table, k: nat): string
    requires k <= |t|
    requires forall j | 0 <= j < |t| :: t[j].1 != []
    decreases k
  {
    if k == 0 then u else UnescapePasses(ReplaceAll(u, t[k - 1].1, [t[k - 1].0]), t, k - 1)
  }

  /** Where `x` first appears among the first k escaped characters, or -1. */
  function Slot(x: char, t: Table, k: nat): (j: int)
    requires k <= |t|
    ensures -1 <= j < k
    ensures j == -1 <==> forall i | 0 <= i < k :: t[i].0 != x
    ensures j >= 0 ==> t[j].0 == x && forall i | 0 <= i < j :: t[i].0 != x
  {
    if k == 0 then -1
    else
      var j := Slot(x, t, k - 1);
      if j >= 0 then j else if t[k - 1].0 == x then k - 1 else -1
  }

  /** What the first k passes make of a single character. */
  function Chunk(x: char, t: Table, k: nat): string
    requires k <= |t|
  {
    EscapePasses([x], t, k)
  }

  /** The input, character by character, each replaced by its chunk. */
  function Encode(s: string, t: Table, k: nat): string
    requires k <= |t|
    decreases |s|
  {
    if s == [] then [] else Chunk(s[0], t, k) + Encode(s[1..], t, k)
  }

  /** The encoding of a character in front of a string. */
  lemma EncodeCons(x: char, w: string, t: Table, k: nat)
    requires k <= |t|
    ensures Encode([x] + w, t, k) == Chunk(x, t, k) + Encode(w, t, k)
  {
    assert ([x] + w)[1..] == w;
  }

  /** A later pass never rewrites a reference inserted by an earlier one. */
  predicate Ordered(t: Table) {
    forall j, k | 0 <= j < k < |t| :: t[k].0 !in t[j].1
  }

  /**
   * References can be told apart while decoding: every reference has at
   * least two characters, starts with the first escaped character (the '&')
   * and holds it nowhere else; escaped characters are distinct, and no
   * reference is a prefix of another.
   */
  predicate WellFormed(t: Table) {
    && |t| > 0
    && Ordered(t)
    && (forall k | 0 <= k < |t| :: |t[k].1| >= 2 && t[k].1[0] == t[0].0)
    && (forall k, i | 0 <= k < |t| && 1 <= i < |t[k].1| :: t[k].1[i] != t[0].0)
    && (forall j, k | 0 <= j < |t| && 0 <= k < |t| && j != k :: t[j].0 != t[k].0 && !(t[j].1 <= t[k].1))
  }

  lemma {:induction false} EncodeNoPasses(s: string, t: Table)
    ensures Encode(s, t, 0) == s
    decreases |s|
  {
    if s != [] {
      EncodeNoPasses(s[1..], t);
      assert s == [s[0]] + s[1..];
    }
  }

  /** One more pass turns every chunk into its next chunk. */
  lemma {:induction false} EncodeNextPass(s: string, t: Table, k: nat)
    requires 0 < k <= |t|
    ensures ReplaceAll(Encode(s, t, k - 1), [t[k - 1].0], t[k - 1].1) == Encode(s, t, k)
    decreases |s|
  {
    if s != [] {
      ReplaceCharConcat(Chunk(s[0], t, k - 1), Encode(s[1..], t, k - 1), t[k - 1].0, t[k - 1].1);
      EncodeNextPass(s[1..], t, k);
    }
  }

  /** The passes act character by character. */
  lemma {:induction false} PassesAreEncode(s: string, t: Table, k: nat)
    requires k <= |t|
    ensures EscapePasses(s, t, k) == Encode(s, t, k)
    decreases k
  {
    if k == 0 {
      EncodeNoPasses(s, t);
    } else {
      PassesAreEncode(s, t, k - 1);
      EncodeNextPass(s, t, k);
    }
  }

  /** A chunk is the character itself, or the reference of the first entry escaping it. */
  lemma {:induction false} ChunkShape(x: char, t: Table, k: nat)
    requires Ordered(t) && k <= |t|
    ensures Chunk(x, t, k) == if Slot(x, t, k) == -1 then [x] else t[Slot(x, t, k)].1
    decreases k
  {
    if k > 0 {
      ChunkShape(x, t, k - 1);
      var c, p := Chunk(x, t, k - 1), [t[k - 1].0];
      assert Chunk(x, t, k) == ReplaceAll(c, p, t[k - 1].1);
      if Slot(x, t, k - 1) >= 0 {
        ReplaceAllAbsent(c, p, t[k - 1].1);
      } else if t[k - 1].0 == x {
        ReplaceAllMatch([], p, t[k - 1].1);
        assert p + [] == c;
        assert t[k - 1].1 + [] == t[k - 1].1;
      } else {
        ReplaceAllAbsent(c, p, t[k - 1].1);
      }
    }
  }

  /** Undoing the last pass of a well-formed table gives back the chunks of the pass before. */
  lemma {:induction false} UnescapeLastPass(s: string, t: Table, k: nat)
    requires WellFormed(t) && 0 < k <= |t|
    ensures ReplaceAll(Encode(s, t, k), t[k - 1].1, [t[k - 1].0]) == Encode(s, t, k - 1)
    decreases |s|
  {
    if s != [] {
      var x, e := s[0], t[k - 1].1;
      ChunkShape(x, t, k);
      ChunkShape(x, t, k - 1);
      UnescapeLastPass(s[1..], t, k);
      var rest := Encode(s[1..], t, k);
      if Slot(x, t, k) == k - 1 {
        ReplaceAllMatch(rest, e, [t[k - 1].0]);
      } else {
        var c := Chunk(x, t, k);
        assert c == Chunk(x, t, k - 1);
        assert Inert(c, e);
        ReplaceAllInert(c, rest, e, [t[k - 1].0]);
      }
    }
  }

  /** Reverse-order unescaping inverts escaping, for any well-formed table. */
  lemma {:induction false} UnescapeEncode(s: string, t: Table, k: nat)
    requires WellFormed(t) && k <= |t|
    ensures UnescapePasses(Encode(s, t, k), t, k) == s
    decreases k
  {
    if k == 0 {
      EncodeNoPasses(s, t);
    } else {
      UnescapeLastPass(s, t, k);
      UnescapeEncode(s, t, k - 1);
    }
  }

  /** Reverse-order unescaping inverts the escaping passes. */
  lemma UnescapeEscape(s: string, t: Table)
    requires WellFormed(t)
    ensures UnescapePasses(EscapePasses(s, t, |t|), t, |t|) == s
  {
    PassesAreEncode(s, t, |t|);
    UnescapeEncode(s, t, |t|);
  }

  /** Two strings that differ at a common index are not prefixes of one another. */
  lemma DiffersAt(a: string, b: string, i: nat)
    requires i < |a| && i < |b| && a[i] != b[i]
    ensures !(a <= b) && !(b <= a)
  {
  }

  // ---------------------------------------------------------------------
  // Text content (createTextarea)
  // ---------------------------------------------------------------------

  /** The references of text content, in the order script.js:56-58 replaces them. */
  const TextReferences: Table := [('&', "&amp;"), ('<', "&lt;"), ('>', "&gt;")]

  lemma TextReferencesWellFormed()
    ensures WellFormed(TextReferences)
  {
    var t := TextReferences;
    assert t[0].1 == "&amp;" && t[1].1 == "&lt;" && t[2].1 == "&gt;";
    assert Ordered(t);
    assert forall k | 0 <= k < |t| :: |t[k].1| >= 2 && t[k].1[0] == '&';
    assert forall k, i | 0 <= k < |t| && 1 <= i < |t[k].1| :: t[k].1[i] != '&';
    DiffersAt("&amp;", "&lt;", 1);
    DiffersAt("&amp;", "&gt;", 1);
    DiffersAt("&lt;", "&gt;", 1);
  }

  /** `&gt;`, then `&lt;`, then `&amp;` back to their characters. */
  function UnescapeText(u: string): string {
    ReplaceAll(ReplaceAll(ReplaceAll(u, "&gt;", ">"), "&lt;", "<"), "&amp;", "&")
  }

  /**
   * The escaping of `createTextarea`: '&' first, then '<', then '>'. The
   * result holds no '<' or '>', and unescaping in the reverse order gives
   * the input back.
   */
  function EscapeText(s: string): (r: string)
    ensures forall i | 0 <= i < |r| :: r[i] != '<' && r[i] != '>'
    ensures UnescapeText(r) == s
  {
    var amp := ReplaceAll(s, "&", "&amp;");
    var lt := ReplaceAll(amp, "<", "&lt;");
    var r := ReplaceAll(lt, ">", "&gt;");
    forall i | 0 <= i < |r| ensures r[i] != '<' && r[i] != '>' {
      ReplaceCharFrom(lt, '>', "&gt;", r[i]);
      if r[i] in lt { ReplaceCharFrom(amp, '<', "&lt;", r[i]); }
    }
    TextReferencesWellFormed();
    var t := TextReferences;
    assert [t[0].0] == "&" && [t[1].0] == "<" && [t[2].0] == ">";
    assert EscapePasses(s, t, 1) == amp;
    assert EscapePasses(s, t, 2) == lt;
    assert r == EscapePasses(s, t, 3);
    var u1 := ReplaceAll(r, "&gt;", ">");
    var u2 := ReplaceAll(u1, "&lt;", "<");
    assert UnescapePasses(u2, t, 1) == UnescapeText(r);
    assert UnescapePasses(u1, t, 2) == UnescapeText(r);
    assert UnescapeText(r) == UnescapePasses(r, t, 3);
    UnescapeEscape(s, TextReferences);
    r
  }

  /** Text escaping, one character at a time: '&', '<' and '>' become their references, everything else stays. */
  lemma TextChunk(x: char)
    ensures Chunk(x, TextReferences, 3) ==
              if x == '&' then "&amp;" else if x == '<' then "&lt;" else if x == '>' then "&gt;" else [x]
  {
    TextReferencesWellFormed();
    ChunkShape(x, TextReferences, 3);
  }

  /** `EscapeText` encodes its input character by character. */
  lemma EscapeTextEncodes(s: string)
    ensures EscapeText(s) == Encode(s, TextReferences, 3)
  {
    var t := TextReferences;
    assert [t[0].0] == "&" && [t[1].0] == "<" && [t[2].0] == ">";
    var amp := ReplaceAll(s, "&", "&amp;");
    var lt := ReplaceAll(amp, "<", "&lt;");
    assert EscapePasses(s, t, 1) == amp;
    assert EscapePasses(s, t, 2) == lt;
    assert EscapeText(s) == EscapePasses(s, t, 3);
    PassesAreEncode(s, t, 3);
  }

  // ---------------------------------------------------------------------
  // Attribute values (createInput)
  // ---------------------------------------------------------------------

  /**
   * The browser's reading of the references `&quot;` and `&amp;` in a
   * double-quoted attribute value.
   */
  function DecodeAttr(u: string): string {
    ReplaceAll(ReplaceAll(u, "&quot;", "\""), "&amp;", "&")
  }

  /** The escaping of `createInput` (script.js:42): only '"' is replaced, so the value cannot end the attribute. */
  function EscapeAttr(s: string): (r: string)
    ensures forall i | 0 <= i < |r| :: r[i] != '"'
  {
    var r := ReplaceAll(s, "\"", "&quot;");
    forall i | 0 <= i < |r| ensures r[i] != '"' {
      ReplaceCharFrom(s, '"', "&quot;", r[i]);
    }
    r
  }

  /** The references of attribute values when '&' is escaped too, '&' first. */
  const AttrReferences: Table := [('&', "&amp;"), ('"', "&quot;")]

  lemma AttrReferencesWellFormed()
    ensures WellFormed(AttrReferences)
  {
    var t := AttrReferences;
    assert t[0].1 == "&amp;" && t[1].1 == "&quot;";
    DiffersAt("&amp;", "&quot;", 1);
  }

  /**
   * Attribute escaping as `createTextarea` does text escaping: '&' first,
   * then '"'. The browser reads every value back unchanged.
   */
  function EscapeAttrSafe(s: string): (r: string)
    ensures forall i | 0 <= i < |r| :: r[i] != '"'
    ensures DecodeAttr(r) == s
  {
    var amp := ReplaceAll(s, "&", "&amp;");
    var r := ReplaceAll(amp, "\"", "&quot;");
    forall i | 0 <= i < |r| ensures r[i] != '"' {
      ReplaceCharFrom(amp, '"', "&quot;", r[i]);
    }
    AttrReferencesWellFormed();
    var t := AttrReferences;
    assert [t[0].0] == "&" && [t[1].0] == "\"";
    assert EscapePasses(s, t, 1) == amp;
    assert r == EscapePasses(s, t, 2);
    var u1 := ReplaceAll(r, "&quot;", "\"");
    assert UnescapePasses(u1, t, 1) == DecodeAttr(r);
    assert DecodeAttr(r) == UnescapePasses(r, t, 2);
    UnescapeEscape(s, AttrReferences);
    r
  }

  /** Without a '&' in the value, the escaping of `createInput` is read back unchanged. */
  lemma AttrWithoutAmpersand(s: string)
    requires forall i | 0 <= i < |s| :: s[i] != '&'
    ensures DecodeAttr(EscapeAttr(s)) == s
  {
    ReplaceAllAbsent(s, "&", "&amp;");
    assert EscapeAttr(s) == EscapeAttrSafe(s);
  }

  /**
   * The escaping of `createInput` loses text: the values `&quot;` and `"`
   * escape alike, and the browser reads both back as `"`.
   */
  lemma AttrEscapeCollides()
    ensures EscapeAttr("&quot;") == EscapeAttr("\"") == "&quot;"
    ensures DecodeAttr(EscapeAttr("&quot;")) == "\""
  {
    ReplaceAllAbsent("&quot;", "\"", "&quot;");
    ReplaceAllMatch([], "\"", "&quot;");
    assert "\"" + [] == "\"";
    ReplaceAllMatch([], "&quot;", "\"");
    assert "&quot;" + [] == "&quot;";
    ReplaceAllAbsent("\"", "&amp;", "&");
  }
}
