/**
 * The per-cell rules of `renderEditor` (script.js:37-155): the text a cell
 * is shown with, its escaping, its alignment class, the item-table header
 * keys, and the prefixes stripped from the addressee fields.
 */
module Render {
  import opened Wrappers
  import opened JsText
  import opened NumberCodec
  import opened Escaping
  import opened LineBreaks

  /** One row of the quote grid: a JSON object from column key to cell. */
  type Row = map<string, Value>

  /** The quote grid: row index to row; an index without a row is `undefined` or `null` in the source. */
  type Grid = map<int, Row>

  /** `row[key]`, `undefined` (None) when the key is absent. */
  function Lookup(row: Row, key: string): Option<Value> {
    if key in row then Some(row[key]) else None
  }

  /** `String(value || '')`: falsy values and `undefined` show as blank, a truthy number as its decimal text. */
  function DisplayText(v: Option<Value>): (r: string)
    ensures r == [] <==> v.None? || !Truthy(v.value)
    ensures v.Some? && v.value.Str? ==> r == v.value.s
    ensures v.Some? && v.value.Num? && Truthy(v.value) ==> r == IntToString(v.value.n.value)
  {
    if v.Some? && Truthy(v.value) then ValueToString(v.value) else ""
  }

  /**
   * The `value` attribute `createInput` writes (script.js:42), with '&'
   * escaped before '"' (`Escaping.EscapeAttrSafe`; script.js escapes only
   * '"', see `Escaping.AttrEscapeCollides`): it never holds '"', is blank
   * exactly for a blank cell, and the browser reads it back as the cell's text.
   */
  function InputAttribute(v: Option<Value>): (r: string)
    ensures forall i | 0 <= i < |r| :: r[i] != '"'
    ensures DecodeAttr(r) == DisplayText(v)
    ensures r == [] <==> DisplayText(v) == []
  {
    var r := EscapeAttrSafe(DisplayText(v));
    assert r == [] ==> DecodeAttr(r) == [];
    r
  }

  /**
   * The text the input field holds once the browser has read the attribute
   * and sanitized the value: the cell's text without its line breaks.
   */
  function InputValue(v: Option<Value>): (r: string)
    ensures r == StripNewlines(DisplayText(v))
  {
    StripNewlines(DecodeAttr(InputAttribute(v)))
  }

  /**
   * The same reading under the escaping as script.js:42 writes it: text
   * without '&' is shown as the cell's text, line breaks stripped, as with
   * the corrected escaping (text with '&' is `Escaping.AttrEscapeCollides`).
   */
  lemma InputValueAsWritten(s: string)
    requires forall i | 0 <= i < |s| :: s[i] != '&'
    ensures StripNewlines(DecodeAttr(EscapeAttr(s))) == StripNewlines(s)
  {
    AttrWithoutAmpersand(s);
  }

  /**
   * The content `createTextarea` writes (script.js:55-58): no '<' or '>',
   * blank for falsy values, and read back exactly by reverse unescaping.
   */
  function TextareaContent(v: Option<Value>): (r: string)
    ensures forall i | 0 <= i < |r| :: r[i] != '<' && r[i] != '>'
    ensures UnescapeText(r) == DisplayText(v)
    ensures DisplayText(v) == [] ==> r == []
  {
    EscapeText(DisplayText(v))
  }

  /**
   * The value of the text area once the browser has parsed its content:
   * the cell's text with its line breaks normalized to LF and a leading LF
   * dropped; it is the cell's text exactly when that has no CR and does not
   * start with LF.
   */
  function TextareaValue(v: Option<Value>): (r: string)
    ensures r == DropLeadingNewline(NormalizeNewlines(DisplayText(v)))
    ensures r == DisplayText(v) <==> NoCR(DisplayText(v)) && !(DisplayText(v) != [] && DisplayText(v)[0] == '\n')
  {
    TextareaReadsEscaped(DisplayText(v));
    TextareaReadKeeps(DisplayText(v));
    UnescapeText(DropLeadingNewline(NormalizeNewlines(TextareaContent(v))))
  }

  /** Item-table columns shown through `formatNumber` (단가 and 금액, script.js:121). */
  predicate UsesNumberFormat(key: string) {
    key == "__6" || key == "__7"
  }

  /** Item-table columns centred by `createInput`: No., 수량, 단위 and 납기 (script.js:45). */
  predicate IsCentredKey(key: string) {
    key == "" || key == "__4" || key == "__5" || key == "__8"
  }

  /** The class `createInput` gives a field (script.js:43-49). */
  function InputClass(row: int, key: string): (c: string)
    ensures c == "text-center-input" <==> row >= 14 && IsCentredKey(key)
    ensures c == "text-right-input" <==> row >= 14 && UsesNumberFormat(key)
    ensures c == "" <==> row < 14 || (!IsCentredKey(key) && !UsesNumberFormat(key))
  {
    if IsCentredKey(key) && row >= 14 then "text-center-input"
    else if (key == "__6" || key == "__7") && row >= 14 then "text-right-input"
    else ""
  }

  /** Header keys never shown as columns: 품목 and 상태 (script.js:95). */
  predicate IsExcludedHeaderKey(key: string) {
    key == "__1" || key == "__3"
  }

  /**
   * The item-table columns (script.js:94-96): the keys of row 13, in the
   * row's own key order, whose header text is truthy and which are not excluded.
   */
  function HeaderKeys(header: seq<(string, Value)>): (keys: seq<string>)
    ensures |keys| <= |header|
    ensures forall k :: k in keys <==>
              !IsExcludedHeaderKey(k) && exists i | 0 <= i < |header| :: header[i].0 == k && Truthy(header[i].1)
    decreases |header|
  {
    if header == [] then []
    else
      var rest := HeaderKeys(header[1..]);
      var keys := (if Truthy(header[0].1) && !IsExcludedHeaderKey(header[0].0) then [header[0].0] else []) + rest;
      forall k ensures k in keys <==>
        !IsExcludedHeaderKey(k) && exists i | 0 <= i < |header| :: header[i].0 == k && Truthy(header[i].1)
      {
        if k in rest {
          var i :| 0 <= i < |header[1..]| && header[1..][i].0 == k && Truthy(header[1..][i].1);
          assert header[i + 1].0 == k;
        }
        if !IsExcludedHeaderKey(k) && exists i | 0 <= i < |header| :: header[i].0 == k && Truthy(header[i].1) {
          var i :| 0 <= i < |header| && header[i].0 == k && Truthy(header[i].1);
          if i > 0 { assert header[1..][i - 1].0 == k; }
        }
      }
      keys
  }

  /** The filter keeps the key order: the columns of two runs of entries are the columns of each, in turn. */
  lemma {:induction false} HeaderKeysConcat(a: seq<(string, Value)>, b: seq<(string, Value)>)
    ensures HeaderKeys(a + b) == HeaderKeys(a) + HeaderKeys(b)
    decreases |a|
  {
    if a == [] {
      assert a + b == b;
    } else {
      assert (a + b)[0] == a[0];
      assert (a + b)[1..] == a[1..] + b;
      HeaderKeysConcat(a[1..], b);
    }
  }

  /**
   * The prefix that rows 5, 6 and 7 carry in column '' (script.js:73-75,
   * 213-218), a non-empty word followed by a space; other rows have none.
   */
  function RowPrefix(row: int): (p: Option<string>)
    ensures p.Some? <==> 5 <= row <= 7
    ensures p.Some? ==> |p.value| > 1 && p.value[|p.value| - 1] == ' '
  {
    if row == 5 then Some("To ")
    else if row == 6 then Some("Attn ")
    else if row == 7 then Some("Tel ")
    else None
  }

  /**
   * `text.replace(prefix, '')`: the first occurrence of the prefix is
   * removed, wherever it stands; a leading prefix is cut off, and text
   * without the prefix is left as it is.
   */
  function StripPrefix(prefix: string, text: string): (r: string)
    requires prefix != []
    ensures prefix <= text ==> r == text[|prefix|..]
    ensures (forall i :: !OccursAt(text, prefix, i)) ==> r == text
  {
    assert (forall i :: !OccursAt(text, prefix, i)) ==> ReplaceFirst(text, prefix, "") == text by {
      if forall i :: !OccursAt(text, prefix, i) {
        ReplaceFirstAbsent(text, prefix, "");
      }
    }
    ReplaceFirst(text, prefix, "")
  }

  /** Stripping removes exactly the first occurrence, wherever it stands. */
  lemma StripPrefixRemovesFirst(prefix: string, text: string, i: int)
    requires prefix != []
    requires OccursAt(text, prefix, i) && forall j | 0 <= j < i :: !OccursAt(text, prefix, j)
    ensures StripPrefix(prefix, text) == text[..i] + text[i + |prefix|..]
  {
    ReplaceFirstAt(text, prefix, "", i);
  }

  /**
   * Adding the prefix back after stripping it restores the text exactly
   * when the text starts with the prefix.
   */
  lemma {:induction false} StripThenRestore(prefix: string, text: string)
    requires prefix != []
    ensures prefix + StripPrefix(prefix, text) == text <==> prefix <= text
  {
    if prefix <= text {
      assert text == prefix + text[|prefix|..];
    }
  }

  /** The cell an item-table field shows (script.js:119): its value if the row and the value are truthy, else ''. */
  function ItemCellValue(g: Grid, row: int, key: string): (v: Value)
    ensures row in g && key in g[row] && Truthy(g[row][key]) ==> v == g[row][key]
    ensures Truthy(v) ==> row in g && key in g[row] && v == g[row][key]
    ensures !Truthy(v) ==> v == Str("")
  {
    if row in g && key in g[row] && Truthy(g[row][key]) then g[row][key] else Str("")
  }

  /**
   * The text of an item-table field (script.js:121-125): 단가 and 금액
   * through `formatNumber`, the others as their cell's text. It never holds
   * a line break, is blank for a blank cell, and shows a text cell of a
   * column without number formatting as that text, line breaks stripped.
   */
  function ItemCellText(g: Grid, row: int, key: string): (r: string)
    ensures NoLineBreak(r)
    ensures !Truthy(ItemCellValue(g, row, key)) ==> r == []
    ensures !UsesNumberFormat(key) && ItemCellValue(g, row, key).Str? ==>
              r == StripNewlines(ItemCellValue(g, row, key).s)
  {
    var v := ItemCellValue(g, row, key);
    if UsesNumberFormat(key) then InputValue(Some(Str(FormatNumber(v)))) else InputValue(Some(v))
  }
}
