# Quote editor: number codec, cell escaping and save rules

This project models the rule-bearing core of `script.js`, the data-driven
quotation editor. The editor loads a spreadsheet export (`quote.json`) as a
grid of rows and columns and renders it as an editable form. It keeps each
item row's amount equal to quantity × unit price, and on save writes the
edited fields back into a copy of the grid.

The model covers:

- `formatNumber` and `parseNumber`: ko-KR digit grouping, comma stripping,
  and `parseFloat` / `Number` restricted to integers.
- The escaping done by `createInput` (attribute values) and `createTextarea`
  (text content), the browser's reading of that text back, the alignment
  class of a field, and the item-table header keys.
- The `'To '`, `'Attn '` and `'Tel '` prefixes stripped from rows 5-7 on
  render and added back on save.
- The per-row behaviour wired by `setupCalculations`: `calculateAmount`, the
  unit-price reformatting, and the Enter-key focus step.
- The save handler: a copy of the grid is overwritten field by field, then
  shown.

Modules:

- `JsText`: `String.prototype.replace` (global and first occurrence) and
  ECMAScript trimming.
- `NumberCodec`: JavaScript numbers as `NaN | Finite(int)`, and the number
  codec.
- `Escaping`: a general theory of character-by-character escaping over a
  table of references, and its two instances.
- `LineBreaks`: how the browser treats line breaks in the markup, according
  to the HTML Living Standard. Input preprocessing turns CR LF and a lone CR
  into LF (section 13.2.3.5). A `<textarea>` start tag drops one LF right
  after it (section 13.2.6.4.7). A text input strips every line break from
  its value (section 4.10.5.1.2).
- `Render`: the per-cell rules of `renderEditor`.
- `ItemRows`: `setupCalculations`. Its `ItemRow` class holds the three input
  fields of a row.
- `Save`: the save handler. `UpdatedData` is its loop; the `QuoteEditor`
  class holds the page state.

The model follows the code of `script.js`, with one exception: the
attribute escaping of `createInput`. As written, that escaping loses any
`&` that starts a character reference the browser decodes (the text
`&quot;` comes back as `"`), as shown under "Findings". Other `&`, as in
`R&D`, come back unchanged. The rest of the model uses the corrected
escaping: `Render.InputAttribute`, and through it `Render.InputValue`,
`Render.ItemCellText` and the save lemmas. `Render.InputValueAsWritten`
states what the escaping as written gives for text without `&`.

## Model

| member | source | states |
|---|---|---|
| NumberCodec.Mul | script.js:169 | the product is NaN exactly when a factor is NaN, and otherwise is the integer product |
| NumberCodec.FormatNumber | script.js:11-18 | the result is blank exactly when `Number(num)` is NaN or 0; otherwise, with its commas removed, it is the plain decimal form of the number, and it is comma-grouped: a comma exactly before each group of three digits from the right, and never a leading comma. Together these fix the string |
| NumberCodec.GroupThousandsShape | script.js:17 | grouping keeps every digit in order, inserts (digits − 1) / 3 commas, and puts a comma exactly before each group of three digits counted from the right, so never first |
| NumberCodec.ToLocaleString | script.js:17 | the ko-KR form of an integer is comma-grouped after its sign, with no leading comma, and reads as the plain decimal form once its commas are removed |
| NumberCodec.ParseFloat | script.js:22 | `parseFloat` gives NaN exactly when the text, after leading white space, does not start with a digit or a sign followed by a digit, and gives a negative number only after `-`; in this integer model, so `.5` and `Infinity` are not read as numbers (see "Left out") |
| NumberCodec.StringToNumber | script.js:12 | `Number` reads blank text as 0, reads a number exactly when the trimmed text is digits after at most one sign, with nothing else around them, and gives a negative number only after `-`; in this integer model |
| NumberCodec.ParseFloatIntToString | script.js:22 | `parseFloat` reads the plain decimal form of every integer back as that integer |
| NumberCodec.ParseFloatLeadingDigits | script.js:22 | `parseFloat` reads leading digits as their value and ignores the text after them, when that text does not go on with `.`, `e` or `E` (a fraction or an exponent, which JavaScript would read) |
| NumberCodec.StringToNumberIntToString | script.js:12 | `Number` reads the plain decimal form of every integer back as that integer |
| NumberCodec.FormatThenParse | script.js:11-23 | `parseNumber(formatNumber(n)) == n` for every integer n, including 0, which is shown blank and read back as 0 |
| NumberCodec.ParseNumber | script.js:20-23 | blank text reads as 0; non-empty text reads as NaN exactly when, after dropping commas and leading white space, it does not start with a digit or a sign followed by a digit, so non-numeric text is never defaulted to 0; in this integer model |
| NumberCodec.PlainThenParse | script.js:20-23 | `parseNumber(String(n)) == n` for every integer n |
| NumberCodec.RemoveCommasIdempotent | script.js:22 | stripping commas a second time changes nothing |
| NumberCodec.ParseNumberIgnoresCommas | script.js:20-23 | text and the same text without its commas parse alike, unless the text is only commas |
| NumberCodec.ParseNumberOnlyCommas | script.js:21-22 | non-empty text made only of commas is truthy, so it is not defaulted to 0: it parses as NaN |
| NumberCodec.ParseNumberLeadingDigits | script.js:22 | comma-free text that starts with digits parses as those digits, when what follows them does not go on with `.`, `e` or `E` |
| NumberCodec.ParseNumberGrouped | script.js:22 | `parseNumber("1,234,567") == 1234567` |
| Escaping.UnescapeEscape | script.js:55-58 | for any well-formed reference table (the `&` escape first, every reference starting with `&`, no reference a prefix of another), applying the replacements in reverse order undoes the escaping |
| Escaping.TextReferencesWellFormed | script.js:56-58 | the `&amp;`, `&lt;`, `&gt;` table, in the code's order, is well formed |
| Escaping.EscapeText | script.js:55-58 | the escaped text holds no `<` or `>`, and unescaping `&gt;`, `&lt;`, `&amp;` in that order gives the input back |
| Escaping.EscapeAttr | script.js:42 | the escaped attribute value holds no `"` |
| Escaping.AttrWithoutAmpersand | script.js:42 | a value without `&` is read back unchanged after the code's escaping |
| Escaping.AttrEscapeCollides | script.js:42 | the texts `&quot;` and `"` escape to the same attribute value, and `&quot;` is read back as `"` |
| Escaping.EscapeAttrSafe | script.js:42 | escaping `&` before `"` gives a value with no `"` that the browser reads back as the input, for every input |
| Render.DisplayText | script.js:42 | `String(value \|\| '')` is blank exactly for an absent or falsy value, a string shows as itself, and a truthy number as its decimal text |
| Render.InputAttribute | script.js:42 | the `value` attribute holds no `"`, is blank exactly when the cell's text is blank (null, '', 0, NaN, absent), and decoding its character references gives back the cell's text; this uses the corrected escaping of the finding below |
| Render.InputValue | script.js:40-50 | under the corrected escaping, what the input holds once the browser has read it is the cell's text with its line breaks stripped |
| Render.InputValueAsWritten | script.js:42 | under the escaping as written, a text without `&` is also read back as itself with its line breaks stripped |
| Render.TextareaContent | script.js:53-60 | the content holds no `<` or `>`, is blank for a blank cell, and decoding its character references gives back the cell's text |
| Render.TextareaValue | script.js:53-60 | the text area's value is the cell's text with CR LF and CR turned into LF and a leading LF dropped; it is the cell's text exactly when that has no CR and does not start with LF |
| LineBreaks.StripNewlines | script.js:50 | the sanitized value has no line break, holds every other character as often as the input does, and is the input unchanged exactly when the input has none |
| LineBreaks.StripNewlinesChar | script.js:50 | a single character is kept exactly when it is not CR or LF |
| LineBreaks.StripNewlinesConcat | script.js:50 | sanitizing two pieces of text one after the other is sanitizing their concatenation, so the kept characters stay in order |
| LineBreaks.TextareaReadsEscaped | script.js:55-59 | the browser's reading of the escaped content is the text with its line breaks normalized and its leading LF dropped: the escaping and the line-break rules do not interfere |
| LineBreaks.TextareaReadKeeps | script.js:59 | line-break normalization and the dropped leading LF change nothing exactly when the text has no CR and does not start with LF |
| Render.InputClass | script.js:43-49 | `text-center-input` exactly for keys `''`, `__4`, `__5`, `__8` from row 14; `text-right-input` exactly for `__6`, `__7` from row 14; blank in every other case |
| Render.HeaderKeys | script.js:94-96 | a key is a column exactly when it is neither `__1` nor `__3` and some entry of row 13 with that key has truthy header text, and there are no more columns than entries |
| Render.HeaderKeysConcat | script.js:96 | the filter keeps the row's key order: filtering two runs of entries gives the columns of the first run, then those of the second |
| Render.RowPrefix | script.js:73-75 | exactly rows 5, 6 and 7 carry a prefix in column `''`, each a word followed by a space |
| Render.StripPrefix | script.js:73-75 | `replace(prefix, '')` cuts off a leading prefix and leaves text without the prefix as it is |
| Render.StripPrefixRemovesFirst | script.js:73-75 | `replace(prefix, '')` removes exactly the first occurrence of the prefix, wherever it stands |
| Render.StripThenRestore | script.js:73-75 | putting the prefix back in front of the stripped text restores it exactly when the text starts with the prefix |
| Render.ItemCellValue | script.js:119 | an item cell shows the grid's value exactly when the row exists and the value is truthy, and `''` otherwise |
| Render.ItemCellText | script.js:119-125 | an item field never holds a line break, is blank for a blank cell, and shows the text of a text cell outside 단가 and 금액 with its line breaks stripped; `Save.ItemCellReadsBack` states what the numeric fields show |
| ItemRows.AmountText | script.js:166-171 | the amount is blank exactly when quantity × unit price is NaN or 0, and otherwise parses back as that product |
| ItemRows.Reformat | script.js:177-179 | the reformatted price is blank exactly when the typed text parses as NaN or 0, and otherwise parses as the same number |
| ItemRows.ReformatIdempotent | script.js:177-179 | reformatting a reformatted price changes nothing |
| ItemRows.AmountIgnoresReformat | script.js:173-179 | the amount computed from the reformatted price is the amount computed from the typed price |
| ItemRows.ItemRow.constructor | script.js:196-197 | a wired row starts with the amount matching its quantity and price |
| ItemRows.ItemRow.CalculateAmount | script.js:166-171 | only the amount changes, and it becomes the amount text of the quantity and the price |
| ItemRows.ItemRow.ReformatUnitPrice | script.js:177-179 | only the unit price changes, to its reformatted text |
| ItemRows.ItemRow.QuantityInput | script.js:173 | typing a quantity keeps the price and leaves the amount matching |
| ItemRows.ItemRow.UnitPriceInput | script.js:174-179 | typing a price stores its reformatted text, computes the amount from the typed text, and leaves the row consistent |
| ItemRows.IndexOf | script.js:188 | `indexOf` gives the first index that holds the element, or -1 exactly when the element is absent |
| ItemRows.NextFocus | script.js:187-192 | a next field exists exactly when the current field is on the page and is not the last one, and it is the field straight after the current field's first occurrence |
| Save.StoredValue | script.js:212-226 | rows 5, 6, 7 in column `''` store their prefix followed by the text; columns `__4`, `__6`, `__7` store `parseNumber(text)` on every row; every other field stores the raw text |
| Save.FailureSticks | script.js:208-227 | after one field has thrown, the later fields change nothing |
| Save.WriteAll | script.js:208-227 | saving throws exactly when some field names a missing row, and at the first such field; otherwise the grid keeps exactly its rows |
| Save.CellAfterSave | script.js:205-227 | after a save, each cell holds what the last field naming it stored; a cell no field names is the original cell, or stays absent |
| Save.UpdatedData | script.js:205-227 | the loop over the inputs gives the outcome of writing all the fields in order into a copy of the grid |
| Save.QuoteEditor.constructor | script.js:4 | the page starts with no loaded data and no output |
| Save.QuoteEditor.DataLoaded | script.js:28 | loading records the grid and leaves the output alone |
| Save.QuoteEditor.SaveClicked | script.js:202-227 | the loaded data is never changed; without loaded data nothing happens; otherwise the updated copy is shown, unless a field threw |
| Save.ItemCellReadsBack | script.js:115-126 | a rendered quantity, unit price or amount field reads back through `parseNumber` as its cell's number, or 0 when the cell is absent |
| Save.ItemNumberSurvivesSave | script.js:221-222 | saving straight after loading keeps the number in the quantity and unit-price columns, and stores an absent one as 0 |
| Save.AmountSaved | script.js:221-222 | the amount field written by `calculateAmount` is saved as quantity × unit price, or as 0 when that product is NaN |
| Save.AmountAfterLoad | script.js:157-200 | after the row is wired (the initial `calculateAmount`), the saved amount is quantity × unit price, whatever amount was loaded |
| Save.TextSurvivesSave | script.js:224 | under the corrected escaping, text in a text column is saved without its line breaks, so it is unchanged exactly when it has none |
| Save.TextareaSurvivesSave | script.js:53-60 | a text area is saved with its line breaks normalized and a leading LF dropped, so it is unchanged exactly when it has no CR and does not start with LF |
| Save.PrefixFieldSurvivesSave | script.js:213-218 | under the corrected escaping, an addressee field is saved back unchanged exactly when it starts with its prefix and has no line break |
| Save.NumberInTextColumnBecomesText | script.js:224 | a number in a text column comes back as its decimal text |
| Save.ParsePhoneNumber | script.js:22 | `parseNumber("010-1234-5678")` is 10: the text stops being read at the first `-` |
| Save.SenderPhoneSavedAsNumber | script.js:221-222 | the sender's telephone number in row 7, column `__6`, is saved as the number 10, because the numeric columns are chosen by key alone |

## Left out

- The HTML strings of `renderEditor` (script.js:37-155), the `forEach` over the header keys, and the loop over rows 14-23 are not modelled. That is presentation glue; the per-cell rules inside it are modelled.
- The title input at script.js:63 puts `data[0]['__1']` into the attribute without any escaping. It is presentation and is not modelled.
- The `fetch` of `quote.json` and its error message (script.js:25-35) are network I/O. A successful load is the `DataLoaded` call.
- `JSON.stringify`, the `Blob`, the object URL and the download link (script.js:229-244) are browser file APIs. The model stops at the updated grid, so it does not show that a NaN cell becomes `null` in the JSON text.
- The deep copy `JSON.parse(JSON.stringify(originalData))` is a value copy of the grid. The model does not capture the JSON rewriting during the copy (NaN and `undefined` values).
- Event-listener registration, `focus()` and `preventDefault()` are not modelled. Only the index step of the Enter key is.
- The order of the item rows' listeners is modelled only for a unit-price edit: `calculateAmount` runs, then the reformatting.
- Direct edits of the amount field are not modelled. It has no listener of its own.
- The total in row 34 is rendered for editing (script.js:135) but is never computed by this script.
- JavaScript numbers are modelled as integers and NaN. Fractions, exponents, `Infinity`, hexadecimal and other non-decimal forms, and the precision loss beyond 2^53 are not modelled. Neither is the exponent form `String` uses from 1e21: `IntToString` always writes every digit. `toLocaleString` also writes every digit, as the model does.
- NumberCodec.ParseFloat: a fraction or an exponent after the digits is dropped, so `'1.5'` and `'1e3'` are read as 1, and a quantity typed as `1.5` is saved as 1. `'.5'` and `'Infinity'` are read as NaN. JavaScript reads them as 1.5, 1000, 0.5 and Infinity.
- NumberCodec.StringToNumber: the decimal-point and exponent forms `Number` accepts are read as NaN, for the same reason.
- NumberCodec.ToLocaleString: only the comma grouping of integers is modelled. The locale library's other behaviour is not.
- The key order of a grid row is not kept, because a row is a map. `HeaderKeys` therefore takes row 13 as its entries in `Object.keys` order.
- A grid row that is a JSON primitive rather than an object is not modelled. A grid row that is absent or null is: it is the missing row of `Save.Outcome`.
- The browser's decoding of references other than `&quot;`, `&amp;`, `&lt;` and `&gt;` is not modelled. Neither is a decoded reference that produces a new reference. Of the input preprocessing, only the line-break rules are modelled; NUL and other control characters are not.
- The unused PDF and JPG button handles (script.js:7-8) and the `console.log` calls are not modelled.

## Findings

| source | as written | input that shows it | evidently intended | confidence | as-written member | corrected member |
|---|---|---|---|---|---|---|
| script.js:42 | `createInput` escapes only `"`, not `&`, so the browser decodes character references already in the text | a cell holding the text `&quot;` shows, and is saved, as `"` | escape `&` first, as `createTextarea` does (script.js:56), so every text without line breaks is shown and saved unchanged | medium, not executed | Escaping.AttrEscapeCollides | Escaping.EscapeAttrSafe |
