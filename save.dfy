/**
 * The save button (script.js:202-227): a copy of the loaded grid is
 * overwritten field by field from the page's inputs, then shown as JSON.
 */
module Save {
  import opened Wrappers
  import opened NumberCodec
  import opened LineBreaks
  import opened Render
  import opened ItemRows

  /** One input or textarea as the handler reads it: `data-row`, `data-key` and its current text. */
  datatype Field = Field(row: int, key: string, text: string)

  /** Columns stored through `parseNumber`: 수량, 단가 and 금액 (script.js:221). */
  predicate IsNumericKey(key: string) {
    key == "__4" || key == "__6" || key == "__7"
  }

  /**
   * The value stored for one field (script.js:212-226): the three addressee
   * fields get their prefix back, the numeric columns are parsed whatever
   * the row, everything else is stored as text.
   */
  function StoredValue(f: Field): (v: Value)
    ensures f.key == "" && RowPrefix(f.row).Some? ==> v == Str(RowPrefix(f.row).value + f.text)
    ensures IsNumericKey(f.key) ==> v == Num(ParseNumber(f.text))
    ensures !IsNumericKey(f.key) && (f.key != "" || RowPrefix(f.row).None?) ==> v == Str(f.text)
  {
    if f.row == 5 && f.key == "" then Str("To " + f.text)
    else if f.row == 6 && f.key == "" then Str("Attn " + f.text)
    else if f.row == 7 && f.key == "" then Str("Tel " + f.text)
    else if f.key == "__4" || f.key == "__6" || f.key == "__7" then Num(ParseNumber(f.text))
    else Str(f.text)
  }

  /** How the handler ends: with the updated grid, or with a TypeError at the first field whose row is missing. */
  datatype Outcome = Written(grid: Grid) | RowMissing(at: nat)

  /**
   * `updatedData[row][key] = value` for each field in turn. Saving fails
   * exactly when some field's row is missing from the grid, and then at the
   * first such field; otherwise the grid keeps its rows.
   */
  function WriteAll(g: Grid, fields: seq<Field>): (r: Outcome)
    ensures r.Written? ==> r.grid.Keys == g.Keys && forall i | 0 <= i < |fields| :: fields[i].row in g
    ensures r.RowMissing? ==>
              r.at < |fields| && fields[r.at].row !in g && forall j | 0 <= j < r.at :: fields[j].row in g
    decreases |fields|
  {
    if fields == [] then Written(g)
    else
      var init := fields[..|fields| - 1];
      assert forall i | 0 <= i < |init| :: init[i] == fields[i];
      match WriteAll(g, init)
      case RowMissing(i) => RowMissing(i)
      case Written(h) =>
        var f := fields[|fields| - 1];
        if f.row in h then Written(h[f.row := h[f.row][f.key := StoredValue(f)]])
        else RowMissing(|fields| - 1)
  }

  /** The last field that names cell (row, key), if any. */
  function LastWrite(fields: seq<Field>, row: int, key: string): (w: Option<Field>)
    ensures w.Some? ==> w.value in fields && w.value.row == row && w.value.key == key
    ensures w.None? <==> forall i | 0 <= i < |fields| :: fields[i].row != row || fields[i].key != key
    decreases |fields|
  {
    if fields == [] then None
    else
      var f := fields[|fields| - 1];
      if f.row == row && f.key == key then Some(f)
      else
        var w := LastWrite(fields[..|fields| - 1], row, key);
        assert forall i | 0 <= i < |fields| - 1 :: fields[..|fields| - 1][i] == fields[i];
        w
  }

  /** Once a field has failed, the later fields change nothing. */
  lemma {:induction false} FailureSticks(g: Grid, fields: seq<Field>, j: nat)
    requires j <= |fields| && WriteAll(g, fields[..j]).RowMissing?
    ensures WriteAll(g, fields) == WriteAll(g, fields[..j])
    decreases |fields|
  {
    if j < |fields| {
      var init := fields[..|fields| - 1];
      assert init[..j] == fields[..j];
      FailureSticks(g, init, j);
    } else {
      assert fields[..j] == fields;
    }
  }

  /**
   * After a save, every cell holds what the last field naming it stored;
   * a cell no field names is exactly the original one (absent if it was).
   */
  lemma {:induction false} CellAfterSave(g: Grid, fields: seq<Field>, row: int, key: string)
    requires WriteAll(g, fields).Written? && row in g
    ensures row in WriteAll(g, fields).grid
    ensures Lookup(WriteAll(g, fields).grid[row], key) ==
              match LastWrite(fields, row, key)
              case Some(f) => Some(StoredValue(f))
              case None => Lookup(g[row], key)
    decreases |fields|
  {
    if fields != [] {
      var init := fields[..|fields| - 1];
      assert WriteAll(g, init).Written?;
      CellAfterSave(g, init, row, key);
    }
  }

  /** One more field: it is written into the grid, or it throws. */
  lemma WriteAllStep(g: Grid, fields: seq<Field>, i: nat, h: Grid)
    requires i < |fields| && WriteAll(g, fields[..i]) == Written(h)
    ensures var f := fields[i];
      WriteAll(g, fields[..i + 1]) ==
        if f.row in h then Written(h[f.row := h[f.row][f.key := StoredValue(f)]]) else RowMissing(i)
  {
    assert fields[..i + 1][..i] == fields[..i];
  }

  /**
   * The forEach of the save handler (script.js:205-227) over a copy of the
   * loaded grid; a field whose row is missing throws and ends the handler.
   */
  method UpdatedData(originalData: Grid, inputs: seq<Field>) returns (out: Outcome)
    ensures out == WriteAll(originalData, inputs)
  {
    var updated := originalData;  // JSON.parse(JSON.stringify(originalData))
    var i := 0;
    while i < |inputs|
      invariant 0 <= i <= |inputs|
      invariant WriteAll(originalData, inputs[..i]) == Written(updated)
    {
      var f := inputs[i];
      WriteAllStep(originalData, inputs, i, updated);
      if f.row !in updated {
        FailureSticks(originalData, inputs, i + 1);
        return RowMissing(i);
      }
      updated := updated[f.row := updated[f.row][f.key := StoredValue(f)]];
      i := i + 1;
    }
    assert inputs[..i] == inputs;
    out := Written(updated);
  }

  /** The page state the save handler reads and writes. */
  class QuoteEditor {
    var originalData: Option<Grid>  // `originalData`, set once quote.json has loaded
    var shownJson: Option<Grid>     // the grid the JSON output panel shows

    constructor ()
      ensures originalData == None && shownJson == None
    {
      originalData, shownJson := None, None;
    }

    /** The fetch of quote.json succeeded (script.js:28). */
    method DataLoaded(data: Grid)
      modifies this
      ensures originalData == Some(data) && shownJson == old(shownJson)
    {
      originalData := Some(data);
    }

    /**
     * A click on the save button: nothing without loaded data; otherwise the
     * updated copy is shown, unless a field threw. The loaded data itself
     * never changes.
     */
    method SaveClicked(inputs: seq<Field>)
      modifies this
      ensures originalData == old(originalData)
      ensures old(originalData).None? ==> shownJson == old(shownJson)
      ensures old(originalData).Some? ==>
                shownJson == match WriteAll(old(originalData).value, inputs)
                             case Written(g) => Some(g)
                             case RowMissing(_) => old(shownJson)
    {
      if originalData.None? {
        return;
      }
      var out := UpdatedData(originalData.value, inputs);
      if out.Written? {
        shownJson := Some(out.grid);
      }
    }
  }

  // ---------------------------------------------------------------------
  // Saving straight after loading: which cells come back as they were
  // ---------------------------------------------------------------------

  /** Cell (row, key) of the grid holds the number n, or nothing and n is 0. */
  predicate NumberCell(g: Grid, row: int, key: string, n: int) {
    && (row in g && key in g[row] ==> g[row][key] == Num(Finite(n)))
    && (!(row in g && key in g[row]) ==> n == 0)
  }

  lemma {:induction false} GroupThousandsNoLineBreak(ds: string)
    requires AllDigits(ds)
    ensures NoLineBreak(GroupThousands(ds))
    decreases |ds|
  {
    if |ds| > 3 {
      GroupThousandsNoLineBreak(ds[..|ds| - 3]);
    }
  }

  /** A minus sign in front of text without line breaks adds none. */
  lemma MinusNoLineBreak(x: string)
    requires NoLineBreak(x)
    ensures NoLineBreak("-" + x)
  {
    assert forall i | 1 <= i < |"-" + x| :: ("-" + x)[i] == x[i - 1];
  }

  /** Digits hold no line break. */
  lemma DigitsNoLineBreak(ds: string)
    requires AllDigits(ds)
    ensures NoLineBreak(ds)
  {
    assert forall i | 0 <= i < |ds| :: IsDigit(ds[i]);
  }

  /** Numbers are shown without line breaks, grouped or not. */
  lemma NumberTextNoLineBreak(n: int)
    ensures NoLineBreak(FormatNumber(Num(Finite(n))))
    ensures NoLineBreak(IntToString(n))
  {
    var ds := if n < 0 then Digits(-n) else Digits(n);
    var g := GroupThousands(ds);
    GroupThousandsNoLineBreak(ds);
    DigitsNoLineBreak(ds);
    if n < 0 {
      MinusNoLineBreak(g);
      MinusNoLineBreak(ds);
      assert ToLocaleString(n) == "-" + g;
      assert IntToString(n) == "-" + ds;
    }
  }

  /** A number shown grouped in an input reads back as itself. */
  lemma GroupedReadsBack(n: int)
    ensures ParseNumber(InputValue(Some(Str(FormatNumber(Num(Finite(n))))))) == Finite(n)
  {
    NumberTextNoLineBreak(n);
    FormatThenParse(n);
  }

  /** A number shown plain in an input reads back as itself. */
  lemma PlainReadsBack(n: int)
    ensures ParseNumber(InputValue(Some(Num(Finite(n))))) == Finite(n)
  {
    NumberTextNoLineBreak(n);
    PlainThenParse(n);
  }

  /** What a numeric item field shows right after rendering reads back as the cell's number, 0 when blank. */
  lemma ItemCellReadsBack(g: Grid, row: int, key: string, n: int)
    requires IsNumericKey(key) && NumberCell(g, row, key, n)
    ensures ParseNumber(ItemCellText(g, row, key)) == Finite(n)
  {
    var v := ItemCellValue(g, row, key);
    if v == Str("") {
      assert n == 0;
      assert FormatNumber(v) == "";
      assert InputValue(Some(Str(""))) == "";
    } else {
      assert v == Num(Finite(n));
      if UsesNumberFormat(key) {
        GroupedReadsBack(n);
      } else {
        PlainReadsBack(n);
      }
    }
  }

  /**
   * The quantity and the unit price of an item row are saved back as the
   * numbers they were loaded with, and a missing one as 0.
   */
  lemma ItemNumberSurvivesSave(g: Grid, row: int, key: string, n: int)
    requires key == "__4" || key == "__6"
    requires NumberCell(g, row, key, n)
    ensures StoredValue(Field(row, key, ItemCellText(g, row, key))) == Num(Finite(n))
  {
    ItemCellReadsBack(g, row, key, n);
  }

  /** The amount field is saved as quantity × unit price, and as 0 when that is blank (NaN or 0). */
  lemma AmountSaved(row: int, quantity: string, unitPrice: string)
    ensures var m := Mul(ParseNumber(quantity), ParseNumber(unitPrice));
      StoredValue(Field(row, "__7", AmountText(quantity, unitPrice))) == Num(if m == NaN then Finite(0) else m)
  {
  }

  /**
   * The amount column is not saved as loaded: wiring the row (script.js:197)
   * has already rewritten the amount field to quantity × unit price, so the
   * save stores that product, whatever the loaded amount was.
   */
  method AmountAfterLoad(g: Grid, row: int, quantity: int, unitPrice: int) returns (stored: Value)
    requires NumberCell(g, row, "__4", quantity) && NumberCell(g, row, "__6", unitPrice)
    ensures stored == Num(Finite(quantity * unitPrice))
  {
    var r := new ItemRow(ItemCellText(g, row, "__4"), ItemCellText(g, row, "__6"), ItemCellText(g, row, "__7"));
    ItemCellReadsBack(g, row, "__4", quantity);
    ItemCellReadsBack(g, row, "__6", unitPrice);
    AmountSaved(row, r.quantity, r.unitPrice);
    stored := StoredValue(Field(row, "__7", r.amount));
  }

  /** Text in a text column is saved back without its line breaks, so unchanged exactly when it has none. */
  lemma TextSurvivesSave(row: int, key: string, s: string)
    requires !IsNumericKey(key) && (key != "" || RowPrefix(row).None?)
    ensures StoredValue(Field(row, key, InputValue(Some(Str(s))))) == Str(StripNewlines(s))
    ensures StoredValue(Field(row, key, InputValue(Some(Str(s))))) == Str(s) <==> NoLineBreak(s)
  {
  }

  /**
   * A text area is saved back with its line breaks normalized and a
   * leading LF dropped, so unchanged exactly when it has no CR and does
   * not start with LF.
   */
  lemma TextareaSurvivesSave(key: string, s: string)
    requires key == "" || key == "__5"
    ensures StoredValue(Field(35, key, TextareaValue(Some(Str(s))))) == Str(DropLeadingNewline(NormalizeNewlines(s)))
    ensures StoredValue(Field(35, key, TextareaValue(Some(Str(s))))) == Str(s) <==>
              NoCR(s) && !(s != [] && s[0] == '\n')
  {
  }

  /** Putting a prefix back in front of the stripped, sanitized text restores `s` exactly when `s` starts with the prefix and has no line break. */
  lemma RestoreSanitized(p: string, s: string)
    requires p != [] && NoLineBreak(p)
    ensures p + StripNewlines(StripPrefix(p, s)) == s <==> p <= s && NoLineBreak(s)
  {
    var t := StripPrefix(p, s);
    StripThenRestore(p, s);
    if p <= s && NoLineBreak(s) {
      assert t == s[|p|..];
      assert NoLineBreak(t);
    }
  }

  /**
   * An addressee field (rows 5-7, column '') is saved back unchanged exactly
   * when it starts with its prefix and has no line break.
   */
  lemma PrefixFieldSurvivesSave(row: int, s: string)
    requires RowPrefix(row).Some?
    ensures var shown := InputValue(Some(Str(StripPrefix(RowPrefix(row).value, s))));
            StoredValue(Field(row, "", shown)) == Str(s) <==> RowPrefix(row).value <= s && NoLineBreak(s)
  {
    var p := RowPrefix(row).value;
    assert NoLineBreak(p);
    var t := StripPrefix(p, s);
    assert InputValue(Some(Str(t))) == StripNewlines(t);
    RestoreSanitized(p, s);
  }

  /** A number in a text column (the No. column, say) comes back as text. */
  lemma NumberInTextColumnBecomesText(row: int, key: string, n: int)
    requires !IsNumericKey(key) && (key != "" || RowPrefix(row).None?) && n != 0
    ensures StoredValue(Field(row, key, InputValue(Some(Num(Finite(n)))))) == Str(IntToString(n))
  {
    NumberTextNoLineBreak(n);
  }

  /** The value of the digits "010". */
  lemma LeadingZeroValue()
    ensures DigitsValue("010") == 10
  {
    var ds := "010";
    assert ds[..2] == "01" && ds[..2][..1] == "0" && ds[..2][..1][..0] == [];
    assert DigitsValue("0") == 0;
    assert DigitsValue("01") == 1;
  }

  /** `parseNumber` reads a telephone number up to its first '-'. */
  lemma ParsePhoneNumber(s: string)
    requires s == "010-1234-5678"
    ensures ParseNumber(s) == Finite(10)
  {
    var ds, rest := "010", "-1234-5678";
    assert ds + rest == s;
    ParseNumberLeadingDigits(ds, rest);
    LeadingZeroValue();
  }

  /**
   * Column __6 is parsed on every row, so the sender's fields in rows 4-8
   * are saved as numbers: a telephone number keeps only its leading digits.
   */
  lemma SenderPhoneSavedAsNumber(g: Grid)
    requires 7 in g && "__6" in g[7] && g[7]["__6"] == Str("010-1234-5678")
    ensures StoredValue(Field(7, "__6", InputValue(Lookup(g[7], "__6")))) == Num(Finite(10))
  {
    var s := g[7]["__6"].s;
    ParsePhoneNumber(s);
    PhoneNoLineBreak(s);
    ShownAsItself(s);
  }

  lemma PhoneNoLineBreak(s: string)
    requires s == "010-1234-5678"
    ensures NoLineBreak(s)
  {
  }

  /** A text without line breaks is shown as itself. */
  lemma ShownAsItself(s: string)
    requires s != [] && NoLineBreak(s)
    ensures InputValue(Some(Str(s))) == s
  {
  }
}
