/**
 * The editor's number display codec (script.js, `formatNumber` and
 * `parseNumber`) over a model of JavaScript numbers restricted to the
 * integers: `Number` is either `NaN` or a finite integer.
 */
module NumberCodec {
  import opened JsText

  /** A JavaScript number, restricted to integers and NaN. */
  datatype Number = NaN | Finite(value: int)

  /** A cell of the quote grid, or a value handed to one of the helpers. */
  datatype Value = Null | Num(n: Number) | Str(s: string)

  /** JavaScript truthiness of a value: null, NaN, 0 and '' are falsy. */
  predicate Truthy(v: Value) {
    match v
    case Null => false
    case Num(n) => n != NaN && n != Finite(0)
    case Str(s) => s != []
  }

  predicate IsDigit(c: char) { '0' <= c <= '9' }

  predicate AllDigits(s: string) { forall i | 0 <= i < |s| :: IsDigit(s[i]) }

  function DigitChar(d: nat): (c: char)
    requires d < 10
    ensures IsDigit(c)
  {
    (('0' as int) + d) as char
  }

  function DigitValue(c: char): (d: nat)
    requires IsDigit(c)
    ensures d < 10 && DigitChar(d) == c
  {
    (c as int) - ('0' as int)
  }

  /** Decimal digits of `n`, most significant first, without leading zeros. */
  function Digits(n: nat): (r: string)
    ensures r != [] && AllDigits(r)
    ensures n < 10 <==> |r| == 1
    ensures r[0] == '0' <==> n == 0
    decreases n
  {
    if n < 10 then [DigitChar(n)] else Digits(n / 10) + [DigitChar(n % 10)]
  }

  /** The value of a string of decimal digits (zero for the empty string). */
  function DigitsValue(ds: string): nat
    requires AllDigits(ds)
    decreases |ds|
  {
    if ds == [] then 0 else DigitsValue(ds[..|ds| - 1]) * 10 + DigitValue(ds[|ds| - 1])
  }

  lemma {:induction false} DigitsValueOfDigits(n: nat)
    ensures DigitsValue(Digits(n)) == n
    decreases n
  {
    if n >= 10 {
      var ds := Digits(n);
      assert ds[..|ds| - 1] == Digits(n / 10);
      DigitsValueOfDigits(n / 10);
    }
  }

  /** `String(n)` for an integer `n` (plain decimal, no grouping). */
  function IntToString(n: int): string {
    if n < 0 then "-" + Digits(-n) else Digits(n)
  }

  /** Inserts a comma before every group of three digits counted from the right. */
  function GroupThousands(ds: string): string
    decreases |ds|
  {
    if |ds| <= 3 then ds else GroupThousands(ds[..|ds| - 3]) + "," + ds[|ds| - 3..]
  }

  /**
   * `n.toLocaleString('ko-KR')` for an integer `n`: a minus sign, then the
   * grouped digits. It is comma-grouped with no leading comma, and reads as
   * the plain decimal form once its commas are removed.
   */
  function ToLocaleString(n: int): (r: string)
    ensures RemoveCommas(r) == IntToString(n)
    ensures CommaGrouped(r)
  {
    var ds := if n < 0 then Digits(-n) else Digits(n);
    GroupThousandsShape(ds);
    GroupThousandsHead(ds);
    if n < 0 then
      MinusGrouped(GroupThousands(ds));
      "-" + GroupThousands(ds)
    else GroupThousands(ds)
  }

  /** `str.replace(/,/g, '')`. */
  function RemoveCommas(s: string): string {
    ReplaceAll(s, ",", "")
  }

  /** The longest prefix of decimal digits. */
  function LeadingDigits(s: string): (ds: string)
    ensures ds <= s && AllDigits(ds)
    ensures |ds| < |s| ==> !IsDigit(s[|ds|])
    decreases |s|
  {
    if s != [] && IsDigit(s[0]) then [s[0]] + LeadingDigits(s[1..]) else []
  }

  /**
   * `parseFloat(s)` on integers: leading white space is skipped, an optional
   * sign is read, then the longest run of digits; without a digit the result
   * is NaN. Whatever follows the digits is ignored, a fraction or an
   * exponent included. The result is NaN exactly when the trimmed text does
   * not start with a digit or a signed digit, and negative only after '-'.
   */
  function ParseFloat(s: string): (r: Number)
    ensures r == NaN <==> !StartsNumeric(TrimStart(s))
    ensures r.Finite? && r.value < 0 ==> TrimStart(s)[0] == '-'
  {
    var t := TrimStart(s);
    if t != [] && (t[0] == '+' || t[0] == '-') then
      var ds := LeadingDigits(t[1..]);
      assert ds == [] <==> !(|t| > 1 && IsDigit(t[1]));
      if ds == [] then NaN
      else if t[0] == '-' then Finite(-(DigitsValue(ds) as int))
      else Finite(DigitsValue(ds))
    else
      var ds := LeadingDigits(t);
      assert ds == [] <==> !(t != [] && IsDigit(t[0]));
      if ds == [] then NaN else Finite(DigitsValue(ds))
  }

  /**
   * `Number(s)` on integers: the trimmed text must be empty (giving 0) or an
   * optional sign followed by digits and nothing else; anything else is NaN,
   * and the result is negative only after '-'.
   */
  function StringToNumber(s: string): (r: Number)
    ensures Trim(s) == [] ==> r == Finite(0)
    ensures Trim(s) != [] ==> (r.Finite? <==> SignedDigits(Trim(s)))
    ensures r.Finite? && r.value < 0 ==> Trim(s)[0] == '-'
  {
    var t := Trim(s);
    if t == [] then Finite(0)
    else if t[0] == '+' || t[0] == '-' then
      if |t| > 1 && AllDigits(t[1..]) then
        (if t[0] == '-' then Finite(-(DigitsValue(t[1..]) as int)) else Finite(DigitsValue(t[1..])))
      else NaN
    else if AllDigits(t) then Finite(DigitsValue(t))
    else NaN
  }

  /** Digits, all of them, optionally after one sign: the integer text `Number` accepts. */
  predicate SignedDigits(t: string) {
    (t != [] && AllDigits(t)) || (|t| > 1 && (t[0] == '+' || t[0] == '-') && AllDigits(t[1..]))
  }

  /** `Number(v)`: null is 0, a string is read by `StringToNumber`. */
  function ToNumber(v: Value): Number {
    match v
    case Null => Finite(0)
    case Num(n) => n
    case Str(s) => StringToNumber(s)
  }

  /** `String(v)` for a cell value. */
  function ValueToString(v: Value): string {
    match v
    case Null => "null"
    case Num(NaN) => "NaN"
    case Num(Finite(n)) => IntToString(n)
    case Str(s) => s
  }

  /** `a * b`: NaN when either factor is NaN. */
  function Mul(a: Number, b: Number): (r: Number)
    ensures r.Finite? <==> a.Finite? && b.Finite?
    ensures r.Finite? ==> r.value == a.value * b.value
  {
    if a.Finite? && b.Finite? then Finite(a.value * b.value) else NaN
  }

  /**
   * `formatNumber(num)` (script.js:11-18): blank for a value that converts to
   * NaN or 0, otherwise the ko-KR grouped digits.
   */
  function FormatNumber(v: Value): (r: string)
    ensures r == [] <==> ToNumber(v) == NaN || ToNumber(v) == Finite(0)
    ensures ToNumber(v).Finite? && ToNumber(v).value != 0 ==>
              RemoveCommas(r) == IntToString(ToNumber(v).value) && CommaGrouped(r)
  {
    match ToNumber(v)
    case NaN => ""
    case Finite(n) =>
      if n == 0 then "" else ToLocaleString(n)
  }

  /**
   * `parseNumber(str)` (script.js:20-23): '' is 0, otherwise commas are
   * dropped and the text read by `parseFloat`. Non-numeric text is not
   * defaulted to 0: non-empty text reads as NaN exactly when, once its
   * commas are dropped and its leading white space skipped, it does not
   * start with a digit or a signed digit.
   */
  function ParseNumber(s: string): (r: Number)
    ensures s == [] ==> r == Finite(0)
    ensures s != [] ==> (r == NaN <==> !StartsNumeric(TrimStart(RemoveCommas(s))))
  {
    if s == [] then Finite(0) else ParseFloat(RemoveCommas(s))
  }

  /**
   * The digit string `r` (after an optional minus sign) has a comma exactly
   * before every third digit counted from the right, and nowhere else; it
   * never starts with a comma.
   */
  predicate CommaGrouped(r: string) {
    var g := if r != [] && r[0] == '-' then r[1..] else r;
    g != [] && g[0] != ',' && forall i | 0 <= i < |g| :: (g[i] == ',' <==> (|g| - i) % 4 == 0)
  }

  /** Removing commas from comma-free text changes nothing. */
  lemma NoCommasKept(s: string)
    requires forall i | 0 <= i < |s| :: s[i] != ','
    ensures RemoveCommas(s) == s
  {
    ReplaceAllAbsent(s, ",", "");
  }

  /** Grouping inserts exactly (|ds| - 1) / 3 commas, each before a three-digit group, and nothing else. */
  lemma {:induction false} GroupThousandsShape(ds: string)
    requires ds != [] && AllDigits(ds)
    ensures var r := GroupThousands(ds);
      RemoveCommas(r) == ds &&
      |r| == |ds| + (|ds| - 1) / 3 && r[0] != ',' &&
      forall i | 0 <= i < |r| :: (r[i] == ',' <==> (|r| - i) % 4 == 0)
    decreases |ds|
  {
    var r := GroupThousands(ds);
    if |ds| <= 3 {
      NoCommasKept(ds);
    } else {
      var h, t := ds[..|ds| - 3], ds[|ds| - 3..];
      assert AllDigits(h) && AllDigits(t);
      GroupThousandsShape(h);
      var rh := GroupThousands(h);
      assert r == rh + "," + t;
      GroupStepCommas(rh, t, h);
      GroupStepPositions(rh, t);
    }
  }

  /** One grouping step: the commas of `rh + "," + t` are those of `rh` and the separator. */
  lemma GroupStepCommas(rh: string, t: string, h: string)
    requires RemoveCommas(rh) == h
    requires AllDigits(t)
    ensures RemoveCommas(rh + "," + t) == h + t
  {
    ReplaceCharConcat(rh + ",", t, ',', "");
    ReplaceCharConcat(rh, ",", ',', "");
    NoCommasKept(t);
  }

  /** One grouping step keeps every comma four places from the right end of its group. */
  lemma GroupStepPositions(rh: string, t: string)
    requires |t| == 3 && AllDigits(t)
    requires forall i | 0 <= i < |rh| :: (rh[i] == ',' <==> (|rh| - i) % 4 == 0)
    ensures var r := rh + "," + t;
      forall i | 0 <= i < |r| :: (r[i] == ',' <==> (|r| - i) % 4 == 0)
  {
    var r := rh + "," + t;
    forall i | 0 <= i < |r| ensures (r[i] == ',' <==> (|r| - i) % 4 == 0) {
      if i < |rh| {
        assert r[i] == rh[i];
        assert (|r| - i) % 4 == (|rh| - i) % 4;
      } else if i > |rh| {
        assert r[i] == t[i - |rh| - 1];
      }
    }
  }

  /** Grouping keeps the first digit first. */
  lemma {:induction false} GroupThousandsHead(ds: string)
    requires ds != [] && AllDigits(ds)
    ensures GroupThousands(ds) != [] && GroupThousands(ds)[0] == ds[0] && IsDigit(ds[0])
    decreases |ds|
  {
    if |ds| > 3 {
      var h := ds[..|ds| - 3];
      assert AllDigits(h) && h[0] == ds[0];
      GroupThousandsHead(h);
    }
  }

  /** A minus sign in front of comma-grouped digits keeps them grouped. */
  lemma MinusGrouped(g: string)
    requires CommaGrouped(g) && g[0] != '-'
    ensures RemoveCommas("-" + g) == "-" + RemoveCommas(g)
    ensures CommaGrouped("-" + g)
  {
    ReplaceCharConcat("-", g, ',', "");
    NoCommasKept("-");
    assert ("-" + g)[1..] == g;
  }

  /** A digit string is its own longest digit prefix. */
  lemma {:induction false} LeadingDigitsOfDigits(ds: string, rest: string)
    requires AllDigits(ds)
    requires rest == [] || !IsDigit(rest[0])
    ensures LeadingDigits(ds + rest) == ds
    decreases |ds|
  {
    if ds == [] {
      assert ds + rest == rest;
    } else {
      assert (ds + rest)[1..] == ds[1..] + rest;
      LeadingDigitsOfDigits(ds[1..], rest);
    }
  }

  lemma DigitNotWhiteSpace(c: char)
    requires IsDigit(c)
    ensures !IsWhiteSpace(c) && c != '+' && c != '-'
  {
  }

  /** `parseFloat` reads an unsigned digit string as its value. */
  lemma ParseFloatDigits(ds: string)
    requires ds != [] && AllDigits(ds)
    ensures ParseFloat(ds) == Finite(DigitsValue(ds))
  {
    DigitNotWhiteSpace(ds[0]);
    assert TrimStart(ds) == ds;
    LeadingDigitsOfDigits(ds, []);
    assert ds + [] == ds;
  }

  /** `parseFloat` reads a minus sign and a digit string as the negated value. */
  lemma ParseFloatNegDigits(ds: string)
    requires ds != [] && AllDigits(ds)
    ensures ParseFloat("-" + ds) == Finite(-(DigitsValue(ds) as int))
  {
    var s := "-" + ds;
    assert !IsWhiteSpace(s[0]);
    assert TrimStart(s) == s;
    assert s[1..] == ds;
    LeadingDigitsOfDigits(ds, []);
    assert ds + [] == ds;
  }

  /** `parseFloat` reads the plain decimal form of an integer back as that integer. */
  lemma ParseFloatIntToString(n: int)
    ensures ParseFloat(IntToString(n)) == Finite(n)
  {
    if n < 0 {
      DigitsValueOfDigits(-n);
      ParseFloatNegDigits(Digits(-n));
    } else {
      DigitsValueOfDigits(n);
      ParseFloatDigits(Digits(n));
    }
  }

  /**
   * `parseFloat` reads the digits at the front and ignores what follows
   * them, as long as that does not go on as a fraction or an exponent.
   */
  lemma ParseFloatLeadingDigits(ds: string, rest: string)
    requires ds != [] && AllDigits(ds)
    requires rest == [] || (!IsDigit(rest[0]) && rest[0] != '.' && rest[0] != 'e' && rest[0] != 'E')
    ensures ParseFloat(ds + rest) == Finite(DigitsValue(ds))
  {
    var s := ds + rest;
    assert s[0] == ds[0];
    DigitNotWhiteSpace(ds[0]);
    assert TrimStart(s) == s;
    LeadingDigitsOfDigits(ds, rest);
  }

  /**
   * Comma-free text that starts with digits parses as those digits, when
   * what follows them does not go on as a fraction or an exponent.
   */
  lemma ParseNumberLeadingDigits(ds: string, rest: string)
    requires ds != [] && AllDigits(ds)
    requires rest == [] || (!IsDigit(rest[0]) && rest[0] != '.' && rest[0] != 'e' && rest[0] != 'E')
    requires forall i | 0 <= i < |rest| :: rest[i] != ','
    ensures ParseNumber(ds + rest) == Finite(DigitsValue(ds))
  {
    var s := ds + rest;
    forall i | 0 <= i < |s| ensures s[i] != ',' {
      if i < |ds| { assert s[i] == ds[i]; } else { assert s[i] == rest[i - |ds|]; }
    }
    NoCommasKept(s);
    ParseFloatLeadingDigits(ds, rest);
  }

  /** `Number` reads an unsigned digit string as its value. */
  lemma StringToNumberDigits(ds: string)
    requires ds != [] && AllDigits(ds)
    ensures StringToNumber(ds) == Finite(DigitsValue(ds))
  {
    DigitNotWhiteSpace(ds[0]);
    DigitNotWhiteSpace(ds[|ds| - 1]);
    assert TrimStart(ds) == ds;
    assert TrimEnd(ds) == ds;
  }

  /** `Number` reads a minus sign and a digit string as the negated value. */
  lemma StringToNumberNegDigits(ds: string)
    requires ds != [] && AllDigits(ds)
    ensures StringToNumber("-" + ds) == Finite(-(DigitsValue(ds) as int))
  {
    var s := "-" + ds;
    DigitNotWhiteSpace(ds[|ds| - 1]);
    assert s[|s| - 1] == ds[|ds| - 1];
    assert !IsWhiteSpace(s[0]);
    assert TrimStart(s) == s;
    assert TrimEnd(s) == s;
    assert s[1..] == ds;
  }

  /** `Number` reads the plain decimal form of an integer back as that integer. */
  lemma StringToNumberIntToString(n: int)
    ensures StringToNumber(IntToString(n)) == Finite(n)
  {
    if n < 0 {
      DigitsValueOfDigits(-n);
      StringToNumberNegDigits(Digits(-n));
    } else {
      DigitsValueOfDigits(n);
      StringToNumberDigits(Digits(n));
    }
  }

  /** parseNumber(formatNumber(n)) == n for every integer, 0 included ('' reads as 0). */
  lemma FormatThenParse(n: int)
    ensures ParseNumber(FormatNumber(Num(Finite(n)))) == Finite(n)
  {
    if n != 0 {
      ParseFloatIntToString(n);
    }
  }

  /** parseNumber(String(n)) == n: a number shown without grouping reads back too. */
  lemma PlainThenParse(n: int)
    ensures ParseNumber(IntToString(n)) == Finite(n)
  {
    ParseFloatIntToString(n);
    NoCommasKept(IntToString(n));
  }

  /** The output of `RemoveCommas` holds no comma. */
  lemma {:induction false} RemoveCommasHasNone(s: string)
    ensures forall i | 0 <= i < |RemoveCommas(s)| :: RemoveCommas(s)[i] != ','
  {
    forall i | 0 <= i < |RemoveCommas(s)| ensures RemoveCommas(s)[i] != ',' {
      ReplaceCharFrom(s, ',', "", RemoveCommas(s)[i]);
    }
  }

  /** Removing commas twice is removing them once. */
  lemma RemoveCommasIdempotent(s: string)
    ensures RemoveCommas(RemoveCommas(s)) == RemoveCommas(s)
  {
    RemoveCommasHasNone(s);
    NoCommasKept(RemoveCommas(s));
  }

  /**
   * `parseNumber` ignores every comma: the text and the text with its commas
   * removed read the same, unless the text was nothing but commas (then
   * it reads as NaN while the empty string reads as 0).
   */
  lemma ParseNumberIgnoresCommas(s: string)
    requires s == [] || RemoveCommas(s) != []
    ensures ParseNumber(s) == ParseNumber(RemoveCommas(s))
  {
    RemoveCommasIdempotent(s);
  }

  /** Text that is only commas reads as NaN. */
  lemma ParseNumberOnlyCommas(s: string)
    requires s != [] && RemoveCommas(s) == []
    ensures ParseNumber(s) == NaN
  {
  }

  /** `t` starts with a digit, or with a sign and then a digit: what `parseFloat` needs to read a number. */
  predicate StartsNumeric(t: string) {
    t != [] && (IsDigit(t[0]) || ((t[0] == '+' || t[0] == '-') && |t| > 1 && IsDigit(t[1])))
  }

  /** Removing commas around a separating comma works piece by piece. */
  lemma RemoveCommasAround(a: string, b: string)
    ensures RemoveCommas(a + "," + b) == RemoveCommas(a) + RemoveCommas(b)
  {
    ReplaceCharConcat(a + ",", b, ',', "");
    ReplaceCharConcat(a, ",", ',', "");
  }

  lemma RemoveCommasExample(s: string)
    requires s == "1,234,567"
    ensures RemoveCommas(s) == "1234567"
  {
    var a, b, c := "1", "234", "567";
    assert s == a + "," + b + "," + c;
    RemoveCommasThree(a, b, c);
    assert a + b + c == "1234567";
  }

  lemma RemoveCommasThree(a: string, b: string, c: string)
    requires forall i | 0 <= i < |a| :: a[i] != ','
    requires forall i | 0 <= i < |b| :: b[i] != ','
    requires forall i | 0 <= i < |c| :: c[i] != ','
    ensures RemoveCommas(a + "," + b + "," + c) == a + b + c
  {
    RemoveCommasAround(a + "," + b, c);
    RemoveCommasAround(a, b);
    NoCommasKept(a);
    NoCommasKept(b);
    NoCommasKept(c);
  }

  lemma DigitsExample()
    ensures Digits(1234567) == "1234567"
  {
    assert Digits(12) == "12";
    assert Digits(1234) == "1234";
    assert Digits(123456) == "123456";
  }

  /** The example of script.js:22: commas between groups are ignored. */
  lemma ParseNumberGrouped()
    ensures ParseNumber("1,234,567") == Finite(1234567)
  {
    RemoveCommasExample("1,234,567");
    DigitsExample();
    DigitsValueOfDigits(1234567);
    ParseFloatDigits("1234567");
  }
}
