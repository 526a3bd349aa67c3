/** Exact fixed-point decimals: their one textual form, their overflow-checked arithmetic, and quantities. */
module Decimal {
  import opened Base
  import Normalize

  const MaxScale := 18

  /** The value coefficient / 10^scale. */
  datatype Decimal = Decimal(coefficient: int, scale: int)

  predicate Valid(d: Decimal) { FitsInt64(d.coefficient) && 0 <= d.scale <= MaxScale }

  // ---- Digits ----------------------------------------------------------------------------------

  predicate IsDigit(c: char) { '0' <= c <= '9' }

  predicate AllDigits(s: string) { forall i :: 0 <= i < |s| ==> IsDigit(s[i]) }

  function DigitValue(c: char): nat
    requires IsDigit(c)
  {
    c as int - '0' as int
  }

  function DigitOf(n: nat): char
    requires n < 10
  {
    '0' + n as char
  }

  function Value(s: string): nat
    requires AllDigits(s)
    decreases |s|
  {
    if s == "" then 0 else 10 * Value(s[..|s| - 1]) + DigitValue(s[|s| - 1])
  }

  /** strconv.FormatUint in base ten. */
  function Format(n: nat): (s: string)
    ensures s != "" && AllDigits(s)
    decreases n
  {
    if n < 10 then [DigitOf(n)] else Format(n / 10) + [DigitOf(n % 10)]
  }

  predicate NoLeadingZero(s: string) { s != "" && (|s| > 1 ==> s[0] != '0') }

  lemma {:induction false} FormatRoundTrip(n: nat)
    ensures Value(Format(n)) == n && NoLeadingZero(Format(n)) && (n > 0 ==> Format(n)[0] != '0')
    decreases n
  {
    if n >= 10 {
      FormatRoundTrip(n / 10);
      assert Format(n)[..|Format(n)| - 1] == Format(n / 10);
    }
  }

  lemma {:induction false} ValueIsPositive(s: string)
    requires s != "" && AllDigits(s) && s[0] != '0'
    ensures Value(s) > 0
    decreases |s|
  {
    if |s| > 1 { ValueIsPositive(s[..|s| - 1]); }
  }

  lemma {:induction false} ValueRoundTrip(s: string)
    requires AllDigits(s) && NoLeadingZero(s)
    ensures Format(Value(s)) == s
    decreases |s|
  {
    var front := s[..|s| - 1];
    assert s == front + [s[|s| - 1]];
    if |s| > 1 {
      ValueIsPositive(front);
      ValueRoundTrip(front);
      FormatStep(Value(front), DigitValue(s[|s| - 1]));
    }
  }

  lemma FormatStep(v: nat, d: nat)
    requires v > 0 && d < 10
    ensures Format(10 * v + d) == Format(v) + [DigitOf(d)]
  {
  }

  lemma {:induction false} LeadingZero(s: string)
    requires AllDigits(s)
    ensures AllDigits("0" + s) && Value("0" + s) == Value(s)
    decreases |s|
  {
    if s == "" {
      assert ("0" + s)[..0] == "";
    } else {
      LeadingZero(s[..|s| - 1]);
      assert ("0" + s)[..|s|] == "0" + s[..|s| - 1];
    }
  }

  lemma {:induction false} ZeroIffAllZeros(s: string)
    requires AllDigits(s)
    ensures Value(s) == 0 <==> forall i :: 0 <= i < |s| ==> s[i] == '0'
    decreases |s|
  {
    if s != "" { ZeroIffAllZeros(s[..|s| - 1]); }
  }

  /** Zeros in front until the text has `width` characters. */
  function Pad(s: string, width: int): (r: string)
    requires AllDigits(s)
    ensures AllDigits(r) && |r| == (if |s| < width then width else |s|)
    decreases width - |s|
  {
    if |s| >= width then s else Pad("0" + s, width)
  }

  lemma {:induction false} PadKeepsValue(s: string, width: int)
    requires AllDigits(s)
    ensures Value(Pad(s, width)) == Value(s)
    decreases width - |s|
  {
    if |s| < width {
      LeadingZero(s);
      PadKeepsValue("0" + s, width);
    }
  }

  /** One more zero in front commutes with padding. */
  lemma {:induction false} PadOnceMore(s: string, width: int)
    requires AllDigits(s) && |s| <= width
    ensures Pad(s, width + 1) == "0" + Pad(s, width)
    decreases width - |s|
  {
    if |s| < width { PadOnceMore("0" + s, width); }
  }

  /** Any digits are the padded form of their value. */
  lemma {:induction false} PadRoundTrip(s: string)
    requires AllDigits(s) && s != ""
    ensures Pad(Format(Value(s)), |s|) == s
    decreases |s|
  {
    if NoLeadingZero(s) {
      ValueRoundTrip(s);
    } else {
      var rest := s[1..];
      assert s == "0" + rest;
      LeadingZero(rest);
      PadRoundTrip(rest);
      PadOnceMore(Format(Value(rest)), |rest|);
    }
  }

  // ---- Splitting at the point ------------------------------------------------------------------

  function Split(s: string): (parts: seq<string>)
    ensures parts != []
    decreases |s|
  {
    if s == "" then [""]
    else
      var rest := Split(s[1..]);
      if s[0] == '.' then [""] + rest else [[s[0]] + rest[0]] + rest[1..]
  }

  lemma {:induction false} SplitWhole(s: string)
    requires '.' !in s
    ensures Split(s) == [s]
    decreases |s|
  {
    if s != "" {
      SplitWhole(s[1..]);
      assert [s[0]] + s[1..] == s;
    }
  }

  lemma {:induction false} SplitAtPoint(a: string, b: string)
    requires '.' !in a && '.' !in b
    ensures Split(a + "." + b) == [a, b]
    decreases |a|
  {
    var s := a + "." + b;
    if a == "" {
      assert s[1..] == b;
      SplitWhole(b);
    } else {
      assert s[1..] == a[1..] + "." + b;
      SplitAtPoint(a[1..], b);
      assert [a[0]] + a[1..] == a;
    }
  }

  function Join(parts: seq<string>): string
    requires parts != []
  {
    if |parts| == 1 then parts[0] else parts[0] + "." + Join(parts[1..])
  }

  lemma {:induction false} SplitJoins(s: string)
    ensures Join(Split(s)) == s
    decreases |s|
  {
    if s != "" {
      SplitJoins(s[1..]);
      var rest := Split(s[1..]);
      assert Split(s)[1..] == if s[0] == '.' then rest else rest[1..];
      assert s == [s[0]] + s[1..];
    }
  }

  // ---- Parser and printer ----------------------------------------------------------------------

  predicate Trimmed(s: string) {
    s != "" ==> !Normalize.IsSpace(s[0]) && !Normalize.IsSpace(s[|s| - 1])
  }

  predicate AllZeros(s: string) { forall i :: 0 <= i < |s| ==> s[i] == '0' }

  function Flatten(parts: seq<string>): string {
    if parts == [] then "" else parts[0] + Flatten(parts[1..])
  }

  /** The parts around the point, after the sign. */
  function ParseParts(negative: bool, parts: seq<string>): Option<Decimal>
    requires parts != []
  {
    if |parts| > 2 || parts[0] == "" || (|parts| == 2 && (parts[1] == "" || |parts[1]| > MaxScale)) then None
    else
      var all := Flatten(parts);
      if !AllDigits(all) || (|parts[0]| > 1 && parts[0][0] == '0') || (negative && AllZeros(all)) then None
      else
        var coefficient: int := if negative then 0 - Value(all) else Value(all);
        if !FitsInt64(coefficient) then None
        else Some(Decimal(coefficient, if |parts| == 2 then |parts[1]| else 0))
  }

  function Parse(text: string): Option<Decimal> {
    if text == "" || !Trimmed(text) || text[0] == '+' then None
    else if text[0] == '-' then ParseParts(true, Split(text[1..]))
    else ParseParts(false, Split(text))
  }

  function Magnitude(c: int): nat { if c < 0 then -(c + 1) + 1 else c }

  function Digits(d: Decimal): string { Pad(Format(Magnitude(d.coefficient)), if d.scale > 0 then d.scale + 1 else 0) }

  function Print(d: Decimal): string
    requires 0 <= d.scale
  {
    var digits := Digits(d);
    if d.scale == 0 then Sign(d) + digits
    else Sign(d) + digits[..|digits| - d.scale] + "." + digits[|digits| - d.scale..]
  }

  /** The text of a number without its sign, cut into the parts the parser sees. */
  function Parts(d: Decimal): seq<string>
    requires 0 <= d.scale
  {
    var digits := Digits(d);
    if d.scale == 0 then [digits] else [digits[..|digits| - d.scale], digits[|digits| - d.scale..]]
  }

  function Sign(d: Decimal): string { if d.coefficient < 0 then "-" else "" }

  lemma WholeParts(digits: string)
    requires AllDigits(digits) && digits != ""
    ensures Join([digits]) == digits && Split(digits) == [digits] && Flatten([digits]) == digits
  {
    assert '.' !in digits;
    SplitWhole(digits);
  }

  lemma PointParts(digits: string, cut: nat)
    requires AllDigits(digits) && cut <= |digits|
    ensures var whole, fraction := digits[..cut], digits[cut..];
            && Join([whole, fraction]) == whole + "." + fraction
            && Split(whole + "." + fraction) == [whole, fraction] && Flatten([whole, fraction]) == digits
  {
    var whole, fraction := digits[..cut], digits[cut..];
    assert '.' !in whole && '.' !in fraction;
    SplitAtPoint(whole, fraction);
    assert [whole, fraction][1..] == [fraction];
    assert Flatten([fraction]) == fraction;
    assert whole + fraction == digits;
  }

  lemma PrintedParts(d: Decimal)
    requires 0 <= d.scale
    ensures Print(d) == Sign(d) + Join(Parts(d))
    ensures Split(Join(Parts(d))) == Parts(d) && Flatten(Parts(d)) == Digits(d)
    ensures Parts(d)[0] != "" && IsDigit(Join(Parts(d))[0]) && IsDigit(Join(Parts(d))[|Join(Parts(d))| - 1])
  {
    var digits := Digits(d);
    if d.scale == 0 {
      WholeParts(digits);
    } else {
      var cut := |digits| - d.scale;
      PointParts(digits, cut);
      assert Sign(d) + digits[..cut] + "." + digits[cut..] == Sign(d) + (digits[..cut] + "." + digits[cut..]);
    }
  }

  lemma DigitIsNoSpace(c: char)
    ensures IsDigit(c) ==> !Normalize.IsSpace(c) && c != '+' && c != '-' && c != '.'
    ensures !Normalize.IsSpace('-')
  {
  }

  lemma DigitsCarryValue(d: Decimal)
    requires 0 <= d.scale
    ensures Value(Digits(d)) == Magnitude(d.coefficient)
    ensures |Parts(d)[0]| > 1 ==> Parts(d)[0][0] != '0'
  {
    FormatRoundTrip(Magnitude(d.coefficient));
    PadKeepsValue(Format(Magnitude(d.coefficient)), if d.scale > 0 then d.scale + 1 else 0);
  }

  lemma ParseOwnParts(d: Decimal)
    requires Valid(d)
    ensures ParseParts(d.coefficient < 0, Parts(d)) == Some(d)
  {
    PrintedParts(d);
    DigitsCarryValue(d);
    ZeroIffAllZeros(Digits(d));
  }

  lemma EndsAreTrimmed(text: string)
    requires text != "" && (IsDigit(text[0]) || text[0] == '-') && IsDigit(text[|text| - 1])
    ensures Trimmed(text)
  {
    DigitIsNoSpace(text[|text| - 1]);
    if text[0] != '-' { DigitIsNoSpace(text[0]); }
  }

  lemma NegativeBody(body: string, text: string)
    requires body != "" && IsDigit(body[|body| - 1]) && text == "-" + body
    ensures Parse(text) == ParseParts(true, Split(body))
  {
    EndsAreTrimmed(text);
    assert text[1..] == body;
  }

  /** Leading and trailing digits make a text the parser does not turn away at the door. */
  lemma SignedBody(body: string, negative: bool)
    requires body != "" && IsDigit(body[0]) && IsDigit(body[|body| - 1])
    ensures Parse(if negative then "-" + body else body) == ParseParts(negative, Split(body))
  {
    if negative { NegativeBody(body, "-" + body); } else { EndsAreTrimmed(body); }
  }

  /** Every decimal, the smallest 64-bit coefficient included, parses back to itself. */
  lemma ParsePrint(d: Decimal)
    requires Valid(d)
    ensures Parse(Print(d)) == Some(d)
  {
    PrintedParts(d);
    ParseOwnParts(d);
    SignedBody(Join(Parts(d)), d.coefficient < 0);
    assert d.coefficient >= 0 ==> Print(d) == Join(Parts(d));
  }

  lemma FlattenParts(parts: seq<string>)
    requires 1 <= |parts| <= 2
    ensures Flatten(parts) == if |parts| == 1 then parts[0] else parts[0] + parts[1]
  {
  }

  /** Accepted parts are the parts of the number they denote. */
  lemma PartsOfParsed(negative: bool, parts: seq<string>)
    requires parts != [] && ParseParts(negative, parts).Some?
    ensures var d := ParseParts(negative, parts).value;
            Valid(d) && Parts(d) == parts && (d.coefficient < 0 <==> negative)
  {
    var d := ParseParts(negative, parts).value;
    var all := Flatten(parts);
    FlattenParts(parts);
    ZeroIffAllZeros(all);
    PadRoundTrip(all);
    if |parts[0]| > 1 || |parts| == 1 {
      assert all[0] == parts[0][0];
      ValueRoundTrip(all);
    }
    assert Digits(d) == all;
    if |parts| == 2 {
      assert all[..|parts[0]|] == parts[0] && all[|parts[0]|..] == parts[1];
    }
  }

  lemma PrintedIsText(negative: bool, body: string, d: Decimal)
    requires ParseParts(negative, Split(body)) == Some(d)
    ensures Valid(d) && Print(d) == (if negative then "-" else "") + body
  {
    PartsOfParsed(negative, Split(body));
    PrintedParts(d);
    SplitJoins(body);
  }

  /** Every accepted text prints back to itself: the form is canonical. */
  lemma PrintParse(text: string)
    requires Parse(text).Some?
    ensures Valid(Parse(text).value) && Print(Parse(text).value) == text
  {
    var negative := text[0] == '-';
    var body := if negative then text[1..] else text;
    assert text == (if negative then "-" else "") + body;
    PrintedIsText(negative, body, Parse(text).value);
  }

  /** The parser's scan for a non-digit. */
  method ScanDigits(all: string) returns (ok: bool)
    ensures ok == AllDigits(all)
  {
    for i := 0 to |all|
      invariant AllDigits(all[..i])
    {
      if all[i] < '0' || all[i] > '9' { return false; }
    }
    assert all[..|all|] == all;
    ok := true;
  }

  /** After the sign: the checks on the parts, the digit scan, and the 64-bit conversion. */
  method ParseUnsigned(negative: bool, parts: seq<string>) returns (d: Option<Decimal>)
    requires parts != []
    ensures d == ParseParts(negative, parts)
  {
    if |parts| > 2 || parts[0] == "" || (|parts| == 2 && parts[1] == "") || (|parts| == 2 && |parts[1]| > MaxScale) { return None; }
    var all := Flatten(parts);
    var numeric := ScanDigits(all);
    if !numeric { return None; }
    if (|parts[0]| > 1 && parts[0][0] == '0') || (negative && AllZeros(all)) { return None; }
    var coefficient: int := Value(all);
    if negative { coefficient := -coefficient; }
    if !FitsInt64(coefficient) { return None; }
    var scale := 0;
    if |parts| == 2 { scale := |parts[1]|; }
    d := Some(Decimal(coefficient, scale));
  }

  method ParseDecimal(text: string) returns (d: Option<Decimal>)
    ensures d == Parse(text)
    ensures d.Some? ==> Valid(d.value) && Print(d.value) == text
  {
    if text == "" || !Trimmed(text) || text[0] == '+' { return None; }
    var negative := text[0] == '-';
    var digits := text;
    if negative { digits := digits[1..]; }
    var parts := Split(digits);
    d := ParseUnsigned(negative, parts);
    assert d == Parse(text);
    if d.Some? { PrintParse(text); }
  }

  method ToString(d: Decimal) returns (text: string)
    requires Valid(d)
    ensures text == Print(d) && Parse(text) == Some(d)
  {
    ParsePrint(d);
    var negative := d.coefficient < 0;
    var digits := Format(Magnitude(d.coefficient));
    if d.scale == 0 {
      return (if negative then "-" else "") + digits;
    }
    while |digits| <= d.scale
      invariant AllDigits(digits) && Pad(digits, d.scale + 1) == Digits(d)
      decreases d.scale - |digits|
    {
      digits := "0" + digits;
    }
    var cut := |digits| - d.scale;
    if negative {
      text := "-" + digits[..cut] + "." + digits[cut..];
    } else {
      text := digits[..cut] + "." + digits[cut..];
      assert "" + digits[..cut] == digits[..cut];
    }
  }

  // ---- Arithmetic ------------------------------------------------------------------------------

  datatype Failure = ScaleMismatch | Overflow | UnitMismatch | Underflow | InvalidDecimal

  function Add(d: Decimal, e: Decimal): Result<Decimal, Failure> {
    if d.scale != e.scale then Err(ScaleMismatch)
    else if (e.coefficient > 0 && d.coefficient > MaxInt64 - e.coefficient) || (e.coefficient < 0 && d.coefficient < MinInt64 - e.coefficient)
    then Err(Overflow)
    else Ok(Decimal(d.coefficient + e.coefficient, d.scale))
  }

  function Sub(d: Decimal, e: Decimal): Result<Decimal, Failure> {
    if d.scale != e.scale then Err(ScaleMismatch)
    else if (e.coefficient > 0 && d.coefficient < MinInt64 + e.coefficient) || (e.coefficient < 0 && d.coefficient > MaxInt64 + e.coefficient)
    then Err(Overflow)
    else Ok(Decimal(d.coefficient - e.coefficient, d.scale))
  }

  /** Sums and differences are returned exactly when the exact result fits, and each undoes the other. */
  lemma ArithmeticIsExact(d: Decimal, e: Decimal)
    requires Valid(d) && Valid(e) && d.scale == e.scale
    ensures Add(d, e).Ok? <==> FitsInt64(d.coefficient + e.coefficient)
    ensures Sub(d, e).Ok? <==> FitsInt64(d.coefficient - e.coefficient)
    ensures Add(d, e).Ok? ==> Valid(Add(d, e).value) && Sub(Add(d, e).value, e) == Ok(d) && Add(e, d) == Add(d, e)
    ensures Sub(d, e).Ok? ==> Valid(Sub(d, e).value) && Add(Sub(d, e).value, e) == Ok(d)
  {
  }

  datatype Quantity = Quantity(amount: Decimal, unit: string)

  predicate ValidUnit(unit: string) {
    1 <= |unit| <= 63 &&
    forall i :: 0 <= i < |unit| ==> 'a' <= unit[i] <= 'z' || (i > 0 && (IsDigit(unit[i]) || unit[i] == '_'))
  }

  predicate ValidQuantity(q: Quantity) { Valid(q.amount) && q.amount.coefficient >= 0 && ValidUnit(q.unit) }

  function NewQuantity(amount: Decimal, unit: string): Result<Quantity, Failure> {
    if amount.coefficient < 0 || !ValidUnit(unit) then Err(InvalidDecimal) else Ok(Quantity(amount, unit))
  }

  /** A quantity is a nonnegative amount of a unit named by a lower-case letter and up to 62 letters, digits or underscores. */
  lemma QuantityIff(amount: Decimal, unit: string)
    ensures NewQuantity(amount, unit) ==
            if amount.coefficient >= 0 && 0 < |unit| < 64 && 'a' <= unit[0] <= 'z' &&
               (forall c :: c in unit[1..] ==> 'a' <= c <= 'z' || '0' <= c <= '9' || c == '_')
            then Ok(Quantity(amount, unit)) else Err(InvalidDecimal)
  {
    if 0 < |unit| {
      assert forall i :: 0 < i < |unit| ==> unit[i] in unit[1..] by {
        forall i | 0 < i < |unit| ensures unit[i] in unit[1..] { assert unit[1..][i - 1] == unit[i]; }
      }
    }
  }

  function AddQuantity(q: Quantity, r: Quantity): Result<Quantity, Failure> {
    if q.unit != r.unit then Err(UnitMismatch)
    else
      var amount := Add(q.amount, r.amount);
      if amount.Err? then Err(amount.error) else NewQuantity(amount.value, q.unit)
  }

  function SubQuantity(q: Quantity, r: Quantity): Result<Quantity, Failure> {
    if q.unit != r.unit then Err(UnitMismatch)
    else
      var amount := Sub(q.amount, r.amount);
      if amount.Err? then Err(amount.error)
      else if amount.value.coefficient < 0 then Err(Underflow)
      else NewQuantity(amount.value, q.unit)
  }

  /** Quantities never go below zero or past 64 bits, and taking back what was added restores the original. */
  lemma QuantitiesAreConserved(q: Quantity, r: Quantity)
    requires ValidQuantity(q) && ValidQuantity(r)
    ensures AddQuantity(q, r).Ok? <==>
            q.unit == r.unit && q.amount.scale == r.amount.scale && q.amount.coefficient + r.amount.coefficient <= MaxInt64
    ensures SubQuantity(q, r).Ok? <==>
            q.unit == r.unit && q.amount.scale == r.amount.scale && r.amount.coefficient <= q.amount.coefficient
    ensures AddQuantity(q, r).Ok? ==> ValidQuantity(AddQuantity(q, r).value) && SubQuantity(AddQuantity(q, r).value, r) == Ok(q)
    ensures SubQuantity(q, r).Ok? ==> ValidQuantity(SubQuantity(q, r).value) && AddQuantity(SubQuantity(q, r).value, r) == Ok(q)
  {
  }
}
