/**
 * Worksheet cells and their numeric coercion.
 *
 * A sheet is read without a header, so it is a grid of cells indexed by row
 * and column. A cell holds a number, a piece of text, or nothing. Coercion
 * to a number accepts numbers as they are, accepts text that spells a plain
 * decimal number (optional sign, digits, optional fractional part), and
 * turns everything else into "absent".
 */
module Cells {
  import opened Wrappers

  datatype Cell = Num(n: real) | Text(s: string) | Empty

  type Row = seq<Cell>
  type Sheet = seq<Row>

  /** The cell in column `j` of a row; columns past the end of a short row read as empty. */
  function CellAt(row: Row, j: nat): Cell {
    if j < |row| then row[j] else Empty
  }

  predicate IsDigit(ch: char) {
    '0' <= ch <= '9'
  }

  predicate AllDigits(s: string) {
    forall k :: 0 <= k < |s| ==> IsDigit(s[k])
  }

  function DigitValue(ch: char): (v: nat)
    requires IsDigit(ch)
    ensures v < 10
  {
    (ch as int) - ('0' as int)
  }

  /** The value of a string of decimal digits, most significant first. */
  function DigitsValue(s: string): nat
    requires AllDigits(s)
  {
    if s == [] then 0 else 10 * DigitsValue(s[..|s| - 1]) + DigitValue(s[|s| - 1])
  }

  function Pow10(n: nat): (p: nat)
    ensures p >= 1
  {
    if n == 0 then 1 else 10 * Pow10(n - 1)
  }

  /** The number of leading decimal digits of `s`. */
  function LeadingDigits(s: string): (k: nat)
    ensures k <= |s|
    ensures AllDigits(s[..k])
    ensures k < |s| ==> !IsDigit(s[k])
  {
    if s == [] || !IsDigit(s[0]) then 0
    else
      var k := 1 + LeadingDigits(s[1..]);
      assert s[..k] == [s[0]] + s[1..][..k - 1];
      k
  }

  /** An unsigned decimal: `digits`, `digits.`, `.digits` or `digits.digits`. */
  function ParseUnsigned(s: string): (r: Option<real>)
    ensures r.Some? ==> r.value >= 0.0
    ensures r.Some? ==> exists k :: 0 <= k < |s| && IsDigit(s[k])
  {
    var k := LeadingDigits(s);
    var whole := DigitsValue(s[..k]) as real;
    if k == |s| then
      if k == 0 then None else Some(whole)
    else if s[k] == '.' && AllDigits(s[k + 1..]) && (k > 0 || k + 1 < |s|) then
      var frac := s[k + 1..];
      assert k > 0 ==> IsDigit(s[..k][0]);
      assert k == 0 ==> IsDigit(s[k + 1..][0]);
      Some(whole + (DigitsValue(frac) as real) / (Pow10(|frac|) as real))
    else
      None
  }

  /** Text to number, as a spreadsheet's numeric coercion reads a plain decimal. */
  function ParseDecimal(s: string): (r: Option<real>)
    ensures r.Some? ==> forall k :: 0 <= k < |s| ==> IsDigit(s[k]) || s[k] in "+-."
    ensures r.Some? && |s| > 0 && s[0] == '-' ==> r.value <= 0.0
    ensures r.Some? && |s| > 0 && s[0] != '-' ==> r.value >= 0.0
  {
    if |s| > 0 && s[0] == '-' then
      match ParseUnsigned(s[1..])
      case Some(v) => Some(-v)
      case None => None
    else if |s| > 0 && s[0] == '+' then ParseUnsigned(s[1..])
    else ParseUnsigned(s)
  }

  /** The numeric value of a cell, or None when coercion fails. */
  function Coerce(c: Cell): (r: Option<real>)
    ensures c.Num? ==> r == Some(c.n)
    ensures c.Empty? ==> r == None
  {
    match c
    case Num(n) => Some(n)
    case Text(s) => ParseDecimal(s)
    case Empty => None
  }

  /** The decimal spelling of a natural number, without leading zeros. */
  function DecimalText(n: nat): (s: string)
    ensures |s| > 0 && AllDigits(s)
    decreases n
  {
    var d := ['0' + (n % 10) as char];
    if n < 10 then d else DecimalText(n / 10) + d
  }

  lemma {:induction false} DecimalTextValue(n: nat)
    ensures DigitsValue(DecimalText(n)) == n
    decreases n
  {
    var s := DecimalText(n);
    assert DigitValue(s[|s| - 1]) == n % 10;
    if n >= 10 {
      assert s[..|s| - 1] == DecimalText(n / 10);
      DecimalTextValue(n / 10);
    }
  }

  /** A number written out in decimal text coerces back to that number. */
  lemma TextOfNaturalCoerces(n: nat)
    ensures Coerce(Text(DecimalText(n))) == Some(n as real)
    ensures Coerce(Text("-" + DecimalText(n))) == Some(-(n as real))
  {
    var s := DecimalText(n);
    DecimalTextValue(n);
    UnsignedDigits(s);
    assert ParseDecimal(s) == ParseUnsigned(s);
    var neg := "-" + s;
    assert neg[0] == '-' && neg[1..] == s;
    assert ParseDecimal(neg) == Some(-(n as real));
  }

  /** A non-empty run of digits parses to its decimal value. */
  lemma UnsignedDigits(s: string)
    requires |s| > 0 && AllDigits(s)
    ensures ParseUnsigned(s) == Some(DigitsValue(s) as real)
  {
    LeadingDigitsOfDigits(s);
    assert s[..|s|] == s;
  }

  lemma {:induction false} LeadingDigitsOfDigits(s: string)
    requires AllDigits(s)
    ensures LeadingDigits(s) == |s|
  {
    if s != [] {
      LeadingDigitsOfDigits(s[1..]);
    }
  }

  /** Leading digits run on through a prefix of digits. */
  lemma {:induction false} LeadingDigitsAppend(a: string, t: string)
    requires AllDigits(a)
    ensures LeadingDigits(a + t) == |a| + LeadingDigits(t)
  {
    if a == [] {
      assert a + t == t;
    } else {
      assert (a + t)[1..] == a[1..] + t;
      LeadingDigitsAppend(a[1..], t);
    }
  }

  /** The value that the text `a.b` spells, for digit runs `a` and `b`. */
  function FractionValue(a: string, b: string): real
    requires AllDigits(a) && AllDigits(b)
  {
    DigitsValue(a) as real + (DigitsValue(b) as real) / (Pow10(|b|) as real)
  }

  /** `digits.digits`, `digits.` and `.digits` parse to the value they spell. */
  lemma FractionParsesUnsigned(a: string, b: string)
    requires AllDigits(a) && AllDigits(b) && |a| + |b| > 0
    ensures ParseUnsigned(a + "." + b) == Some(FractionValue(a, b))
  {
    var s := a + "." + b;
    LeadingDigitsAppend(a, "." + b);
    assert s == a + ("." + b);
    assert LeadingDigits("." + b) == 0;
    assert s[..|a|] == a;
    assert s[|a|] == '.';
    assert s[|a| + 1..] == b;
  }

  /** An unsigned decimal reads the same bare, after a plus sign, and negated after a minus sign. */
  lemma SignedForms(s: string)
    requires ParseUnsigned(s).Some? && |s| > 0 && s[0] != '+' && s[0] != '-'
    ensures ParseDecimal(s) == ParseUnsigned(s)
    ensures ParseDecimal("+" + s) == ParseUnsigned(s)
    ensures ParseDecimal("-" + s) == Some(-ParseUnsigned(s).value)
  {
    var plus, minus := "+" + s, "-" + s;
    assert plus[0] == '+' && plus[1..] == s;
    assert minus[0] == '-' && minus[1..] == s;
  }

  /** A plain decimal with a fractional point, unsigned or with either sign, coerces to its value. */
  lemma FractionCoerces(a: string, b: string)
    requires AllDigits(a) && AllDigits(b) && |a| + |b| > 0
    ensures Coerce(Text(a + "." + b)) == Some(FractionValue(a, b))
    ensures Coerce(Text("+" + a + "." + b)) == Some(FractionValue(a, b))
    ensures Coerce(Text("-" + a + "." + b)) == Some(-FractionValue(a, b))
  {
    var s := a + "." + b;
    FractionParsesUnsigned(a, b);
    assert s[0] == if |a| > 0 then a[0] else '.';
    SignedForms(s);
    assert "+" + a + "." + b == "+" + s;
    assert "-" + a + "." + b == "-" + s;
  }

  /** A run of digits with an explicit plus sign coerces to its value. */
  lemma PlusDigitsCoerce(a: string)
    requires |a| > 0 && AllDigits(a)
    ensures Coerce(Text("+" + a)) == Some(DigitsValue(a) as real)
  {
    UnsignedDigits(a);
    var plus := "+" + a;
    assert plus[0] == '+' && plus[1..] == a;
  }

  /** Text with a letter in it never coerces to a number. */
  lemma LetterBlocksCoercion(s: string, k: nat)
    requires k < |s| && !IsDigit(s[k]) && s[k] !in "+-."
    ensures Coerce(Text(s)) == None
  {
  }
}
