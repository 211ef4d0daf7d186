/** `formatDisplayNumber`: the text shown for an operand. The integer part
    goes through the locale formatter; the fractional text is reattached as
    typed. */
module Display {
  import opened Text
  import opened Numerics

  /** The grouped integer part, or "" when it does not parse. */
  function IntegerDisplay<V>(num: Numeric<V>, digits: string): string
  {
    match num.parse(digits)
    case None => ""
    case Some(v) => num.group(v)
  }

  function FormatDisplayNumber<V>(num: Numeric<V>, number: string): (r: string)
    ensures '.' !in number && num.parse(number).None? ==> r == ""
    ensures '.' !in number && num.parse(number).Some? ==> r == num.group(num.parse(number).value)
    ensures '.' in number ==> IntegerDisplay(num, number[..FirstIndex(number, '.')]) + "." <= r
  {
    var parts := Split(number, '.');
    var integerDisplay := IntegerDisplay(num, parts[0]);
    if |parts| > 1 then
      SplitFirstPieces(number, '.');
      integerDisplay + "." + parts[1]
    else integerDisplay
  }

  /** With exactly one decimal point, everything after it is reattached
      verbatim behind the grouped integer part. */
  lemma FormatSinglePoint<V>(num: Numeric<V>, number: string)
    requires Count(number, '.') == 1
    ensures var i := FirstIndex(number, '.');
      FormatDisplayNumber(num, number) == IntegerDisplay(num, number[..i]) + "." + number[i + 1..]
  {
    var i := FirstIndex(number, '.');
    assert number == number[..i + 1] + number[i + 1..];
    assert number[..i + 1] == number[..i] + ['.'];
    CountConcat(number[..i + 1], number[i + 1..], '.');
    CountConcat(number[..i], ['.'], '.');
    SplitFirstPieces(number, '.');
  }

  /** Only the text up to a second decimal point is shown: `split('.')[1]`
      is the segment between the first two points. */
  lemma FormatDropsLaterSegments<V>(num: Numeric<V>, whole: string, fraction: string, rest: string)
    requires '.' !in whole && '.' !in fraction
    ensures FormatDisplayNumber(num, whole + ['.'] + fraction + ['.'] + rest)
      == IntegerDisplay(num, whole) + "." + fraction
  {
    var tail := fraction + ['.'] + rest;
    assert whole + ['.'] + fraction + ['.'] + rest == whole + ['.'] + tail;
    SplitAfterFree(whole, tail);
    SplitAfterFree(fraction, rest);
  }

  /** Splitting `a + "." + b`, when `a` has no point, yields `a` and then the pieces of `b`. */
  lemma SplitAfterFree(a: string, b: string)
    requires '.' !in a
    ensures Split(a + ['.'] + b, '.') == [a] + Split(b, '.')
  {
    var s := a + ['.'] + b;
    assert s[|a|] == '.';
    var i := FirstIndex(s, '.');
    assert s[..i] == a && s[i + 1..] == b;
  }
}
