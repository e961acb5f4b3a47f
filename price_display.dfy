/** Prices are stored in VND/kg and shown everywhere (table cell, filter,
    CSV column, spreadsheet column) as `Math.round(price / 1000)`, the price
    in thousands of VND/kg rounded to the nearest integer, halves upwards. */
module PriceDisplay {

  import opened Text

  /** `Math.round(price / 1000)` for an integral price. */
  function DisplayPrice(price: int): (k: int)
    ensures 1000 * k - 500 <= price < 1000 * k + 500
  {
    (price + 500) / 1000
  }

  /** The rounding is JavaScript's `Math.round`: the floor of `x + 0.5` for
      `x = price / 1000` taken as an exact real. */
  lemma DisplayPriceIsMathRound(price: int)
    ensures DisplayPrice(price) as real <= price as real / 1000.0 + 0.5 < DisplayPrice(price) as real + 1.0
  {
    var k := DisplayPrice(price);
    assert (1000 * k - 500) as real <= price as real < (1000 * k + 500) as real;
  }

  /** A price that is a whole number of thousands is shown as that number. */
  lemma DisplayOfThousands(n: int)
    ensures DisplayPrice(1000 * n) == n
  {
  }

  /** The text the application shows for a stored price:
      `Math.round(price / 1000).toString()`. */
  function DisplayText(price: int): (s: string)
    ensures |s| >= 1 && IsDigit(s[|s| - 1])
    ensures price >= -500 ==> AllDigits(s)
  {
    IntToString(DisplayPrice(price))
  }

  /** The shown text determines the shown number. */
  lemma DisplayTextDeterminesDisplay(p: int, q: int)
    requires DisplayText(p) == DisplayText(q)
    ensures DisplayPrice(p) == DisplayPrice(q)
  {
    IntToStringInjective(DisplayPrice(p), DisplayPrice(q));
  }

  /** The spreadsheet example: 68500 VND/kg is shown as 69. */
  lemma HalfRoundsUp()
    ensures DisplayPrice(68500) == 69 && DisplayText(68500) == "69"
  {
  }
}
