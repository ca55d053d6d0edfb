/**
 * The records the receipt backends exchange with the client, and the price
 * text `\d+\.\d{2}` both backends look for. A cost is kept in whole cents
 * (hundredths of the currency unit) instead of the `float` the backends build.
 */
module Receipt {
  import opened Chars

  /** One receipt line item, the JSON object `{"item": name, "cost": cost}`. */
  datatype Item = Item(name: string, cost: nat)

  datatype Option<T> = None | Some(value: T)

  datatype Result<T, E> = Success(value: T) | Failure(error: E)

  /** `t` matches `\d+\.\d{2}` exactly: digits, a point, then two digits. */
  predicate IsPriceToken(t: string) {
    |t| >= 4
    && AllDigits(t[..|t| - 3])
    && t[|t| - 3] == '.'
    && IsDigit(t[|t| - 2]) && IsDigit(t[|t| - 1])
  }

  /** `s[i..j]` is a price. */
  ghost predicate PriceAt(s: string, i: nat, j: nat) {
    i <= j <= |s| && IsPriceToken(s[i..j])
  }

  /** The characters of a price, read in the line that holds it. */
  lemma PriceAtChars(s: string, i: nat, j: nat)
    requires PriceAt(s, i, j)
    ensures i + 4 <= j
    ensures forall k :: i <= k < j - 3 ==> IsDigit(s[k])
    ensures s[j - 3] == '.' && IsDigit(s[j - 2]) && IsDigit(s[j - 1])
  {
    var t := s[i..j];
    forall k | i <= k < j - 3
      ensures IsDigit(s[k])
    {
      assert s[k] == t[..|t| - 3][k - i];
    }
    assert s[j - 3] == t[|t| - 3];
    assert s[j - 2] == t[|t| - 2];
    assert s[j - 1] == t[|t| - 1];
  }

  /** A price read off the characters of the line. */
  lemma PriceAtFromChars(s: string, i: nat, j: nat)
    requires i + 4 <= j <= |s|
    requires forall k :: i <= k < j - 3 ==> IsDigit(s[k])
    requires s[j - 3] == '.' && IsDigit(s[j - 2]) && IsDigit(s[j - 1])
    ensures PriceAt(s, i, j)
  {
    var t := s[i..j];
    assert forall k :: i <= k < j - 3 ==> t[..|t| - 3][k - i] == s[k];
  }

  /** The digits of a price are the whole digit run where it starts. */
  lemma PriceFollowsDigitRun(s: string, i: nat, j: nat)
    requires PriceAt(s, i, j)
    ensures RunEnd(s, i, IsDigit) == j - 3
  {
    PriceAtChars(s, i, j);
  }

  /** Where a price starting at `i` must end, and the characters around its point. */
  lemma PriceShape(s: string, i: nat)
    requires i <= |s|
    ensures forall j: nat :: PriceAt(s, i, j) ==>
      var q := RunEnd(s, i, IsDigit);
      j == q + 3 && i < q && s[q] == '.' && IsDigit(s[q + 1]) && IsDigit(s[q + 2])
  {
    forall j: nat | PriceAt(s, i, j)
      ensures var q := RunEnd(s, i, IsDigit);
        j == q + 3 && i < q && s[q] == '.' && IsDigit(s[q + 1]) && IsDigit(s[q + 2])
    {
      PriceAtChars(s, i, j);
      PriceFollowsDigitRun(s, i, j);
    }
  }

  /** One more element taken from the front of a sequence. */
  lemma TakeOneMore<T>(s: seq<T>, i: nat)
    requires i < |s|
    ensures s[..i + 1] == s[..i] + [s[i]]
  {
  }

  function ItemsOf(r: Option<Item>): seq<Item> {
    match r
    case Some(item) => [item]
    case None => []
  }

  /** The items `parse` finds in the lines, in line order, at most one per line. */
  function CollectItems(parse: string -> Option<Item>, lines: seq<string>): (r: seq<Item>)
    ensures |r| <= |lines|
  {
    if lines == [] then [] else ItemsOf(parse(lines[0])) + CollectItems(parse, lines[1..])
  }

  /** The items of two blocks of lines are those of the first block, then those of the second. */
  lemma {:induction false} CollectItemsConcat(parse: string -> Option<Item>, a: seq<string>, b: seq<string>)
    ensures CollectItems(parse, a + b) == CollectItems(parse, a) + CollectItems(parse, b)
  {
    if a == [] {
      assert a + b == b;
    } else {
      assert (a + b)[1..] == a[1..] + b;
      CollectItemsConcat(parse, a[1..], b);
    }
  }

  lemma CollectItemsSnoc(parse: string -> Option<Item>, lines: seq<string>, line: string)
    ensures CollectItems(parse, lines + [line]) == CollectItems(parse, lines) + ItemsOf(parse(line))
  {
    CollectItemsConcat(parse, lines, [line]);
    assert CollectItems(parse, [line]) == ItemsOf(parse(line)) + CollectItems(parse, []);
  }

  /** No item at all exactly when no line yields one. */
  lemma {:induction false} CollectItemsEmptyIff(parse: string -> Option<Item>, lines: seq<string>)
    ensures CollectItems(parse, lines) == [] <==> forall i :: 0 <= i < |lines| ==> parse(lines[i]).None?
  {
    if lines != [] {
      CollectItemsEmptyIff(parse, lines[1..]);
      assert forall i :: 1 <= i < |lines| ==> lines[i] == lines[1..][i - 1];
    }
  }

  /**
   * The value of a price token in cents: `float("12.34")` is 12.34, so 1234
   * cents; the digits before the point are whole units, the two after it cents.
   */
  function Cents(t: string): (c: nat)
    requires IsPriceToken(t)
    ensures c / 100 == NatOf(t[..|t| - 3])
    ensures c % 100 == 10 * DigitValue(t[|t| - 2]) + DigitValue(t[|t| - 1])
  {
    NatOf(t[..|t| - 3]) * 100 + 10 * DigitValue(t[|t| - 2]) + DigitValue(t[|t| - 1])
  }

  /** A number of cents written as a price with two decimals: the numeral `Cents` reads back. */
  function FormatCents(c: nat): (t: string)
    ensures IsPriceToken(t)
  {
    DigitsOf(c / 100) + ['.', DigitChar(c / 10 % 10), DigitChar(c % 10)]
  }

  /** Reading back a formatted cost gives the cost. */
  lemma FormatCentsRoundTrip(c: nat)
    ensures Cents(FormatCents(c)) == c
  {
    var t := FormatCents(c);
    assert t[..|t| - 3] == DigitsOf(c / 100);
    NatOfDigitsOf(c / 100);
    DecimalSplit(c);
  }

  /** A number is its hundreds, its tens digit and its units digit. */
  lemma DecimalSplit(c: nat)
    ensures c / 100 * 100 + 10 * (c / 10 % 10) + c % 10 == c
  {
    var t := c / 10;
    assert c == 10 * t + c % 10;
    assert t == 10 * (t / 10) + t % 10;
    assert t / 10 == c / 100;
  }
}
