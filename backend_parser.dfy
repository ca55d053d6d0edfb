/**
 * The receipt post-processor of the `backend` Flask app. A line becomes an
 * item only when the whole line reads as a name, white space and a price at
 * the very end: `re.match(r"(.+?)\s+(\d+\.\d{2})$", line)`. Lines are not
 * cleaned, no keyword is filtered out, and a receipt without any such line
 * gives an empty list, which is still a success.
 */
module BackendParser {
  import opened Chars
  import opened Receipt

  /** Where `$` lets a match end: the end of the line, or just before a final newline. */
  function BodyEnd(s: string): (e: nat)
    ensures e <= |s|
    ensures e == |s| || (e == |s| - 1 && s[e] == '\n')
  {
    if |s| > 0 && s[|s| - 1] == '\n' then |s| - 1 else |s|
  }

  /** `s[n..m]` is white space and the rest of the line, up to where `$` matches, a price. */
  ghost predicate SpaceThenPrice(s: string, n: nat, m: nat) {
    n < m <= BodyEnd(s)
    && (forall k :: n <= k < m ==> IsSpace(s[k]))
    && PriceAt(s, m, BodyEnd(s))
  }

  /**
   * The line splits as the pattern wants it: a non-empty name `s[..n]` without
   * a newline (`.` does not match one), white space `s[n..m]`, then a price
   * that ends where `$` matches.
   */
  ghost predicate Decomposes(s: string, n: nat, m: nat) {
    1 <= n
    && SpaceThenPrice(s, n, m)
    && (forall k :: 0 <= k < n ==> s[k] != '\n')
  }

  /** Where white space and a price after `n` must put the price, and its point. */
  lemma TailShape(s: string, n: nat)
    requires n <= |s|
    ensures forall m': nat :: SpaceThenPrice(s, n, m') ==>
      var m := RunEnd(s, n, IsSpace);
      var q := RunEnd(s, m, IsDigit);
      m' == m && n < m < q && q + 3 == BodyEnd(s)
      && s[q] == '.' && IsDigit(s[q + 1]) && IsDigit(s[q + 2])
  {
    var m := RunEnd(s, n, IsSpace);
    forall m': nat | SpaceThenPrice(s, n, m')
      ensures m' == m && n < m < RunEnd(s, m, IsDigit) && RunEnd(s, m, IsDigit) + 3 == BodyEnd(s)
    {
      PriceAtChars(s, m', BodyEnd(s));
      PriceFollowsDigitRun(s, m', BodyEnd(s));
    }
    PriceShape(s, m);
  }

  /**
   * `\s+(\d+\.\d{2})$` tried at position `n`: the start of the price when it
   * matches. Both runs are greedy; giving back a character of either cannot
   * help, since that leaves a space where a digit must come or a digit where
   * the point must come.
   */
  function TailAt(s: string, n: nat): (r: Option<nat>)
    requires n <= |s|
    ensures forall m: nat :: r == Some(m) <==> SpaceThenPrice(s, n, m)
  {
    var m := RunEnd(s, n, IsSpace);
    var q := RunEnd(s, m, IsDigit);
    TailShape(s, n);
    if n < m && m < q && q + 3 <= |s| && s[q] == '.' && IsDigit(s[q + 1]) && IsDigit(s[q + 2])
      && (q + 3 == |s| || (q + 3 == |s| - 1 && s[q + 3] == '\n'))
    then
      assert BodyEnd(s) == q + 3;
      PriceAtFromChars(s, m, q + 3);
      Some(m)
    else
      None
  }

  /**
   * The lazy `(.+?)`: the name grows one character at a time, from `s[..n]`
   * on, and never over a newline, until the rest of the pattern matches. The
   * result is the end of the name and the start of the price.
   */
  function LazyFrom(s: string, n: nat): (r: Option<(nat, nat)>)
    requires 1 <= n
    requires forall k :: 0 <= k < n - 1 && k < |s| ==> s[k] != '\n'
    ensures r.Some? ==> n <= r.value.0 && Decomposes(s, r.value.0, r.value.1)
    ensures r.Some? ==> forall n': nat, m: nat :: n <= n' < r.value.0 ==> !Decomposes(s, n', m)
    ensures r.None? ==> forall n': nat, m: nat :: n <= n' ==> !Decomposes(s, n', m)
    decreases |s| - n
  {
    if n > |s| || s[n - 1] == '\n' then None
    else match TailAt(s, n)
      case Some(m) => Some((n, m))
      case None => LazyFrom(s, n + 1)
  }

  /** The two groups of a match: the name `line[..nameEnd]` and the price `line[priceStart..BodyEnd(line)]`. */
  datatype Groups = Groups(nameEnd: nat, priceStart: nat)

  /** `re.match(r"(.+?)\s+(\d+\.\d{2})$", line)`. */
  function Match(line: string): (r: Option<Groups>)
    ensures r.Some? ==> Decomposes(line, r.value.nameEnd, r.value.priceStart)
  {
    match LazyFrom(line, 1)
    case Some((n, m)) => Some(Groups(n, m))
    case None => None
  }

  /** The item of one line: `group(1).strip()` as the name, `group(2)` as the cost. */
  function LineItem(line: string): Option<Item> {
    match Match(line)
    case Some(g) => Some(Item(Strip(line[..g.nameEnd]), Cents(line[g.priceStart..BodyEnd(line)])))
    case None => None
  }

  /** However a line decomposes, the price starts at the same place. */
  lemma PriceStartUnique(s: string, n1: nat, m1: nat, n2: nat, m2: nat)
    requires SpaceThenPrice(s, n1, m1) && SpaceThenPrice(s, n2, m2)
    ensures m1 == m2
  {
    PriceAtChars(s, m1, BodyEnd(s));
    PriceAtChars(s, m2, BodyEnd(s));
    assert IsSpace(s[m1 - 1]) && IsSpace(s[m2 - 1]);
  }

  /**
   * A line yields an item exactly when it decomposes as name, white space and
   * price; the cost is that price and the name everything before the white
   * space in front of it, stripped.
   */
  lemma LineItemSpec(line: string)
    ensures LineItem(line).Some? <==> exists n: nat, m: nat :: Decomposes(line, n, m)
    ensures forall n: nat, m: nat :: Decomposes(line, n, m) ==>
      LineItem(line) == Some(Item(Strip(line[..m]), Cents(line[m..BodyEnd(line)])))
  {
    var r := LazyFrom(line, 1);
    if r.Some? {
      var (n0, m0) := r.value;
      forall n: nat, m: nat | Decomposes(line, n, m)
        ensures LineItem(line) == Some(Item(Strip(line[..m]), Cents(line[m..BodyEnd(line)])))
      {
        PriceStartUnique(line, n0, m0, n, m);
        assert line[..m] == line[..n0] + line[n0..m];
        StripTrailingSpaces(line[..n0], line[n0..m]);
      }
    }
  }

  /**
   * No keyword filter: any name, a space and a price make an item, whatever
   * the name says ("Total 12.00" gives the item "Total" costing 1200 cents).
   */
  lemma NameSpacePriceIsAnItem(name: string, price: string)
    requires name != [] && forall k :: 0 <= k < |name| ==> name[k] != '\n'
    requires IsPriceToken(price)
    ensures LineItem(name + " " + price) == Some(Item(Strip(name), Cents(price)))
  {
    var s := name + " " + price;
    var n := |name|;
    assert s[..n + 1] == name + " ";
    assert s[n + 1..|s|] == price;
    assert BodyEnd(s) == |s|;
    assert PriceAt(s, n + 1, |s|);
    assert s[n] == ' ';
    assert SpaceThenPrice(s, n, n + 1);
    assert Decomposes(s, n, n + 1);
    LineItemSpec(s);
    StripTrailingSpaces(name, " ");
  }

  /** The line loop of `parse_receipt_endpoint` over the OCR output `lines`. */
  method ParseReceipt(lines: seq<string>) returns (items: seq<Item>)
    ensures items == CollectItems(LineItem, lines)
  {
    items := [];
    for i := 0 to |lines|
      invariant items == CollectItems(LineItem, lines[..i])
    {
      var line := lines[i];
      TakeOneMore(lines, i);
      CollectItemsSnoc(LineItem, lines[..i], line);
      var m := Match(line);
      if m.Some? {
        var name := Strip(line[..m.value.nameEnd]);
        var price := Cents(line[m.value.priceStart..BodyEnd(line)]);
        items := items + [Item(name, price)];
      }
    }
    assert lines[..|lines|] == lines;
  }
}
