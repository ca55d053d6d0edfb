/**
 * The receipt post-processor of the `server` Flask app: every OCR line is
 * cleaned, lines naming a total, a payment or a discount are dropped, and a
 * line that contains a price `\d+\.\d{2}` becomes an item whose cost is the
 * last price on the line and whose name is the line with every price removed.
 */
module ServerParser {
  import opened Chars
  import opened Receipt

  // ---------------------------------------------------------------------
  // clean_line

  /** The characters `[\w\s\.\$,]` that `clean_line` keeps. */
  predicate Kept(c: char) {
    IsWordChar(c) || IsSpace(c) || c == '.' || c == '$' || c == ','
  }

  /** `re.sub(r"[^\w\s\.\$,]", "", line)`. */
  function CleanLine(line: string): (r: string)
    ensures |r| <= |line|
    ensures forall i :: 0 <= i < |r| ==> Kept(r[i])
  {
    if line == [] then [] else (if Kept(line[0]) then [line[0]] else []) + CleanLine(line[1..])
  }

  /** Every kept character survives as often as it occurs; every other one is gone. */
  lemma {:induction false} CleanLineCounts(line: string)
    ensures forall c :: multiset(CleanLine(line))[c] == if Kept(c) then multiset(line)[c] else 0
  {
    if line != [] {
      CleanLineCounts(line[1..]);
      assert line == [line[0]] + line[1..];
    }
  }

  /** Cleaning works character by character: the survivors keep their order. */
  lemma {:induction false} CleanLineConcat(a: string, b: string)
    ensures CleanLine(a + b) == CleanLine(a) + CleanLine(b)
  {
    if a == [] {
      assert a + b == b;
    } else {
      assert (a + b)[1..] == a[1..] + b;
      CleanLineConcat(a[1..], b);
    }
  }

  /** A line made only of kept characters is left as it is. */
  lemma {:induction false} CleanLineKeepsKept(s: string)
    requires forall i :: 0 <= i < |s| ==> Kept(s[i])
    ensures CleanLine(s) == s
  {
    if s != [] {
      assert forall i :: 0 <= i < |s| - 1 ==> s[1..][i] == s[i + 1];
      CleanLineKeepsKept(s[1..]);
      assert s == [s[0]] + s[1..];
    }
  }

  lemma CleanLineIdempotent(s: string)
    ensures CleanLine(CleanLine(s)) == CleanLine(s)
  {
    CleanLineKeepsKept(CleanLine(s));
  }

  // ---------------------------------------------------------------------
  // should_exclude_line

  const ExcludeKeywords: seq<string> := [
    "subtotal", "total", "change", "balance",
    "amount due", "grand total", "payment", "visa", "mastercard",
    "credit", "debit", "cash", "thank you", "regular price",
    "discount", "savings", "you saved"
  ]

  function AnyOccurs(keywords: seq<string>, s: string): (r: bool)
    ensures r <==> exists k :: 0 <= k < |keywords| && Occurs(keywords[k], s)
  {
    if keywords == [] then false
    else
      var rest := AnyOccurs(keywords[1..], s);
      assert forall k :: 1 <= k < |keywords| ==> keywords[k] == keywords[1..][k - 1];
      Contains(s, keywords[0]) || rest
  }

  /** `any(keyword in line.lower() for keyword in exclude_keywords)`. */
  function ShouldExcludeLine(line: string): bool {
    AnyOccurs(ExcludeKeywords, Lower(line))
  }

  /** A line is excluded exactly when, lower-cased, it contains one of the keywords. */
  lemma ShouldExcludeLineSpec(line: string)
    ensures ShouldExcludeLine(line) <==>
      exists k :: 0 <= k < |ExcludeKeywords| && Occurs(ExcludeKeywords[k], Lower(line))
  {
  }

  /** Any line mentioning "total", in any letter case, is dropped. */
  lemma ExcludesTotalInAnyCase(line: string)
    requires Occurs("total", Lower(line))
    ensures ShouldExcludeLine(line)
  {
    ShouldExcludeLineSpec(line);
    assert ExcludeKeywords[1] == "total";
  }

  // ---------------------------------------------------------------------
  // re.findall(r"\d+\.\d{2}", line) and re.sub(r"\d+\.\d{2}", "", line)

  ghost predicate HasPrice(s: string) {
    exists i: nat, j: nat :: PriceAt(s, i, j)
  }

  /**
   * The end of the match of `\d+\.\d{2}` that starts at `i`, if one does. The
   * digit run is greedy; giving a digit back cannot help, since a digit is
   * never the point the pattern needs next.
   */
  function MatchAt(s: string, i: nat): (r: Option<nat>)
    requires i <= |s|
    ensures r.Some? ==> i < r.value <= |s|
    ensures forall j: nat :: i <= j <= |s| ==> (r == Some(j) <==> PriceAt(s, i, j))
  {
    var q := RunEnd(s, i, IsDigit);
    PriceShape(s, i);
    if i < q && q + 3 <= |s| && s[q] == '.' && IsDigit(s[q + 1]) && IsDigit(s[q + 2]) then
      PriceAtFromChars(s, i, q + 3);
      Some(q + 3)
    else
      None
  }

  /** A price is the match that starts where it starts. */
  lemma MatchAtPrice(s: string, i: nat, j: nat)
    requires PriceAt(s, i, j)
    ensures i < |s| && MatchAt(s, i) == Some(j)
  {
    PriceAtChars(s, i, j);
  }

  datatype Span = Span(start: nat, end: nat)

  /** Position `k` lies inside one of the spans. */
  predicate Covered(spans: seq<Span>, k: nat) {
    spans != [] && (spans[0].start <= k < spans[0].end || Covered(spans[1..], k))
  }

  lemma {:induction false} NotCoveredBefore(spans: seq<Span>, k: nat)
    requires forall i :: 0 <= i < |spans| ==> k < spans[i].start
    ensures !Covered(spans, k)
  {
    if spans != [] {
      NotCoveredBefore(spans[1..], k);
    }
  }

  /**
   * The matches `re.findall` and `re.sub` find from position `p` on: the
   * leftmost match, then the leftmost one after it, and so on. The matches do
   * not overlap, each is a price, and no price starts at a position no match
   * covers.
   */
  function Spans(s: string, p: nat): (r: seq<Span>)
    requires p <= |s|
    ensures forall k :: 0 <= k < |r| ==> p <= r[k].start && PriceAt(s, r[k].start, r[k].end)
    ensures forall k :: 0 <= k < |r| - 1 ==> r[k].end <= r[k + 1].start
    ensures forall k: nat :: p <= k < |s| && !Covered(r, k) ==> MatchAt(s, k).None?
    decreases |s| - p
  {
    if p == |s| then []
    else match MatchAt(s, p)
      case Some(e) =>
        var rest := Spans(s, e);
        var r := [Span(p, e)] + rest;
        assert r[1..] == rest;
        assert forall k: nat :: e <= k ==> (Covered(r, k) <==> Covered(rest, k));
        r
      case None =>
        Spans(s, p + 1)
  }

  /** A line holds a price exactly when `re.findall` finds one in it. */
  lemma FindsPriceIff(s: string)
    ensures Spans(s, 0) != [] <==> HasPrice(s)
  {
    var r := Spans(s, 0);
    if HasPrice(s) {
      var i: nat, j: nat :| PriceAt(s, i, j);
      assert MatchAt(s, i) == Some(j);
    }
    if r != [] {
      assert PriceAt(s, r[0].start, r[0].end);
    }
  }

  /** `re.sub(r"\d+\.\d{2}", "", s[p..])`: the same scan, keeping what no match takes. */
  function Unmatched(s: string, p: nat): string
    requires p <= |s|
    decreases |s| - p
  {
    if p == |s| then []
    else match MatchAt(s, p)
      case Some(e) => Unmatched(s, e)
      case None => [s[p]] + Unmatched(s, p + 1)
  }

  /** The characters of `s` from `k` on that no span covers, in order. */
  function KeepUncovered(s: string, spans: seq<Span>, k: nat): string
    decreases |s| - k
  {
    if k >= |s| then []
    else (if Covered(spans, k) then [] else [s[k]]) + KeepUncovered(s, spans, k + 1)
  }

  lemma {:induction false} KeepUncoveredSkip(s: string, spans: seq<Span>, k: nat, e: nat)
    requires k <= e
    requires forall i: nat :: k <= i < e ==> Covered(spans, i)
    ensures KeepUncovered(s, spans, k) == KeepUncovered(s, spans, e)
    decreases e - k
  {
    if k < e {
      KeepUncoveredSkip(s, spans, k + 1, e);
    }
  }

  lemma {:induction false} KeepUncoveredSame(s: string, a: seq<Span>, b: seq<Span>, k: nat)
    requires forall i: nat :: k <= i ==> Covered(a, i) == Covered(b, i)
    ensures KeepUncovered(s, a, k) == KeepUncovered(s, b, k)
    decreases |s| - k
  {
    if k < |s| {
      KeepUncoveredSame(s, a, b, k + 1);
    }
  }

  /** `re.sub` deletes exactly the matches `re.findall` reports, nothing more. */
  lemma {:induction false} UnmatchedIsUncovered(s: string, p: nat)
    requires p <= |s|
    ensures Unmatched(s, p) == KeepUncovered(s, Spans(s, p), p)
    decreases |s| - p
  {
    if p < |s| {
      match MatchAt(s, p)
      case Some(e) =>
        UnmatchedIsUncovered(s, e);
        var rest := Spans(s, e);
        var r := Spans(s, p);
        assert r == [Span(p, e)] + rest && r[1..] == rest;
        KeepUncoveredSkip(s, r, p, e);
        forall i: nat | e <= i ensures Covered(r, i) == Covered(rest, i) { }
        KeepUncoveredSame(s, r, rest, e);
      case None =>
        UnmatchedIsUncovered(s, p + 1);
        NotCoveredBefore(Spans(s, p + 1), p);
    }
  }

  // ---------------------------------------------------------------------
  // One line, and the loop over the lines

  /**
   * The body of the line loop for one cleaned line: nothing for an excluded
   * line; otherwise, when `re.findall` finds prices, an item with the last
   * price as its cost and, as its name, the line after `re.sub` has deleted
   * every price, stripped.
   */
  function ParseLine(line: string): Option<Item> {
    if ShouldExcludeLine(line) then None
    else
      var prices := Spans(line, 0);
      if prices == [] then None
      else
        var last := prices[|prices| - 1];
        Some(Item(Strip(Unmatched(line, 0)), Cents(line[last.start..last.end])))
  }

  /** No match of `\d+\.\d{2}` starts at `j` or after it. */
  ghost predicate NoMatchFrom(s: string, j: nat) {
    forall k: nat :: j <= k < |s| ==> MatchAt(s, k).None?
  }

  /** The only match the scan reports with no match after it is its last one. */
  lemma LastSpanUnique(s: string, k: nat)
    requires k < |Spans(s, 0)|
    requires NoMatchFrom(s, Spans(s, 0)[k].end)
    ensures k == |Spans(s, 0)| - 1
  {
    var r := Spans(s, 0);
    if k < |r| - 1 {
      var next := r[k + 1];
      MatchAtPrice(s, next.start, next.end);
    }
  }

  /**
   * A cleaned line yields an item exactly when it is not excluded and holds a
   * price; the cost is that of the last match `re.findall` reports, the one
   * after which no match starts.
   */
  lemma ParseLineSpec(line: string)
    ensures ParseLine(line).Some? <==> !ShouldExcludeLine(line) && HasPrice(line)
    ensures ParseLine(line).Some? ==>
      exists i: nat, j: nat :: Span(i, j) in Spans(line, 0) && PriceAt(line, i, j)
        && NoMatchFrom(line, j) && ParseLine(line).value.cost == Cents(line[i..j])
  {
    FindsPriceIff(line);
    var prices := Spans(line, 0);
    if !ShouldExcludeLine(line) && prices != [] {
      var last := prices[|prices| - 1];
      forall k: nat | last.end <= k < |line|
        ensures MatchAt(line, k).None?
      {
        NotCoveredAfter(prices, k);
      }
      assert PriceAt(line, last.start, last.end);
      assert Span(last.start, last.end) in prices;
    }
  }

  /**
   * The name of an item is its line with the characters of every price that
   * `re.findall` reports deleted, then stripped.
   */
  lemma ItemNameWithoutPrices(line: string)
    requires ParseLine(line).Some?
    ensures ParseLine(line).value.name == Strip(KeepUncovered(line, Spans(line, 0), 0))
  {
    UnmatchedIsUncovered(line, 0);
  }

  lemma {:induction false} NotCoveredAfter(spans: seq<Span>, k: nat)
    requires spans != []
    requires forall i :: 0 <= i < |spans| - 1 ==> spans[i].end <= spans[i + 1].start
    requires forall i :: 0 <= i < |spans| ==> spans[i].start <= spans[i].end
    requires spans[|spans| - 1].end <= k
    ensures !Covered(spans, k)
  {
    EndsIncrease(spans);
    if |spans| > 1 {
      NotCoveredAfter(spans[1..], k);
    }
  }

  lemma {:induction false} EndsIncrease(spans: seq<Span>)
    requires spans != []
    requires forall i :: 0 <= i < |spans| - 1 ==> spans[i].end <= spans[i + 1].start
    requires forall i :: 0 <= i < |spans| ==> spans[i].start <= spans[i].end
    ensures spans[0].end <= spans[|spans| - 1].end
  {
    if |spans| > 1 {
      EndsIncrease(spans[1..]);
    }
  }

  /** `[clean_line(line) for line in lines]`. */
  function CleanLines(lines: seq<string>): (r: seq<string>)
    ensures |r| == |lines|
    ensures forall i :: 0 <= i < |lines| ==> r[i] == CleanLine(lines[i])
  {
    seq(|lines|, i requires 0 <= i < |lines| => CleanLine(lines[i]))
  }

  datatype ParseError = NoValidItems

  /** The line loop of `parse_receipt_endpoint` over the OCR output `lines`. */
  method ParseReceipt(lines: seq<string>) returns (res: Result<seq<Item>, ParseError>)
    ensures var items := CollectItems(ParseLine, CleanLines(lines));
      res == if items == [] then Failure(NoValidItems) else Success(items)
  {
    var cleaned := CleanLines(lines);
    var items: seq<Item> := [];
    for i := 0 to |cleaned|
      invariant items == CollectItems(ParseLine, cleaned[..i])
    {
      var line := cleaned[i];
      TakeOneMore(cleaned, i);
      CollectItemsSnoc(ParseLine, cleaned[..i], line);
      var item := ParseLine(line);
      if item.Some? {
        items := items + [item.value];
      }
    }
    assert cleaned[..|cleaned|] == cleaned;
    if items != [] {
      res := Success(items);
    } else {
      res := Failure(NoValidItems);
    }
  }
}
