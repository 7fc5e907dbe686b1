/**
 * The price helpers of the web client: currency symbols, the printed form of
 * a price, and the estimated cost of a template or a shopping list summed in
 * the first currency found.
 */
module PriceFormat {
  import opened Common
  import Store
  import Text

  /** A currency field of a DTO: absent, `null`, or a code. JavaScript's `!==` tells all three apart. */
  datatype Currency = Undefined | Null | Code(code: string)

  /** A currency field that JavaScript treats as true: a non-empty code. */
  predicate Truthy(c: Currency) {
    c.Code? && c.code != ""
  }

  /** The known currencies and their symbols, in the order they are declared. */
  const CurrencyTable: seq<(string, string)> := [("RUB", "₽"), ("USD", "$"), ("EUR", "€")]

  /** The entry of the first row with that code, if any row has it. */
  function Lookup(table: seq<(string, string)>, code: string): (r: Option<string>)
    ensures r.None? <==> forall i :: 0 <= i < |table| ==> table[i].0 != code
    ensures r.Some? ==> exists i :: 0 <= i < |table| && table[i] == (code, r.value) && forall j :: 0 <= j < i ==> table[j].0 != code
  {
    if table == [] then None
    else if table[0].0 == code then Some(table[0].1)
    else
      var r := Lookup(table[1..], code);
      if r.Some? then
        var i :| 0 <= i < |table[1..]| && table[1..][i] == (code, r.value) && forall j :: 0 <= j < i ==> table[1..][j].0 != code;
        assert table[i + 1] == (code, r.value);
        r
      else r
  }

  /** `getCurrencySymbol`: nothing for a missing code, the symbol of a known code, an unknown code as it is. */
  function CurrencySymbol(c: Currency): (s: string)
    ensures !Truthy(c) ==> s == ""
    ensures Truthy(c) ==> (exists i :: 0 <= i < |CurrencyTable| && CurrencyTable[i] == (c.code, s))
                          || (s == c.code && forall i :: 0 <= i < |CurrencyTable| ==> CurrencyTable[i].0 != c.code)
  {
    if !Truthy(c) then "" else Lookup(CurrencyTable, c.code).GetOr(c.code)
  }

  /**
   * `formatPrice`: the amount, a space, and the currency symbol. The printed
   * amount is the whole text before the first space, which is what lets
   * `FormatPriceInjective` read the amount back.
   */
  function FormatPrice(amount: int, c: Currency): (s: string)
    ensures var n := Text.IntToString(amount);
      |n| < |s| && s[..|n|] == n && s[|n|] == ' ' && (forall k :: 0 <= k < |n| ==> s[k] != ' ')
      && s[|n| + 1..] == CurrencySymbol(c)
  {
    IntToStringHasNoSpace(amount);
    Text.IntToString(amount) + " " + CurrencySymbol(c)
  }

  /** Two amounts joined as `min ~ max`. */
  function Spread(min: int, max: int, c: Currency): string {
    FormatPrice(min, c) + " ~ " + FormatPrice(max, c)
  }

  /** The price part of a template item or of a product's default price; a missing bound reads as 0. */
  datatype Quote = Quote(priceType: Store.PriceType, currency: Currency, min: Option<int>, max: Option<int>)

  /**
   * `getItemPriceString` and `getListItemPriceString`: nothing, one amount, or
   * a range. The text is empty exactly when there is no price, and otherwise
   * starts with the printed lower bound (a missing one printed as 0).
   */
  function PriceString(q: Quote): (s: string)
    ensures s == "" <==> q.priceType.NoPrice?
    ensures !q.priceType.NoPrice? ==> FormatPrice(q.min.GetOr(0), q.currency) <= s
  {
    match q.priceType
    case NoPrice => ""
    case Exact => FormatPrice(q.min.GetOr(0), q.currency)
    case Range => Spread(q.min.GetOr(0), q.max.GetOr(0), q.currency)
  }

  // ---- reading printed prices back ----------------------------------------------------------

  /** A printed integer holds no space. */
  lemma IntToStringHasNoSpace(n: int)
    ensures forall k :: 0 <= k < |Text.IntToString(n)| ==> Text.IntToString(n)[k] != ' '
  {
    var m := if n < 0 then -n else n;
    var digits := Text.NatToString(m);
    assert forall k :: 0 <= k < |digits| ==> Text.IsDigitChar(digits[k]);
    if n < 0 {
      assert Text.IntToString(n) == "-" + digits;
    }
  }

  /** Where the first space of `x + " " + rest` is, when `x` holds none. */
  lemma FirstSpaceAt(x: string, rest: string)
    requires forall k :: 0 <= k < |x| ==> x[k] != ' '
    ensures (x + " " + rest)[|x|] == ' '
    ensures forall k :: 0 <= k < |x| ==> (x + " " + rest)[k] != ' '
  {
  }

  /** A string splits uniquely at its first space when the piece before it holds none. */
  lemma SplitAtSpace(x: string, rest: string, y: string, rest': string)
    requires forall k :: 0 <= k < |x| ==> x[k] != ' '
    requires forall k :: 0 <= k < |y| ==> y[k] != ' '
    requires x + " " + rest == y + " " + rest'
    ensures x == y && rest == rest'
  {
    var s := x + " " + rest;
    FirstSpaceAt(x, rest);
    FirstSpaceAt(y, rest');
    assert |x| == |y|;
    assert x == s[..|x|] == y;
    assert rest == s[|x| + 1..] == rest';
  }

  /** One printed amount gives back the amount. */
  lemma FormatPriceInjective(a: int, b: int, c: Currency)
    requires FormatPrice(a, c) == FormatPrice(b, c)
    ensures a == b
  {
    IntToStringHasNoSpace(a);
    IntToStringHasNoSpace(b);
    SplitAtSpace(Text.IntToString(a), CurrencySymbol(c), Text.IntToString(b), CurrencySymbol(c));
    Text.IntToStringInjective(a, b);
  }

  /** A printed range is its lower amount, a space, and the rest. */
  lemma SpreadShape(a: int, b: int, c: Currency)
    ensures Spread(a, b, c) == Text.IntToString(a) + " " + (CurrencySymbol(c) + " ~ " + FormatPrice(b, c))
  {
    var x, sym, t := Text.IntToString(a), CurrencySymbol(c), FormatPrice(b, c);
    assert (x + " " + sym) + " ~ " + t == x + " " + (sym + " ~ " + t);
  }

  /** A printed range gives back both of its bounds. */
  lemma SpreadInjective(a: int, b: int, a': int, b': int, c: Currency)
    requires Spread(a, b, c) == Spread(a', b', c)
    ensures a == a' && b == b'
  {
    var sym := CurrencySymbol(c);
    SpreadShape(a, b, c);
    SpreadShape(a', b', c);
    IntToStringHasNoSpace(a);
    IntToStringHasNoSpace(a');
    SplitAtSpace(Text.IntToString(a), sym + " ~ " + FormatPrice(b, c), Text.IntToString(a'), sym + " ~ " + FormatPrice(b', c));
    Text.IntToStringInjective(a, a');
    var k := |sym + " ~ "|;
    assert FormatPrice(b, c) == (sym + " ~ " + FormatPrice(b, c))[k..];
    assert FormatPrice(b', c) == (sym + " ~ " + FormatPrice(b', c))[k..];
    FormatPriceInjective(b, b', c);
  }

  /** Two range quotes in one currency print alike exactly when their bounds agree. */
  lemma RangeStringReadsBack(p: Quote, q: Quote)
    requires p.priceType == Store.Range && q.priceType == Store.Range && p.currency == q.currency
    ensures PriceString(p) == PriceString(q) <==> p.min.GetOr(0) == q.min.GetOr(0) && p.max.GetOr(0) == q.max.GetOr(0)
  {
    if PriceString(p) == PriceString(q) {
      SpreadInjective(p.min.GetOr(0), p.max.GetOr(0), q.min.GetOr(0), q.max.GetOr(0), p.currency);
    }
  }

  // ---- the estimated cost -------------------------------------------------------------------

  /** One line of an estimate: a quantity and the price it is multiplied by. Template items are lines. */
  datatype Line = Line(quantity: int, quote: Quote)

  /** A quantity of 0 counts as 1. */
  function Qty(quantity: int): (q: int)
    ensures quantity != 0 ==> q == quantity
    ensures q != 0
  {
    if quantity == 0 then 1 else quantity
  }

  /** The running state of an estimate. */
  datatype Totals = Totals(min: int, max: int, hasPrice: bool)

  /**
   * One line added to the running totals: an unpriced line changes nothing; a
   * priced line in another currency only records that something had a price;
   * an exact price adds the same amount to both totals, a range adds its bounds.
   */
  function Step(t: Totals, line: Line, c: Currency): Totals {
    var q := line.quote;
    if q.priceType == Store.NoPrice then t
    else if q.currency != c then t.(hasPrice := true)
    else
      var n := Qty(line.quantity);
      if q.priceType == Store.Exact then Totals(t.min + q.min.GetOr(0) * n, t.max + q.min.GetOr(0) * n, true)
      else Totals(t.min + q.min.GetOr(0) * n, t.max + q.max.GetOr(0) * n, true)
  }

  /** The totals after every line, in order. */
  function Sums(lines: seq<Line>, c: Currency): Totals {
    if lines == [] then Totals(0, 0, false) else Step(Sums(lines[..|lines| - 1], c), lines[|lines| - 1], c)
  }

  /** The line has a price. */
  predicate Priced(line: Line) {
    line.quote.priceType != Store.NoPrice
  }

  /** Summing two runs of lines one after the other adds their totals. */
  function Combine(a: Totals, b: Totals): Totals {
    Totals(a.min + b.min, a.max + b.max, a.hasPrice || b.hasPrice)
  }

  /** Adding a line after a combination adds it to the second part. */
  lemma StepCombine(t: Totals, u: Totals, line: Line, c: Currency)
    ensures Step(Combine(t, u), line, c) == Combine(t, Step(u, line, c))
  {
  }

  lemma {:induction false} SumsAppend(a: seq<Line>, b: seq<Line>, c: Currency)
    ensures Sums(a + b, c) == Combine(Sums(a, c), Sums(b, c))
    decreases |b|
  {
    if b == [] {
      assert a + b == a;
    } else {
      var b0, last := b[..|b| - 1], b[|b| - 1];
      SumsAppend(a, b0, c);
      assert (a + b)[..|a + b| - 1] == a + b0;
      assert (a + b)[|a + b| - 1] == last;
      assert Sums(a + b, c) == Step(Sums(a + b0, c), last, c);
      StepCombine(Sums(a, c), Sums(b0, c), last, c);
    }
  }

  /** The estimate does not depend on the order of the lines. */
  lemma SumsOrderFree(a: seq<Line>, b: seq<Line>, c: Currency)
    ensures Sums(a + b, c) == Sums(b + a, c)
  {
    SumsAppend(a, b, c);
    SumsAppend(b, a, c);
  }

  /** Something had a price exactly when some line is priced, whatever its currency. */
  lemma {:induction false} SumsHasPrice(lines: seq<Line>, c: Currency)
    ensures Sums(lines, c).hasPrice <==> exists i :: 0 <= i < |lines| && Priced(lines[i])
  {
    if lines != [] {
      var init := lines[..|lines| - 1];
      SumsHasPrice(init, c);
      if exists i :: 0 <= i < |init| && Priced(init[i]) {
        var i :| 0 <= i < |init| && Priced(init[i]);
        assert lines[i] == init[i];
      }
      forall i | 0 <= i < |lines| - 1 ensures lines[i] == init[i] { }
    }
  }

  /** Lines in other currencies add nothing to either total. */
  lemma {:induction false} OtherCurrenciesAddNothing(lines: seq<Line>, c: Currency)
    requires forall i :: 0 <= i < |lines| ==> lines[i].quote.currency != c
    ensures Sums(lines, c).min == 0 && Sums(lines, c).max == 0
  {
    if lines != [] {
      OtherCurrenciesAddNothing(lines[..|lines| - 1], c);
    }
  }

  /** When every line summed has an exact price, both totals agree. */
  lemma {:induction false} ExactPricesAgree(lines: seq<Line>, c: Currency)
    requires forall i :: 0 <= i < |lines| && lines[i].quote.currency == c ==> lines[i].quote.priceType != Store.Range
    ensures Sums(lines, c).min == Sums(lines, c).max
  {
    if lines != [] {
      ExactPricesAgree(lines[..|lines| - 1], c);
    }
  }

  /** The printed estimate: nothing without a priced line, one amount when the totals agree, else the range. */
  function Cost(t: Totals, c: Currency): Option<string> {
    if !t.hasPrice then None
    else if t.min == t.max then Some(FormatPrice(t.min, c))
    else Some(Spread(t.min, t.max, c))
  }

  /** A printed estimate gives back its totals. */
  lemma CostReadsBack(t: Totals, u: Totals, c: Currency)
    requires t.hasPrice && u.hasPrice && (t.min == t.max <==> u.min == u.max)
    requires Cost(t, c) == Cost(u, c)
    ensures t.min == u.min && t.max == u.max
  {
    if t.min == t.max {
      FormatPriceInjective(t.min, u.min, c);
    } else {
      SpreadInjective(t.min, t.max, u.min, u.max, c);
    }
  }

  /** The currency of the first element whose currency is truthy, as `find(...)?.currency` gives it. */
  function FirstCurrency(cs: seq<Currency>): (r: Currency)
    ensures r == Undefined <==> forall i :: 0 <= i < |cs| ==> !Truthy(cs[i])
    ensures r != Undefined ==> Truthy(r) && exists i :: 0 <= i < |cs| && cs[i] == r && forall j :: 0 <= j < i ==> !Truthy(cs[j])
  {
    if cs == [] then Undefined
    else if Truthy(cs[0]) then cs[0]
    else
      var r := FirstCurrency(cs[1..]);
      assert forall i :: 1 <= i < |cs| ==> cs[i] == cs[1..][i - 1];
      if r != Undefined then
        var i :| 0 <= i < |cs[1..]| && cs[1..][i] == r && forall j :: 0 <= j < i ==> !Truthy(cs[1..][j]);
        assert cs[i + 1] == r;
        r
      else r
  }

  function CurrenciesOf(items: seq<Line>): seq<Currency> {
    seq(|items|, i requires 0 <= i < |items| => items[i].quote.currency)
  }

  /** `calculateTemplateCost`: nothing for no items, else the estimate in the first currency found. */
  function TemplateCost(items: seq<Line>): Option<string> {
    if |items| == 0 then None
    else
      var c := FirstCurrency(CurrenciesOf(items));
      Cost(Sums(items, c), c)
  }

  /** An estimate is printed exactly when some item has a price. */
  lemma TemplateCostPrinted(items: seq<Line>)
    ensures TemplateCost(items).Some? <==> exists i :: 0 <= i < |items| && Priced(items[i])
  {
    if |items| > 0 {
      SumsHasPrice(items, FirstCurrency(CurrenciesOf(items)));
    }
  }

  /** Lines 34-66, the loop kept. */
  method CalculateTemplateCost(items: seq<Line>) returns (r: Option<string>)
    ensures r == TemplateCost(items)
  {
    if |items| == 0 {
      return None;
    }
    var minTotal, maxTotal, hasPrice := 0, 0, false;
    var currency := FirstCurrency(CurrenciesOf(items));
    for i := 0 to |items|
      invariant Totals(minTotal, maxTotal, hasPrice) == Sums(items[..i], currency)
    {
      assert items[..i + 1][..i] == items[..i];
      var item := items[i];
      if item.quote.priceType == Store.NoPrice {
        continue;
      }
      hasPrice := true;
      if item.quote.currency != currency {
        continue;
      }
      var qty := Qty(item.quantity);
      if item.quote.priceType == Store.Exact {
        var price := item.quote.min.GetOr(0);
        minTotal := minTotal + price * qty;
        maxTotal := maxTotal + price * qty;
      } else if item.quote.priceType == Store.Range {
        minTotal := minTotal + item.quote.min.GetOr(0) * qty;
        maxTotal := maxTotal + item.quote.max.GetOr(0) * qty;
      }
    }
    assert items[..|items|] == items;
    if !hasPrice {
      return None;
    }
    if minTotal == maxTotal {
      return Some(FormatPrice(minTotal, currency));
    }
    return Some(Spread(minTotal, maxTotal, currency));
  }

  /** A shopping item names the product whose default price it is estimated at. */
  datatype ShoppingItem = ShoppingItem(productId: string, quantity: int)

  datatype Product = Product(id: string, quote: Quote)

  /** `new Map(products.map(p => [p.id, p]))`: a later product with the same id replaces an earlier one. */
  function ProductMap(products: seq<Product>): (m: map<string, Quote>)
    ensures forall id :: id in m <==> exists i :: 0 <= i < |products| && products[i].id == id
  {
    if products == [] then map[]
    else
      var init := products[..|products| - 1];
      var m := ProductMap(init);
      assert forall i :: 0 <= i < |init| ==> init[i] == products[i];
      m[products[|products| - 1].id := products[|products| - 1].quote]
  }

  /** The product a map entry holds is the last one with that id. */
  lemma {:induction false} ProductMapLastWins(products: seq<Product>, i: int)
    requires 0 <= i < |products|
    requires forall j :: i < j < |products| ==> products[j].id != products[i].id
    ensures ProductMap(products)[products[i].id] == products[i].quote
  {
    if i < |products| - 1 {
      var init := products[..|products| - 1];
      ProductMapLastWins(init, i);
    }
  }

  /** The lines of a shopping list: items with no product id, or an unknown one, are skipped. */
  function ListLines(items: seq<ShoppingItem>, products: map<string, Quote>): seq<Line> {
    if items == [] then []
    else
      var item := items[|items| - 1];
      ListLines(items[..|items| - 1], products)
        + (if item.productId != "" && item.productId in products then [Line(item.quantity, products[item.productId])] else [])
  }

  function ProductCurrencies(products: seq<Product>): seq<Currency> {
    seq(|products|, i requires 0 <= i < |products| => products[i].quote.currency)
  }

  /**
   * `calculateListCost`: nothing for no items, else the estimate over the
   * items' products, in the first currency found among all the products.
   */
  function ListCost(items: seq<ShoppingItem>, products: seq<Product>): Option<string> {
    if |items| == 0 then None
    else
      var c := FirstCurrency(ProductCurrencies(products));
      Cost(Sums(ListLines(items, ProductMap(products)), c), c)
  }

  /** An item without a product, or with an unknown one, leaves the estimate as it is. */
  lemma UnknownProductIgnored(items: seq<ShoppingItem>, products: seq<Product>, x: ShoppingItem)
    requires |items| > 0
    requires x.productId == "" || forall i :: 0 <= i < |products| ==> products[i].id != x.productId
    ensures ListCost(items + [x], products) == ListCost(items, products)
  {
    var m := ProductMap(products);
    assert (items + [x])[..|items|] == items;
    assert x.productId == "" || x.productId !in m;
    assert ListLines(items + [x], m) == ListLines(items, m) + [];
    assert ListLines(items, m) + [] == ListLines(items, m);
  }

  /** The lines of one more item. */
  lemma ListLinesSnoc(items: seq<ShoppingItem>, i: int, products: map<string, Quote>)
    requires 0 <= i < |items|
    ensures var item := items[i];
      ListLines(items[..i + 1], products)
        == ListLines(items[..i], products)
           + (if item.productId != "" && item.productId in products then [Line(item.quantity, products[item.productId])] else [])
  {
    assert items[..i + 1][..i] == items[..i];
  }

  lemma SumsSnoc(lines: seq<Line>, line: Line, c: Currency)
    ensures Sums(lines + [line], c) == Step(Sums(lines, c), line, c)
  {
    assert (lines + [line])[..|lines|] == lines;
  }

  /** Lines 68-110, the loop kept. */
  method CalculateListCost(items: seq<ShoppingItem>, products: seq<Product>) returns (r: Option<string>)
    ensures r == ListCost(items, products)
  {
    if |items| == 0 {
      return None;
    }
    var productMap := ProductMap(products);
    var currency := FirstCurrency(ProductCurrencies(products));
    var minTotal, maxTotal, hasPrice := SumListLines(items, productMap, currency);
    if !hasPrice {
      return None;
    }
    if minTotal == maxTotal {
      return Some(FormatPrice(minTotal, currency));
    }
    return Some(Spread(minTotal, maxTotal, currency));
  }

  /** Lines 84-104: the loop over the items, adding each known product's price times its quantity. */
  method SumListLines(items: seq<ShoppingItem>, productMap: map<string, Quote>, currency: Currency)
    returns (minTotal: int, maxTotal: int, hasPrice: bool)
    ensures Totals(minTotal, maxTotal, hasPrice) == Sums(ListLines(items, productMap), currency)
  {
    minTotal, maxTotal, hasPrice := 0, 0, false;
    ghost var lines: seq<Line> := [];
    for i := 0 to |items|
      invariant lines == ListLines(items[..i], productMap)
      invariant Totals(minTotal, maxTotal, hasPrice) == Sums(lines, currency)
    {
      var item := items[i];
      ListLinesSnoc(items, i, productMap);
      if item.productId == "" || item.productId !in productMap {
        assert lines + [] == lines;
        continue;
      }
      var product := productMap[item.productId];
      ghost var line := Line(item.quantity, product);
      SumsSnoc(lines, line, currency);
      lines := lines + [line];
      if product.priceType == Store.NoPrice {
        continue;
      }
      hasPrice := true;
      if product.currency != currency {
        continue;
      }
      var qty := Qty(item.quantity);
      if product.priceType == Store.Exact {
        var price := product.min.GetOr(0);
        minTotal := minTotal + price * qty;
        maxTotal := maxTotal + price * qty;
      } else if product.priceType == Store.Range {
        minTotal := minTotal + product.min.GetOr(0) * qty;
        maxTotal := maxTotal + product.max.GetOr(0) * qty;
      }
    }
    assert items[..|items|] == items;
  }
}
