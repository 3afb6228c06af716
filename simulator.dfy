/** The paper-trading ledger of the simulator page: a cash balance and an
    ordered list of holdings (at most one per symbol), changed by buy and sell
    trades against a catalogue of quotes. Money is exact (`real`). */
module Simulator {
  import opened Wrappers

  /** A catalogue quote. */
  datatype Stock = Stock(symbol: string, name: string, price: real, change: real)

  /** A percentage obtained by a division; `NotFinite` stands for the
      Infinity or NaN that JavaScript produces when the divisor is zero. */
  datatype Percent = Finite(value: real) | NotFinite

  /** A position in one symbol. `totalValue`, `pnl` and `pnlPercent` are
      derived fields, written whenever the holding is written. */
  datatype Holding = Holding(
    symbol: string,
    name: string,
    quantity: int,
    avgPrice: real,
    currentPrice: real,
    totalValue: real,
    pnl: real,
    pnlPercent: Percent)

  datatype Action = Buy | Sell

  /** What one call of the trade handler did. Every rejection leaves the
      ledger exactly as it was. */
  datatype TradeResult = Executed | UnknownSymbol | InsufficientFunds | InsufficientShares

  /** The cash a fresh simulator starts with. */
  const StartingBalance: real := 10000.0

  /** `(current - avg) / avg * 100`: how far the quote is above the average
      cost, in percent of the average cost. */
  function PnlPercent(current: real, avg: real): (r: Percent)
    ensures r.NotFinite? <==> avg == 0.0
    ensures r.Finite? ==> r.value * avg == (current - avg) * 100.0
  {
    if avg == 0.0 then NotFinite else Finite((current - avg) / avg * 100.0)
  }

  /** `xs.find(x => key(x) === symbol)`: the first entry whose key is the
      symbol. */
  function FindFirst<T>(xs: seq<T>, key: T -> string, symbol: string): (r: Option<T>)
    ensures r.None? <==> forall i :: 0 <= i < |xs| ==> key(xs[i]) != symbol
    ensures r.Some? ==>
      exists i :: 0 <= i < |xs| && xs[i] == r.value && key(r.value) == symbol &&
        forall j :: 0 <= j < i ==> key(xs[j]) != symbol
  {
    if xs == [] then None
    else if key(xs[0]) == symbol then Some(xs[0])
    else
      var r := FindFirst(xs[1..], key, symbol);
      assert r.Some? ==>
        exists i :: 0 <= i < |xs| && xs[i] == r.value && key(r.value) == symbol &&
          forall j :: 0 <= j < i ==> key(xs[j]) != symbol
      by {
        if r.Some? {
          var i :| 0 <= i < |xs[1..]| && xs[1..][i] == r.value && key(r.value) == symbol &&
            forall j :: 0 <= j < i ==> key(xs[1..][j]) != symbol;
          assert xs[i + 1] == r.value;
          assert forall j :: 0 <= j < i + 1 ==> key(xs[j]) != symbol by {
            forall j | 0 <= j < i + 1 ensures key(xs[j]) != symbol {
              if j > 0 { assert xs[j] == xs[1..][j - 1]; }
            }
          }
        }
      }
      r
  }

  function StockSymbol(s: Stock): string { s.symbol }

  function HoldingSymbol(h: Holding): string { h.symbol }

  /** `stocks.find(s => s.symbol === symbol)`: the first quote for the symbol. */
  function FindStock(stocks: seq<Stock>, symbol: string): Option<Stock> {
    FindFirst(stocks, StockSymbol, symbol)
  }

  /** `holdings.find(h => h.symbol === symbol)`: the first holding of the symbol. */
  function FindHolding(hs: seq<Holding>, symbol: string): Option<Holding> {
    FindFirst(hs, HoldingSymbol, symbol)
  }

  // ---------------------------------------------------------------------
  // Invariants of the holdings list

  /** The derived fields of a holding agree with its quantity and prices,
      and the quantity is positive (a holding at zero is removed). */
  predicate Consistent(h: Holding) {
    && h.quantity > 0
    && h.totalValue == h.currentPrice * h.quantity as real
    && h.pnl == h.totalValue - h.avgPrice * h.quantity as real
    && h.pnlPercent == PnlPercent(h.currentPrice, h.avgPrice)
  }

  /** At most one holding per symbol. */
  predicate UniqueSymbols(hs: seq<Holding>) {
    forall i, j :: 0 <= i < j < |hs| ==> hs[i].symbol != hs[j].symbol
  }

  predicate ValidHoldings(hs: seq<Holding>) {
    UniqueSymbols(hs) && forall i :: 0 <= i < |hs| ==> Consistent(hs[i])
  }

  // ---------------------------------------------------------------------
  // The new holdings list of a buy

  /** The holding a buy appends when the symbol is not held yet: bought at
      `price`, valued at the catalogue price. */
  function Opened(symbol: string, stock: Stock, quantity: int, price: real): Holding {
    Holding(symbol, stock.name, quantity, price, stock.price,
            stock.price * quantity as real,
            (stock.price - price) * quantity as real,
            PnlPercent(stock.price, price))
  }

  /** The fields a buy computes from the existing holding of the symbol:
      the quantities add up and the average price is the weighted average of
      the old average and the trade price. */
  function Merged(existing: Holding, stock: Stock, quantity: int, price: real): Holding
    requires existing.quantity + quantity != 0
  {
    var newQuantity := existing.quantity + quantity;
    var newAvgPrice :=
      (existing.avgPrice * existing.quantity as real + price * quantity as real) / newQuantity as real;
    var newTotalValue := stock.price * newQuantity as real;
    existing.(quantity := newQuantity,
              avgPrice := newAvgPrice,
              currentPrice := stock.price,
              totalValue := newTotalValue,
              pnl := newTotalValue - newAvgPrice * newQuantity as real,
              pnlPercent := PnlPercent(stock.price, newAvgPrice))
  }

  /** `{...h, <the computed fields of m>}`: h keeps its symbol and name. */
  function Overlay(h: Holding, m: Holding): Holding {
    h.(quantity := m.quantity, avgPrice := m.avgPrice, currentPrice := m.currentPrice,
       totalValue := m.totalValue, pnl := m.pnl, pnlPercent := m.pnlPercent)
  }

  /** `prev.map(h => h.symbol === symbol ? {...h, <fields of m>} : h)`. */
  function MergeInto(hs: seq<Holding>, symbol: string, m: Holding): seq<Holding> {
    seq(|hs|, i requires 0 <= i < |hs| => if hs[i].symbol == symbol then Overlay(hs[i], m) else hs[i])
  }

  /** The holdings after a buy that passed the funds check: merged into the
      holding of the symbol when there is one, else appended at the end. */
  function BuyInto(hs: seq<Holding>, symbol: string, stock: Stock, quantity: int, price: real): seq<Holding>
    requires quantity > 0
    requires forall i :: 0 <= i < |hs| ==> hs[i].quantity > 0
  {
    match FindHolding(hs, symbol)
    case Some(existing) =>
      MergeInto(hs, symbol, Merged(existing, stock, quantity, price))
    case None =>
      hs + [Opened(symbol, stock, quantity, price)]
  }

  // ---------------------------------------------------------------------
  // The new holdings list of a sell

  /** A sold-down holding, or None when no shares are left. The average
      price is not touched. */
  function Reduced(h: Holding, stock: Stock, quantity: int): Option<Holding> {
    var newQuantity := h.quantity - quantity;
    if newQuantity == 0 then None
    else
      var newTotalValue := stock.price * newQuantity as real;
      Some(h.(quantity := newQuantity,
              currentPrice := stock.price,
              totalValue := newTotalValue,
              pnl := newTotalValue - h.avgPrice * newQuantity as real,
              pnlPercent := PnlPercent(stock.price, h.avgPrice)))
  }

  /** `filter(Boolean)`: the present entries, in order. */
  function Somes(xs: seq<Option<Holding>>): (r: seq<Holding>)
    ensures |r| <= |xs|
  {
    if xs == [] then []
    else (if xs[0].Some? then [xs[0].value] else []) + Somes(xs[1..])
  }

  /** `prev.map(...)` of a sell: every holding of the symbol sold down. */
  function SoldDown(hs: seq<Holding>, symbol: string, stock: Stock, quantity: int): seq<Option<Holding>> {
    seq(|hs|, i requires 0 <= i < |hs| => if hs[i].symbol == symbol then Reduced(hs[i], stock, quantity) else Some(hs[i]))
  }

  /** The holdings after a sell that passed the shares check: every holding
      of the symbol is sold down, and dropped when it reaches zero. */
  function SellFrom(hs: seq<Holding>, symbol: string, stock: Stock, quantity: int): seq<Holding> {
    Somes(SoldDown(hs, symbol, stock, quantity))
  }

  // ---------------------------------------------------------------------
  // Page totals

  /** The per-holding amounts the page adds up. */
  datatype Field =
    | MarketValue   // the stored `totalValue`
    | Profit        // the stored `pnl`
    | CostOf        // average price times quantity
    | AtQuote       // current price times quantity

  function FieldOf(h: Holding, f: Field): real {
    match f
    case MarketValue => h.totalValue
    case Profit => h.pnl
    case CostOf => h.avgPrice * h.quantity as real
    case AtQuote => h.currentPrice * h.quantity as real
  }

  /** `hs.reduce((sum, h) => sum + <field of h>, 0)`. */
  function Sum(hs: seq<Holding>, f: Field): real {
    if hs == [] then 0.0 else FieldOf(hs[0], f) + Sum(hs[1..], f)
  }

  /** The page's `totalValue`: on consistent holdings, the market value at
      the current prices. */
  function TotalValue(hs: seq<Holding>): (r: real)
    ensures (forall i :: 0 <= i < |hs| ==> Consistent(hs[i])) ==> r == Sum(hs, AtQuote)
  {
    ConsistentTotals(hs);
    Sum(hs, MarketValue)
  }

  /** The page's `totalPnL`: on consistent holdings, the market value less
      what the shares cost. */
  function TotalPnL(hs: seq<Holding>): (r: real)
    ensures (forall i :: 0 <= i < |hs| ==> Consistent(hs[i])) ==> r == Sum(hs, AtQuote) - Sum(hs, CostOf)
  {
    ConsistentTotals(hs);
    Sum(hs, Profit)
  }

  /** What the held shares cost: the sum of average price times quantity. */
  function CostBasis(hs: seq<Holding>): real { Sum(hs, CostOf) }

  // ---------------------------------------------------------------------
  // The ledger

  class Ledger {
    /** The quote catalogue the page trades against. */
    const stocks: seq<Stock>
    var balance: real
    var holdings: seq<Holding>

    ghost predicate Valid()
      reads this
    {
      ValidHoldings(holdings)
    }

    constructor (stocks: seq<Stock>)
      ensures Valid()
      ensures this.stocks == stocks && balance == StartingBalance && holdings == []
    {
      this.stocks := stocks;
      balance := StartingBalance;
      holdings := [];
    }

    /** Applies one trade at `price` per share, or rejects it and changes
        nothing. The derived fields of a written holding use the catalogue
        price, not the trade price. */
    method Trade(action: Action, symbol: string, quantity: int, price: real) returns (result: TradeResult)
      requires Valid()
      requires quantity > 0
      modifies this
      ensures Valid()
      ensures result != Executed ==> balance == old(balance) && holdings == old(holdings)
      ensures FindStock(stocks, symbol).None? ==> result == UnknownSymbol
      ensures FindStock(stocks, symbol).Some? && action == Buy ==>
        var cost := price * quantity as real;
        if cost > old(balance) then
          result == InsufficientFunds
        else
          && result == Executed
          && balance == old(balance) - cost
          && holdings == BuyInto(old(holdings), symbol, FindStock(stocks, symbol).value, quantity, price)
      ensures FindStock(stocks, symbol).Some? && action == Sell ==>
        var held := FindHolding(old(holdings), symbol);
        if held.None? || held.value.quantity < quantity then
          result == InsufficientShares
        else
          && result == Executed
          && balance == old(balance) + price * quantity as real
          && holdings == SellFrom(old(holdings), symbol, FindStock(stocks, symbol).value, quantity)
      ensures old(balance) >= 0.0 && price >= 0.0 ==> balance >= 0.0
    {
      var stock := FindStock(stocks, symbol);
      if stock.None? {
        return UnknownSymbol;
      }
      if action == Buy {
        var totalCost := price * quantity as real;
        if totalCost > balance {
          return InsufficientFunds;
        }
        balance := balance - totalCost;
        BuyKeepsValid(holdings, symbol, stock.value, quantity, price);
        holdings := BuyInto(holdings, symbol, stock.value, quantity, price);
      } else {
        var holding := FindHolding(holdings, symbol);
        if holding.None? || holding.value.quantity < quantity {
          return InsufficientShares;
        }
        var totalValue := price * quantity as real;
        if price >= 0.0 {
          assert quantity as real > 0.0;
          assert totalValue >= 0.0;
        }
        balance := balance + totalValue;
        SellKeepsValid(holdings, symbol, stock.value, quantity);
        holdings := SellFrom(holdings, symbol, stock.value, quantity);
      }
      result := Executed;
    }
  }

  // ---------------------------------------------------------------------
  // Lemmas: lookups

  /** With unique symbols, looking a held symbol up finds that very holding. */
  lemma FindHoldingAt(hs: seq<Holding>, k: int)
    requires UniqueSymbols(hs) && 0 <= k < |hs|
    ensures FindHolding(hs, hs[k].symbol) == Some(hs[k])
  {
    var r := FindHolding(hs, hs[k].symbol);
    var i :| 0 <= i < |hs| && hs[i] == r.value && r.value.symbol == hs[k].symbol &&
      forall j :: 0 <= j < i ==> hs[j].symbol != hs[k].symbol;
    assert i == k;
  }

  /** A successful lookup gives the position of the holding. */
  lemma FoundAt(hs: seq<Holding>, symbol: string) returns (k: int)
    requires FindHolding(hs, symbol).Some?
    ensures 0 <= k < |hs| && hs[k] == FindHolding(hs, symbol).value && hs[k].symbol == symbol
  {
    k :| 0 <= k < |hs| && hs[k] == FindHolding(hs, symbol).value && hs[k].symbol == symbol &&
      forall j :: 0 <= j < k ==> hs[j].symbol != symbol;
  }

  // ---------------------------------------------------------------------
  // Lemmas: buy

  /** Buying a symbol that is not held appends exactly one holding, bought
      at the trade price and valued at the catalogue price; the earlier
      holdings stay as they were. */
  lemma BuyOpensHolding(hs: seq<Holding>, symbol: string, stock: Stock, quantity: int, price: real)
    requires quantity > 0 && forall i :: 0 <= i < |hs| ==> hs[i].quantity > 0
    requires forall i :: 0 <= i < |hs| ==> hs[i].symbol != symbol
    ensures var r := BuyInto(hs, symbol, stock, quantity, price);
      && |r| == |hs| + 1
      && r[..|hs|] == hs
      && r[|hs|].symbol == symbol && r[|hs|].name == stock.name
      && r[|hs|].quantity == quantity
      && r[|hs|].avgPrice == price
      && r[|hs|].currentPrice == stock.price
      && Consistent(r[|hs|])
  {
  }

  /** The weighted average keeps the cost of the shares: new average times
      new quantity is the old cost plus what the trade paid, and it lies
      between the old average and the trade price. */
  lemma MergedWeightedAverage(existing: Holding, stock: Stock, quantity: int, price: real)
    requires existing.quantity > 0 && quantity > 0
    ensures var m := Merged(existing, stock, quantity, price);
      && m.quantity == existing.quantity + quantity
      && m.avgPrice * m.quantity as real == existing.avgPrice * existing.quantity as real + price * quantity as real
      && (existing.avgPrice <= price ==> existing.avgPrice <= m.avgPrice <= price)
      && (price <= existing.avgPrice ==> price <= m.avgPrice <= existing.avgPrice)
      && Consistent(m)
  {
    var m := Merged(existing, stock, quantity, price);
    var q0, q1 := existing.quantity as real, quantity as real;
    var total := existing.avgPrice * q0 + price * q1;
    assert m.quantity as real == q0 + q1;
    assert m.avgPrice == total / (q0 + q1);
    WeightedBetween(existing.avgPrice, price, q0, q1, m.avgPrice);
  }

  /** A weighted average of two prices with positive weights lies between
      them. */
  lemma WeightedBetween(a: real, p: real, q0: real, q1: real, avg: real)
    requires q0 > 0.0 && q1 > 0.0 && avg == (a * q0 + p * q1) / (q0 + q1)
    ensures avg * (q0 + q1) == a * q0 + p * q1
    ensures a <= p ==> a <= avg <= p
    ensures p <= a ==> p <= avg <= a
  {
    var n := q0 + q1;
    var total := a * q0 + p * q1;
    assert avg * n == total;
    assert (avg - a) * n == (p - a) * q1;
    assert (p - avg) * n == (p - a) * q0;
    if a <= p {
      SignOfProduct(p - a, q1);
      SignOfProduct(p - a, q0);
    } else {
      SignOfProduct(a - p, q1);
      SignOfProduct(a - p, q0);
    }
    SignOfProduct(avg - a, n);
    SignOfProduct(p - avg, n);
  }

  /** A product with a positive factor has the sign of the other factor. */
  lemma SignOfProduct(x: real, c: real)
    requires c > 0.0
    ensures x >= 0.0 <==> x * c >= 0.0
    ensures x <= 0.0 <==> x * c <= 0.0
  {
    if x > 0.0 {
      assert x * c > 0.0;
    } else if x < 0.0 {
      assert (-x) * c > 0.0;
    }
  }

  /** Buying a held symbol changes only its holding: quantity adds up, the
      average becomes the weighted average, everything else and the order of
      the list stay as they were. */
  lemma BuyMergesHolding(hs: seq<Holding>, k: int, stock: Stock, quantity: int, price: real)
    requires ValidHoldings(hs) && 0 <= k < |hs| && quantity > 0
    ensures var r := BuyInto(hs, hs[k].symbol, stock, quantity, price);
      && |r| == |hs|
      && r[k].symbol == hs[k].symbol && r[k].name == hs[k].name
      && r[k].quantity == hs[k].quantity + quantity
      && r[k].avgPrice == (hs[k].avgPrice * hs[k].quantity as real + price * quantity as real)
                          / (hs[k].quantity + quantity) as real
      && r[k].currentPrice == stock.price
      && r == hs[k := Merged(hs[k], stock, quantity, price)]
  {
    var symbol := hs[k].symbol;
    FindHoldingAt(hs, k);
    var m := Merged(hs[k], stock, quantity, price);
    var r := BuyInto(hs, symbol, stock, quantity, price);
    assert r == MergeInto(hs, symbol, m);
    assert Overlay(hs[k], m) == m;
    forall i | 0 <= i < |hs| && i != k ensures r[i] == hs[i] {
      assert hs[i].symbol != symbol;
    }
    assert r == hs[k := m];
  }

  /** A buy changes no holding of another symbol, in place; every entry
      is an old one or the symbol's, all quantities stay positive, the
      symbol is held afterwards, and the list grows only when the symbol was
      not held. */
  lemma BuyKeepsOthers(hs: seq<Holding>, symbol: string, stock: Stock, quantity: int, price: real)
    requires quantity > 0 && forall i :: 0 <= i < |hs| ==> hs[i].quantity > 0
    ensures var r := BuyInto(hs, symbol, stock, quantity, price);
      && |r| == |hs| + (if FindHolding(hs, symbol).Some? then 0 else 1)
      && (forall i :: 0 <= i < |hs| && hs[i].symbol != symbol ==> r[i] == hs[i])
      && (forall i :: 0 <= i < |r| ==> r[i].symbol == symbol || r[i] in hs)
      && (forall i :: 0 <= i < |r| ==> r[i].quantity > 0)
      && (exists i :: 0 <= i < |r| && r[i].symbol == symbol)
  {
    var r := BuyInto(hs, symbol, stock, quantity, price);
    if FindHolding(hs, symbol).Some? {
      var k := FoundAt(hs, symbol);
      assert r[k].symbol == symbol;
    } else {
      assert r[|hs|].symbol == symbol;
      assert forall i :: 0 <= i < |hs| ==> r[i] == hs[i];
    }
  }

  /** A buy keeps the holdings list valid: unique symbols, positive
      quantities and consistent derived fields. */
  lemma BuyKeepsValid(hs: seq<Holding>, symbol: string, stock: Stock, quantity: int, price: real)
    requires ValidHoldings(hs) && quantity > 0
    ensures ValidHoldings(BuyInto(hs, symbol, stock, quantity, price))
  {
    if FindHolding(hs, symbol).Some? {
      var k := FoundAt(hs, symbol);
      BuyMergesHolding(hs, k, stock, quantity, price);
      MergedWeightedAverage(hs[k], stock, quantity, price);
      var r := BuyInto(hs, symbol, stock, quantity, price);
      assert r[k] == Merged(hs[k], stock, quantity, price);
    } else {
      BuyOpensHolding(hs, symbol, stock, quantity, price);
    }
  }

  /** The cash a buy spends reappears in the cost basis of the holdings, so
      balance plus cost basis is unchanged by a buy. */
  lemma BuyCostBasis(hs: seq<Holding>, symbol: string, stock: Stock, quantity: int, price: real)
    requires ValidHoldings(hs) && quantity > 0
    ensures CostBasis(BuyInto(hs, symbol, stock, quantity, price)) == CostBasis(hs) + price * quantity as real
  {
    var r := BuyInto(hs, symbol, stock, quantity, price);
    if FindHolding(hs, symbol).Some? {
      var k := FoundAt(hs, symbol);
      var m := Merged(hs[k], stock, quantity, price);
      BuyMergesHolding(hs, k, stock, quantity, price);
      assert r == hs[k := m];
      MergedWeightedAverage(hs[k], stock, quantity, price);
      assert FieldOf(m, CostOf) == FieldOf(hs[k], CostOf) + price * quantity as real;
      SumUpdate(hs, k, m, CostOf);
    } else {
      BuyOpensHolding(hs, symbol, stock, quantity, price);
      assert r == hs + [r[|hs|]];
      SumAppend(hs, r[|hs|], CostOf);
    }
  }

  // ---------------------------------------------------------------------
  // Lemmas: sell

  lemma {:induction false} SomesAllPresent(xs: seq<Option<Holding>>)
    requires forall i :: 0 <= i < |xs| ==> xs[i].Some?
    ensures |Somes(xs)| == |xs|
    ensures forall i :: 0 <= i < |xs| ==> Somes(xs)[i] == xs[i].value
  {
    if xs != [] {
      SomesAllPresent(xs[1..]);
    }
  }

  lemma {:induction false} SomesAppend(a: seq<Option<Holding>>, b: seq<Option<Holding>>)
    ensures Somes(a + b) == Somes(a) + Somes(b)
  {
    if a == [] {
      assert a + b == b;
    } else {
      var head := if a[0].Some? then [a[0].value] else [];
      assert (a + b)[0] == a[0];
      assert (a + b)[1..] == a[1..] + b;
      assert Somes(a + b) == head + Somes(a[1..] + b);
      SomesAppend(a[1..], b);
      assert Somes(a) == head + Somes(a[1..]);
    }
  }

  /** The present entries are exactly the `Some` entries. */
  lemma {:induction false} SomesMembers(xs: seq<Option<Holding>>)
    ensures forall h :: h in Somes(xs) <==> Some(h) in xs
  {
    if xs != [] {
      SomesMembers(xs[1..]);
      assert xs == [xs[0]] + xs[1..];
    }
  }

  /** A sell never lengthens the list; it keeps every holding of another
      symbol as it was, and adds none. */
  lemma SellKeepsOthers(hs: seq<Holding>, symbol: string, stock: Stock, quantity: int)
    ensures |SellFrom(hs, symbol, stock, quantity)| <= |hs|
    ensures forall h: Holding :: h.symbol != symbol ==>
      (h in SellFrom(hs, symbol, stock, quantity) <==> h in hs)
  {
    var xs := SoldDown(hs, symbol, stock, quantity);
    SomesMembers(xs);
    forall h: Holding | h.symbol != symbol ensures Some(h) in xs <==> h in hs {
      if Some(h) in xs {
        var i :| 0 <= i < |xs| && xs[i] == Some(h);
        assert hs[i].symbol != symbol;
      }
      if h in hs {
        var i :| 0 <= i < |hs| && hs[i] == h;
        assert xs[i] == Some(h);
      }
    }
  }

  /** Selling part of a holding lowers its quantity by the amount sold and
      leaves its average price, the other holdings and the order alone. */
  lemma SellReducesHolding(hs: seq<Holding>, k: int, stock: Stock, quantity: int)
    requires ValidHoldings(hs) && 0 <= k < |hs| && quantity > 0
    requires hs[k].quantity > quantity
    ensures var r := SellFrom(hs, hs[k].symbol, stock, quantity);
      && |r| == |hs|
      && r[k].symbol == hs[k].symbol && r[k].name == hs[k].name
      && r[k].quantity == hs[k].quantity - quantity
      && r[k].avgPrice == hs[k].avgPrice
      && r[k].currentPrice == stock.price
      && Consistent(r[k])
      && r == hs[k := r[k]]
  {
    SoldDownAt(hs, k, stock, quantity);
  }

  /** A sell that leaves shares of a uniquely held symbol replaces that one
      holding by its sold-down version. */
  lemma SoldDownAt(hs: seq<Holding>, k: int, stock: Stock, quantity: int)
    requires UniqueSymbols(hs) && 0 <= k < |hs| && hs[k].quantity != quantity
    ensures SellFrom(hs, hs[k].symbol, stock, quantity) == hs[k := Reduced(hs[k], stock, quantity).value]
  {
    var symbol := hs[k].symbol;
    var xs := SoldDown(hs, symbol, stock, quantity);
    var target := hs[k := Reduced(hs[k], stock, quantity).value];
    forall i | 0 <= i < |hs| ensures xs[i] == Some(target[i]) {
      if i != k {
        assert hs[i].symbol != symbol;
      }
    }
    SomesAllPresent(xs);
    assert Somes(xs) == target;
  }

  /** Selling all shares of a holding removes exactly that holding; the
      others keep their order. */
  lemma SellRemovesHolding(hs: seq<Holding>, k: int, stock: Stock)
    requires UniqueSymbols(hs) && 0 <= k < |hs|
    ensures SellFrom(hs, hs[k].symbol, stock, hs[k].quantity) == hs[..k] + hs[k + 1..]
  {
    var symbol := hs[k].symbol;
    var xs := SoldDown(hs, symbol, stock, hs[k].quantity);
    var pre, post := xs[..k], xs[k + 1..];
    forall i | 0 <= i < |pre| ensures pre[i] == Some(hs[..k][i]) {
      assert hs[i].symbol != symbol;
    }
    forall i | 0 <= i < |post| ensures post[i] == Some(hs[k + 1..][i]) {
      assert hs[k + 1 + i].symbol != symbol;
    }
    assert xs[k] == None;
    assert xs == pre + [None] + post;
    SomesAppend(pre + [None], post);
    SomesAppend(pre, [None]);
    SomesAllPresent(pre);
    SomesAllPresent(post);
    assert Somes(pre) == hs[..k];
    assert Somes(post) == hs[k + 1..];
    assert Somes([None]) == [];
  }

  /** A sell that passed the shares check keeps the holdings list valid. */
  lemma SellKeepsValid(hs: seq<Holding>, symbol: string, stock: Stock, quantity: int)
    requires ValidHoldings(hs) && quantity > 0
    requires FindHolding(hs, symbol).Some? && FindHolding(hs, symbol).value.quantity >= quantity
    ensures ValidHoldings(SellFrom(hs, symbol, stock, quantity))
  {
    var k := FoundAt(hs, symbol);
    if hs[k].quantity == quantity {
      SellRemovesHolding(hs, k, stock);
      var r := hs[..k] + hs[k + 1..];
      forall i, j | 0 <= i < j < |r| ensures r[i].symbol != r[j].symbol {
        var i', j' := if i < k then i else i + 1, if j < k then j else j + 1;
        assert r[i] == hs[i'] && r[j] == hs[j'];
      }
      forall i | 0 <= i < |r| ensures Consistent(r[i]) {
        assert r[i] == hs[if i < k then i else i + 1];
      }
    } else {
      SellReducesHolding(hs, k, stock, quantity);
    }
  }

  /** A sell takes the sold shares out of the cost basis at their average
      price (not at the trade price): realised gains are not tracked. */
  lemma SellCostBasis(hs: seq<Holding>, k: int, stock: Stock, quantity: int)
    requires ValidHoldings(hs) && 0 <= k < |hs| && 0 < quantity <= hs[k].quantity
    ensures CostBasis(SellFrom(hs, hs[k].symbol, stock, quantity))
         == CostBasis(hs) - hs[k].avgPrice * quantity as real
  {
    if hs[k].quantity == quantity {
      SellRemovesHolding(hs, k, stock);
      SumRemove(hs, k, CostOf);
    } else {
      SellReducesHolding(hs, k, stock, quantity);
      var r := SellFrom(hs, hs[k].symbol, stock, quantity);
      var a, q0, q := hs[k].avgPrice, hs[k].quantity as real, quantity as real;
      assert r[k].avgPrice == a && r[k].quantity as real == q0 - q;
      assert a * (q0 - q) == a * q0 - a * q;
      assert FieldOf(r[k], CostOf) == FieldOf(hs[k], CostOf) - a * q;
      SumUpdate(hs, k, r[k], CostOf);
    }
  }

  // ---------------------------------------------------------------------
  // Lemmas: totals

  lemma {:induction false} SumAppend(hs: seq<Holding>, h: Holding, f: Field)
    ensures Sum(hs + [h], f) == Sum(hs, f) + FieldOf(h, f)
  {
    if hs != [] {
      assert (hs + [h])[1..] == hs[1..] + [h];
      SumAppend(hs[1..], h, f);
    }
  }

  /** Replacing one holding changes a total by the difference of the two
      entries. */
  lemma {:induction false} SumUpdate(hs: seq<Holding>, k: int, h: Holding, f: Field)
    requires 0 <= k < |hs|
    ensures Sum(hs[k := h], f) == Sum(hs, f) - FieldOf(hs[k], f) + FieldOf(h, f)
  {
    if k > 0 {
      assert hs[k := h][1..] == hs[1..][k - 1 := h];
      SumUpdate(hs[1..], k - 1, h, f);
    }
  }

  /** Removing one holding takes its entry out of a total. */
  lemma {:induction false} SumRemove(hs: seq<Holding>, k: int, f: Field)
    requires 0 <= k < |hs|
    ensures Sum(hs[..k] + hs[k + 1..], f) == Sum(hs, f) - FieldOf(hs[k], f)
  {
    if k == 0 {
      assert hs[..0] + hs[1..] == hs[1..];
    } else {
      assert (hs[..k] + hs[k + 1..])[1..] == hs[1..][..k - 1] + hs[1..][k..];
      SumRemove(hs[1..], k - 1, f);
    }
  }

  /** On consistent holdings the stored values are the values at the
      current prices, and the stored P&L is that less the cost. */
  lemma {:induction false} ConsistentTotals(hs: seq<Holding>)
    ensures (forall i :: 0 <= i < |hs| ==> Consistent(hs[i])) ==>
      && Sum(hs, MarketValue) == Sum(hs, AtQuote)
      && Sum(hs, Profit) == Sum(hs, AtQuote) - Sum(hs, CostOf)
  {
    if hs != [] {
      ConsistentTotals(hs[1..]);
    }
  }

  /** With positive average prices, a non-empty valid list has a positive
      cost basis. */
  lemma {:induction false} CostBasisPositive(hs: seq<Holding>)
    requires forall i :: 0 <= i < |hs| ==> Consistent(hs[i]) && hs[i].avgPrice > 0.0
    requires hs != []
    ensures CostBasis(hs) > 0.0
  {
    var h := hs[0];
    assert CostBasis(hs) == FieldOf(h, CostOf) + CostBasis(hs[1..]);
    assert FieldOf(h, CostOf) > 0.0 by {
      assert h.quantity as real > 0.0;
    }
    if |hs| > 1 {
      CostBasisPositive(hs[1..]);
    } else {
      assert hs[1..] == [];
    }
  }

  /** A session: start at 10000, buy 10 AAPL at 175.43, then 5 more at 180. */
  method Session() {
    var aapl := Stock("AAPL", "Apple Inc.", 175.43, 2.1);
    var ledger := new Ledger([aapl]);
    var r := ledger.Trade(Buy, "AAPL", 10, 175.43);
    assert r == Executed;
    assert ledger.balance == 8245.70;
    assert ledger.holdings == [Opened("AAPL", aapl, 10, 175.43)];
    r := ledger.Trade(Buy, "AAPL", 5, 180.0);
    assert ledger.holdings[0].quantity == 15;
    assert ledger.holdings[0].avgPrice * 15.0 == 2654.30;
    r := ledger.Trade(Sell, "AAPL", 20, 175.43);
    assert r == InsufficientShares;
  }
}
