/** The two aggregate figures and the holdings list of the portfolio panel,
    computed from the cash balance and the ledger's page totals. */
module PortfolioSummary {
  import opened Simulator

  /** Cash plus the market value of the holdings. */
  function TotalPortfolioValue(balance: real, totalValue: real): real {
    balance + totalValue
  }

  /** The overall return in percent of what the holdings cost
      (`totalValue - totalPnL`); 0 while there is no positive market value. */
  function OverallPnLPercent(totalValue: real, totalPnL: real): (r: Percent)
    ensures totalValue <= 0.0 ==> r == Finite(0.0)
    ensures r.NotFinite? <==> totalValue > 0.0 && totalPnL == totalValue
    ensures totalValue > 0.0 && r.Finite? ==> r.value * (totalValue - totalPnL) == totalPnL * 100.0
  {
    if totalValue > 0.0 then
      var cost := totalValue - totalPnL;
      if cost == 0.0 then NotFinite else Finite(totalPnL / cost * 100.0)
    else
      Finite(0.0)
  }

  /** The icon and colour of the P&L card: up and green, or down and red. */
  datatype Trend = Up | Down

  function PnLTrend(totalPnL: real): Trend {
    if totalPnL >= 0.0 then Up else Down
  }

  /** The holdings panel: the empty-state message, or one row per holding
      keyed by its symbol. */
  datatype HoldingsView = EmptyState | Rows(keys: seq<string>)

  function HoldingsPanel(hs: seq<Holding>): (v: HoldingsView)
    ensures v.EmptyState? <==> hs == []
    ensures v.Rows? ==> |v.keys| == |hs| && forall i :: 0 <= i < |hs| ==> v.keys[i] == hs[i].symbol
  {
    if |hs| == 0 then EmptyState else Rows(seq(|hs|, i requires 0 <= i < |hs| => hs[i].symbol))
  }

  /** Buying at the quoted price moves cash into holdings without changing
      the total portfolio value, provided a held position of the symbol is
      already valued at that quote. */
  lemma BuyAtQuoteKeepsPortfolioValue(balance: real, hs: seq<Holding>, symbol: string, stock: Stock, quantity: int)
    requires ValidHoldings(hs) && quantity > 0
    requires forall i :: 0 <= i < |hs| && hs[i].symbol == symbol ==> hs[i].currentPrice == stock.price
    ensures var cost := stock.price * quantity as real;
      TotalPortfolioValue(balance - cost, TotalValue(BuyInto(hs, symbol, stock, quantity, stock.price)))
        == TotalPortfolioValue(balance, TotalValue(hs))
  {
    var price := stock.price;
    var r := BuyInto(hs, symbol, stock, quantity, price);
    if FindHolding(hs, symbol).Some? {
      var k := FoundAt(hs, symbol);
      var m := Merged(hs[k], stock, quantity, price);
      BuyMergesHolding(hs, k, stock, quantity, price);
      assert r == hs[k := m];
      MergedMarketValue(hs[k], stock, quantity);
      SumUpdate(hs, k, m, MarketValue);
    } else {
      BuyOpensHolding(hs, symbol, stock, quantity, price);
      assert r == hs + [r[|hs|]];
      SumAppend(hs, r[|hs|], MarketValue);
    }
  }

  /** Merging at the quote into a holding valued at that quote adds the
      cost of the new shares to its market value. */
  lemma MergedMarketValue(existing: Holding, stock: Stock, quantity: int)
    requires Consistent(existing) && quantity > 0 && existing.currentPrice == stock.price
    ensures FieldOf(Merged(existing, stock, quantity, stock.price), MarketValue)
         == FieldOf(existing, MarketValue) + stock.price * quantity as real
  {
    var p, q0, q := stock.price, existing.quantity as real, quantity as real;
    assert (existing.quantity + quantity) as real == q0 + q;
    assert p * (q0 + q) == p * q0 + p * q;
  }

  /** Selling at the quoted price moves the holding's value into cash
      without changing the total portfolio value, provided the holding is
      already valued at that quote. */
  lemma SellAtQuoteKeepsPortfolioValue(balance: real, hs: seq<Holding>, k: int, stock: Stock, quantity: int)
    requires ValidHoldings(hs) && 0 <= k < |hs| && 0 < quantity <= hs[k].quantity
    requires hs[k].currentPrice == stock.price
    ensures var proceeds := stock.price * quantity as real;
      TotalPortfolioValue(balance + proceeds, TotalValue(SellFrom(hs, hs[k].symbol, stock, quantity)))
        == TotalPortfolioValue(balance, TotalValue(hs))
  {
    SoldMarketValue(hs, k, stock, quantity);
  }

  /** The market value a sell at the quote takes out of the holdings. */
  lemma SoldMarketValue(hs: seq<Holding>, k: int, stock: Stock, quantity: int)
    requires UniqueSymbols(hs) && 0 <= k < |hs| && 0 < quantity <= hs[k].quantity
    requires Consistent(hs[k]) && hs[k].currentPrice == stock.price
    ensures Sum(SellFrom(hs, hs[k].symbol, stock, quantity), MarketValue)
         == Sum(hs, MarketValue) - stock.price * quantity as real
  {
    if hs[k].quantity == quantity {
      SoldOutMarketValue(hs, k, stock);
    } else {
      SoldDownMarketValue(hs, k, stock, quantity);
    }
  }

  lemma SoldOutMarketValue(hs: seq<Holding>, k: int, stock: Stock)
    requires UniqueSymbols(hs) && 0 <= k < |hs| && Consistent(hs[k])
    ensures Sum(SellFrom(hs, hs[k].symbol, stock, hs[k].quantity), MarketValue)
         == Sum(hs, MarketValue) - hs[k].currentPrice * hs[k].quantity as real
  {
    SellRemovesHolding(hs, k, stock);
    SumRemove(hs, k, MarketValue);
  }

  lemma SoldDownMarketValue(hs: seq<Holding>, k: int, stock: Stock, quantity: int)
    requires UniqueSymbols(hs) && 0 <= k < |hs| && 0 < quantity < hs[k].quantity
    requires Consistent(hs[k]) && hs[k].currentPrice == stock.price
    ensures Sum(SellFrom(hs, hs[k].symbol, stock, quantity), MarketValue)
         == Sum(hs, MarketValue) - stock.price * quantity as real
  {
    SoldDownAt(hs, k, stock, quantity);
    ReducedMarketValue(hs[k], stock, quantity);
    SumUpdate(hs, k, Reduced(hs[k], stock, quantity).value, MarketValue);
  }

  /** Selling part of a holding valued at the quote takes the proceeds out
      of its market value. */
  lemma ReducedMarketValue(h: Holding, stock: Stock, quantity: int)
    requires Consistent(h) && 0 < quantity < h.quantity && h.currentPrice == stock.price
    ensures Reduced(h, stock, quantity).Some?
    ensures FieldOf(Reduced(h, stock, quantity).value, MarketValue)
         == FieldOf(h, MarketValue) - stock.price * quantity as real
  {
    var p, q0, q := stock.price, h.quantity as real, quantity as real;
    assert (h.quantity - quantity) as real == q0 - q;
    assert p * (q0 - q) == p * q0 - p * q;
  }

  /** The P&L card points up exactly when the holdings are worth at least
      what they cost. */
  lemma TrendOfLedger(hs: seq<Holding>)
    requires ValidHoldings(hs)
    ensures PnLTrend(TotalPnL(hs)) == Up <==> TotalValue(hs) >= CostBasis(hs)
  {
    assert TotalPnL(hs) == TotalValue(hs) - CostBasis(hs);
  }

  /** Over a valid ledger whose average prices are positive, the overall
      percentage is finite once there is market value, it is the total P&L
      in percent of the cost basis, and its sign is the sign of the P&L, so
      the trend icon and the colour of the percentage agree. */
  lemma OverallPercentOfLedger(hs: seq<Holding>)
    requires ValidHoldings(hs) && hs != []
    requires forall i :: 0 <= i < |hs| ==> hs[i].avgPrice > 0.0
    requires TotalValue(hs) > 0.0
    ensures var p := OverallPnLPercent(TotalValue(hs), TotalPnL(hs));
      && p.Finite?
      && p.value * CostBasis(hs) == TotalPnL(hs) * 100.0
      && (p.value >= 0.0 <==> PnLTrend(TotalPnL(hs)) == Up)
  {
    CostBasisPositive(hs);
    var cost := CostBasis(hs);
    var p := OverallPnLPercent(TotalValue(hs), TotalPnL(hs));
    assert p.value == TotalPnL(hs) / cost * 100.0;
    if TotalPnL(hs) >= 0.0 {
      assert TotalPnL(hs) / cost >= 0.0;
    } else {
      assert TotalPnL(hs) / cost < 0.0;
    }
  }

  /** A valid ledger gives every row a distinct key. */
  lemma RowKeysDistinct(hs: seq<Holding>)
    requires ValidHoldings(hs) && hs != []
    ensures var v := HoldingsPanel(hs);
      v.Rows? && forall i, j :: 0 <= i < j < |v.keys| ==> v.keys[i] != v.keys[j]
  {
  }
}
