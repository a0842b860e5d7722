/** The market (app/market.py): a table of listed stocks keyed by symbol and
    an append-only ledger of trades, both updated in place.

    Every method keeps the object invariant `Valid()` (stocks are filed
    under their own symbol, no trade is on an unlisted symbol) and the
    two-state guarantee `Grows()` (no symbol is ever removed, recorded
    trades are never changed). Raised exceptions are returned as
    `Fail(...)` outcomes. A failing single call changes nothing; a failing
    batch keeps the updates before the rejected entry. */
module Markets {
  import opened Results
  import opened Stocks
  import opened Trades
  import opened MarketSpec

  /** The length, in minutes, of the window the volume-weighted price is
      taken over when the caller gives none. */
  const DefaultWindow: int := 15

  class Market {
    var stocks: map<string, Stock>
    var trades: seq<Trade>

    ghost predicate Valid()
      reads this
    {
      KeyedBySymbol(stocks) && AllListed(stocks, trades)
    }

    /** Between two states: the listed symbols only grow and the ledger only
        grows at its end. */
    twostate predicate Grows()
      reads this
    {
      old(stocks).Keys <= stocks.Keys && old(trades) <= trades
    }

    /** An empty market. */
    constructor ()
      ensures Valid()
      ensures stocks == map[] && trades == []
    {
      stocks := map[];
      trades := [];
    }

    /** List a stock under its symbol, replacing any stock listed under that
        symbol before. */
    method AddStock(stock: Stock)
      requires Valid()
      modifies this
      ensures Valid() && Grows()
      ensures stocks == old(stocks)[stock.symbol := stock]
      ensures trades == old(trades)
    {
      stocks := stocks[stock.symbol := stock];
    }

    /** Append a trade to the ledger when its stock's symbol is listed (the
        listed stock need not be the trade's own stock value); otherwise
        fail with `UnlistedStock` and leave the ledger as it was. */
    method RecordTrade(trade: Trade) returns (r: Outcome<MarketError>)
      requires Valid()
      modifies this
      ensures Valid() && Grows()
      ensures stocks == old(stocks)
      ensures trade.stock.symbol in old(stocks) ==> r == Pass && trades == old(trades) + [trade]
      ensures trade.stock.symbol !in old(stocks) ==> r == Fail(UnlistedStock) && trades == old(trades)
    {
      if trade.stock.symbol in stocks {
        trades := trades + [trade];
        r := Pass;
      } else {
        r := Fail(UnlistedStock);
      }
    }

    /** Set the price of one listed stock. An unknown symbol fails with
        `StockNotFound` before the price is looked at; a price that is not
        positive fails with `NonPositivePrice`. On success only that
        stock's price changes. */
    method UpdateStockPrice(symbol: string, price: real) returns (r: Outcome<MarketError>)
      requires Valid()
      modifies this
      ensures Valid() && Grows()
      ensures trades == old(trades)
      ensures symbol !in old(stocks) ==> r == Fail(StockNotFound(symbol)) && stocks == old(stocks)
      ensures symbol in old(stocks) && price <= 0.0 ==> r == Fail(NonPositivePrice) && stocks == old(stocks)
      ensures symbol in old(stocks) && price > 0.0 ==>
        r == Pass && stocks == old(stocks)[symbol := old(stocks)[symbol].(price := price)]
    {
      if symbol in stocks {
        if price <= 0.0 {
          return Fail(NonPositivePrice);
        }
        stocks := stocks[symbol := stocks[symbol].(price := price)];
        r := Pass;
      } else {
        r := Fail(StockNotFound(symbol));
      }
    }

    /** Apply a batch of price updates in iteration order through
        `UpdateStockPrice`, skipping symbols that are not listed. A rejected
        price stops the batch; the updates before it stay applied. */
    method UpdateStockPrices(updates: seq<(string, real)>) returns (r: Outcome<MarketError>)
      requires Valid()
      modifies this
      ensures Valid() && Grows()
      ensures trades == old(trades)
      ensures (stocks, r) == PriceUpdates(old(stocks), updates)
    {
      for i := 0 to |updates|
        invariant Valid()
        invariant trades == old(trades)
        invariant stocks.Keys == old(stocks).Keys
        invariant PriceUpdates(stocks, updates[i..]) == PriceUpdates(old(stocks), updates)
      {
        var (symbol, price) := updates[i];
        assert updates[i..][0] == updates[i] && updates[i..][1..] == updates[i + 1..];
        if symbol in stocks {
          r := UpdateStockPrice(symbol, price);
          if r.Fail? {
            return;
          }
        }
      }
      r := Pass;
    }

    /** The volume-weighted price of `symbol` over the trades at most
        `minutes` old at `now`: total traded value over total quantity, or
        0 when the total quantity is not positive. */
    function VolumeWeightedStockPrice(now: int, symbol: string, minutes: int := DefaultWindow): (r: real)
      reads this
      ensures var relevant := Relevant(trades, symbol, minutes, now);
        TotalQuantity(relevant) > 0 ==> r * TotalQuantity(relevant) as real == TotalTraded(relevant)
      ensures TotalQuantity(Relevant(trades, symbol, minutes, now)) <= 0 ==> r == 0.0
    {
      Vwsp(trades, symbol, minutes, now)
    }

    /** The geometric mean of all listed prices, 0 for an empty market. The
        mean itself is computed by `gmean`, a library routine outside the
        model, from the prices of the listed stocks. */
    ghost function GeometricMeanOfPrices(gmean: multiset<real> -> real): (r: real)
      reads this
      ensures stocks == map[] ==> r == 0.0
      ensures stocks != map[] ==> r == gmean(Prices(stocks))
    {
      var prices := Prices(stocks);
      if prices == multiset{} then 0.0 else gmean(prices)
    }
  }
}
