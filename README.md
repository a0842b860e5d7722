# Super simple stock market, modelled in Dafny

A model of a toy securities market: stocks with two dividend-yield formulas,
an immutable trade record, and a market that keeps a table of listed stocks
and an append-only ledger of trades, reprices stocks one at a time or in a
batch, and answers two aggregate queries (a time-windowed volume-weighted
stock price and a geometric mean of prices).

| file | module | models |
|---|---|---|
| results.dfy | `Results` | `Option`, `Result`, `Outcome`: raised exceptions become failure values |
| stock.dfy | `Stocks` | `Stock` and `PreferredStock` as one tagged datatype; `DividendYield` dispatches on the kind |
| trade.dfy | `Trades` | the `Trade` record and its constructor with the clock passed in |
| market_spec.dfy | `MarketSpec` | the market's invariant, single and batched price updates, the volume-weighted price and the prices the geometric mean is taken over, as functions on values, with their lemmas |
| market.dfy | `Markets` | class `Market`: a `map<string, Stock>` and a `seq<Trade>` updated in place by its methods, proved against `MarketSpec` |

How the model represents the source:

- Prices, dividends, ratios and par values are `real`. Quantities and trade
  ids are `int`.
- Timestamps are whole minutes, an `int`. The wall clock is an explicit
  `now` parameter.
- Each Python exception is a failure value. A failing single call changes
  nothing. A failing batch keeps the updates before the rejected entry. The
  mapping is:
  - `ValueError("Trade attempted on non-listed stock.")` becomes `UnlistedStock`.
  - `KeyError("No stock found with symbol: ...")` becomes `StockNotFound(symbol)`.
  - `ValueError("Stock price must be positive.")` becomes `NonPositivePrice`.
  - `ZeroDivisionError` in a yield becomes `DivisionByZero`.
- `Market` is a class. Its object invariant `Valid()` says two things:
  - every stock is filed under its own symbol;
  - every recorded trade is on a listed symbol.
- Every method also ensures the two-state predicate `Grows()`. It says that
  no symbol is ever removed and that the ledger only grows at its end.
- The dictionary given to `update_stock_prices` becomes a sequence of
  `(symbol, price)` pairs in its iteration order.

What the code accepts, as the model states it:

- `Trade.__init__` checks neither quantity nor action (app/trade.py:7-13), so
  any integer and any string are accepted.
- The stock constructors store any price, including zero and negative ones
  (app/stock.py:12-16). Only `update_stock_price` rejects a price that is not
  positive.
- A batch update that stops at a rejected price keeps the updates applied
  before it (app/market.py:50-52). `PriceUpdatesKeepPrefix` states exactly
  that.

## Model

| member | source | states |
|---|---|---|
| `Stocks.NewStock` | app/stock.py:12-16 | an ordinary stock stores symbol, last dividend, par value and price as given, with no validation |
| `Stocks.NewPreferredStock` | app/stock.py:39-41 | a preferred stock stores the same four fields plus the fixed dividend ratio, as given |
| `Stocks.DividendYield` | app/stock.py:18-50 | both overrides, the ordinary one at lines 18-25 and the preferred one at lines 43-50: the yield fails exactly when the price is zero; otherwise yield × price is the last dividend for an ordinary stock, and fixed ratio × par value for a preferred one |
| `Stocks.PreferredIsOrdinaryWithFixedDividend` | app/stock.py:43-50 | a preferred stock's yield is the ordinary formula with the dividend replaced by fixed ratio × par value |
| `Stocks.PreferredIgnoresLastDividend` | app/stock.py:50 | changing a preferred stock's last dividend does not change its yield |
| `Stocks.FormulasAgreeIff` | app/stock.py:43-50 | the overriding formula and the inherited one give the same result exactly when the price is zero or fixed ratio × par value equals the last dividend |
| `Stocks.YieldSign` | app/stock.py:25 | a negative price is accepted; with a positive dividend, the yield is negative exactly when the price is negative |
| `Stocks.TestedYields` | tests/test_stock.py:7-26 | TEA(8, 100, 40) yields 0.2, GIN(8, 0.02, 100, 50) yields 0.04, a zero price fails, and POP(10, 100, -50) yields -0.2 |
| `Trades.NewTrade` | app/trade.py:7-13 | id, stock, quantity, action and traded price are stored unchanged and never validated; a supplied timestamp is kept, and a missing one becomes the current clock value |
| `Trades.ExplicitTimestampIgnoresClock` | app/trade.py:13 | with an explicit timestamp, the trade does not depend on the clock |
| `MarketSpec.PriceUpdate` | app/market.py:38-46 | an absent symbol gives the not-found error, checked before the price; a listed symbol with price ≤ 0 gives the must-be-positive error; the update succeeds exactly when the symbol is listed and the price is positive; on success the key set and every other stock are unchanged, and that stock differs only in its price |
| `MarketSpec.PriceUpdates` | app/market.py:48-52 | a batch never reports a missing symbol (its outcome is success or the must-be-positive error) and never changes the key set |
| `MarketSpec.PriceUpdatesFailIff` | app/market.py:48-52 | a batch fails exactly when some entry names a listed stock with a price ≤ 0 |
| `MarketSpec.PriceUpdatesKeepPrefix` | app/market.py:50-52 | a failing batch stops at the first rejected entry; the state it leaves equals that of successfully applying the entries before it |
| `MarketSpec.PriceUpdatesOnlyPrices` | app/market.py:43 | a batch changes only prices; every other field of every stock stays |
| `MarketSpec.PriceUpdatesUntouched` | app/market.py:48-52 | a stock that no entry names is left exactly as it was |
| `MarketSpec.PriceUpdatesApplied` | app/market.py:50-52 | after a successful batch, a listed entry that no later entry overrides has set its stock's price |
| `MarketSpec.PriceUpdatesSkipUnlisted` | app/market.py:50-51 | entries on unlisted symbols are skipped silently: removing them changes neither the table nor the outcome |
| `MarketSpec.TestedTable` | tests/test_market.py:11-15 | the test table lists exactly TEA, POP and ALE, each under its own symbol |
| `MarketSpec.TestedBatch` | tests/test_market.py:17-22 | on the test table, the batch TEA→110, POP→125 succeeds, sets those two prices and leaves ALE at 130 |
| `MarketSpec.RelevantMembers` | app/market.py:57-61 | a trade is selected exactly when it is in the ledger, its stock has the queried symbol, and now − timestamp ≤ minutes; the window is inclusive and future-dated trades are selected |
| `MarketSpec.RelevantCounts` | app/market.py:57-61 | the selection keeps duplicates: each trade in the window is selected as many times as the ledger holds it, and a trade outside the window never |
| `MarketSpec.NothingInWindow` | app/market.py:64 | when no trade qualifies, the volume-weighted price is exactly 0 |
| `MarketSpec.OtherSymbolsIrrelevant` | app/market.py:60 | two ledgers with the same trades on the queried symbol give the same price, whatever their trades on other symbols |
| `MarketSpec.AppendOutsideWindow` | app/market.py:57-61 | appending a trade that does not qualify, because of its symbol or its age, leaves the price unchanged |
| `MarketSpec.ActionIrrelevant` | app/market.py:57-64 | ledgers that differ only in the BUY/SELL actions give the same price |
| `MarketSpec.VwspWithinPrices` | app/market.py:62-64 | the price is a weighted average: with non-negative quantities, some quantity traded, and every qualifying price in [lo, hi], the result is in [lo, hi] |
| `MarketSpec.TestedTeaLastHour` | tests/test_market.py:102-108 | the test ledger's TEA price over 60 minutes is (101·100 + 102·200) / 300 |
| `MarketSpec.TestedTeaQuarterHour` | tests/test_market.py:110-113 | the test ledger has no TEA trade in the last 15 minutes, so the price is 0 |
| `MarketSpec.TestedPopQuarterHour` | tests/test_market.py:115-121 | only the 5-minute-old POP trade counts over 15 minutes, so the price is 119 |
| `MarketSpec.Prices` | app/market.py:68 | the multiset of prices has one entry per listed stock: each price occurs exactly as many times as there are listed stocks at that price |
| `MarketSpec.PricesMembers` | app/market.py:68 | every listed stock's price is among the prices, and every price among them is some listed stock's price |
| `Markets.Market.constructor` | app/market.py:14-16 | a new market has no stocks and no trades, and satisfies the invariant |
| `Markets.Market.AddStock` | app/market.py:18-19 | the table becomes stocks[symbol := stock], overwriting any earlier stock with that symbol; the ledger is unchanged and the invariant is kept |
| `Markets.Market.RecordTrade` | app/market.py:21-36 | membership of the symbol, not identity of the stock, decides: a listed symbol appends the trade, an unlisted one gives the non-listed error and leaves the ledger as it was; the table is unchanged either way |
| `Markets.Market.UpdateStockPrice` | app/market.py:38-46 | both error cases leave all state unchanged; success sets only stocks[symbol].price; the ledger is always unchanged |
| `Markets.Market.UpdateStockPrices` | app/market.py:48-52 | the loop, calling the single update once per listed entry, leaves exactly the table and outcome that `PriceUpdates` defines; the ledger is unchanged |
| `Markets.Market.VolumeWeightedStockPrice` | app/market.py:54-64 | over the selected trades: price × total quantity = total traded value when the total quantity is positive, and 0 otherwise; the window defaults to 15 minutes |
| `Markets.Market.GeometricMeanOfPrices` | app/market.py:66-69 | an empty market gives 0; otherwise the result is that of the mean routine applied to `Prices`, the multiset holding each listed stock's price once per stock |

## Left out

- Logging: `logging.basicConfig` and the info and error messages (app/market.py:8, 33, 35, 41, 45; app/stock.py:4). They have no effect on behaviour.
- Markets.Market.GeometricMeanOfPrices: the geometric mean of a non-empty market is not modelled. It is `scipy.stats.gmean`, a floating-point nth root of a product, and it appears only as the parameter `gmean`. For the same reason the "all prices zero gives 0" convention is not stated. Only the empty-market result of 0 is the model's own.
- Markets.Market.GeometricMeanOfPrices is a ghost function. This is because the multiset of the table's prices is picked out of a map, which has no order.
- Floating point: all arithmetic is exact real arithmetic. The tests' approximate comparisons are exact equalities here, for example GIN's yield of 0.04.
- `datetime.now()` and `timedelta`: the clock is a parameter and timestamps are whole minutes. Sub-minute precision is not modelled.
- Trades.NewTrade: Python picks the clock when the timestamp is falsy. A `datetime` is never falsy, so only a missing timestamp (`None`) takes the clock value. The model does not cover falsy non-datetime arguments such as `0`.
- `__repr__` string formatting of stocks and trades (app/stock.py:27-28, 52-53; app/trade.py:15-16).
- examples/simulation.py: a demo driver with random trades, printing, and direct `stock.price` writes that bypass the positive-price check.
- Object aliasing: a trade holds a copy of its stock as a value. A price update rewrites the table entry, not a shared object, so a trade's copy keeps the old price. The market reads only the trade's symbol, so no result depends on this.
- Markets.Market: its methods require the object invariant `Valid()`. Python code can break this invariant by writing to `market.stocks` directly, as the tests do (tests/test_market.py:142, 149, 159). Such writes are not modelled.
- Markets.Market.UpdateStockPrices: a Python dict cannot repeat a key. The model's sequence of pairs can, and a later entry for a symbol then overrides an earlier one.
- Markets.Market.VolumeWeightedStockPrice: Python returns the integer `0` when nothing qualifies. The model returns `0.0`, which is the same number.
