/** Trades (app/trade.py): an immutable record of one transaction.

    The wall clock is a parameter `now`, and timestamps are whole minutes.
    A trade carries the stock it was made on as a value: the market only
    ever reads that stock's symbol. */
module Trades {
  import opened Results
  import opened Stocks

  datatype Trade = Trade(
    tradeId: int,
    stock: Stock,
    quantity: int,
    action: string,
    tradedPrice: real,
    timestamp: int)

  /** `Trade(trade_id, stock, quantity, action, traded_price, timestamp=None)`:
      stores every argument unchanged and never fails (quantity, price and
      action are not validated); a missing timestamp becomes the clock's
      current value. */
  function NewTrade(tradeId: int, stock: Stock, quantity: int, action: string, tradedPrice: real,
                    now: int, timestamp: Option<int> := None): (t: Trade)
    ensures t.tradeId == tradeId && t.stock == stock && t.quantity == quantity
    ensures t.action == action && t.tradedPrice == tradedPrice
    ensures timestamp.Some? ==> t.timestamp == timestamp.value
    ensures timestamp.None? ==> t.timestamp == now
  {
    Trade(tradeId, stock, quantity, action, tradedPrice,
          match timestamp case Some(ts) => ts case None => now)
  }

  /** An explicit timestamp makes the trade independent of the clock. */
  lemma ExplicitTimestampIgnoresClock(tradeId: int, stock: Stock, quantity: int, action: string,
                                      tradedPrice: real, now1: int, now2: int, ts: int)
    ensures NewTrade(tradeId, stock, quantity, action, tradedPrice, now1, Some(ts))
         == NewTrade(tradeId, stock, quantity, action, tradedPrice, now2, Some(ts))
  {
  }
}
