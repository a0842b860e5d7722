/** Stocks and their dividend yields (app/stock.py).

    The class `Stock` and its subclass `PreferredStock` become one tagged
    datatype; the overridden `calculate_dividend_yield` becomes a single
    `DividendYield` function that dispatches on the kind of stock. */
module Stocks {
  import opened Results

  /** A listed stock. `Common` is an ordinary stock, `Preferred` a preferred
      stock, which also carries a fixed dividend ratio. The fields the two
      kinds share have the same names, so `s.symbol` or `s.(price := p)`
      work on either kind. */
  datatype Stock =
    | Common(symbol: string, lastDividend: real, parValue: real, price: real)
    | Preferred(symbol: string, lastDividend: real, fixedDividendRatio: real, parValue: real, price: real)

  /** Why a yield cannot be computed: the division by a zero price raises
      `ZeroDivisionError`, which nothing catches. */
  datatype YieldError = DivisionByZero

  /** `Stock(symbol, last_dividend, par_value, price)`: stores every argument
      as given; nothing is validated, so a zero or negative price is kept. */
  function NewStock(symbol: string, lastDividend: real, parValue: real, price: real): (s: Stock)
    ensures s.Common?
    ensures s.symbol == symbol && s.lastDividend == lastDividend
    ensures s.parValue == parValue && s.price == price
  {
    Common(symbol, lastDividend, parValue, price)
  }

  /** `PreferredStock(symbol, last_dividend, fixed_dividend_ratio, par_value, price)`:
      the fields of an ordinary stock plus the fixed dividend ratio, all stored as given. */
  function NewPreferredStock(symbol: string, lastDividend: real, fixedDividendRatio: real,
                             parValue: real, price: real): (s: Stock)
    ensures s.Preferred?
    ensures s.symbol == symbol && s.lastDividend == lastDividend
    ensures s.fixedDividendRatio == fixedDividendRatio
    ensures s.parValue == parValue && s.price == price
  {
    Preferred(symbol, lastDividend, fixedDividendRatio, parValue, price)
  }

  /** The dividend yield: last dividend over price for an ordinary stock,
      fixed ratio times par value over price for a preferred one. A zero
      price fails; a negative price is accepted. */
  function DividendYield(s: Stock): (r: Result<real, YieldError>)
    ensures r.Failure? <==> s.price == 0.0
    ensures r.Success? && s.Common? ==> r.value * s.price == s.lastDividend
    ensures r.Success? && s.Preferred? ==> r.value * s.price == s.fixedDividendRatio * s.parValue
  {
    if s.price == 0.0 then Failure(DivisionByZero)
    else match s
      case Common(_, dividend, _, p) => Success(dividend / p)
      case Preferred(_, _, ratio, parValue, p) => Success((ratio * parValue) / p)
  }

  /** The preferred formula replaces the ordinary one: a preferred stock
      yields what an ordinary stock with dividend `ratio * par value` would. */
  lemma PreferredIsOrdinaryWithFixedDividend(s: Stock)
    requires s.Preferred?
    ensures DividendYield(s)
         == DividendYield(Common(s.symbol, s.fixedDividendRatio * s.parValue, s.parValue, s.price))
  {
  }

  /** A preferred stock's yield does not depend on its last dividend. */
  lemma PreferredIgnoresLastDividend(s: Stock, lastDividend: real)
    requires s.Preferred?
    ensures DividendYield(s.(lastDividend := lastDividend)) == DividendYield(s)
  {
    var t := s.(lastDividend := lastDividend);
    if s.price != 0.0 {
      var y, z := DividendYield(t).value, DividendYield(s).value;
      assert y * s.price == z * s.price;
    }
  }

  /** The two formulas agree on a preferred stock exactly when the price is
      zero (both fail) or its fixed dividend equals its last dividend. */
  lemma FormulasAgreeIff(s: Stock)
    requires s.Preferred?
    ensures DividendYield(s) == DividendYield(Common(s.symbol, s.lastDividend, s.parValue, s.price))
        <==> s.price == 0.0 || s.fixedDividendRatio * s.parValue == s.lastDividend
  {
    var ordinary := Common(s.symbol, s.lastDividend, s.parValue, s.price);
    if s.price != 0.0 {
      var y, z := DividendYield(s).value, DividendYield(ordinary).value;
      assert y * s.price == s.fixedDividendRatio * s.parValue;
      assert z * s.price == s.lastDividend;
      assert y == z <==> y * s.price == z * s.price;
    }
  }

  /** The sign of the yield is the sign of the dividend times the sign of the
      price: with a positive dividend, a negative price gives a negative
      yield and a positive price a positive one. */
  lemma YieldSign(s: Stock)
    requires s.Common? && s.price != 0.0 && s.lastDividend > 0.0
    ensures DividendYield(s).Success?
    ensures DividendYield(s).value < 0.0 <==> s.price < 0.0
  {
  }

  /** The yields the unit tests expect. */
  lemma TestedYields()
    ensures DividendYield(NewStock("TEA", 8.0, 100.0, 40.0)) == Success(0.2)
    ensures DividendYield(NewPreferredStock("GIN", 8.0, 0.02, 100.0, 50.0)) == Success(0.04)
    ensures DividendYield(NewStock("ALE", 23.0, 60.0, 0.0)) == Failure(DivisionByZero)
    ensures DividendYield(NewStock("POP", 10.0, 100.0, -50.0)) == Success(-0.2)
  {
  }
}
