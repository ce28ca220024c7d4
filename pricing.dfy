/**
 * The pricing calculator of the FX Impact Simulator: a unit cost in US dollars
 * is converted to bolivares at an exchange rate, marked up so that the margin
 * is a fraction of the sale price, and the sale price is converted back to
 * dollars. Arithmetic is exact (`real`); the two divisions of the calculator
 * are the only ways it can fail.
 */
module Pricing {

  /** Which division raised Python's ZeroDivisionError. */
  datatype CalcError =
    | MarginDivisionByZero   // `costo_bs / (1 - margen)` with margen == 1
    | RateDivisionByZero     // `precio_venta_bs / tasa_cambio` with tasa_cambio == 0

  datatype Result<T> = Ok(value: T) | Err(error: CalcError)

  /** The tuple returned by the calculator. */
  datatype Prices = Prices(costBs: real, saleBs: real, saleUsd: real)

  /**
   * The calculator. The margin division is evaluated first, so a margin of 1
   * fails with MarginDivisionByZero even when the rate is 0 as well.
   */
  function CalcularPrecio(costoUsd: real, tasaCambio: real, margen: real): (r: Result<Prices>)
    ensures r.Ok? <==> margen != 1.0 && tasaCambio != 0.0
    ensures r == Err(MarginDivisionByZero) <==> margen == 1.0
    ensures r == Err(RateDivisionByZero) <==> margen != 1.0 && tasaCambio == 0.0
    ensures r.Ok? ==> r.value.costBs == costoUsd * tasaCambio
    ensures r.Ok? ==> r.value.saleBs * (1.0 - margen) == r.value.costBs
    ensures r.Ok? ==> r.value.saleUsd * tasaCambio == r.value.saleBs
  {
    var costoBs := costoUsd * tasaCambio;
    if 1.0 - margen == 0.0 then Err(MarginDivisionByZero)
    else
      var precioVentaBs := costoBs / (1.0 - margen);
      if tasaCambio == 0.0 then Err(RateDivisionByZero)
      else
        var precioVentaUsd := precioVentaBs / tasaCambio;
        Ok(Prices(costoBs, precioVentaBs, precioVentaUsd))
  }

  /** With no margin the sale price is the cost. */
  lemma ZeroMarginSellsAtCost(costoUsd: real, tasaCambio: real)
    requires tasaCambio != 0.0
    ensures CalcularPrecio(costoUsd, tasaCambio, 0.0).Ok?
    ensures CalcularPrecio(costoUsd, tasaCambio, 0.0).value.saleBs
         == CalcularPrecio(costoUsd, tasaCambio, 0.0).value.costBs
  {
  }

  /** A positive margin below 1 on a positive cost at a positive rate makes the sale price exceed the cost. */
  lemma PositiveMarginSellsAboveCost(costoUsd: real, tasaCambio: real, margen: real)
    requires costoUsd > 0.0 && tasaCambio > 0.0
    requires 0.0 < margen < 1.0
    ensures CalcularPrecio(costoUsd, tasaCambio, margen).Ok?
    ensures CalcularPrecio(costoUsd, tasaCambio, margen).value.saleBs
          > CalcularPrecio(costoUsd, tasaCambio, margen).value.costBs
  {
    var p := CalcularPrecio(costoUsd, tasaCambio, margen).value;
    PositiveProduct(costoUsd, tasaCambio);
    SignOfQuotient(p.saleBs, 1.0 - margen, p.costBs);
    assert p.saleBs - p.costBs == p.saleBs * margen;
    PositiveProduct(p.saleBs, margen);
  }

  /** The dollar sale price is `costo_usd / (1 - margen)`: it does not depend on the exchange rate. */
  lemma SaleUsdIsRateIndependent(costoUsd: real, tasaCambio: real, margen: real)
    requires margen != 1.0 && tasaCambio != 0.0
    ensures CalcularPrecio(costoUsd, tasaCambio, margen).Ok?
    ensures CalcularPrecio(costoUsd, tasaCambio, margen).value.saleUsd == costoUsd / (1.0 - margen)
  {
    var p := CalcularPrecio(costoUsd, tasaCambio, margen).value;
    var d := 1.0 - margen;
    var u := costoUsd / d;
    assert u * d == costoUsd;
    assert p.saleBs == u * tasaCambio by {
      assert (u * tasaCambio) * d == (u * d) * tasaCambio;
      CancelFactor(p.saleBs, u * tasaCambio, d);
    }
    CancelFactor(p.saleUsd, u, tasaCambio);
  }

  /** Two scenarios sharing cost and margin quote the same dollar price, whatever their rates. */
  lemma ScenariosShareUsdPrice(costoUsd: real, tasaActual: real, tasaNueva: real, margen: real)
    requires margen != 1.0 && tasaActual != 0.0 && tasaNueva != 0.0
    ensures CalcularPrecio(costoUsd, tasaActual, margen).Ok?
    ensures CalcularPrecio(costoUsd, tasaNueva, margen).Ok?
    ensures CalcularPrecio(costoUsd, tasaActual, margen).value.saleUsd
         == CalcularPrecio(costoUsd, tasaNueva, margen).value.saleUsd
  {
    SaleUsdIsRateIndependent(costoUsd, tasaActual, margen);
    SaleUsdIsRateIndependent(costoUsd, tasaNueva, margen);
  }

  /** For a positive cost and a margin in [0, 1), a higher rate gives a strictly higher cost and sale price in bolivares. */
  lemma BsPricesIncreaseWithRate(costoUsd: real, tasa1: real, tasa2: real, margen: real)
    requires costoUsd > 0.0 && 0.0 <= margen < 1.0
    requires tasa1 != 0.0 && tasa2 != 0.0 && tasa1 < tasa2
    ensures CalcularPrecio(costoUsd, tasa1, margen).Ok?
    ensures CalcularPrecio(costoUsd, tasa2, margen).Ok?
    ensures CalcularPrecio(costoUsd, tasa1, margen).value.costBs
          < CalcularPrecio(costoUsd, tasa2, margen).value.costBs
    ensures CalcularPrecio(costoUsd, tasa1, margen).value.saleBs
          < CalcularPrecio(costoUsd, tasa2, margen).value.saleBs
  {
    var p1 := CalcularPrecio(costoUsd, tasa1, margen).value;
    var p2 := CalcularPrecio(costoUsd, tasa2, margen).value;
    var d := 1.0 - margen;
    assert p2.costBs - p1.costBs == costoUsd * (tasa2 - tasa1);
    PositiveProduct(costoUsd, tasa2 - tasa1);
    assert (p2.saleBs - p1.saleBs) * d == p2.costBs - p1.costBs;
    SignOfQuotient(p2.saleBs - p1.saleBs, d, p2.costBs - p1.costBs);
  }

  /** The margin the page's slider yields: an integer percentage in [0, 50] divided by 100. */
  function SliderMargin(percent: int): (m: real)
    requires 0 <= percent <= 50
    ensures 0.0 <= m <= 0.5
    ensures m * 100.0 == percent as real
  {
    percent as real / 100.0
  }

  /** The default "new" rate the page proposes: the actual rate plus 5. */
  function DefaultNewRate(tasaActual: real): (t: real)
    ensures t > tasaActual
  {
    tasaActual + 5.0
  }

  /** A slider margin never makes the calculator divide by zero: it fails only on a zero rate. */
  lemma SliderMarginNeverFails(costoUsd: real, tasaCambio: real, percent: int)
    requires 0 <= percent <= 50
    ensures CalcularPrecio(costoUsd, tasaCambio, SliderMargin(percent)).Ok? <==> tasaCambio != 0.0
    ensures CalcularPrecio(costoUsd, tasaCambio, SliderMargin(percent)) != Err(MarginDivisionByZero)
  {
  }

  /**
   * The page's comparison: for a positive cost, a positive actual rate, a slider
   * margin and the default new rate, both scenarios succeed, the new one costs
   * and sells for more bolivares, and both quote the same dollar price.
   */
  lemma DefaultScenarioComparison(costoUsd: real, tasaActual: real, percent: int)
    requires costoUsd > 0.0 && tasaActual > 0.0 && 0 <= percent <= 50
    ensures CalcularPrecio(costoUsd, tasaActual, SliderMargin(percent)).Ok?
    ensures CalcularPrecio(costoUsd, DefaultNewRate(tasaActual), SliderMargin(percent)).Ok?
    ensures CalcularPrecio(costoUsd, tasaActual, SliderMargin(percent)).value.costBs
          < CalcularPrecio(costoUsd, DefaultNewRate(tasaActual), SliderMargin(percent)).value.costBs
    ensures CalcularPrecio(costoUsd, tasaActual, SliderMargin(percent)).value.saleBs
          < CalcularPrecio(costoUsd, DefaultNewRate(tasaActual), SliderMargin(percent)).value.saleBs
    ensures CalcularPrecio(costoUsd, tasaActual, SliderMargin(percent)).value.saleUsd
         == CalcularPrecio(costoUsd, DefaultNewRate(tasaActual), SliderMargin(percent)).value.saleUsd
  {
    var m := SliderMargin(percent);
    var t2 := DefaultNewRate(tasaActual);
    BsPricesIncreaseWithRate(costoUsd, tasaActual, t2, m);
    ScenariosShareUsdPrice(costoUsd, tasaActual, t2, m);
  }

  /**
   * The page's default inputs: 12 USD per gallon, the fallback rate of 30 Bs/USD,
   * the default new rate of 35 and the slider's default of 30 %.
   */
  lemma DefaultInputsScenario()
    ensures CalcularPrecio(12.0, 30.0, SliderMargin(30)) == Ok(Prices(360.0, 3600.0 / 7.0, 120.0 / 7.0))
    ensures CalcularPrecio(12.0, DefaultNewRate(30.0), SliderMargin(30)) == Ok(Prices(420.0, 600.0, 120.0 / 7.0))
  {
    assert SliderMargin(30) == 0.3;
    assert 360.0 / 0.7 == 3600.0 / 7.0;
    assert 3600.0 / 7.0 / 30.0 == 120.0 / 7.0;
    assert 420.0 / 0.7 == 600.0;
    assert 600.0 / 35.0 == 120.0 / 7.0;
  }

  // Arithmetic helpers on reals.

  lemma PositiveProduct(a: real, b: real)
    requires a > 0.0 && b > 0.0
    ensures a * b > 0.0
  {
  }

  /** If q * d == c with d positive, q has the sign of c. */
  lemma SignOfQuotient(q: real, d: real, c: real)
    requires d > 0.0 && q * d == c
    ensures c > 0.0 ==> q > 0.0
  {
  }

  /** Cancelling a nonzero factor. */
  lemma CancelFactor(a: real, b: real, d: real)
    requires d != 0.0 && a * d == b * d
    ensures a == b
  {
    assert (a - b) * d == 0.0;
  }
}
