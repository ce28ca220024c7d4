# FX Impact Simulator: pricing calculator and currency formatter

The FX Impact Simulator is a one-page Streamlit app for a Venezuelan business.
It takes a cost per gallon in US dollars, an "actual" and a "new" exchange rate
(bolivares per dollar) and a target margin. For each rate it computes the cost
in bolivares, the sale price in bolivares and the sale price in dollars. It
shows the figures in Spanish number style (`1.234,50`) and as a bar chart.

This project models the two pure helpers of `price_simulator.py`:

- `pricing.dfy`, module `Pricing`: `calcular_precio` over exact `real`
  arithmetic, as `CalcularPrecio`. It returns `Ok(Prices(costBs, saleBs, saleUsd))`
  or the `ZeroDivisionError` Python raises, with the division that raised it.
  The page's use of it is modelled too: the slider margin, the default new
  rate and the comparison of the two scenarios.
- `currency_format.dfy`, module `CurrencyFormat`: `format_currency` as
  `FormatCurrency`. It is Python's `,.2f` rendering (`PyFormat`: sign, integer
  digits grouped by `,` from the right, `.`, two digits) followed by the three
  chained `str.replace` calls (`SwapThroughPlaceholder`). The amount is given
  already rounded to hundredths: a sign flag and a magnitude in hundredths
  (`Fixed`). The sign is kept apart because Python prints `-0.00` for a
  negative value that rounds to zero.
  Two reference definitions serve as partners. `SpanishFormat` groups with
  `.` and marks decimals with `,` directly. `ParseSpanish` reads an amount
  back by deleting the separators.

The calculator checks nothing. A negative rate, a negative margin or a margin
above 1 is computed through. It fails only when a divisor is exactly zero: a
margin of exactly 1, or a zero rate. When both divisors are zero, the margin
division fails first because line 28 runs before line 29.

## Model

| member | source | states |
|---|---|---|
| Pricing.CalcularPrecio | price_simulator.py:26-30 | succeeds exactly when margen != 1 and tasa != 0; fails with the margin division exactly when margen == 1 and with the rate division exactly when margen != 1 and tasa == 0; on success the Bs cost is cost times rate, the Bs sale price times (1 - margen) is the Bs cost (the margin is a fraction of the sale price), and the USD sale price times the rate gives back the Bs sale price |
| Pricing.ZeroMarginSellsAtCost | price_simulator.py:27-28 | with a zero margin and a nonzero rate the Bs sale price equals the Bs cost |
| Pricing.PositiveMarginSellsAboveCost | price_simulator.py:27-28 | with 0 < margen < 1, a positive cost and a positive rate the Bs sale price is strictly above the Bs cost |
| Pricing.SaleUsdIsRateIndependent | price_simulator.py:27-29 | the USD sale price is costo_usd / (1 - margen) for every nonzero rate |
| Pricing.ScenariosShareUsdPrice | price_simulator.py:67-68 | the "actual" and "new" calls with the same cost and margin give the same USD sale price whatever their two rates |
| Pricing.BsPricesIncreaseWithRate | price_simulator.py:27-28 | with a positive cost and 0 <= margen < 1, a larger rate gives a strictly larger Bs cost and Bs sale price |
| Pricing.SliderMargin | price_simulator.py:64 | the slider's integer percentage in [0, 50] divided by 100 lies in [0, 0.5] and is that percentage over 100 |
| Pricing.DefaultNewRate | price_simulator.py:63 | the proposed new rate is above the actual rate |
| Pricing.SliderMarginNeverFails | price_simulator.py:64-68 | with a slider margin the calculator never fails on the margin division; it succeeds exactly when the rate is nonzero |
| Pricing.DefaultScenarioComparison | price_simulator.py:61-68 | for a positive cost, a positive actual rate, a slider margin and the default new rate, both calls succeed, the new scenario has strictly larger Bs cost and Bs sale price, and both give the same USD sale price |
| Pricing.DefaultInputsScenario | price_simulator.py:61-68 | the page's defaults (12 USD, fallback rate 30, new rate 35, 30 %) give cost 360 Bs, sale 3600/7 Bs, 120/7 USD, and 420 Bs, 600 Bs, 120/7 USD |
| CurrencyFormat.Digits | price_simulator.py:34 | the integer part is rendered as a non-empty run of decimal digits whose first digit is 0 only for the value 0 |
| CurrencyFormat.ValueOfDigits | price_simulator.py:34 | the digits of the integer part denote that integer |
| CurrencyFormat.TwoDigits | price_simulator.py:34 | the fractional part is exactly two digits |
| CurrencyFormat.Group | price_simulator.py:34 | grouping by thousands adds one separator per full group of three beyond the first: length is digits + (digits - 1) / 3 |
| CurrencyFormat.GroupIsGrouped | price_simulator.py:34 | grouped output is digits in groups of three from the right, split by the separator, with a leftmost group of one to three digits |
| CurrencyFormat.ReplaceAll | price_simulator.py:34 | `str.replace` of one character keeps the length and replaces exactly the occurrences of that character |
| CurrencyFormat.PyFormat | price_simulator.py:34 | the `f"{value:,.2f}"` rendering (sign, `,`-grouped integer digits, `.`, two digits) never contains the placeholder `X` |
| CurrencyFormat.SwapThroughPlaceholder | price_simulator.py:34 | the three chained `.replace` calls keep the length and, on a string without `X`, turn every `,` into `.`, every `.` into `,` and keep every other character |
| CurrencyFormat.SwapGroup | price_simulator.py:34 | swapping the separators of comma-grouped digits gives the same digits grouped by `.` |
| CurrencyFormat.FormatCurrencySwapsSeparators | price_simulator.py:34 | the result has the length of Python's rendering and, position by position, its `,` and `.` swapped and every other character unchanged |
| CurrencyFormat.FormatCurrency | price_simulator.py:33-34 | `format_currency`: its result equals the Spanish-style rendering: sign, integer digits grouped by `.`, `,`, two decimal digits |
| CurrencyFormat.FormatCurrencyShape | price_simulator.py:34 | the result is an optional `-`, then `.`-grouped digits with a leftmost group of one to three, then `,` and exactly two digits |
| CurrencyFormat.StripGroup | price_simulator.py:34 | deleting the separators from grouped digits gives back the digits |
| CurrencyFormat.StripSpanishDigits | price_simulator.py:34 | deleting the separators from the unsigned result leaves the integer digits followed by the two decimals, and these denote the amount in hundredths |
| CurrencyFormat.FormatCurrencyRoundTrip | price_simulator.py:33-34 | reading the result back (sign, then the digits left after deleting separators) gives the original amount |
| CurrencyFormat.FormatCurrencyInjective | price_simulator.py:33-34 | two different amounts are never rendered as the same string |

## Left out

- `obtener_tasa_cambio` (price_simulator.py:16-23): an HTTP request to an exchange-rate service, JSON parsing and an error message in the page. This is network I/O with a foreign library; the rate enters the model as a parameter.
- `show()` (price_simulator.py:36-152): Streamlit widgets, HTML and a Plotly chart. Only the numbers it feeds to the calculator are modelled: the slider margin, the default new rate and the two calls.
- The environment loading and the API key (price_simulator.py:4-10): configuration, not logic.
- Floating point: `CalcularPrecio` computes over exact reals, so float rounding error in the three operations is not modelled.
- FormatCurrency: does not model how Python rounds a float to two decimals under `.2f`; its input is an amount already rounded to hundredths.
- FormatCurrency: only the `-` sign of Python's default sign option is produced; NaN and infinity renderings are not modelled.
- Pricing.DefaultNewRate: its contract says only that the proposed rate is above the actual one; the exact offset of 5 is left to its one-line body rather than restated.
