# Stock price valuation engine: a Dafny model

This project models the deterministic core of a tool that values a share
position in Japanese yen before writing the value into a portfolio-tracking
website. The core has two parts:

- `share.py` holds the query client (`Share`). It turns a period type, a
  period count and a base date into an epoch-second window, and it downloads a
  chart for that window. It raises on a provider error payload, checks the
  frequency type, and returns `None` when the chart has no timestamps.
  Otherwise it returns millisecond timestamps and flat OHLCV columns.
- `stock_price.py` holds the valuation engine:
  - `round` is decimal rounding, half up.
  - `get_last_close` finds the close of a symbol as of a date. A currency
    pair (`...=X`) takes the hourly candle at 20:00 UTC. Any other symbol
    takes the first daily close. When a day has no data, it searches one day
    earlier, with a bounded retry counter.
  - `get_current_price` values a position. It takes the close and the
    `<CCY>JPY=X` rate as of the day after the given date, rounds
    `price × rate` to an integer, and multiplies by the share count.

Files:

- `wrappers.dfy` (module `Wrappers`): `Option` and `Result`.
- `rounding.dfy` (module `Rounding`): exact decimals `Dec(mant, exp)`, which
  stand for `mant × 10^-exp`, and `round` with its specification.
- `share.dfy` (module `Share`): the window, the download and the
  normalisation. The HTTP request is a `Provider` oracle, a total function
  from a `Request` (symbol, window, frequency) to a `Response`. A response is
  either an error payload or a chart result, with or without timestamps.
- `stock_price.dfy` (module `StockPrice`):
  - One day's lookup (`AttemptOn`) takes the 20:00 UTC close from the
    function `CloseAtClosingHour`; `CloseAtClosingHourFirst` states what it
    finds.
  - The `for … else` scan itself is a loop (`ScanCloseAtClosingHour`),
    proved equal to `CloseAtClosingHour`.
  - The recursive backward search is `LastClose`, with a recursion-free
    statement of it proved as `LastCloseSearch`.
  - `CurrentPrice` is the position value.

Instants are integer epoch seconds and one day is 86400 seconds. The UTC hour
of a millisecond timestamp is `((ms div 1000) div 3600) mod 24`.

Three behaviours of the code are easy to misread:

- The search makes seven lookups before it raises. It covers
  `retry = 0 … 6`, that is the base date and the six days before it.
- The frequency type is checked after the download (share.py:23-32), so a
  request is sent even for an invalid frequency type. A provider error
  payload therefore wins over an invalid frequency type.
- The period is capped only from above (`min(period, 59)`). It is not clamped
  to at least 1, so a negative period gives a window that ends before it
  starts.

## Model

| member | source | states |
|---|---|---|
| `Rounding.Mul` | stock_price.py:88 | the exact product `price * rate`: its value times `10^a.exp × 10^b.exp` equals the product of the coefficients times `10^r.exp`, so it is the product of the two values; its exponent is the sum of the factors' exponents, and it is zero exactly when a factor is |
| `Rounding.MulByOne` | stock_price.py:86-88 | multiplying by one written with `s` places (1.00 for `s = 2`) only appends `s` trailing zeros |
| `Rounding.RescaleSameNumber` | stock_price.py:14-16 | appending trailing zeros keeps the number's value |
| `Rounding.Round` | stock_price.py:14-16 | the result has exactly `precision` fractional digits |
| `Rounding.RoundIsHalfUp` | stock_price.py:14-16 | `round(x, p)` is a multiple of 10^-p within half a unit of x; a value exactly halfway goes to the candidate farther from zero |
| `Rounding.RoundUnique` | stock_price.py:14-16 | those two conditions determine the result: any coefficient meeting them is the one `round` returns |
| `Rounding.RoundRescale` | stock_price.py:14-16 | rounding depends on the number only, not on trailing zeros of its representation (so `price × 1.00` rounds like `price`) |
| `Rounding.RoundIdempotent` | stock_price.py:14-16 | rounding an already rounded value again changes nothing |
| `Rounding.RoundExamples` | stock_price.py:14-16 | 1.005 → 1.01, 2.5 → 3, −2.5 → −3, 1 → 1.00 |
| `Share.DaysPerUnit` | share.py:49-60 | a day, week, month and year are fixed counts of 1, 7, 30 and 365 days |
| `Share.TimeFrame` | share.py:48-66 | an unknown period type raises; otherwise `end` is the base date and `end − start = min(period, 59) × unit × 86400` |
| `Share.WindowBounded` | share.py:49-60 | whatever period is asked for, the window never spans more than 59 × 365 days |
| `Share.WindowOrderedIff` | share.py:49-60 | the window's start is at or before its end exactly when the period is not negative (the period is capped only from above) |
| `Share.PeriodCapped` | share.py:49-60 | any period of 59 or more gives the same window as 59 |
| `Share.WindowRequest` | share.py:71-79 | the request carries the symbol, the given frequency and the window: it ends at the base date and starts `min(period, 59) × unit × 86400` seconds before |
| `Share.Download` | share.py:68-90 | an unknown period type raises before any request; a provider error payload raises; otherwise the chart result is returned as is |
| `Share.ToMillis` | share.py:38 | the timestamps keep their length and order; each is the same instant at millisecond resolution (a multiple of 1000 whose quotient by 1000 is the input) |
| `Share.MillisRoundTrip` | share.py:38 | dividing the scaled timestamps by 1000 gives back the provider's timestamps |
| `Share.Normalise` | share.py:37-44 | the series' timestamps are the provider's timestamps, each times 1000, in the same order (and dividing by 1000 gives them back); open, high, low, close and volume are copied from `indicators.quote[0]` unchanged |
| `Share.GetHistorical` | share.py:20-46 | outcomes: the bad period type error exactly for an unknown period type; the provider error exactly for an error payload; the bad frequency type error exactly for a chart result with an invalid frequency type (checked after the download); `None` exactly for a valid chart without timestamps; a series exactly for a valid chart with timestamps, and then it is `Normalise` of those timestamps and `indicators.quote[0]` (all five columns) |
| `Share.ValidFrequencyType` | share.py:26-31 | the accepted frequency types are exactly minute, hour, day, week and month |
| `StockPrice.IsFxPair` | stock_price.py:29 | a code is a currency pair exactly when its last two characters are `=` and `X` |
| `StockPrice.HourUtc` | stock_price.py:38-40 | the UTC hour of a millisecond timestamp lies in 0..23 |
| `StockPrice.HourOfProviderTimestamp` | stock_price.py:36-40 | the hour of a scaled timestamp is the hour of the provider's epoch seconds |
| `StockPrice.FirstAtClosingHour` | stock_price.py:36-44 | the index returned is of a timestamp at 20:00 UTC with none before it at that hour; no index means no timestamp is at that hour |
| `StockPrice.CloseAtClosingHourFirst` | stock_price.py:36-44 | `CloseAtClosingHour`, the close the day's lookup uses, is no close exactly when no candle paired by `zip` is at 20:00 UTC; otherwise the close paired with the first candle at that hour |
| `StockPrice.ScanCloseAtClosingHour` | stock_price.py:36-44 | the loop finds a close exactly when some candle paired by `zip` is at 20:00 UTC, and then it is the close of the first such candle |
| `StockPrice.RoundedClose` | stock_price.py:55 | the result is never a miss, so it is never retried; a present close is rounded to 2 places; a `null` close raises (`round(None)`) |
| `StockPrice.LookupFrequency` | stock_price.py:29-32 | a day's lookup asks hourly data exactly for a currency pair and daily data otherwise (stock_price.py:46-48), both accepted by the client |
| `StockPrice.LookupRequest` | stock_price.py:29-48 | one day's lookup asks for the code itself, over the 1-day window ending at the base date, hourly for a code ending in `=X`, daily otherwise |
| `StockPrice.AttemptOn` | stock_price.py:28-55 | a day's lookup raises a provider error exactly when the provider answers that request with an error payload; it never raises `DataNotFound` itself; a found close has 2 places |
| `StockPrice.AttemptAsksOnce` | stock_price.py:26-53 | a day's lookup depends only on the provider's answer to its one request |
| `StockPrice.FxAttempt` | stock_price.py:29-44 | for a currency pair: no timestamps or no candle at 20:00 UTC is a miss; otherwise the result is the rounded close of the first candle at that hour |
| `StockPrice.EquityAttempt` | stock_price.py:45-53 | for any other code: no timestamps is a miss; otherwise the result is the rounded `close[0]` (an empty column raises) |
| `StockPrice.SearchLength` | stock_price.py:57-67 | a search looks at between 1 and 7 days |
| `StockPrice.LastClose` | stock_price.py:19-67 | a successful search returns a close with 2 decimal places |
| `StockPrice.LastCloseStep` | stock_price.py:57-67 | a miss while `retry ≤ 5` gives the result of the search from one day earlier with `retry + 1` |
| `StockPrice.LastCloseSearch` | stock_price.py:19-67 | the search looks at base date, base date − 1 day, … in that order, at most 7 days from `retry = 0`; it raises `DataNotFound` exactly when all of them miss; otherwise it returns the outcome of the first day that does not miss, either its close or its error (never retried) |
| `StockPrice.SeventhDayStillSearched` | stock_price.py:55-67 | six misses followed by data on the seventh day still succeed, with that day's close |
| `StockPrice.ProviderErrorNotRetried` | stock_price.py:28-56 | a provider error payload on the first day is raised at once |
| `StockPrice.LastCloseLooksOnlyAtSearchedDays` | stock_price.py:63-67 | two providers that agree on the searched days (never later than the base date, at most 7 of them) give the same result |
| `StockPrice.RateCodeIsFxPair` | stock_price.py:84 | the rate code `<currency>JPY=X` always takes the currency-pair branch |
| `StockPrice.JpyRate` | stock_price.py:86 | the JPY rate is exactly 1.00 |
| `StockPrice.CurrentPrice` | stock_price.py:70-94 | a computed value is a multiple of the share count; a failed price search is raised as is |
| `StockPrice.CurrentPriceJpy` | stock_price.py:80-88 | for JPY no rate is looked up: the value is the close searched from the day after the date, rounded half up to an integer, times the share count |
| `StockPrice.CurrentPriceForeign` | stock_price.py:80-88 | for another currency the value exists exactly when both searches (from the day after the date, the rate on `<currency>JPY=X`) succeed; it is `round(price × rate, 0) × shares`, rounded once before multiplying; a failed rate search is raised |

## Left out

- The HTTP request (share.py:73-82) is not modelled: the URL, the empty
  `User-Agent` and `requests.get` are replaced by the `Provider` oracle.
  `_frequency_str`, `_is_yf_response_error` and `_raise_yf_response_error`
  come from `yahoo_finance_api2`, which is not part of this model. The oracle
  receives the frequency type and count as they are, and an error payload
  stands for whatever `_is_yf_response_error` accepts.
- Malformed provider JSON (a missing `chart`, `result`, `indicators` or
  `quote` key, which raises `KeyError`) is not modelled. A response is either
  an error payload or a chart result.
- Floats are not modelled. Prices are exact decimals. The float-to-`str`
  conversion in `round` and Python's float `repr` are left out.
- The 28-digit precision of Python's default decimal context is not modelled.
  It would round a longer product `price * rate`, and `quantize` raises when
  the result needs more digits.
- `datetime` is not modelled. Instants are integer epoch seconds, so
  microseconds, the year range 1–9999 and `timedelta` overflow (`OverflowError`
  for huge negative periods) are left out. The hour is taken with integer
  division. This is exact for the millisecond timestamps the client produces,
  which are multiples of 1000.
- For an unknown period or frequency type, the source raises through
  `'Invalid ... type: ' % value`. That format string has no conversion
  specifier, so Python raises `TypeError` there instead of the intended
  `ValueError`. The model records only that the call raises (`InvalidPeriodType`,
  `InvalidFrequencyType`), not which exception class is raised.
- Logging calls, the command-line entry point and its documented example
  (`AMZN`, `USD`, 2 shares, 2022-04-15 → 763812) are left out. The example
  depends on market data from the provider. What it shows structurally is
  covered by `StockPrice.CurrentPriceForeign`: the result is a rounded
  integer times 2.
- money_forward_stock_price_updater.py (browser automation) and utils.py
  (logger setup) are not part of this model.
