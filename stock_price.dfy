/** The valuation engine of stock_price.py: the last close of a symbol as of
    a date, searched backwards one day at a time when the provider has no
    data, and the JPY value of a position built from it. Dates are epoch
    seconds; the provider is the oracle of the Share module. */
module StockPrice {
  import opened Wrappers
  import opened Rounding
  import Share

  /** What `get_last_close` and `get_current_price` can raise: an error of
      the client, `round` of a `null` close (decimal.InvalidOperation),
      `close[0]` of an empty column (IndexError), and `DataNotFoundException`
      once the backward search is exhausted. */
  datatype Error = ClientError(cause: Share.Error) | InvalidDecimal | IndexOutOfRange | DataNotFound

  /** One day's lookup: a rounded close, a miss (`DataNotFoundException`
      raised inside the `try`), or an error that is not retried. */
  datatype Attempt = Found(close: Dec) | Miss | Failed(error: Error)

  const SecondsPerDay := Share.SecondsPerDay
  /** 16:00 in New York (UTC-4) is 20:00 UTC. */
  const ClosingHourUtc := 20
  /** A miss raises once `retry` exceeds this. */
  const MaxRetry := 5
  /** Prices are rounded to this many decimal places. */
  const PricePrecision := 2

  /** `code.endswith('=X')`: the code names a currency pair. */
  predicate IsFxPair(code: string): (fx: bool)
    ensures fx <==> |code| >= 2 && code[|code| - 2] == '=' && code[|code| - 1] == 'X'
  {
    |code| >= 2 && code[|code| - 2..] == "=X"
  }

  /** The UTC hour of a timestamp given in milliseconds. */
  function HourUtc(millis: int): (h: int)
    ensures 0 <= h < 24
  {
    (millis / 1000 / 3600) % 24
  }

  /** The hour of a provider timestamp is the hour of its seconds. */
  lemma HourOfProviderTimestamp(timestamps: seq<int>, i: int)
    requires 0 <= i < |timestamps|
    ensures HourUtc(Share.ToMillis(timestamps)[i]) == (timestamps[i] / 3600) % 24
  {
  }

  /** Index of the first timestamp at the closing hour, if any. */
  function FirstAtClosingHour(timestamps: seq<int>): (r: Option<nat>)
    ensures r.Some? ==> r.value < |timestamps| && HourUtc(timestamps[r.value]) == ClosingHourUtc
    ensures r.Some? ==> forall j :: 0 <= j < r.value ==> HourUtc(timestamps[j]) != ClosingHourUtc
    ensures r.None? ==> forall j :: 0 <= j < |timestamps| ==> HourUtc(timestamps[j]) != ClosingHourUtc
  {
    if |timestamps| == 0 then None
    else if HourUtc(timestamps[0]) == ClosingHourUtc then Some(0)
    else
      match FirstAtClosingHour(timestamps[1..])
      case None => None
      case Some(k) => Some(k + 1)
  }

  /** The close paired (as `zip` pairs) with the first candle at the closing
      hour; `None` when no paired candle is at that hour. */
  function CloseAtClosingHour(timestamps: seq<int>, closes: seq<Share.JsonNumber>): (r: Option<Share.JsonNumber>)
  {
    var n := Share.Min(|timestamps|, |closes|);
    match FirstAtClosingHour(timestamps[..n])
    case None => None
    case Some(k) => Some(closes[k])
  }

  /** What the scan finds: no close exactly when no candle paired by `zip`
      is at the closing hour, otherwise the close of the first such candle. */
  lemma CloseAtClosingHourFirst(timestamps: seq<int>, closes: seq<Share.JsonNumber>)
    ensures CloseAtClosingHour(timestamps, closes).None? <==>
      forall i :: 0 <= i < |timestamps| && i < |closes| ==> HourUtc(timestamps[i]) != ClosingHourUtc
    ensures CloseAtClosingHour(timestamps, closes).Some? ==>
      exists i :: 0 <= i < |timestamps| && i < |closes| && HourUtc(timestamps[i]) == ClosingHourUtc
        && CloseAtClosingHour(timestamps, closes).value == closes[i]
        && forall j :: 0 <= j < i ==> HourUtc(timestamps[j]) != ClosingHourUtc
  {
    var n := Share.Min(|timestamps|, |closes|);
    var paired := timestamps[..n];
    assert forall i :: 0 <= i < n ==> paired[i] == timestamps[i];
  }

  /** The `for ... else` scan of the FX branch: walk the candles in provider
      order and stop at the first one at 20:00 UTC. */
  method ScanCloseAtClosingHour(timestamps: seq<int>, closes: seq<Share.JsonNumber>)
    returns (r: Option<Share.JsonNumber>)
    ensures r.Some? <==> exists i :: 0 <= i < |timestamps| && i < |closes| && HourUtc(timestamps[i]) == ClosingHourUtc
    ensures r == CloseAtClosingHour(timestamps, closes)
  {
    var n := Share.Min(|timestamps|, |closes|);
    var i := 0;
    while i < n
      invariant 0 <= i <= n
      invariant forall j :: 0 <= j < i ==> HourUtc(timestamps[j]) != ClosingHourUtc
    {
      if HourUtc(timestamps[i]) == ClosingHourUtc {
        assert timestamps[..n][i] == timestamps[i];
        return Some(closes[i]);
      }
      i := i + 1;
    }
    return None;
  }

  /** `round(last_close)` at two places; `round(None)` raises. */
  function RoundedClose(close: Share.JsonNumber): (a: Attempt)
    ensures !a.Miss?
    ensures a.Found? <==> close.Number?
    ensures a.Found? ==> a.close == Round(close.value, PricePrecision)
    ensures a.Failed? ==> a.error == InvalidDecimal
  {
    match close
    case Null => Failed(InvalidDecimal)
    case Number(d) => Found(Round(d, PricePrecision))
  }

  /** The frequency of one day's lookup: hourly for a currency pair, daily otherwise. */
  function LookupFrequency(code: string): (f: Share.FrequencyType)
    ensures f == Share.FrequencyHour <==> IsFxPair(code)
    ensures f == Share.FrequencyDay <==> !IsFxPair(code)
    ensures Share.ValidFrequencyType(f)
  {
    if IsFxPair(code) then Share.FrequencyHour else Share.FrequencyDay
  }

  /** The one request a day's lookup sends: one day back from `baseDate`. */
  function LookupRequest(code: string, baseDate: int): (req: Share.Request)
    ensures req.symbol == code
    ensures req.end == baseDate && req.start == baseDate - SecondsPerDay
    ensures req.frequency == 1
    ensures req.frequencyType == Share.FrequencyHour <==> IsFxPair(code)
    ensures req.frequencyType == Share.FrequencyDay <==> !IsFxPair(code)
  {
    Share.WindowRequest(code, Share.PeriodDay, 1, LookupFrequency(code), 1, baseDate)
  }

  /** The body of the `try` in `get_last_close` for one base date. */
  function AttemptOn(provider: Share.Provider, code: string, baseDate: int): (a: Attempt)
    ensures a.Failed? ==> a.error != DataNotFound
    ensures provider(LookupRequest(code, baseDate)).ErrorPayload? <==> a == Failed(ClientError(Share.ProviderError))
    ensures a.Found? ==> a.close.exp == PricePrecision
  {
    match Share.GetHistorical(provider, code, Share.PeriodDay, 1, LookupFrequency(code), 1, baseDate)
    case Err(e) => Failed(ClientError(e))
    case Ok(None) => Miss
    case Ok(Some(series)) =>
      if IsFxPair(code) then
        match CloseAtClosingHour(series.timestamp, series.close)
        case None => Miss
        case Some(close) => RoundedClose(close)
      else if |series.close| == 0 then Failed(IndexOutOfRange)
      else RoundedClose(series.close[0])
  }

  /** A day's lookup asks the provider one question, and its outcome depends
      on the answer to that question only. */
  lemma AttemptAsksOnce(p1: Share.Provider, p2: Share.Provider, code: string, baseDate: int)
    requires p1(LookupRequest(code, baseDate)) == p2(LookupRequest(code, baseDate))
    ensures AttemptOn(p1, code, baseDate) == AttemptOn(p2, code, baseDate)
  {
  }

  /** Currency pair: the close of the first hourly candle at 20:00 UTC;
      a missing series or no candle at that hour is a miss. */
  lemma FxAttempt(provider: Share.Provider, code: string, baseDate: int)
    requires IsFxPair(code)
    requires provider(LookupRequest(code, baseDate)).ChartResult?
    ensures var data := provider(LookupRequest(code, baseDate)).data;
      match data.timestamp
      case None => AttemptOn(provider, code, baseDate) == Miss
      case Some(ts) =>
        match CloseAtClosingHour(Share.ToMillis(ts), data.quote.close)
        case None => AttemptOn(provider, code, baseDate) == Miss
        case Some(close) => AttemptOn(provider, code, baseDate) == RoundedClose(close)
  {
  }

  /** Equity: the first daily close; a missing series is a miss. */
  lemma EquityAttempt(provider: Share.Provider, code: string, baseDate: int)
    requires !IsFxPair(code)
    requires provider(LookupRequest(code, baseDate)).ChartResult?
    ensures var data := provider(LookupRequest(code, baseDate)).data;
      match data.timestamp
      case None => AttemptOn(provider, code, baseDate) == Miss
      case Some(_) =>
        if |data.quote.close| == 0 then AttemptOn(provider, code, baseDate) == Failed(IndexOutOfRange)
        else AttemptOn(provider, code, baseDate) == RoundedClose(data.quote.close[0])
  {
  }

  /** The lookup `k` days before `baseDate`. */
  function AttemptDaysBack(provider: Share.Provider, code: string, baseDate: int, k: nat): (a: Attempt)
  {
    AttemptOn(provider, code, baseDate - k * SecondsPerDay)
  }

  /** Every lookup from `baseDate` back over `n` days is a miss. */
  ghost predicate MissesFor(provider: Share.Provider, code: string, baseDate: int, n: nat)
  {
    forall j: nat :: j < n ==> AttemptDaysBack(provider, code, baseDate, j).Miss?
  }

  /** How many days a search starting at `retry` may look at. */
  function SearchLength(retry: nat): (n: nat)
    ensures 1 <= n <= MaxRetry + 2
  {
    if retry > MaxRetry then 1 else MaxRetry + 2 - retry
  }

  /** The outcome of a lookup that did not miss. */
  function Settle(a: Attempt): (r: Result<Dec, Error>)
    requires !a.Miss?
  {
    match a
    case Found(close) => Ok(close)
    case Failed(e) => Err(e)
  }

  /** `get_last_close(code, base_date, retry)`: look up `baseDate`; on a miss
      raise when `retry > 5`, otherwise search again one day earlier. */
  function LastClose(provider: Share.Provider, code: string, baseDate: int, retry: nat): (r: Result<Dec, Error>)
    ensures r.Ok? ==> r.value.exp == PricePrecision
    decreases MaxRetry + 1 - retry
  {
    match AttemptOn(provider, code, baseDate)
    case Found(close) => Ok(close)
    case Failed(e) => Err(e)
    case Miss =>
      if retry > MaxRetry then Err(DataNotFound)
      else LastClose(provider, code, baseDate - SecondsPerDay, retry + 1)
  }

  lemma ShiftOneDay(provider: Share.Provider, code: string, baseDate: int, j: nat)
    ensures AttemptDaysBack(provider, code, baseDate - SecondsPerDay, j)
            == AttemptDaysBack(provider, code, baseDate, j + 1)
  {
    assert baseDate - SecondsPerDay - j * SecondsPerDay == baseDate - (j + 1) * SecondsPerDay;
  }

  /** Missing on `n + 1` days from `baseDate` is missing on `baseDate` and on
      `n` days from the day before. */
  lemma MissesShift(provider: Share.Provider, code: string, baseDate: int, n: nat)
    ensures MissesFor(provider, code, baseDate, n + 1)
            <==> AttemptOn(provider, code, baseDate).Miss? && MissesFor(provider, code, baseDate - SecondsPerDay, n)
  {
    var earlier := baseDate - SecondsPerDay;
    assert AttemptDaysBack(provider, code, baseDate, 0) == AttemptOn(provider, code, baseDate);
    if MissesFor(provider, code, baseDate, n + 1) {
      forall j: nat | j < n
        ensures AttemptDaysBack(provider, code, earlier, j).Miss?
      {
        ShiftOneDay(provider, code, baseDate, j);
      }
    }
    if AttemptOn(provider, code, baseDate).Miss? && MissesFor(provider, code, earlier, n) {
      forall j: nat | j < n + 1
        ensures AttemptDaysBack(provider, code, baseDate, j).Miss?
      {
        if j > 0 {
          ShiftOneDay(provider, code, baseDate, j - 1);
        }
      }
    }
  }

  /** The search raises `DataNotFound` exactly when every day it may look
      at misses. */
  lemma {:induction false} LastCloseRaisesIffAllMiss(provider: Share.Provider, code: string, baseDate: int, retry: nat)
    ensures LastClose(provider, code, baseDate, retry) == Err(DataNotFound)
            <==> MissesFor(provider, code, baseDate, SearchLength(retry))
    decreases MaxRetry + 1 - retry
  {
    var n := SearchLength(retry);
    var first := AttemptOn(provider, code, baseDate);
    assert AttemptDaysBack(provider, code, baseDate, 0) == first;
    if first.Miss? && retry <= MaxRetry {
      LastCloseRaisesIffAllMiss(provider, code, baseDate - SecondsPerDay, retry + 1);
      MissesShift(provider, code, baseDate, n - 1);
    } else if !first.Miss? {
      assert !MissesFor(provider, code, baseDate, n);
    }
  }

  /** One step of the search: a miss within the bound moves one day back. */
  lemma LastCloseStep(provider: Share.Provider, code: string, baseDate: int, retry: nat)
    requires AttemptOn(provider, code, baseDate).Miss? && retry <= MaxRetry
    ensures LastClose(provider, code, baseDate, retry) == LastClose(provider, code, baseDate - SecondsPerDay, retry + 1)
  {
  }

  /** The first day of the search that does not miss decides the outcome. */
  lemma {:induction false} LastCloseTakesFirstHit(provider: Share.Provider, code: string, baseDate: int, retry: nat, k: nat)
    requires k < SearchLength(retry) && MissesFor(provider, code, baseDate, k)
    requires !AttemptDaysBack(provider, code, baseDate, k).Miss?
    ensures LastClose(provider, code, baseDate, retry) == Settle(AttemptDaysBack(provider, code, baseDate, k))
    decreases k
  {
    var first := AttemptOn(provider, code, baseDate);
    assert AttemptDaysBack(provider, code, baseDate, 0) == first;
    if k > 0 {
      var earlier := baseDate - SecondsPerDay;
      assert retry <= MaxRetry;
      MissesShift(provider, code, baseDate, k - 1);
      assert first.Miss? && MissesFor(provider, code, earlier, k - 1);
      ShiftOneDay(provider, code, baseDate, k - 1);
      LastCloseTakesFirstHit(provider, code, earlier, retry + 1, k - 1);
      LastCloseStep(provider, code, baseDate, retry);
    }
  }

  /** The backward search, stated without recursion. It looks at the days
      `baseDate, baseDate - 1 day, ...` in that order, at most
      `SearchLength(retry)` of them (seven from `retry == 0`); it raises
      `DataNotFound` exactly when all of them miss, and otherwise answers
      with the first day that does not miss: its rounded close, or its
      error, which is never retried. */
  lemma LastCloseSearch(provider: Share.Provider, code: string, baseDate: int, retry: nat)
    ensures LastClose(provider, code, baseDate, retry) == Err(DataNotFound)
            <==> MissesFor(provider, code, baseDate, SearchLength(retry))
    ensures forall k: nat ::
              k < SearchLength(retry) && MissesFor(provider, code, baseDate, k)
              && !AttemptDaysBack(provider, code, baseDate, k).Miss?
              ==> LastClose(provider, code, baseDate, retry) == Settle(AttemptDaysBack(provider, code, baseDate, k))
  {
    LastCloseRaisesIffAllMiss(provider, code, baseDate, retry);
    forall k: nat | k < SearchLength(retry) && MissesFor(provider, code, baseDate, k)
                    && !AttemptDaysBack(provider, code, baseDate, k).Miss?
      ensures LastClose(provider, code, baseDate, retry) == Settle(AttemptDaysBack(provider, code, baseDate, k))
    {
      LastCloseTakesFirstHit(provider, code, baseDate, retry, k);
    }
  }

  /** From `retry == 0` a search raises only after seven misses, on
      `baseDate` and the six days before it; six misses followed by data on
      the seventh day still succeed. */
  lemma SeventhDayStillSearched(provider: Share.Provider, code: string, baseDate: int)
    requires MissesFor(provider, code, baseDate, 6)
    requires AttemptDaysBack(provider, code, baseDate, 6).Found?
    ensures LastClose(provider, code, baseDate, 0) == Ok(AttemptDaysBack(provider, code, baseDate, 6).close)
  {
    LastCloseSearch(provider, code, baseDate, 0);
  }

  /** An error payload from the provider on the first day is raised at once,
      with no day searched after it. */
  lemma ProviderErrorNotRetried(provider: Share.Provider, code: string, baseDate: int, retry: nat)
    requires provider(LookupRequest(code, baseDate)).ErrorPayload?
    ensures LastClose(provider, code, baseDate, retry) == Err(ClientError(Share.ProviderError))
  {
  }

  /** The search never looks forward in time nor further back than its
      bound: two providers that agree on the days searched give the same
      outcome. */
  lemma {:induction false} LastCloseLooksOnlyAtSearchedDays(
    p1: Share.Provider, p2: Share.Provider, code: string, baseDate: int, retry: nat)
    requires forall j: nat :: j < SearchLength(retry) ==>
      p1(LookupRequest(code, baseDate - j * SecondsPerDay)) == p2(LookupRequest(code, baseDate - j * SecondsPerDay))
    ensures LastClose(p1, code, baseDate, retry) == LastClose(p2, code, baseDate, retry)
    decreases MaxRetry + 1 - retry
  {
    assert baseDate - 0 * SecondsPerDay == baseDate;
    AttemptAsksOnce(p1, p2, code, baseDate);
    if AttemptOn(p1, code, baseDate).Miss? && retry <= MaxRetry {
      var earlier := baseDate - SecondsPerDay;
      forall j: nat | j < SearchLength(retry + 1)
        ensures p1(LookupRequest(code, earlier - j * SecondsPerDay))
                == p2(LookupRequest(code, earlier - j * SecondsPerDay))
      {
        assert earlier - j * SecondsPerDay == baseDate - (j + 1) * SecondsPerDay;
      }
      LastCloseLooksOnlyAtSearchedDays(p1, p2, code, earlier, retry + 1);
    }
  }

  /** The FX code built for a currency always takes the currency-pair branch. */
  lemma RateCodeIsFxPair(currency: string)
    ensures IsFxPair(currency + "JPY=X")
  {
    var code := currency + "JPY=X";
    assert code[|code| - 2..] == "=X";
  }

  /** The rate used for a JPY position: `round(1)`, exactly 1.00. */
  function JpyRate(): (rate: Dec)
    ensures rate == Dec(100, PricePrecision)
  {
    Round(Dec(1, 0), PricePrecision)
  }

  /** `get_current_price`: the close of the symbol and, unless the currency
      is JPY, of `<currency>JPY=X`, both searched from the day after `date`;
      `price × rate` is rounded half up to an integer once and then
      multiplied by the share count. */
  function CurrentPrice(provider: Share.Provider, code: string, currency: string, shares: int, date: int)
    : (r: Result<int, Error>)
    ensures shares != 0 && r.Ok? ==> r.value % shares == 0
    ensures LastClose(provider, code, date + SecondsPerDay, 0).Err? ==>
              r == Err(LastClose(provider, code, date + SecondsPerDay, 0).error)
  {
    var baseDate := date + SecondsPerDay;
    match LastClose(provider, code, baseDate, 0)
    case Err(e) => Err(e)
    case Ok(price) =>
      var rate := if currency != "JPY" then LastClose(provider, currency + "JPY=X", baseDate, 0) else Ok(JpyRate());
      match rate
      case Err(e) => Err(e)
      case Ok(rate) =>
        var yen := Round(Mul(price, rate), 0).mant;
        if shares != 0 then MultipleOf(yen, shares); Ok(yen * shares) else Ok(yen * shares)
  }

  lemma MultipleOf(k: int, shares: int)
    requires shares != 0
    ensures (k * shares) % shares == 0
  {
    var v := k * shares;
    var t := k - v / shares;
    assert v == shares * (v / shares) + v % shares;
    assert v % shares == shares * t;
  }

  /** A JPY position is never converted: no rate is looked up, and the value
      is the close rounded to an integer, times the share count. */
  lemma CurrentPriceJpy(provider: Share.Provider, code: string, shares: int, date: int)
    ensures CurrentPrice(provider, code, "JPY", shares, date) ==
      match LastClose(provider, code, date + SecondsPerDay, 0)
      case Err(e) => Err(e)
      case Ok(price) => Ok(Round(price, 0).mant * shares)
  {
    match LastClose(provider, code, date + SecondsPerDay, 0)
    case Err(e) =>
    case Ok(price) =>
      MulByOne(price, 2);
      RoundRescale(price, 2, 0);
  }

  /** A foreign position: the value is defined exactly when both searches
      succeed, the rate's search runs from the same day on the currency pair,
      and it is `round(price × rate, 0) × shares`. */
  lemma CurrentPriceForeign(provider: Share.Provider, code: string, currency: string, shares: int, date: int)
    requires currency != "JPY"
    ensures var baseDate := date + SecondsPerDay;
      var price := LastClose(provider, code, baseDate, 0);
      var rate := LastClose(provider, currency + "JPY=X", baseDate, 0);
      && IsFxPair(currency + "JPY=X")
      && (CurrentPrice(provider, code, currency, shares, date).Ok? <==> price.Ok? && rate.Ok?)
      && (price.Ok? && rate.Err? ==> CurrentPrice(provider, code, currency, shares, date) == Err(rate.error))
      && (price.Ok? && rate.Ok? ==>
            CurrentPrice(provider, code, currency, shares, date)
            == Ok(Round(Mul(price.value, rate.value), 0).mant * shares))
  {
    RateCodeIsFxPair(currency);
  }
}
