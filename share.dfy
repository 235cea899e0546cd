/** The `Share` query client of share.py: the epoch-second window of a
    query, the download with the provider's error branch, and the
    normalisation of the provider's chart into flat OHLCV columns.
    The HTTP request is the `Provider` oracle: a function from the request
    to the provider's answer. */
module Share {
  import opened Wrappers
  import opened Rounding

  const SecondsPerDay := 86400
  /** `period` is capped at this many units. */
  const MaxPeriod := 59

  /** The period types of the query; any other value is an unknown one. */
  datatype PeriodType = PeriodDay | PeriodWeek | PeriodMonth | PeriodYear | UnknownPeriodType

  /** The sampling frequency types the client accepts, and any other value. */
  datatype FrequencyType =
    | FrequencyMinute | FrequencyHour | FrequencyDay | FrequencyWeek | FrequencyMonth
    | UnknownFrequencyType

  /** Raised by the client: an unrecognised period type (share.py:62), an
      unrecognised frequency type (share.py:32), an error payload from the
      provider (share.py:84-85). */
  datatype Error = InvalidPeriodType | InvalidFrequencyType | ProviderError

  /** `(start, end)` in epoch seconds. */
  datatype Window = Window(start: int, end: int)

  /** What one download asks the provider for: symbol, window and interval. */
  datatype Request = Request(symbol: string, start: int, end: int,
                             frequencyType: FrequencyType, frequency: int)

  /** A JSON number that may be `null`. */
  datatype JsonNumber = Null | Number(value: Dec)

  /** `indicators.quote[0]` of a chart result. */
  datatype Quote = Quote(open: seq<JsonNumber>, high: seq<JsonNumber>, low: seq<JsonNumber>,
                         close: seq<JsonNumber>, volume: seq<JsonNumber>)

  /** `chart.result[0]`: the epoch-second timestamps, when present, and the quote. */
  datatype ChartData = ChartData(timestamp: Option<seq<int>>, quote: Quote)

  /** The provider answers with an error payload or with a chart result. */
  datatype Response = ErrorPayload | ChartResult(data: ChartData)

  type Provider = Request -> Response

  /** The normalised result: millisecond timestamps and flat OHLCV columns. */
  datatype Series = Series(timestamp: seq<int>, open: seq<JsonNumber>, high: seq<JsonNumber>,
                           low: seq<JsonNumber>, close: seq<JsonNumber>, volume: seq<JsonNumber>)

  function Min(a: int, b: int): (m: int)
    ensures m <= a && m <= b && (m == a || m == b)
  {
    if a < b then a else b
  }

  /** Days in one unit of a known period type: a fixed approximation of the calendar. */
  function DaysPerUnit(periodType: PeriodType): (days: nat)
    requires periodType != UnknownPeriodType
    ensures 1 <= days <= 365
  {
    match periodType
    case PeriodDay => 1
    case PeriodWeek => 7
    case PeriodMonth => 30
    case PeriodYear => 365
  }

  /** `_set_time_frame_with_base_date`: the query window ending at `baseDate`. */
  function TimeFrame(periodType: PeriodType, period: int, baseDate: int): (r: Result<Window, Error>)
    ensures r.Err? <==> periodType == UnknownPeriodType
    ensures r.Err? ==> r.error == InvalidPeriodType
    ensures r.Ok? ==> r.value.end == baseDate
    ensures r.Ok? ==> r.value.end - r.value.start
                      == Min(period, MaxPeriod) * DaysPerUnit(periodType) * SecondsPerDay
  {
    if periodType.PeriodDay? then
      Ok(Window(baseDate - Min(period, MaxPeriod) * SecondsPerDay, baseDate))
    else if periodType.PeriodWeek? then
      Ok(Window(baseDate - Min(period, MaxPeriod) * 7 * SecondsPerDay, baseDate))
    else if periodType.PeriodMonth? then
      Ok(Window(baseDate - Min(period, MaxPeriod) * 30 * SecondsPerDay, baseDate))
    else if periodType.PeriodYear? then
      Ok(Window(baseDate - Min(period, MaxPeriod) * 365 * SecondsPerDay, baseDate))
    else
      Err(InvalidPeriodType)
  }

  /** The request a download issues for a known period type. */
  function WindowRequest(symbol: string, periodType: PeriodType, period: int,
                         frequencyType: FrequencyType, frequency: int, baseDate: int): (req: Request)
    requires periodType != UnknownPeriodType
    ensures req.symbol == symbol && req.end == baseDate
    ensures req.frequencyType == frequencyType && req.frequency == frequency
    ensures req.end - req.start == Min(period, MaxPeriod) * DaysPerUnit(periodType) * SecondsPerDay
  {
    var w := TimeFrame(periodType, period, baseDate).value;
    Request(symbol, w.start, w.end, frequencyType, frequency)
  }

  /** `_download_symbol_data_with_base_date`: compute the window, ask the
      provider, raise on an error payload, otherwise hand back `chart.result[0]`. */
  function Download(provider: Provider, symbol: string, periodType: PeriodType, period: int,
                    frequencyType: FrequencyType, frequency: int, baseDate: int): (r: Result<ChartData, Error>)
    ensures periodType == UnknownPeriodType ==> r == Err(InvalidPeriodType)
    ensures periodType != UnknownPeriodType ==>
      match provider(WindowRequest(symbol, periodType, period, frequencyType, frequency, baseDate))
      case ErrorPayload => r == Err(ProviderError)
      case ChartResult(data) => r == Ok(data)
  {
    match TimeFrame(periodType, period, baseDate)
    case Err(e) => Err(e)
    case Ok(w) =>
      match provider(Request(symbol, w.start, w.end, frequencyType, frequency))
      case ErrorPayload => Err(ProviderError)
      case ChartResult(data) => Ok(data)
  }

  /** `[x * 1000 for x in timestamps]`: the same instants at millisecond resolution. */
  function ToMillis(timestamps: seq<int>): (ms: seq<int>)
    ensures |ms| == |timestamps|
    ensures forall i :: 0 <= i < |ms| ==> ms[i] / 1000 == timestamps[i] && ms[i] % 1000 == 0
  {
    seq(|timestamps|, i requires 0 <= i < |timestamps| => timestamps[i] * 1000)
  }

  /** Back from milliseconds to the provider's epoch seconds. */
  function ToSeconds(ms: seq<int>): (s: seq<int>)
    ensures |s| == |ms|
  {
    seq(|ms|, i requires 0 <= i < |ms| => ms[i] / 1000)
  }

  /** Scaling to milliseconds loses nothing: the provider's seconds come back. */
  lemma MillisRoundTrip(timestamps: seq<int>)
    ensures ToSeconds(ToMillis(timestamps)) == timestamps
  {
    var back := ToSeconds(ToMillis(timestamps));
    forall i | 0 <= i < |timestamps|
      ensures back[i] == timestamps[i]
    {
    }
  }

  /** The flat series built from a chart that carries timestamps. */
  function Normalise(timestamps: seq<int>, quote: Quote): (s: Series)
    ensures |s.timestamp| == |timestamps|
    ensures forall i :: 0 <= i < |timestamps| ==> s.timestamp[i] == 1000 * timestamps[i]
    ensures ToSeconds(s.timestamp) == timestamps
    ensures s.open == quote.open && s.high == quote.high && s.low == quote.low
    ensures s.close == quote.close && s.volume == quote.volume
  {
    MillisRoundTrip(timestamps);
    Series(ToMillis(timestamps), quote.open, quote.high, quote.low, quote.close, quote.volume)
  }

  /** The frequency types the client accepts: minute, hour, day, week, month. */
  predicate ValidFrequencyType(frequencyType: FrequencyType): (valid: bool)
    ensures valid <==> frequencyType.FrequencyMinute? || frequencyType.FrequencyHour?
                       || frequencyType.FrequencyDay? || frequencyType.FrequencyWeek?
                       || frequencyType.FrequencyMonth?
  {
    frequencyType != UnknownFrequencyType
  }

  /** `get_historical_with_base_date`: download, then check the frequency
      type, then `None` when the chart has no timestamps, otherwise the
      normalised series. */
  function GetHistorical(provider: Provider, symbol: string, periodType: PeriodType, period: int,
                         frequencyType: FrequencyType, frequency: int, baseDate: int)
    : (r: Result<Option<Series>, Error>)
    ensures r == Err(InvalidPeriodType) <==> periodType == UnknownPeriodType
    ensures periodType != UnknownPeriodType ==>
      var response := provider(WindowRequest(symbol, periodType, period, frequencyType, frequency, baseDate));
      && (r == Err(ProviderError) <==> response.ErrorPayload?)
      && (r == Err(InvalidFrequencyType) <==> response.ChartResult? && !ValidFrequencyType(frequencyType))
      && (r == Ok(None) <==>
            response.ChartResult? && ValidFrequencyType(frequencyType) && response.data.timestamp.None?)
      && (r.Ok? && r.value.Some? <==>
            response.ChartResult? && ValidFrequencyType(frequencyType) && response.data.timestamp.Some?)
      && (r.Ok? && r.value.Some? ==>
            r.value.value == Normalise(response.data.timestamp.value, response.data.quote))
  {
    match Download(provider, symbol, periodType, period, frequencyType, frequency, baseDate)
    case Err(e) => Err(e)
    case Ok(data) =>
      if !ValidFrequencyType(frequencyType) then Err(InvalidFrequencyType)
      else
        match data.timestamp
        case None => Ok(None)
        case Some(timestamps) => Ok(Some(Normalise(timestamps, data.quote)))
  }

  /** The window always ends at the base date and never spans more than
      59 years of 365 days, whatever period is asked for. */
  lemma WindowBounded(periodType: PeriodType, period: int, baseDate: int)
    requires periodType != UnknownPeriodType
    ensures TimeFrame(periodType, period, baseDate).Ok?
    ensures TimeFrame(periodType, period, baseDate).value.end - TimeFrame(periodType, period, baseDate).value.start
            <= MaxPeriod * 365 * SecondsPerDay
  {
  }

  /** The period is only capped from above: the window runs forward in time
      exactly when the period is not negative. */
  lemma WindowOrderedIff(periodType: PeriodType, period: int, baseDate: int)
    requires periodType != UnknownPeriodType
    ensures TimeFrame(periodType, period, baseDate).Ok?
    ensures TimeFrame(periodType, period, baseDate).value.start <= baseDate <==> period >= 0
  {
  }

  /** Any period of at least 59 units gives the window of exactly 59 units. */
  lemma PeriodCapped(periodType: PeriodType, period: int, baseDate: int)
    requires period >= MaxPeriod
    ensures TimeFrame(periodType, period, baseDate) == TimeFrame(periodType, MaxPeriod, baseDate)
  {
  }
}
