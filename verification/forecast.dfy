/** The two forecast requests of services/weather.ts: `fetchCurrent`, reduced
    to its error checks, and `fetchDaily`, which zips the parallel arrays of
    the `daily` block into one record per day. The request and its JSON body
    are a parameter: what the request yields, with every number already
    coerced. */
module Forecast {
  import opened Wrappers

  /** What one forecast request yields: a non-ok status, an ok status and
      its body, or a rejected promise (the fetch itself, or reading the body),
      which propagates to the caller. */
  datatype Reply<T> = NotOk | Body(body: T) | Fails

  datatype FetchError =
    | Failed(message: string)  // an Error thrown with this message
    | RequestFailed            // a rejected promise passed through
    | TypeError                // indexing a missing array

  const CurrentRequestFailed: string := "現在の天気の取得に失敗しました"
  const CurrentMissing: string := "現在の天気データがありません"
  const DailyRequestFailed: string := "週間予報の取得に失敗しました"
  const DailyMissing: string := "週間予報データがありません"

  datatype Current = Current(temperatureC: real, windSpeedMs: real, weatherCode: int, timeIso: string)

  /** `fetchCurrent`: the body's `current` block, if present, is the result. */
  function FetchCurrent(reply: Reply<Option<Current>>): (r: Result<Current, FetchError>)
    ensures r.Ok? <==> reply.Body? && reply.body.Some?
    ensures r.Ok? ==> r.value == reply.body.value
    ensures r == Err(Failed(CurrentRequestFailed)) <==> reply.NotOk?
    ensures r == Err(Failed(CurrentMissing)) <==> reply == Body(None)
    ensures r == Err(RequestFailed) <==> reply.Fails?
  {
    match reply
    case NotOk => Err(Failed(CurrentRequestFailed))
    case Fails => Err(RequestFailed)
    case Body(cur) =>
      if cur.None? then Err(Failed(CurrentMissing)) else Ok(cur.value)
  }

  /** The `daily` block: each array may be absent. */
  datatype DailyArrays = DailyArrays(
    time: Option<seq<string>>,
    weatherCode: Option<seq<int>>,
    temperatureMax: Option<seq<real>>,
    temperatureMin: Option<seq<real>>)

  /** A temperature read past the end of its array is `undefined`, which
      `Number` turns into NaN. */
  datatype Temperature = Celsius(value: real) | NaN

  datatype Daily = Daily(dateIso: string, tMaxC: Temperature, tMinC: Temperature, weatherCode: int)

  /** Length of an array that may be absent; an absent one counts as empty. */
  function LengthOr0<T>(xs: Option<seq<T>>): (n: nat)
    ensures xs.Some? ==> n == |xs.value|
    ensures xs.None? ==> n == 0
  {
    if xs.Some? then |xs.value| else 0
  }

  /** How many days `fetchDaily` returns: the shorter of `time` and
      `weather_code`, the temperature arrays playing no part. */
  function DayCount(days: DailyArrays): (n: nat)
    ensures n <= LengthOr0(days.time) && n <= LengthOr0(days.weatherCode)
    ensures n == LengthOr0(days.time) || n == LengthOr0(days.weatherCode)
  {
    Min(LengthOr0(days.time), LengthOr0(days.weatherCode))
  }

  /** Element `i` of a temperature array that is present. */
  function TemperatureAt(xs: seq<real>, i: nat): (t: Temperature)
    ensures i < |xs| <==> t.Celsius?
    ensures i < |xs| ==> t.value == xs[i]
  {
    if i < |xs| then Celsius(xs[i]) else NaN
  }

  /** `fetchDaily` throws a TypeError exactly when it reads a day while a
      temperature array is missing. */
  predicate ReadsMissingArray(days: DailyArrays) {
    DayCount(days) > 0 && (days.temperatureMax.None? || days.temperatureMin.None?)
  }

  method FetchDaily(reply: Reply<Option<DailyArrays>>) returns (r: Result<seq<Daily>, FetchError>)
    ensures reply.NotOk? <==> r == Err(Failed(DailyRequestFailed))
    ensures reply.Fails? <==> r == Err(RequestFailed)
    ensures reply == Body(None) <==> r == Err(Failed(DailyMissing))
    ensures r == Err(TypeError) <==> reply.Body? && reply.body.Some? && ReadsMissingArray(reply.body.value)
    ensures r.Ok? <==> reply.Body? && reply.body.Some? && !ReadsMissingArray(reply.body.value)
    ensures r.Ok? ==>
      var days := reply.body.value;
      && |r.value| == DayCount(days)
      && forall i :: 0 <= i < |r.value| ==>
           && r.value[i].dateIso == days.time.value[i]
           && r.value[i].weatherCode == days.weatherCode.value[i]
           && r.value[i].tMaxC == TemperatureAt(days.temperatureMax.value, i)
           && r.value[i].tMinC == TemperatureAt(days.temperatureMin.value, i)
  {
    if reply.NotOk? {
      return Err(Failed(DailyRequestFailed));
    } else if reply.Fails? {
      return Err(RequestFailed);
    }
    if reply.body.None? {
      return Err(Failed(DailyMissing));
    }
    var days := reply.body.value;
    var out: seq<Daily> := [];
    var len := DayCount(days);
    for i := 0 to len
      invariant |out| == i
      invariant i > 0 ==> days.temperatureMax.Some? && days.temperatureMin.Some?
      invariant forall k :: 0 <= k < i ==>
        && out[k].dateIso == days.time.value[k]
        && out[k].weatherCode == days.weatherCode.value[k]
        && out[k].tMaxC == TemperatureAt(days.temperatureMax.value, k)
        && out[k].tMinC == TemperatureAt(days.temperatureMin.value, k)
    {
      if days.temperatureMax.None? || days.temperatureMin.None? {
        return Err(TypeError);
      }
      out := out + [Daily(days.time.value[i], TemperatureAt(days.temperatureMax.value, i),
                          TemperatureAt(days.temperatureMin.value, i), days.weatherCode.value[i])];
    }
    r := Ok(out);
  }
}
