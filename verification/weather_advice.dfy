/** Umbrella and clothing advice for the coming hours
    (components/WeatherAdvice.tsx). The clock is a parameter: `now` is the
    current instant and `hour` the current hour of the day; `instant` parses
    an ISO time the way `new Date` does, `None` standing for an invalid date.
    The average temperature is a parameter too. */
module WeatherAdvice {
  import opened Wrappers

  datatype Hourly = Hourly(timeIso: string, temperatureC: real, precipitationProbability: real)

  /** An invalid date compares as NaN, so it is never after now. */
  predicate IsFuture(h: Hourly, instant: string -> Option<int>, now: int) {
    instant(h.timeIso).Some? && instant(h.timeIso).value > now
  }

  /** `xs` is `ys` with some entries left out, the others in order. */
  predicate IsSubsequence(xs: seq<Hourly>, ys: seq<Hourly>) {
    if xs == [] then true
    else if ys == [] then false
    else if xs[0] == ys[0] then IsSubsequence(xs[1..], ys[1..])
    else IsSubsequence(xs, ys[1..])
  }

  /** The `filter` step: the entries after now, in their original order. */
  function KeepFuture(hours: seq<Hourly>, instant: string -> Option<int>, now: int): (kept: seq<Hourly>)
    ensures |kept| <= |hours|
    ensures forall h :: h in kept ==> h in hours && IsFuture(h, instant, now)
    ensures forall h :: h in hours && IsFuture(h, instant, now) ==> h in kept
    ensures IsSubsequence(kept, hours)
    ensures forall h :: multiset(kept)[h] == if IsFuture(h, instant, now) then multiset(hours)[h] else 0
  {
    if hours == [] then []
    else
      assert hours == [hours[0]] + hours[1..];
      var rest := KeepFuture(hours[1..], instant, now);
      if IsFuture(hours[0], instant, now) then [hours[0]] + rest
      else
        assert rest == [] || rest[0] != hours[0];
        rest
  }

  const Horizon: nat := 6

  /** `futureHours`: the first six entries after now. */
  function FutureHours(hours: seq<Hourly>, instant: string -> Option<int>, now: int): (fh: seq<Hourly>)
    ensures |fh| == Min(Horizon, |KeepFuture(hours, instant, now)|)
    ensures fh == KeepFuture(hours, instant, now)[..|fh|]
  {
    var kept := KeepFuture(hours, instant, now);
    kept[..Min(Horizon, |kept|)]
  }

  /** `Math.max` of the precipitation probabilities. */
  function MaxPrecip(fh: seq<Hourly>): (m: real)
    requires fh != []
    ensures forall i :: 0 <= i < |fh| ==> fh[i].precipitationProbability <= m
    ensures exists i :: 0 <= i < |fh| && fh[i].precipitationProbability == m
  {
    if |fh| == 1 then fh[0].precipitationProbability
    else
      var rest := MaxPrecip(fh[1..]);
      assert forall i :: 1 <= i < |fh| ==> fh[i] == fh[1..][i - 1];
      if fh[0].precipitationProbability >= rest then fh[0].precipitationProbability else rest
  }

  const HeavyRain: string := "強い雨が予想されます"
  const LikelyRain: string := "雨が降る可能性が高いです"
  const PossibleRain: string := "雨が降る可能性があります"
  const MayMeetRain: string := "雨に遭う可能性があります"
  const JustInCase: string := "念のため傘を持参しましょう"
  const AfternoonOuting: string := "午後の外出で雨に遭う可能性があります"
  const EveningOuting: string := "夕方の外出で雨に遭う可能性があります"
  const LongOuting: string := "長時間の外出で雨に遭う可能性があります"
  const LittleWorry: string := "雨の心配は少ないです"
  const NoWorry: string := "雨の心配はありません"

  datatype RainAdvice = RainAdvice(umbrella: bool, reason: string)

  predicate IsAfternoon(hour: int) {
    12 <= hour < 18
  }

  predicate IsEvening(hour: int) {
    18 <= hour < 22
  }

  /** The umbrella decision: probability bands first, then, between 10 and
      20 percent, the time of day and how many hours lie ahead. */
  function Umbrella(maxPrecip: real, hour: int, outdoorHours: nat): (r: RainAdvice)
    ensures maxPrecip >= 20.0 ==> r.umbrella
    ensures maxPrecip < 10.0 ==> r == RainAdvice(false, NoWorry)
    ensures r.umbrella <==> r.reason != LittleWorry && r.reason != NoWorry
    ensures 10.0 <= maxPrecip < 20.0 ==>
      && (r.reason == AfternoonOuting <==> IsAfternoon(hour) && outdoorHours >= 3)
      && (r.reason == EveningOuting <==> IsEvening(hour) && outdoorHours >= 2 && !(IsAfternoon(hour) && outdoorHours >= 3))
      && (r.reason == LongOuting <==>
            outdoorHours >= 4 && !(IsAfternoon(hour) && outdoorHours >= 3) && !(IsEvening(hour) && outdoorHours >= 2))
      && (!r.umbrella <==> r.reason == LittleWorry)
  {
    if maxPrecip >= 80.0 then RainAdvice(true, HeavyRain)
    else if maxPrecip >= 60.0 then RainAdvice(true, LikelyRain)
    else if maxPrecip >= 40.0 then RainAdvice(true, PossibleRain)
    else if maxPrecip >= 30.0 then RainAdvice(true, MayMeetRain)
    else if maxPrecip >= 20.0 then RainAdvice(true, JustInCase)
    else if maxPrecip >= 10.0 then
      if IsAfternoon(hour) && outdoorHours >= 3 then RainAdvice(true, AfternoonOuting)
      else if IsEvening(hour) && outdoorHours >= 2 then RainAdvice(true, EveningOuting)
      else if outdoorHours >= 4 then RainAdvice(true, LongOuting)
      else RainAdvice(false, LittleWorry)
    else RainAdvice(false, NoWorry)
  }

  datatype ClothingAdvice = ClothingAdvice(clothing: string, temperature: string)

  /** Lower bounds of the temperature bands, and the labels of the seven
      bands they delimit, coldest first. */
  const TemperatureBounds: seq<real> := [5.0, 10.0, 15.0, 20.0, 25.0, 30.0]
  const ClothingLabels: seq<string> := [
    "厚手のコート・マフラー・手袋", "コート・セーター・長袖", "カーディガン・長袖シャツ",
    "薄手のカーディガン・長袖", "長袖シャツ・薄手の上着", "半袖・薄手の上着", "半袖・涼しい服装"]
  const TemperatureLabels: seq<string> := ["とても寒い", "寒い", "少し寒い", "涼しい", "快適", "暖かい", "暑い"]

  /** The clothing decision on the average temperature. */
  function Clothing(avgTemp: real): (c: ClothingAdvice)
    ensures avgTemp >= 30.0 <==> c.temperature == "暑い"
  {
    if avgTemp < 5.0 then ClothingAdvice("厚手のコート・マフラー・手袋", "とても寒い")
    else if avgTemp < 10.0 then ClothingAdvice("コート・セーター・長袖", "寒い")
    else if avgTemp < 15.0 then ClothingAdvice("カーディガン・長袖シャツ", "少し寒い")
    else if avgTemp < 20.0 then ClothingAdvice("薄手のカーディガン・長袖", "涼しい")
    else if avgTemp < 25.0 then ClothingAdvice("長袖シャツ・薄手の上着", "快適")
    else if avgTemp < 30.0 then ClothingAdvice("半袖・薄手の上着", "暖かい")
    else ClothingAdvice("半袖・涼しい服装", "暑い")
  }

  datatype Advice = Advice(umbrella: bool, clothing: string, temperature: string, reason: string)

  /** `generateAdvice`, on the four quantities it depends on: the umbrella
      in closed form, with a reason that says whether one is needed, and the
      clothing and temperature labels of the band the average falls in. */
  function GenerateAdvice(maxPrecip: real, avgTemp: real, hour: int, outdoorHours: nat): (a: Advice)
    ensures a.umbrella <==>
      maxPrecip >= 20.0
      || (maxPrecip >= 10.0
          && ((IsAfternoon(hour) && outdoorHours >= 3)
              || (IsEvening(hour) && outdoorHours >= 2)
              || outdoorHours >= 4))
    ensures a.umbrella <==> a.reason != LittleWorry && a.reason != NoWorry
    ensures maxPrecip >= 20.0 ==>
      1 <= Reached(maxPrecip, RainBounds) <= 5 && a.reason == SureReasons[Reached(maxPrecip, RainBounds) - 1]
    ensures maxPrecip < 10.0 ==> a.reason == NoWorry
    ensures 10.0 <= maxPrecip < 20.0 ==>
      && (a.reason == AfternoonOuting <==> IsAfternoon(hour) && outdoorHours >= 3)
      && (a.reason == EveningOuting <==> IsEvening(hour) && outdoorHours >= 2 && !(IsAfternoon(hour) && outdoorHours >= 3))
      && (a.reason == LongOuting <==>
            outdoorHours >= 4 && !(IsAfternoon(hour) && outdoorHours >= 3) && !(IsEvening(hour) && outdoorHours >= 2))
      && (!a.umbrella <==> a.reason == LittleWorry)
    ensures Reached(avgTemp, TemperatureBounds) <= 6
    ensures a.clothing == ClothingLabels[Reached(avgTemp, TemperatureBounds)]
    ensures a.temperature == TemperatureLabels[Reached(avgTemp, TemperatureBounds)]
  {
    UmbrellaClosedForm(maxPrecip, hour, outdoorHours);
    ClothingByBand(avgTemp);
    assert maxPrecip >= 20.0 ==>
      1 <= Reached(maxPrecip, RainBounds) <= 5
      && Umbrella(maxPrecip, hour, outdoorHours).reason == SureReasons[Reached(maxPrecip, RainBounds) - 1] by {
      if maxPrecip >= 20.0 {
        RainReasonByBand(maxPrecip, hour, outdoorHours);
      }
    }
    var rain := Umbrella(maxPrecip, hour, outdoorHours);
    var dress := Clothing(avgTemp);
    Advice(rain.umbrella, dress.clothing, dress.temperature, rain.reason)
  }

  /** The component: no advice at all when no hour lies ahead. */
  function Advise(hours: seq<Hourly>, instant: string -> Option<int>, now: int, avgTemp: real, hour: int)
    : (r: Option<Advice>)
    ensures r.None? <==> forall h :: h in hours ==> !IsFuture(h, instant, now)
    ensures r.Some? ==>
      var fh := FutureHours(hours, instant, now);
      1 <= |fh| <= Horizon && r.value == GenerateAdvice(MaxPrecip(fh), avgTemp, hour, |fh|)
  {
    var fh := FutureHours(hours, instant, now);
    if |fh| == 0 then None
    else
      assert fh[0] in KeepFuture(hours, instant, now);
      Some(GenerateAdvice(MaxPrecip(fh), avgTemp, hour, |fh|))
  }

  /** The umbrella decision in one formula. */
  lemma UmbrellaClosedForm(maxPrecip: real, hour: int, outdoorHours: nat)
    ensures Umbrella(maxPrecip, hour, outdoorHours).umbrella <==>
      maxPrecip >= 20.0
      || (maxPrecip >= 10.0
          && ((IsAfternoon(hour) && outdoorHours >= 3)
              || (IsEvening(hour) && outdoorHours >= 2)
              || outdoorHours >= 4))
  {
  }

  /** A higher probability never withdraws the umbrella. */
  lemma {:induction false} UmbrellaMonotone(p: real, q: real, hour: int, outdoorHours: nat)
    requires p <= q
    ensures Umbrella(p, hour, outdoorHours).umbrella ==> Umbrella(q, hour, outdoorHours).umbrella
  {
    UmbrellaClosedForm(p, hour, outdoorHours);
    UmbrellaClosedForm(q, hour, outdoorHours);
  }

  /** More hours ahead never withdraw the umbrella either. */
  lemma {:induction false} UmbrellaMonotoneInHours(maxPrecip: real, hour: int, m: nat, n: nat)
    requires m <= n
    ensures Umbrella(maxPrecip, hour, m).umbrella ==> Umbrella(maxPrecip, hour, n).umbrella
  {
    UmbrellaClosedForm(maxPrecip, hour, m);
    UmbrellaClosedForm(maxPrecip, hour, n);
  }

  /** How many of the ascending `bounds` the value reaches. */
  function Reached(x: real, bounds: seq<real>): (k: nat)
    ensures k <= |bounds|
  {
    if bounds == [] then 0
    else (if x >= bounds[0] then 1 else 0) + Reached(x, bounds[1..])
  }

  lemma {:induction false} ReachedMonotone(x: real, y: real, bounds: seq<real>)
    requires x <= y
    ensures Reached(x, bounds) <= Reached(y, bounds)
    decreases |bounds|
  {
    if bounds != [] {
      ReachedMonotone(x, y, bounds[1..]);
    }
  }

  const RainBounds: seq<real> := [20.0, 30.0, 40.0, 60.0, 80.0]
  const SureReasons: seq<string> := [JustInCase, MayMeetRain, PossibleRain, LikelyRain, HeavyRain]

  /** From 20 percent up, the reason names the highest band reached: the
      first test that holds, highest first, wins. */
  lemma RainReasonByBand(maxPrecip: real, hour: int, outdoorHours: nat)
    requires maxPrecip >= 20.0
    ensures 1 <= Reached(maxPrecip, RainBounds) <= 5
    ensures Umbrella(maxPrecip, hour, outdoorHours).reason == SureReasons[Reached(maxPrecip, RainBounds) - 1]
  {
    var x := maxPrecip;
    assert Reached(x, [80.0]) == (if x >= 80.0 then 1 else 0) by { assert [80.0][1..] == []; }
    assert Reached(x, [60.0, 80.0]) == (if x >= 60.0 then 1 else 0) + Reached(x, [80.0]) by {
      assert [60.0, 80.0][1..] == [80.0];
    }
    assert Reached(x, [40.0, 60.0, 80.0]) == (if x >= 40.0 then 1 else 0) + Reached(x, [60.0, 80.0]) by {
      assert [40.0, 60.0, 80.0][1..] == [60.0, 80.0];
    }
    assert Reached(x, [30.0, 40.0, 60.0, 80.0]) == (if x >= 30.0 then 1 else 0) + Reached(x, [40.0, 60.0, 80.0]) by {
      assert [30.0, 40.0, 60.0, 80.0][1..] == [40.0, 60.0, 80.0];
    }
    assert Reached(x, RainBounds) == 1 + Reached(x, [30.0, 40.0, 60.0, 80.0]) by {
      assert RainBounds[1..] == [30.0, 40.0, 60.0, 80.0];
    }
  }

  /** Every temperature falls in exactly one of seven bands, delimited by
      lower-inclusive bounds 5, 10, 15, 20, 25 and 30, and the band fixes
      both labels. */
  lemma ClothingByBand(avgTemp: real)
    ensures Reached(avgTemp, TemperatureBounds) <= 6
    ensures Clothing(avgTemp) ==
      ClothingAdvice(ClothingLabels[Reached(avgTemp, TemperatureBounds)],
                     TemperatureLabels[Reached(avgTemp, TemperatureBounds)])
  {
    var x := avgTemp;
    assert Reached(x, [30.0]) == (if x >= 30.0 then 1 else 0) by { assert [30.0][1..] == []; }
    assert Reached(x, [25.0, 30.0]) == (if x >= 25.0 then 1 else 0) + Reached(x, [30.0]) by {
      assert [25.0, 30.0][1..] == [30.0];
    }
    assert Reached(x, [20.0, 25.0, 30.0]) == (if x >= 20.0 then 1 else 0) + Reached(x, [25.0, 30.0]) by {
      assert [20.0, 25.0, 30.0][1..] == [25.0, 30.0];
    }
    assert Reached(x, [15.0, 20.0, 25.0, 30.0]) == (if x >= 15.0 then 1 else 0) + Reached(x, [20.0, 25.0, 30.0]) by {
      assert [15.0, 20.0, 25.0, 30.0][1..] == [20.0, 25.0, 30.0];
    }
    assert Reached(x, [10.0, 15.0, 20.0, 25.0, 30.0]) ==
      (if x >= 10.0 then 1 else 0) + Reached(x, [15.0, 20.0, 25.0, 30.0]) by {
      assert [10.0, 15.0, 20.0, 25.0, 30.0][1..] == [15.0, 20.0, 25.0, 30.0];
    }
    assert Reached(x, TemperatureBounds) == (if x >= 5.0 then 1 else 0) + Reached(x, [10.0, 15.0, 20.0, 25.0, 30.0]) by {
      assert TemperatureBounds[1..] == [10.0, 15.0, 20.0, 25.0, 30.0];
    }
  }

  /** A warmer average never moves the advice to a colder band. */
  lemma {:induction false} ClothingMonotone(s: real, t: real)
    requires s <= t
    ensures Reached(s, TemperatureBounds) <= Reached(t, TemperatureBounds)
  {
    ReachedMonotone(s, t, TemperatureBounds);
  }
}
