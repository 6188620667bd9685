# weatherly — a verified model of place-name resolution and weather presentation

weatherly is a small React Native weather app for Japan. This project models,
in Dafny, the parts of it that decide something:

- **Place-name resolution** (`services/weather.ts`).
  - `stripSuffix` drops a trailing prefecture suffix (都 道 府 県) and then a trailing municipal suffix (市 区 町 村).
  - `buildCandidates` trims the typed place name, collapses its whitespace and splits it on spaces. It builds up to seven query variants in a fixed order, then drops empty and repeated ones in first-occurrence order.
  - `geocode` sends the variants to the geocoding endpoint one by one and stops at the first hit. If none hits, it sends one last request with the query exactly as typed, and otherwise fails with 「該当する地域が見つかりません」.
- **Forecast requests** (`services/weather.ts`). `fetchCurrent` is reduced to its error checks. For `fetchDaily`, the model covers its error checks and the loop that zips the parallel `daily` arrays into one record per day.
- **Weather-code labels** (`services/weatherCodes.ts`). The model holds the 28-entry table of Japanese labels and `weatherCodeToJa`, which returns `--` for a missing code and 不明（code） for a code outside the table.
- **Weather icons** (`components/WeatherIcon.tsx`, `mapCodeToStyle`). Each code maps to a glyph, a tint and an animation; a supplied colour overrides the tint.
- **Advice** (`components/WeatherAdvice.tsx`). The model covers the selection of the next six future hours and `generateAdvice`: whether to take an umbrella and why, and what to wear.

Modules:
- `Wrappers`: `Option`, `Result`, `Min`.
- `JsString`: `trim`, `\s` collapsing, `split`, `join`.
- `PlaceQuery`, `Geocoding`, `Forecast`, `WeatherCodes`, `WeatherIcon`, `WeatherAdvice`.

The model follows the code as written, including where it is easy to misread:
- `stripSuffix` applies both replacements, so it can remove two characters (…市県 loses both); it does not stop after the first match.
- The fallback request of `geocode` uses the query as typed, not trimmed (services/weather.ts:52).
- A rejected `fetch` or a failing `res.json()` in `geocode` is not caught: no further candidate is tried and the failure propagates to the caller, modelled as `Geocoding.RequestFailed`. Only a non-ok status or an empty result is skipped.

Inputs that the original takes from the environment are parameters here:
- The network is an oracle. In `Geocoding.Geocode`, `respond(k, q)` is what the k-th request for query `q` yields. The forecast functions take the reply as an argument.
- The clock is two parameters, `now` and `hour`.
- Date parsing is a function `instant` from an ISO string to an optional instant.
- The average temperature is a parameter.

## Model

| member | source | states |
|---|---|---|
| `JsString.Trim` | services/weather.ts:15 | `trim` leaves no whitespace at either end |
| `JsString.TrimIsSlice` | services/weather.ts:15 | what `trim` keeps is a contiguous slice of the input, and everything it removes before and after that slice is whitespace |
| `JsString.Normalize` | services/weather.ts:15 | trimming then replacing every `\s+` run by one space gives exactly the whitespace-free words of the input joined by single spaces |
| `JsString.NormalizeIdempotent` | services/weather.ts:15 | normalising an already normalised input changes nothing |
| `JsString.WordsAreWords` | services/weather.ts:15 | every word is non-empty and contains no whitespace |
| `JsString.WordsOfJoin` | services/weather.ts:15-16 | the words of whitespace-free words joined by spaces are those words |
| `JsString.Split` | services/weather.ts:16 | `split` returns at least one piece, including for the empty string |
| `JsString.SplitJoin` | services/weather.ts:16-20 | splitting a join on its separator returns the parts, when no part contains the separator |
| `JsString.JoinSplit` | services/weather.ts:16-20 | joining the pieces of a split with the separator returns the string |
| `PlaceQuery.StripSuffix` | services/weather.ts:8-12 | the result is a prefix of the input at most two characters shorter; it equals the input iff the input ends in neither suffix class; it is two shorter iff a prefecture suffix follows a municipal one; a final municipal suffix is always dropped |
| `PlaceQuery.Variants` | services/weather.ts:23-29 | seven variants are built from a prefecture and a city |
| `PlaceQuery.Generated` | services/weather.ts:15-34 | between two and seven candidates are pushed before de-duplication |
| `PlaceQuery.NonEmpty` | services/weather.ts:36 | `filter(Boolean)` keeps exactly the non-empty strings and is never longer than its input |
| `PlaceQuery.NonEmptySingle` | services/weather.ts:36 | the filter keeps a single string iff it is non-empty |
| `PlaceQuery.NonEmptyAppend` | services/weather.ts:36 | filtering a concatenation concatenates the filtered parts, so every kept entry stays in its original order |
| `PlaceQuery.NonEmptyCounts` | services/weather.ts:36 | the filter keeps each non-empty string as many times as it occurs, and no empty one |
| `PlaceQuery.NonEmptyKeepsFirstOccurrenceOrder` | services/weather.ts:36 | the filter keeps the relative order of the first occurrences of the non-empty strings |
| `PlaceQuery.Distinct` | services/weather.ts:36 | the set-based de-duplication keeps every value and adds none, and is never longer than its input |
| `PlaceQuery.DistinctNoDuplicates` | services/weather.ts:36 | no value appears twice after de-duplication |
| `PlaceQuery.UniqueNonEmpty` | services/weather.ts:36 | feeding the candidates one at a time through the filter and a seen-set gives the distinct non-empty candidates |
| `PlaceQuery.BuildCandidates` | services/weather.ts:14-37 | the list built is `Candidates` of the input |
| `PlaceQuery.DistinctKeepsFirstOccurrenceOrder` | services/weather.ts:36 | de-duplicated values appear in the order of their first occurrence |
| `PlaceQuery.CandidatesBounded` | services/weather.ts:14-37 | there are at most seven candidates and none is empty |
| `PlaceQuery.CandidatesWellFormed` | services/weather.ts:14-36 | no candidate is empty and none repeats; the candidates are exactly the non-empty generated strings, in the order of their first occurrence among the generated strings; there are at most seven |
| `PlaceQuery.CandidatesOfSeveralWords` | services/weather.ts:18-29 | with two or more words, the first is the prefecture and the rest joined by spaces is the city; "city pref" comes first; every candidate is a non-empty variant; at most seven |
| `PlaceQuery.CandidatesOfOneWord` | services/weather.ts:30-36 | a blank input gives no candidate; one word `w` gives `[w]`, or `[w, stripSuffix(w)]` when stripping changes `w` and leaves something |
| `PlaceQuery.CandidatesIgnoreExtraWhitespace` | services/weather.ts:15-16 | inputs with the same words give the same candidates |
| `PlaceQuery.CandidatesWithoutRepeats` | services/weather.ts:35-36 | when the generated strings are non-empty and distinct, they are the candidates unchanged |
| `PlaceQuery.TokyoChiyodaCandidates` | services/weather.ts:14-37 | 「東京都 千代田区」 gives the seven candidates from 「千代田区 東京都」 to 「東京都 千代田区」 in order |
| `PlaceQuery.TokyoChiyodaIrregularWhitespace` | services/weather.ts:15-16 | whitespace around and between the words, ideographic spaces (U+3000) included, does not change the candidates |
| `PlaceQuery.TwoWordsPadded` | services/weather.ts:15-16 | two words with any whitespace before, between and after them give the candidates of the two words separated by one space |
| `PlaceQuery.BareWordSingleCandidate` | services/weather.ts:30-36 | a single word without a prefecture or municipal suffix is the only candidate |
| `PlaceQuery.OsakaSingleCandidate` | services/weather.ts:30-36 | 「大阪」 gives the single candidate 「大阪」 |
| `Geocoding.Plan` | services/weather.ts:40-53 | one to eight requests are possible; the last is the query as typed and every earlier one is non-empty |
| `Geocoding.Probe` | services/weather.ts:41-61 | requests follow the attempts then the raw query, in order, from the start; every request before the last was a non-ok status or had no result; the outcome is the last response's first result iff it had one, the propagated failure iff it rejected, and 該当する地域が見つかりません iff it was skipped, which happens only after every attempt and the fallback |
| `Geocoding.Geocode` | services/weather.ts:39-62 | requests follow the plan in order, from its start; every request before the last was a non-ok status or had no result; the outcome is the last response's first result iff it had one, the propagated failure iff it rejected, and 該当する地域が見つかりません iff it was skipped, which happens only after the whole plan |
| `Geocoding.BlankQueryProbesOnlyFallback` | services/weather.ts:51-53 | a whitespace-only query sends exactly one request, with the query as typed |
| `Geocoding.FirstProbeIsCityThenPrefecture` | services/weather.ts:40-43 | with two or more words, the first request is for "city pref" |
| `Geocoding.OneWordQueryIsProbedTwice` | services/weather.ts:51-53 | a one-word query without whitespace is its own first candidate and is sent again as the fallback |
| `Forecast.FetchCurrent` | services/weather.ts:64-77 | the result is the `current` block iff the status is ok and the block is present; otherwise the request-failed message, the missing-data message, or a propagated failure, each iff its cause |
| `Forecast.DayCount` | services/weather.ts:87 | the number of days is the shorter of the `time` and `weather_code` lengths, with an absent array counting as empty |
| `Forecast.TemperatureAt` | services/weather.ts:92-93 | a temperature past the end of its array reads as NaN |
| `Forecast.FetchDaily` | services/weather.ts:79-97 | each error (non-ok status, missing `daily`, rejected request, a missing temperature array read by the loop) occurs iff its cause; the call succeeds iff there is an ok `daily` block and no missing temperature array is read, and then returns one record per day, as many as the shorter of `time` and `weather_code`, record i taking index i of every array |
| `WeatherCodes.IntToDecimal` | services/weatherCodes.ts:34 | a template literal prints a non-empty string that starts with a minus sign iff the integer is negative |
| `WeatherCodes.NatToDecimal` | services/weatherCodes.ts:34 | the decimal form is non-empty, all digits, with no leading zero |
| `WeatherCodes.DecimalRoundTrip` | services/weatherCodes.ts:34 | reading back the printed code gives the code |
| `WeatherCodes.TableLabels` | services/weatherCodes.ts:1-30 | no table label is empty or `--`, and none starts with 不 |
| `WeatherCodes.WeatherCodeToJa` | services/weatherCodes.ts:32-35 | the label is never empty, and it is `--` iff there is no code |
| `WeatherCodes.KnownCodeLabel` | services/weatherCodes.ts:1-34 | each of the 28 listed codes gets its table label |
| `WeatherCodes.UnknownCodeLabel` | services/weatherCodes.ts:34 | any other code gets 不明（, its decimal form, ）: the text between the brackets starts with a minus sign iff the code is negative, its digits have no leading zero, and it reads back as the code |
| `WeatherCodes.UnknownLabelsDiffer` | services/weatherCodes.ts:34 | distinct unknown codes get distinct labels |
| `WeatherCodes.UnknownLabelNeverKnown` | services/weatherCodes.ts:1-34 | an unknown code never gets a table label |
| `WeatherCodes.GroupedCodesShareLabel` | services/weatherCodes.ts:8-24 | 51/53/55, 61/63/65, 71/73/75 and 80/81/82 share 霧雨, 雨, 雪 and にわか雨 |
| `WeatherCodes.UnknownCodeExample` | services/weatherCodes.ts:34 | codes 4 and −12 are shown as 不明（4） and 不明（-12） |
| `WeatherIcon.CodeStyle` | components/WeatherIcon.tsx:97-168 | a code rotates iff it is 0 or 1, pulses iff it is 95, 96 or 99, and floats iff it is 2, 3, a drizzle, rain, shower or snow code |
| `WeatherIcon.MapCodeToStyle` | components/WeatherIcon.tsx:74-171 | a supplied colour is the tint for every code; a missing code gives the still partly-cloudy glyph in the base colour; a present code keeps the switch's glyph and animation, and its tint when there is no override |
| `WeatherIcon.ClearSkyRotates` | components/WeatherIcon.tsx:98-103 | only codes 0 and 1 rotate, as the yellow sun |
| `WeatherIcon.ThunderPulses` | components/WeatherIcon.tsx:158-164 | only codes 95, 96 and 99 pulse, as indigo lightning |
| `WeatherIcon.FogIsStill` | components/WeatherIcon.tsx:114-118 | codes 45 and 48 are gray fog without animation |
| `WeatherIcon.WetIsBlueAndFloats` | components/WeatherIcon.tsx:119-151 | drizzle, rain and shower codes are blue and float |
| `WeatherIcon.DefaultIffNoLabel` | components/WeatherIcon.tsx:97-168 | a code falls to the gray, still, partly-cloudy default iff it has no label in the weather-code table |
| `WeatherAdvice.KeepFuture` | components/WeatherAdvice.tsx:20-21 | the filter keeps exactly the entries after now, each as many times as it occurs, as a subsequence of the input |
| `WeatherAdvice.FutureHours` | components/WeatherAdvice.tsx:20-22 | the selection is the first min(6, n) future entries |
| `WeatherAdvice.MaxPrecip` | components/WeatherAdvice.tsx:31 | the maximum probability bounds every entry and is reached by one |
| `WeatherAdvice.Umbrella` | components/WeatherAdvice.tsx:45-78 | from 20 percent an umbrella is advised; below 10 percent none, with 雨の心配はありません; from 10 to under 20 percent, the reason is the afternoon-outing one iff it is afternoon with three or more hours ahead, otherwise the evening-outing one iff it is evening with two or more, otherwise the long-outing one iff four or more hours, and otherwise 雨の心配は少ないです exactly when no umbrella is advised; the reason says whether one is needed |
| `WeatherAdvice.Clothing` | components/WeatherAdvice.tsx:84-105 | the temperature label is 暑い iff the average is at least 30 |
| `WeatherAdvice.GenerateAdvice` | components/WeatherAdvice.tsx:29-108 | umbrella iff at least 20 percent, or at least 10 percent with an afternoon outing of three or more hours, an evening outing of two or more, or four or more hours; the reason agrees with the decision; from 20 percent it is the reason of the highest of the bounds 20, 30, 40, 60, 80 reached, and below 10 percent it is 雨の心配はありません; from 10 to under 20 percent, the reason is the afternoon-outing one iff it is afternoon with three or more hours ahead, otherwise the evening-outing one iff it is evening with two or more, otherwise the long-outing one iff four or more hours, and otherwise 雨の心配は少ないです exactly when no umbrella is advised; the clothing and temperature labels are those of the band the average falls in |
| `WeatherAdvice.Advise` | components/WeatherAdvice.tsx:18-26 | there is no advice iff no entry lies after now; otherwise the advice is generated from one to six future hours |
| `WeatherAdvice.UmbrellaClosedForm` | components/WeatherAdvice.tsx:34-78 | the umbrella decision as a single formula over probability, hour and hours ahead |
| `WeatherAdvice.UmbrellaMonotone` | components/WeatherAdvice.tsx:45-78 | a higher probability never withdraws the umbrella |
| `WeatherAdvice.UmbrellaMonotoneInHours` | components/WeatherAdvice.tsx:60-74 | more hours ahead never withdraw the umbrella |
| `WeatherAdvice.RainReasonByBand` | components/WeatherAdvice.tsx:45-59 | from 20 percent, the reason is that of the highest of the bounds 20, 30, 40, 60, 80 reached: the first test that holds wins |
| `WeatherAdvice.ClothingByBand` | components/WeatherAdvice.tsx:84-105 | the average falls in one of seven bands with lower-inclusive bounds 5, 10, 15, 20, 25, 30, and the band fixes both labels |
| `WeatherAdvice.ClothingMonotone` | components/WeatherAdvice.tsx:84-105 | a warmer average never gives a colder band |

Some functions that model source lines carry no contract of their own. Their behaviour is stated by the rows of the members built on them:
- `JsString.Collapse` (`replace(/\s+/g, ' ')`) and `JsString.Join` (`join`) are covered by `JsString.Normalize`, `JsString.WordsOfJoin`, `JsString.SplitJoin` and `JsString.JoinSplit`.
- `PlaceQuery.DropFinal` (one `replace`) is covered by `PlaceQuery.StripSuffix`.
- `PlaceQuery.Candidates` (the value of `buildCandidates`) is covered by `PlaceQuery.BuildCandidates`, `PlaceQuery.CandidatesWellFormed` and the other `Candidates…` lemmas.

## Left out

- Network plumbing: URL assembly, `encodeURIComponent`, the `count`, `language` and `country` parameters, and JSON decoding. Each request is an oracle or an argument.
- The `Number()` and `String()` coercions of response fields. Coordinates, temperatures and codes arrive already as numbers, and times as strings.
- `Forecast.FetchDaily`: a temperature entry that is present but not numeric (`Number(null)` is 0, `Number("x")` is NaN) is not distinguished.
- `Forecast.FetchCurrent`: the four fields of the `current` block are not modelled one by one.
- Floating point. Probabilities and temperatures are exact reals, and the threshold comparisons are the same for finite doubles. NaN inputs to `Math.max` or the comparisons are not modelled.
- The temperature average and `Math.round` of components/WeatherAdvice.tsx:30,168 are left out. The average is a parameter.
- The clock: `new Date()` and `getHours()` are the parameters `now` and `hour`.
- Date parsing: `new Date(timeIso)` is the parameter `instant`.
- The `Hourly` record is imported from services/weather.ts, which does not define it. A local record with `timeIso`, `temperatureC` and `precipitationProbability` stands for it.
- `WeatherCodes.IntToDecimal`: a code is an integer. JavaScript would print a fractional code with its fraction and a code of 10^21 or more in exponent notation; neither is modelled.
- Rendering: React components, hooks, animated values and style tables. This includes the animated part of components/WeatherIcon.tsx, the screens, the settings, the tab switch and the banner ad.
- Unicode: strings are sequences of Unicode scalar values, not UTF-16 code units, so a lone surrogate, which a JavaScript string may hold, cannot be represented, and a character outside the BMP counts as one element rather than two. The results of the modelled operations are unaffected: every whitespace, separator and suffix character involved is a single BMP character that is not a surrogate.
