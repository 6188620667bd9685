/** The icon chosen for a weather code (components/WeatherIcon.tsx,
    `mapCodeToStyle`): a glyph name, a tint and the kind of animation. */
module WeatherIcon {
  import opened Wrappers
  import WeatherCodes

  datatype Animation = NoAnimation | Rotate | Float | Pulse

  datatype IconStyle = IconStyle(name: string, tint: string, anim: Animation)

  const Yellow: string := "#fbbf24"
  const Orange: string := "#fb923c"
  const Blue: string := "#60a5fa"
  const Cyan: string := "#22d3ee"
  const Indigo: string := "#6366f1"

  function Base(isDark: bool): string {
    if isDark then "#e5e7eb" else "#334155"
  }

  function Gray(isDark: bool): string {
    if isDark then "#94a3b8" else "#64748b"
  }

  const PartlyCloudy: string := "weather-partly-cloudy"

  const ClearCodes: set<int> := {0, 1}
  const FogCodes: set<int> := {45, 48}
  /** Drizzle, freezing drizzle, rain, freezing rain and showers. */
  const WetCodes: set<int> := {51, 53, 55, 56, 57, 61, 63, 65, 66, 67, 80, 81, 82}
  const SnowCodes: set<int> := {71, 73, 75, 77, 85, 86}
  const ThunderCodes: set<int> := {95, 96, 99}

  /** The `switch` on a present code, before the colour override. */
  function CodeStyle(code: int, isDark: bool): (style: IconStyle)
    ensures style.anim == Rotate <==> code in ClearCodes
    ensures style.anim == Pulse <==> code in ThunderCodes
    ensures style.anim == Float <==> code in WetCodes || code in SnowCodes || code == 2 || code == 3
  {
    match code
    case 0 | 1 => IconStyle("weather-sunny", Yellow, Rotate)
    case 2 => IconStyle(PartlyCloudy, Orange, Float)
    case 3 => IconStyle("weather-cloudy", Gray(isDark), Float)
    case 45 | 48 => IconStyle("weather-fog", Gray(isDark), NoAnimation)
    case 51 | 53 | 55 => IconStyle("weather-partly-rainy", Blue, Float)
    case 56 | 57 | 61 | 63 | 65 | 66 | 67 => IconStyle("weather-rainy", Blue, Float)
    case 71 | 73 | 75 | 77 => IconStyle("weather-snowy", Cyan, Float)
    case 80 | 81 | 82 => IconStyle("weather-pouring", Blue, Float)
    case 85 | 86 => IconStyle("weather-snowy-heavy", Cyan, Float)
    case 95 | 96 | 99 => IconStyle("weather-lightning-rainy", Indigo, Pulse)
    case _ => IconStyle(PartlyCloudy, Gray(isDark), NoAnimation)
  }

  /** `mapCodeToStyle`: a missing code keeps the base colour and does not
      move; a supplied colour replaces the tint whatever the code. */
  function MapCodeToStyle(code: Option<int>, overrideColor: Option<string>, isDark: bool): (style: IconStyle)
    ensures overrideColor.Some? ==> style.tint == overrideColor.value
    ensures code.None? ==>
      style.name == PartlyCloudy && style.anim == NoAnimation
      && (overrideColor.None? ==> style.tint == Base(isDark))
    ensures code.Some? ==>
      var switched := CodeStyle(code.value, isDark);
      style.name == switched.name && style.anim == switched.anim
      && (overrideColor.None? ==> style.tint == switched.tint)
  {
    if code.None? then
      IconStyle(PartlyCloudy, overrideColor.GetOr(Base(isDark)), NoAnimation)
    else
      var switched := CodeStyle(code.value, isDark);
      IconStyle(switched.name, overrideColor.GetOr(switched.tint), switched.anim)
  }

  /** Only clear skies rotate, with the yellow sun. */
  lemma {:induction false} ClearSkyRotates(code: Option<int>, overrideColor: Option<string>, isDark: bool)
    ensures var style := MapCodeToStyle(code, overrideColor, isDark);
      (style.anim == Rotate <==> code.Some? && code.value in ClearCodes)
      && (code.Some? && code.value in ClearCodes ==>
            style.name == "weather-sunny" && (overrideColor.None? ==> style.tint == Yellow))
  {
    if code.Some? {
      var _ := CodeStyle(code.value, isDark);
    }
  }

  /** Only thunderstorms pulse, with the indigo lightning glyph. */
  lemma {:induction false} ThunderPulses(code: Option<int>, overrideColor: Option<string>, isDark: bool)
    ensures var style := MapCodeToStyle(code, overrideColor, isDark);
      (style.anim == Pulse <==> code.Some? && code.value in ThunderCodes)
      && (code.Some? && code.value in ThunderCodes ==>
            style.name == "weather-lightning-rainy" && (overrideColor.None? ==> style.tint == Indigo))
  {
    if code.Some? {
      var _ := CodeStyle(code.value, isDark);
    }
  }

  /** Fog is gray and still. */
  lemma FogIsStill(code: int, isDark: bool)
    requires code in FogCodes
    ensures CodeStyle(code, isDark) == IconStyle("weather-fog", Gray(isDark), NoAnimation)
  {
  }

  /** Drizzle, rain and showers are all blue and float. */
  lemma WetIsBlueAndFloats(code: int, isDark: bool)
    requires code in WetCodes
    ensures CodeStyle(code, isDark).tint == Blue && CodeStyle(code, isDark).anim == Float
  {
  }

  /** Every code with a dedicated case is a code of the label table, and
      every code of the table has a dedicated case: a code falls through to
      the gray, still, partly cloudy default exactly when it has no label. */
  lemma {:induction false} DefaultIffNoLabel(code: int, isDark: bool)
    ensures CodeStyle(code, isDark) == IconStyle(PartlyCloudy, Gray(isDark), NoAnimation)
      <==> code !in WeatherCodes.CodeToJa
  {
    assert Orange != Gray(isDark);
  }
}
