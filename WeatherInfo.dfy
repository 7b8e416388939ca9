/**
 * The icon the weather card shows next to the current reading: an ordered
 * list of keyword tests on the lower-cased condition label (rain, snow,
 * cloud, sun, in that order), and a guess from the temperature when no
 * keyword occurs.
 */
module WeatherInfo {
  import opened Wrappers
  import opened TextOps

  /** The four icons `getWeatherIcon` can render. */
  datatype Icon = Rain | Snow | Cloud | Sun

  /** `condition?.toLowerCase() || ''`: a missing condition reads as the empty label. */
  function LowerCondition(condition: Option<string>): (lc: string)
    ensures forall i :: 0 <= i < |lc| ==> !IsUpper(lc[i])
    ensures condition.None? ==> lc == ""
  {
    Lower(condition.GetOr(""))
  }

  predicate MentionsRain(lc: string) {
    Contains(lc, "rain") || Contains(lc, "lluvia")
  }

  predicate MentionsSnow(lc: string) {
    Contains(lc, "snow") || Contains(lc, "nieve")
  }

  predicate MentionsCloud(lc: string) {
    Contains(lc, "cloud") || Contains(lc, "nube")
  }

  predicate MentionsSun(lc: string) {
    Contains(lc, "sun") || Contains(lc, "sol") || Contains(lc, "clear")
  }

  /** Some keyword of the four families occurs in the label. */
  predicate MentionsKeyword(lc: string) {
    MentionsRain(lc) || MentionsSnow(lc) || MentionsCloud(lc) || MentionsSun(lc)
  }

  /**
   * The temperature as the relational operators of JavaScript see it: a
   * reading that is still `null` compares as 0.
   */
  function Degrees(temperature: Option<real>): real {
    temperature.GetOr(0.0)
  }

  /** `getWeatherIcon`. */
  function GetWeatherIcon(condition: Option<string>, temperature: Option<real>): (icon: Icon)
    ensures var lc, t := LowerCondition(condition), Degrees(temperature);
      && (icon == Rain <==> MentionsRain(lc))
      && (icon == Snow <==> !MentionsRain(lc) && (MentionsSnow(lc) || (!MentionsKeyword(lc) && t < 0.0)))
      && (icon == Cloud <==>
            !MentionsRain(lc) && !MentionsSnow(lc) && (MentionsCloud(lc) || (!MentionsKeyword(lc) && 0.0 <= t <= 25.0)))
      && (icon == Sun <==> !MentionsRain(lc) && !MentionsSnow(lc) && !MentionsCloud(lc) && (MentionsSun(lc) || t > 25.0))
  {
    var lc := LowerCondition(condition);
    if MentionsRain(lc) then Rain
    else if MentionsSnow(lc) then Snow
    else if MentionsCloud(lc) then Cloud
    else if MentionsSun(lc) then Sun
    else if Degrees(temperature) > 25.0 then Sun
    else if Degrees(temperature) < 0.0 then Snow
    else Cloud
  }

  /** A missing condition behaves as the empty label. */
  lemma MissingConditionIsBlank(temperature: Option<real>)
    ensures GetWeatherIcon(None, temperature) == GetWeatherIcon(Some(""), temperature)
  {
  }

  /** The case of the label never matters. */
  lemma CaseIgnored(condition: string, temperature: Option<real>)
    ensures GetWeatherIcon(Some(condition), temperature) == GetWeatherIcon(Some(Lower(condition)), temperature)
  {
    LowerIdempotent(condition);
  }

  /** Once a keyword occurs the temperature is not consulted. */
  lemma KeywordIgnoresTemperature(condition: Option<string>, t1: Option<real>, t2: Option<real>)
    requires MentionsKeyword(LowerCondition(condition))
    ensures GetWeatherIcon(condition, t1) == GetWeatherIcon(condition, t2)
  {
  }

  /** `includes` finds a word wherever it sits. */
  lemma {:induction false} ContainsInfix(p: string, w: string, q: string)
    ensures Contains(p + w + q, w)
  {
    var s := p + w + q;
    assert s[|p|..][..|w|] == w;
    assert StartsWith(s[|p|..], w);
  }

  /** The lower-cased label keeps a lower-case word where it was written. */
  lemma LowerInfix(p: string, w: string, q: string, word: string)
    requires Lower(w) == word
    ensures Lower(p + w + q) == Lower(p) + word + Lower(q)
  {
    LowerAppend(p + w, q);
    LowerAppend(p, w);
  }

  /**
   * A label holding `rain` or `lluvia` in any case, anywhere, gives the rain
   * icon, whatever else it holds (`"light rain and snow"` included) and
   * whatever the temperature.
   */
  lemma RainKeywordWins(p: string, w: string, q: string, temperature: Option<real>)
    requires Lower(w) == "rain" || Lower(w) == "lluvia"
    ensures GetWeatherIcon(Some(p + w + q), temperature) == Rain
  {
    var word := Lower(w);
    LowerInfix(p, w, q, word);
    ContainsInfix(Lower(p), word, Lower(q));
  }

  /** A snow keyword without a rain keyword gives the snow icon, whatever the temperature. */
  lemma SnowKeyword(p: string, w: string, q: string, temperature: Option<real>)
    requires Lower(w) == "snow" || Lower(w) == "nieve"
    requires !MentionsRain(Lower(p + w + q))
    ensures GetWeatherIcon(Some(p + w + q), temperature) == Snow
  {
    var word := Lower(w);
    LowerInfix(p, w, q, word);
    ContainsInfix(Lower(p), word, Lower(q));
  }

  /** A sun keyword after no earlier family gives the sun icon, even below zero. */
  lemma SunKeyword(p: string, w: string, q: string, temperature: Option<real>)
    requires Lower(w) == "sun" || Lower(w) == "sol" || Lower(w) == "clear"
    requires var lc := Lower(p + w + q); !MentionsRain(lc) && !MentionsSnow(lc) && !MentionsCloud(lc)
    ensures GetWeatherIcon(Some(p + w + q), temperature) == Sun
  {
    var word := Lower(w);
    LowerInfix(p, w, q, word);
    ContainsInfix(Lower(p), word, Lower(q));
  }

  /**
   * Without a keyword the icon follows the temperature alone: sun above 25,
   * snow below 0, cloud from 0 to 25; a reading that is still `null` gives
   * cloud.
   */
  lemma TemperatureFallback(condition: Option<string>, temperature: Option<real>)
    requires !MentionsKeyword(LowerCondition(condition))
    ensures var icon := GetWeatherIcon(condition, temperature);
      && (temperature.None? ==> icon == Cloud)
      && (temperature.Some? && temperature.value > 25.0 ==> icon == Sun)
      && (temperature.Some? && temperature.value < 0.0 ==> icon == Snow)
      && (temperature.Some? && 0.0 <= temperature.value <= 25.0 ==> icon == Cloud)
  {
  }

  /** The label the card falls back to when the response carries no condition, and the one the backend always sends. */
  const PartlyCloudy := "Parcialmente nublado"

  /**
   * "Parcialmente nublado" holds none of the keywords (`nublado` does not
   * contain `nube`), so the card picks its icon from the temperature alone:
   * a partly cloudy reading above 25 degrees shows the sun.
   */
  lemma PartlyCloudyFollowsTemperature(temperature: Option<real>)
    ensures GetWeatherIcon(Some(PartlyCloudy), temperature)
         == if Degrees(temperature) > 25.0 then Sun else if Degrees(temperature) < 0.0 then Snow else Cloud
  {
    var lc := LowerCondition(Some(PartlyCloudy));
    assert lc == "parcialmente nublado";
    NoRainIn(lc);
    NoSnowIn(lc);
    NoCloudIn(lc);
    NoSunIn(lc);
  }

  lemma NoRainIn(s: string)
    requires s == "parcialmente nublado"
    ensures !MentionsRain(s)
  {
    PairAbsent(s, "rain", 0);
    CharAbsent(s, "lluvia", 3);
  }

  lemma NoSnowIn(s: string)
    requires s == "parcialmente nublado"
    ensures !MentionsSnow(s)
  {
    CharAbsent(s, "snow", 0);
    CharAbsent(s, "nieve", 3);
  }

  lemma NoCloudIn(s: string)
    requires s == "parcialmente nublado"
    ensures !MentionsCloud(s)
  {
    PairAbsent(s, "cloud", 0);
    PairAbsent(s, "nube", 2);
  }

  lemma NoSunIn(s: string)
    requires s == "parcialmente nublado"
    ensures !MentionsSun(s)
  {
    CharAbsent(s, "sun", 0);
    CharAbsent(s, "sol", 0);
    PairAbsent(s, "clear", 0);
  }

  /** Keyword `w` is missing from the label because its character at `j` is. */
  lemma CharAbsent(s: string, w: string, j: nat)
    requires s == "parcialmente nublado"
    requires (w == "lluvia" && j == 3) || (w == "snow" && j == 0) || (w == "nieve" && j == 3)
          || (w == "sun" && j == 0) || (w == "sol" && j == 0)
    ensures !Contains(s, w)
  {
    MissingCharExcludes(s, w, j);
  }

  /** Keyword `w` is missing from the label because its characters at `j` and `j + 1` never stand side by side there. */
  lemma PairAbsent(s: string, w: string, j: nat)
    requires s == "parcialmente nublado"
    requires (w == "rain" && j == 0) || (w == "cloud" && j == 0) || (w == "nube" && j == 2) || (w == "clear" && j == 0)
    ensures !Contains(s, w)
  {
    NoSuchPair(s, w[j], w[j + 1]);
    MissingPairExcludes(s, w, j);
  }

  lemma NoSuchPair(s: string, a: char, b: char)
    requires s == "parcialmente nublado"
    requires (a == 'r' && b == 'a') || (a == 'c' && b == 'l') || (a == 'b' && b == 'e')
    ensures !HasPair(s, a, b)
  {
  }
}
