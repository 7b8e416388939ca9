/**
 * The weather emblem shown on the dashboard: an ordered, first-match-wins
 * decision list over the normalised condition label, the temperature in
 * degrees Celsius and the day/night flag, yielding one of seven photo files.
 */
module EmblemPhotos {
  import opened Wrappers
  import opened TextOps

  /** The selected emblem; `code` is the file name of the photo. */
  datatype EmblemPhoto = EmblemPhoto(code: string)

  /** The seven photos the selector can choose, plus the generic fallback. */
  datatype Emblem = Heatwave | Snow | Rain | Storm | Cloudy | ClearDay | ClearNight | Generic

  const HeatwaveCode := "heatwave_city_01.jpg"
  const SnowCode := "snow_city_01.jpg"
  const RainCode := "rain_city_01.jpg"
  const StormCode := "storm_city_01.jpg"
  const CloudyCode := "cloudy_city_01.jpg"
  const ClearDayCode := "clear_day_city_01.jpg"
  const ClearNightCode := "clear_night_city_01.jpg"
  const DefaultCode := "default_city_01.jpg"

  /** Every file the selector can return. */
  const EmblemCodes: set<string> :=
    {HeatwaveCode, SnowCode, RainCode, StormCode, CloudyCode, ClearDayCode, ClearNightCode, DefaultCode}

  /** The file name of each emblem's photo. */
  function FileName(e: Emblem): string {
    match e
    case Heatwave => HeatwaveCode
    case Snow => SnowCode
    case Rain => RainCode
    case Storm => StormCode
    case Cloudy => CloudyCode
    case ClearDay => ClearDayCode
    case ClearNight => ClearNightCode
    case Generic => DefaultCode
  }

  /** Different emblems have different files, so a file name tells which rule chose it. */
  lemma FileNamesDistinct(a: Emblem, b: Emblem)
    requires a != b
    ensures FileName(a) != FileName(b)
  {
    if (a == Snow && b == Rain) || (a == Rain && b == Snow) {
      assert FileName(a)[0] != FileName(b)[0];
    } else {
      assert |FileName(a)| != |FileName(b)|;
    }
  }

  const SnowLabels: set<string> := {"snow", "sleet"}
  const RainLabels: set<string> := {"rain", "drizzle"}
  const StormLabels: set<string> := {"thunderstorm", "storm"}
  const CloudLabels: set<string> := {"clouds", "overcast", "broken clouds", "scattered clouds"}
  const ClearLabels: set<string> := {"clear", ""}

  /** No label belongs to two families. */
  lemma LabelFamiliesDisjoint()
    ensures SnowLabels !! RainLabels && SnowLabels !! StormLabels && SnowLabels !! CloudLabels && SnowLabels !! ClearLabels
    ensures RainLabels !! StormLabels && RainLabels !! CloudLabels && RainLabels !! ClearLabels
    ensures StormLabels !! CloudLabels && StormLabels !! ClearLabels
    ensures CloudLabels !! ClearLabels
  {
  }

  /** A label that some rule of the list names explicitly. */
  predicate IsKnownLabel(cond: string) {
    cond in SnowLabels || cond in RainLabels || cond in StormLabels
    || cond in CloudLabels || cond in ClearLabels
  }

  /**
   * `(condition or "").lower().strip()`: an absent or empty condition becomes
   * the empty cond; otherwise the cond is lower-cased and stripped.
   */
  function NormaliseCondition(condition: Option<string>): (cond: string)
    ensures forall i :: 0 <= i < |cond| ==> !IsUpper(cond[i])
    ensures cond == [] || (!IsSpace(cond[0]) && !IsSpace(cond[|cond| - 1]))
    ensures condition == None ==> cond == ""
  {
    Strip(Lower(condition.GetOr("")))
  }

  /** Normalising an already normalised cond changes nothing. */
  lemma NormaliseIdempotent(condition: Option<string>)
    ensures NormaliseCondition(Some(NormaliseCondition(condition))) == NormaliseCondition(condition)
  {
    var cond := NormaliseCondition(condition);
    LowerOfLowerCase(cond);
    StripIdempotent(cond);
  }

  /** The decision list of `select_emblem_photo`, as a chain of returns on the normalised label. */
  function ChooseEmblem(cond: string, tempC: real, isDaytime: bool): Emblem {
    if tempC >= 32.0 then Heatwave
    else if cond in SnowLabels || tempC <= 0.0 then Snow
    else if cond in RainLabels then Rain
    else if cond in StormLabels then Storm
    else if cond in CloudLabels then Cloudy
    else if cond in ClearLabels then (if isDaytime then ClearDay else ClearNight)
    else Generic
  }

  /** `select_emblem_photo`: normalise the condition, then run the decision list. */
  function SelectEmblemPhoto(condition: Option<string>, tempC: real, isDaytime: bool): EmblemPhoto {
    EmblemPhoto(FileName(ChooseEmblem(NormaliseCondition(condition), tempC, isDaytime)))
  }

  /** Whatever the inputs, the photo is one of the eight listed files. */
  lemma SelectedFileListed(condition: Option<string>, tempC: real, isDaytime: bool)
    ensures SelectEmblemPhoto(condition, tempC, isDaytime).code in EmblemCodes
  {
    FileNameListed(ChooseEmblem(NormaliseCondition(condition), tempC, isDaytime));
  }

  lemma FileNameListed(e: Emblem)
    ensures FileName(e) in EmblemCodes
  {
  }

  // ---------------------------------------------------------------------------
  // The same selector as an explicit list of (guard, emblem) rules.

  /** What the rules look at: the normalised cond, the temperature and the day flag. */
  datatype Reading = Reading(cond: string, tempC: real, isDaytime: bool)

  /** One rule: when `fires` holds of the reading, `emblem` is chosen. */
  datatype Rule = Rule(fires: Reading -> bool, emblem: Emblem)

  /** The rules in priority order; the last one always fires. */
  const EmblemRules: seq<Rule> := [
    Rule((x: Reading) => x.tempC >= 32.0, Heatwave),
    Rule((x: Reading) => x.cond in SnowLabels || x.tempC <= 0.0, Snow),
    Rule((x: Reading) => x.cond in RainLabels, Rain),
    Rule((x: Reading) => x.cond in StormLabels, Storm),
    Rule((x: Reading) => x.cond in CloudLabels, Cloudy),
    Rule((x: Reading) => x.cond in ClearLabels && x.isDaytime, ClearDay),
    Rule((x: Reading) => x.cond in ClearLabels, ClearNight),
    Rule((x: Reading) => true, Generic)
  ]

  /** The emblem of the first rule that fires, if any does. */
  function FirstMatch(rules: seq<Rule>, x: Reading): (r: Option<Emblem>)
    ensures r == None <==> forall k :: 0 <= k < |rules| ==> !rules[k].fires(x)
    ensures r != None ==>
      exists k :: 0 <= k < |rules| && rules[k].fires(x) && rules[k].emblem == r.value
        && forall m :: 0 <= m < k ==> !rules[m].fires(x)
  {
    FirstMatchFrom(rules, x, 0)
  }

  /** The emblem of the first rule from position `from` on that fires, if any does. */
  function FirstMatchFrom(rules: seq<Rule>, x: Reading, from: nat): (r: Option<Emblem>)
    requires from <= |rules|
    ensures r == None <==> forall k :: from <= k < |rules| ==> !rules[k].fires(x)
    ensures r != None ==>
      exists k :: from <= k < |rules| && rules[k].fires(x) && rules[k].emblem == r.value
        && forall m :: from <= m < k ==> !rules[m].fires(x)
    decreases |rules| - from
  {
    if from == |rules| then None
    else if rules[from].fires(x) then Some(rules[from].emblem)
    else FirstMatchFrom(rules, x, from + 1)
  }

  /** The chain of returns and the rule list choose the same emblem for every reading. */
  lemma {:induction false} ChooseIsFirstMatchingRule(x: Reading)
    ensures FirstMatch(EmblemRules, x) == Some(ChooseEmblem(x.cond, x.tempC, x.isDaytime))
  {
    RulesAgree(EmblemRules, x);
  }

  lemma RulesAgree(rs: seq<Rule>, x: Reading)
    requires rs == EmblemRules
    ensures FirstMatchFrom(rs, x, 0) == Some(ChooseEmblem(x.cond, x.tempC, x.isDaytime))
  {
    LastRules(rs, x);
    MiddleRules(rs, x);
    FirstRules(rs, x);
  }

  lemma LastRules(rs: seq<Rule>, x: Reading)
    requires rs == EmblemRules
    ensures FirstMatchFrom(rs, x, 5) ==
      if x.cond in ClearLabels then Some(if x.isDaytime then ClearDay else ClearNight) else Some(Generic)
  {
    assert FirstMatchFrom(rs, x, 7) == Some(Generic) by {
      assert rs[7].fires(x);
    }
    assert FirstMatchFrom(rs, x, 6) == if x.cond in ClearLabels then Some(ClearNight) else Some(Generic);
  }

  lemma MiddleRules(rs: seq<Rule>, x: Reading)
    requires rs == EmblemRules
    ensures FirstMatchFrom(rs, x, 2) ==
      if x.cond in RainLabels then Some(Rain)
      else if x.cond in StormLabels then Some(Storm)
      else if x.cond in CloudLabels then Some(Cloudy)
      else FirstMatchFrom(rs, x, 5)
  {
    assert FirstMatchFrom(rs, x, 4) == if x.cond in CloudLabels then Some(Cloudy) else FirstMatchFrom(rs, x, 5);
    assert FirstMatchFrom(rs, x, 3) == if x.cond in StormLabels then Some(Storm) else FirstMatchFrom(rs, x, 4);
  }

  lemma FirstRules(rs: seq<Rule>, x: Reading)
    requires rs == EmblemRules
    ensures FirstMatchFrom(rs, x, 0) ==
      if x.tempC >= 32.0 then Some(Heatwave)
      else if x.cond in SnowLabels || x.tempC <= 0.0 then Some(Snow)
      else FirstMatchFrom(rs, x, 2)
  {
    assert FirstMatchFrom(rs, x, 1) == if x.cond in SnowLabels || x.tempC <= 0.0 then Some(Snow) else FirstMatchFrom(rs, x, 2);
  }

  // ---------------------------------------------------------------------------
  // Precedence of the rules.

  /** At 32 degrees or more the heatwave photo wins over every cond and both times of day. */
  lemma HeatwaveWins(condition: Option<string>, tempC: real, isDaytime: bool)
    requires tempC >= 32.0
    ensures SelectEmblemPhoto(condition, tempC, isDaytime).code == HeatwaveCode
  {
  }

  /** Below 32 degrees, a snow cond or a temperature at or below zero gives snow, even for rain or storm labels. */
  lemma SnowPrecedesLaterRules(condition: Option<string>, tempC: real, isDaytime: bool)
    requires tempC < 32.0
    requires NormaliseCondition(condition) in SnowLabels || tempC <= 0.0
    ensures SelectEmblemPhoto(condition, tempC, isDaytime).code == SnowCode
  {
  }

  /** Between 0 and 32 degrees each family of normalised labels selects its own emblem. */
  lemma LabelFamilies(cond: string, tempC: real, isDaytime: bool)
    requires 0.0 < tempC < 32.0
    ensures var e := ChooseEmblem(cond, tempC, isDaytime);
      && (cond in RainLabels ==> e == Rain)
      && (cond in StormLabels ==> e == Storm)
      && (cond in CloudLabels ==> e == Cloudy)
      && (cond in ClearLabels ==> e == (if isDaytime then ClearDay else ClearNight))
      && (!IsKnownLabel(cond) ==> e == Generic)
  {
    LabelFamiliesDisjoint();
  }

  /** The condition is lower-cased and stripped first: `" RAIN "` selects what `"rain"` selects. */
  lemma CaseAndPaddingIgnored(condition: string, tempC: real, isDaytime: bool)
    ensures SelectEmblemPhoto(Some(condition), tempC, isDaytime)
         == SelectEmblemPhoto(Some(Strip(Lower(condition))), tempC, isDaytime)
  {
    var n := NormaliseCondition(Some(condition));
    assert n == Strip(Lower(condition));
    NormaliseIdempotent(Some(condition));
    assert NormaliseCondition(Some(n)) == n;
  }

  /** Whitespace around the condition and its letter case do not affect the photo. */
  lemma PaddingAndCaseIgnored(p: string, word: string, q: string, tempC: real, isDaytime: bool)
    requires AllSpace(p) && AllSpace(q)
    ensures SelectEmblemPhoto(Some(p + word + q), tempC, isDaytime)
         == SelectEmblemPhoto(Some(Strip(Lower(word))), tempC, isDaytime)
  {
    assert NormaliseCondition(Some(p + word + q)) == Strip(Lower(word)) by {
      NormalisePadded(p, word, q);
    }
    CaseAndPaddingIgnored(word, tempC, isDaytime);
  }

  /**
   * The example of the normalisation: `" RAIN "` (any word that lower-cases to
   * `"rain"`, with white space around it) is read as the rain label.
   */
  lemma PaddedUpperCaseRain(p: string, word: string, q: string, tempC: real, isDaytime: bool)
    requires AllSpace(p) && AllSpace(q)
    requires Lower(word) == "rain"
    ensures SelectEmblemPhoto(Some(p + word + q), tempC, isDaytime).code
         == if tempC >= 32.0 then HeatwaveCode else if tempC <= 0.0 then SnowCode else RainCode
  {
    var l := Lower(word);
    RainIsTrimmed(l);
    NormalisedPaddedWord(p, word, q);
    RainLabelChoice(l, tempC, isDaytime);
  }

  /** A padded word normalises to its lower-cased self when that has no white space at either end. */
  lemma NormalisedPaddedWord(p: string, word: string, q: string)
    requires AllSpace(p) && AllSpace(q)
    requires Lower(word) != [] && !IsSpace(Lower(word)[0]) && !IsSpace(Lower(word)[|Lower(word)| - 1])
    ensures NormaliseCondition(Some(p + word + q)) == Lower(word)
  {
    NormalisePadded(p, word, q);
    StripTrimmed(Lower(word));
  }

  lemma RainIsTrimmed(l: string)
    requires l == "rain"
    ensures l != [] && !IsSpace(l[0]) && !IsSpace(l[|l| - 1])
  {
  }

  /** The rain label gives the rain emblem between 0 and 32 degrees. */
  lemma RainLabelChoice(l: string, tempC: real, isDaytime: bool)
    requires l == "rain"
    ensures ChooseEmblem(l, tempC, isDaytime)
         == if tempC >= 32.0 then Heatwave else if tempC <= 0.0 then Snow else Rain
  {
    assert l in RainLabels;
    LabelFamiliesDisjoint();
  }

  /** `"RAIN"` is one such word. */
  lemma UpperCaseRainLowersToRain()
    ensures Lower("RAIN") == "rain"
  {
    var u := Lower("RAIN");
    assert u[0] == 'r' && u[1] == 'a' && u[2] == 'i' && u[3] == 'n';
  }

  /** A missing, empty or blank condition between 0 and 32 degrees is read as clear sky. */
  lemma BlankConditionIsClear(condition: Option<string>, tempC: real, isDaytime: bool)
    requires NormaliseCondition(condition) == ""
    requires 0.0 < tempC < 32.0
    ensures SelectEmblemPhoto(condition, tempC, isDaytime).code == (if isDaytime then ClearDayCode else ClearNightCode)
  {
    BlankLabelIsClear(NormaliseCondition(condition), tempC, isDaytime);
  }

  lemma BlankLabelIsClear(cond: string, tempC: real, isDaytime: bool)
    requires cond == ""
    requires 0.0 < tempC < 32.0
    ensures ChooseEmblem(cond, tempC, isDaytime) == if isDaytime then ClearDay else ClearNight
  {
    assert cond in ClearLabels;
    LabelFamiliesDisjoint();
  }

  /** The day flag matters exactly in the clear-sky branch. */
  lemma DaytimeMattersOnlyWhenClear(condition: Option<string>, tempC: real)
    ensures SelectEmblemPhoto(condition, tempC, true) != SelectEmblemPhoto(condition, tempC, false)
        <==> (0.0 < tempC < 32.0 && NormaliseCondition(condition) in ClearLabels)
  {
    var cond := NormaliseCondition(condition);
    ChooseDependsOnDaytime(cond, tempC);
    var day, night := ChooseEmblem(cond, tempC, true), ChooseEmblem(cond, tempC, false);
    if day != night {
      FileNamesDistinct(day, night);
    }
  }

  lemma ChooseDependsOnDaytime(cond: string, tempC: real)
    ensures ChooseEmblem(cond, tempC, true) != ChooseEmblem(cond, tempC, false)
        <==> (0.0 < tempC < 32.0 && cond in ClearLabels)
  {
    LabelFamiliesDisjoint();
  }

  /** The generic photo is chosen exactly for an unknown cond between 0 and 32 degrees. */
  lemma DefaultExactlyWhenUnrecognised(condition: Option<string>, tempC: real, isDaytime: bool)
    ensures SelectEmblemPhoto(condition, tempC, isDaytime).code == DefaultCode
        <==> (0.0 < tempC < 32.0 && !IsKnownLabel(NormaliseCondition(condition)))
  {
    var cond := NormaliseCondition(condition);
    var e := ChooseEmblem(cond, tempC, isDaytime);
    GenericExactlyWhenUnknown(cond, tempC, isDaytime);
    if e != Generic {
      FileNamesDistinct(e, Generic);
    }
  }

  lemma GenericExactlyWhenUnknown(cond: string, tempC: real, isDaytime: bool)
    ensures ChooseEmblem(cond, tempC, isDaytime) == Generic <==> (0.0 < tempC < 32.0 && !IsKnownLabel(cond))
  {
  }
}
