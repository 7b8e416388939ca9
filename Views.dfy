/**
 * The decisions the three weather endpoints take on a request, with the
 * database, the settings and the forecasting engine replaced by plain
 * inputs: a table of cities, the sequence of stored observations, a map of
 * settings and a forecasting function.
 */
module Views {
  import opened Wrappers
  import opened TextOps
  import opened PythonInt
  import EmblemPhotos
  import CityPhotos

  /** The query string of a request, one value per parameter. */
  type Query = map<string, string>

  /** `request.query_params.get(key)`. */
  function Param(query: Query, key: string): Option<string> {
    if key in query then Some(query[key]) else None
  }

  // ---------------------------------------------------------------------------
  // `CurrentWeatherView`.

  /** A stored weather observation; `timestamp` orders observations in time. */
  datatype Observation = Observation(cityId: int, timestamp: int, temperature: real)

  const CityIdRequired := "city_id es obligatorio"
  const CityIdNotInteger := "city_id debe ser un entero"
  const PartlyCloudy := "Parcialmente nublado"

  /** What `CurrentWeatherView.get` answers. */
  datatype CurrentWeatherResponse =
    | CurrentBadRequest(detail: string)
    | CityNotFound(requestedId: int)
    | NoObservations(cityId: int, cityName: string)
    | Current(cityId: int, cityName: string, temperature: real, timestamp: int, condition: string)

  /** The HTTP status of a response. */
  function CurrentStatus(r: CurrentWeatherResponse): int {
    match r
    case CurrentBadRequest(_) => 400
    case CityNotFound(_) => 404
    case NoObservations(_, _) => 404
    case Current(_, _, _, _, _) => 200
  }

  /** `city.observations`: the observations of one city, in stored order. */
  function ObservationsOf(observations: seq<Observation>, cityId: int): (r: seq<Observation>)
    ensures forall o :: o in r <==> o in observations && o.cityId == cityId
  {
    if observations == [] then []
    else
      var rest := ObservationsOf(observations[1..], cityId);
      if observations[0].cityId == cityId then [observations[0]] + rest else rest
  }

  /**
   * `order_by("-timestamp").first()`: an observation with the greatest
   * timestamp, the earliest stored one among equals.
   */
  function Latest(observations: seq<Observation>): (r: Option<Observation>)
    ensures r.None? <==> observations == []
    ensures r.Some? ==> r.value in observations
    ensures r.Some? ==> forall o :: o in observations ==> o.timestamp <= r.value.timestamp
  {
    if observations == [] then None
    else
      match Latest(observations[1..])
      case None => Some(observations[0])
      case Some(o) => if o.timestamp > observations[0].timestamp then Some(o) else Some(observations[0])
  }

  /** `CurrentWeatherView.get`: `cities` maps each stored city's id to its name. */
  function CurrentWeather(query: Query, cities: map<int, string>, observations: seq<Observation>): (r: CurrentWeatherResponse)
    ensures CurrentStatus(r) == 400 <==> Param(query, "city_id").None? || ParseInt(Param(query, "city_id").value).None?
    ensures Param(query, "city_id").None? ==> r == CurrentBadRequest(CityIdRequired)
    ensures Param(query, "city_id").Some? && CurrentStatus(r) == 400 ==> r == CurrentBadRequest(CityIdNotInteger)
    ensures r.CityNotFound? <==> CurrentStatus(r) != 400 && ParseInt(query["city_id"]).value !in cities
    ensures r.NoObservations? ==>
      && r.cityId == ParseInt(query["city_id"]).value && r.cityId in cities && r.cityName == cities[r.cityId]
      && ObservationsOf(observations, r.cityId) == []
    ensures r.Current? ==>
      && r.cityId == ParseInt(query["city_id"]).value && r.cityId in cities && r.cityName == cities[r.cityId]
      && r.condition == PartlyCloudy
      && (exists o :: o in observations && o.cityId == r.cityId
            && o.timestamp == r.timestamp && o.temperature == r.temperature)
      && (forall o :: o in observations && o.cityId == r.cityId ==> o.timestamp <= r.timestamp)
  {
    match Param(query, "city_id")
    case None => CurrentBadRequest(CityIdRequired)
    case Some(raw) =>
      match ParseInt(raw)
      case None => CurrentBadRequest(CityIdNotInteger)
      case Some(cityId) =>
        if cityId !in cities then CityNotFound(cityId)
        else
          var cityName := cities[cityId];
          match Latest(ObservationsOf(observations, cityId))
          case None => NoObservations(cityId, cityName)
          case Some(o) => Current(cityId, cityName, o.temperature, o.timestamp, PartlyCloudy)
  }

  /** An information separator (U+001C to U+001F) in `city_id` is refused, even around the digits. */
  lemma SeparatorInIdRefused(query: Query, cities: map<int, string>, observations: seq<Observation>, k: nat)
    requires "city_id" in query && k < |query["city_id"]| && IsSeparator(query["city_id"][k])
    ensures CurrentWeather(query, cities, observations) == CurrentBadRequest(CityIdNotInteger)
  {
    SeparatorRefused(query["city_id"], k);
  }

  /** A stored city answers 404 exactly when it has no observation. */
  lemma NoObservationsExactly(query: Query, cities: map<int, string>, observations: seq<Observation>, cityId: int)
    requires "city_id" in query && ParseInt(query["city_id"]) == Some(cityId) && cityId in cities
    ensures CurrentWeather(query, cities, observations).NoObservations?
        <==> forall o :: o in observations ==> o.cityId != cityId
  {
  }

  /**
   * Storing an observation newer than every stored one of that city makes it
   * the one reported: an older reading is never returned.
   */
  lemma NewerObservationReported(query: Query, cities: map<int, string>, observations: seq<Observation>, newer: Observation)
    requires "city_id" in query && ParseInt(query["city_id"]) == Some(newer.cityId) && newer.cityId in cities
    requires forall o :: o in observations && o.cityId == newer.cityId ==> o.timestamp < newer.timestamp
    ensures var r := CurrentWeather(query, cities, observations + [newer]);
      r.Current? && r.temperature == newer.temperature && r.timestamp == newer.timestamp
  {
    var all := observations + [newer];
    assert newer in all;
    var r := CurrentWeather(query, cities, all);
    var o :| o in all && o.cityId == newer.cityId && o.timestamp == r.timestamp && o.temperature == r.temperature;
    assert newer.timestamp <= o.timestamp;
    assert o in observations || o == newer;
    assert o == newer;
  }

  /** An observation of another city, stored anywhere in the sequence, never changes a city's observations. */
  lemma {:induction false} OtherCitiesIgnored(before: seq<Observation>, other: Observation, after: seq<Observation>, cityId: int)
    requires other.cityId != cityId
    ensures ObservationsOf(before + [other] + after, cityId) == ObservationsOf(before + after, cityId)
  {
    if before == [] {
      assert [other] + after == before + [other] + after;
      assert ([other] + after)[1..] == after == before + after;
    } else {
      assert (before + [other] + after)[1..] == before[1..] + [other] + after;
      assert (before + after)[1..] == before[1..] + after;
      OtherCitiesIgnored(before[1..], other, after, cityId);
    }
  }

  // ---------------------------------------------------------------------------
  // `ProphetForecastView`.

  const DefaultPeriods := "24"
  const ForecastNotIntegers := "city_id y periods deben ser enteros"

  /** What `ProphetForecastView.get` answers; `P` is whatever the forecasting engine returns. */
  datatype ForecastResponse<P> =
    | ForecastBadRequest(detail: string)
    | Forecast(cityId: int, periods: int, points: P)

  /**
   * `ProphetForecastView.get`: `engine` stands for `build_prophet_forecast`,
   * called with the parsed city id and number of periods.
   */
  function ProphetForecast<P>(query: Query, engine: (int, int) -> P): (r: ForecastResponse<P>)
    ensures Param(query, "city_id").None? ==> r == ForecastBadRequest(CityIdRequired)
    ensures r.Forecast? <==>
      && Param(query, "city_id").Some? && ParseInt(query["city_id"]).Some?
      && ParseInt(Param(query, "periods").GetOr(DefaultPeriods)).Some?
    ensures r.Forecast? ==>
      && r.cityId == ParseInt(query["city_id"]).value
      && r.periods == ParseInt(Param(query, "periods").GetOr(DefaultPeriods)).value
      && r.points == engine(r.cityId, r.periods)
    ensures r.ForecastBadRequest? && Param(query, "city_id").Some? ==> r.detail == ForecastNotIntegers
  {
    var periodsRaw := Param(query, "periods").GetOr(DefaultPeriods);
    match Param(query, "city_id")
    case None => ForecastBadRequest(CityIdRequired)
    case Some(raw) =>
      match (ParseInt(raw), ParseInt(periodsRaw))
      case (Some(cityId), Some(periods)) => Forecast(cityId, periods, engine(cityId, periods))
      case _ => ForecastBadRequest(ForecastNotIntegers)
  }

  /** The default of `periods` is read as 24. */
  lemma DefaultPeriodsIs24()
    ensures ParseInt(DefaultPeriods) == Some(24)
  {
    ParseIntOfString(24);
    assert IntToString(24) == DefaultPeriods by {
      assert NatDigits(24) == NatDigits(2) + ['4'];
    }
  }

  /** Without `periods`, the engine is asked for 24 periods. */
  lemma ForecastDefaultsTo24<P>(query: Query, engine: (int, int) -> P, cityId: int)
    requires "city_id" in query && ParseInt(query["city_id"]) == Some(cityId) && "periods" !in query
    ensures ProphetForecast(query, engine) == Forecast(cityId, 24, engine(cityId, 24))
  {
    DefaultPeriodsIs24();
  }

  /** Any integer number of periods is passed on, zero and negative ones included. */
  lemma ForecastPassesAnyPeriods<P>(query: Query, engine: (int, int) -> P, cityId: int, periods: int)
    requires "city_id" in query && ParseInt(query["city_id"]) == Some(cityId)
    requires "periods" in query && query["periods"] == IntToString(periods)
    ensures ProphetForecast(query, engine) == Forecast(cityId, periods, engine(cityId, periods))
  {
    ParseIntOfString(periods);
  }

  // ---------------------------------------------------------------------------
  // `CurrentConditionsView`.

  const EmblemBaseSetting := "EMBLEM_PHOTO_BASE_URL"
  const CityBaseSetting := "CITY_PHOTO_BASE_URL"
  const DefaultEmblemBase := "https://cdn.example.com/emblems/"
  const DefaultCityBase := "https://cdn.example.com/cities/"

  /** The readings the view still hard-codes: a clear day at 18 degrees. */
  const PlaceholderCondition := "clear"
  const PlaceholderTempC: real := 18.0
  const PlaceholderIsDaytime := true

  /** What `CurrentConditionsView.get` answers, always with status 200. */
  datatype ConditionsResponse = Conditions(
    cityId: Option<int>,
    cityName: Option<string>,
    condition: string,
    tempC: real,
    isDaytime: bool,
    emblemPhoto: string,
    emblemPhotoUrl: string,
    cityPhoto: string,
    cityPhotoUrl: string)

  /** `str.rstrip("/")`. */
  function RStripSlashes(s: string): (r: string)
    ensures |r| <= |s| && r == s[..|r|]
    ensures r == [] || r[|r| - 1] != '/'
    ensures forall i :: |r| <= i < |s| ==> s[i] == '/'
  {
    if s != [] && s[|s| - 1] == '/' then RStripSlashes(s[..|s| - 1]) else s
  }

  /** `base.rstrip("/") + "/" + code`. */
  function JoinUrl(base: string, code: string): string {
    RStripSlashes(base) + "/" + code
  }

  /** `getattr(settings, name, default)`. */
  function Setting(settings: map<string, string>, name: string, default: string): string {
    if name in settings then settings[name] else default
  }

  /** `int(city_id_param)` when the parameter is present, `None` when it is absent or not an integer. */
  function LenientCityId(query: Query): (cityId: Option<int>)
    ensures Param(query, "city_id").None? ==> cityId.None?
    ensures Param(query, "city_id").Some? ==> cityId == ParseInt(query["city_id"])
  {
    match Param(query, "city_id")
    case None => None
    case Some(raw) => ParseInt(raw)
  }

  /** `CurrentConditionsView.get`. */
  function CurrentConditions(query: Query, settings: map<string, string>): (r: ConditionsResponse)
    ensures r.cityId == LenientCityId(query)
    ensures r.cityName == Param(query, "city_name")
    ensures r.condition == PlaceholderCondition && r.tempC == PlaceholderTempC && r.isDaytime == PlaceholderIsDaytime
    ensures r.emblemPhoto == PlaceholderEmblem().code
    ensures r.cityPhoto == CityPhotos.SelectCityPhoto(LenientCityId(query), Param(query, "city_name")).code
    ensures r.emblemPhotoUrl == JoinUrl(Setting(settings, EmblemBaseSetting, DefaultEmblemBase), r.emblemPhoto)
    ensures r.cityPhotoUrl == JoinUrl(Setting(settings, CityBaseSetting, DefaultCityBase), r.cityPhoto)
  {
    var cityId := LenientCityId(query);
    var cityName := Param(query, "city_name");
    var emblem := PlaceholderEmblem();
    var emblemBase := Setting(settings, EmblemBaseSetting, DefaultEmblemBase);
    var cityPhoto := CityPhotos.SelectCityPhoto(cityId, cityName);
    var cityBase := Setting(settings, CityBaseSetting, DefaultCityBase);
    Conditions(cityId, cityName, PlaceholderCondition, PlaceholderTempC, PlaceholderIsDaytime,
      emblem.code, JoinUrl(emblemBase, emblem.code), cityPhoto.code, JoinUrl(cityBase, cityPhoto.code))
  }

  /** The emblem the view selects for its hard-coded reading: the clear-day photo. */
  function PlaceholderEmblem(): (photo: EmblemPhotos.EmblemPhoto)
    ensures photo.code == EmblemPhotos.ClearDayCode
  {
    ClearDayReading(PlaceholderCondition, PlaceholderTempC, PlaceholderIsDaytime);
    EmblemPhotos.SelectEmblemPhoto(Some(PlaceholderCondition), PlaceholderTempC, PlaceholderIsDaytime)
  }

  lemma ClearDayReading(cond: string, tempC: real, isDaytime: bool)
    requires cond == "clear" && tempC == 18.0 && isDaytime
    ensures EmblemPhotos.SelectEmblemPhoto(Some(cond), tempC, isDaytime).code == EmblemPhotos.ClearDayCode
  {
    ClearIsNormalised(cond);
    ClearLabelChoice(cond, tempC, isDaytime);
  }

  lemma ClearIsNormalised(cond: string)
    requires cond == "clear"
    ensures EmblemPhotos.NormaliseCondition(Some(cond)) == cond
  {
    LowerOfLowerCase(cond);
    StripTrimmed(cond);
  }

  lemma ClearLabelChoice(cond: string, tempC: real, isDaytime: bool)
    requires cond == "clear" && tempC == 18.0 && isDaytime
    ensures EmblemPhotos.ChooseEmblem(cond, tempC, isDaytime) == EmblemPhotos.ClearDay
  {
    assert cond in EmblemPhotos.ClearLabels;
    EmblemPhotos.LabelFamilies(cond, tempC, isDaytime);
  }

  /** The hard-coded clear day always shows the clear-day emblem, whatever the request. */
  lemma PlaceholderEmblemIsClearDay(query: Query, settings: map<string, string>)
    ensures CurrentConditions(query, settings).emblemPhoto == EmblemPhotos.ClearDayCode
  {
  }

  /** An unparsable `city_id` is dropped: the answer is the one for no `city_id` at all. */
  lemma UnparsableIdIgnored(query: Query, settings: map<string, string>)
    requires "city_id" in query && ParseInt(query["city_id"]).None?
    ensures CurrentConditions(query, settings) == CurrentConditions(query - {"city_id"}, settings)
  {
    assert Param(query, "city_name") == Param(query - {"city_id"}, "city_name");
  }

  /** Extra trailing slashes on the base change nothing. */
  lemma {:induction false} JoinIgnoresTrailingSlashes(base: string, slashes: string, code: string)
    requires forall i :: 0 <= i < |slashes| ==> slashes[i] == '/'
    ensures JoinUrl(base + slashes, code) == JoinUrl(base, code)
    decreases |slashes|
  {
    if slashes == [] {
      assert base + slashes == base;
    } else {
      var shorter := slashes[..|slashes| - 1];
      var padded := base + slashes;
      assert padded[|padded| - 1] == slashes[|slashes| - 1] == '/';
      assert padded[..|padded| - 1] == base + shorter;
      assert RStripSlashes(padded) == RStripSlashes(base + shorter);
      assert forall i :: 0 <= i < |shorter| ==> shorter[i] == slashes[i];
      JoinIgnoresTrailingSlashes(base, shorter, code);
    }
  }

  /** A base without a trailing slash gets exactly one between it and the code. */
  lemma JoinWithoutTrailingSlash(base: string, code: string)
    requires base == [] || base[|base| - 1] != '/'
    ensures JoinUrl(base, code) == base + "/" + code
  {
  }

  /** A photo URL is the base up to its trailing slashes, one slash, and the code. */
  lemma JoinShape(base: string, code: string)
    ensures var u := JoinUrl(base, code); var b := RStripSlashes(base);
      && u == b + "/" + code
      && (b == [] || b[|b| - 1] != '/')
      && base == b + base[|b|..]
      && forall i :: |b| <= i < |base| ==> base[i] == '/'
  {
    var b := RStripSlashes(base);
    assert base == b + base[|b|..];
  }

  /** A configured emblem base ending in one slash is used as written. */
  lemma EmblemUrlUnder(query: Query, settings: map<string, string>, b: string)
    requires Setting(settings, EmblemBaseSetting, DefaultEmblemBase) == b + "/"
    requires b == [] || b[|b| - 1] != '/'
    ensures CurrentConditions(query, settings).emblemPhotoUrl == b + "/" + EmblemPhotos.ClearDayCode
  {
    PlaceholderEmblemIsClearDay(query, settings);
    JoinIgnoresTrailingSlashes(b, "/", EmblemPhotos.ClearDayCode);
    JoinWithoutTrailingSlash(b, EmblemPhotos.ClearDayCode);
  }

  /** Without settings, the emblem URL is the default emblem address followed by the clear-day code. */
  lemma DefaultEmblemUrl(query: Query)
    ensures CurrentConditions(query, map[]).emblemPhotoUrl == DefaultEmblemBase + EmblemPhotos.ClearDayCode
  {
    var b := DefaultEmblemBase[..|DefaultEmblemBase| - 1];
    assert DefaultEmblemBase == b + "/";
    EmblemUrlUnder(query, map[], b);
  }
}
