# Atmos weather dashboard: a Dafny model of its decision logic

Atmos is a weather dashboard. A Django REST backend serves current observations, Prophet forecasts and
"current conditions" with two photographs. A React frontend colours temperatures, chooses a weather
icon, filters the city list and highlights the active footer button. This project models the parts of
both sides that decide something, and proves what they promise:

- `EmblemPhotos`: the emblem photo chosen for a condition label, a temperature and the time of day.
  The choice is an ordered rule list in which a heatwave wins over everything and snow or frost wins
  over the other labels.
- `CityPhotos`: the city photo chosen by city id first, then by the normalised city name, else a
  generic photo.
- `TemperatureColors`: the temperature colour scale. This covers hex parsing and printing, linear
  interpolation with rounding, and the stop search loop, written as a method proved against a
  specification function.
- `WeatherInfo`: the four-way icon choice from keywords in the condition label, with a temperature
  fallback.
- `CitySelector`: the case-insensitive substring filter of the city list.
- `FooterActions`: the three footer slots, the active-slot rule and the class name.
- `Serializers`: the temperature range check of the observation serializer.
- `Views`: the decisions of the `current`, `prophet-forecast` and `current-conditions` endpoints.
  The database, the settings and the forecasting engine become inputs.

Two helper modules support these:

- `TextOps` models the pieces of Python and JavaScript string handling the code relies on:
  `lower`, `strip`, `in`/`includes` and `startsWith`.
- `PythonInt` models Python's `int()` on a string.

`Wrappers` holds `Option` and `Result`.

Where a JavaScript value can be `NaN` (a failed `parseInt`, or arithmetic on it), the model uses
`Option<int>`, with `None` standing for `NaN`. Likewise, a Python exception caught by the code (a
`ValueError` from `int()`, a `ValidationError`) is a `None` or a `Failure` in the model.

## Model

| member | source | states |
|---|---|---|
| EmblemPhotos.SelectEmblemPhoto | backend/weather/emblem_photos.py:15-51 | No contract of its own: `select_emblem_photo` is the file name of ChooseEmblem on the normalised label; see SelectedFileListed, CaseAndPaddingIgnored, PaddingAndCaseIgnored and BlankConditionIsClear. |
| EmblemPhotos.ChooseEmblem | backend/weather/emblem_photos.py:25-51 | No contract of its own: the if/elif chain on the normalised label; see ChooseIsFirstMatchingRule, HeatwaveWins, SnowPrecedesLaterRules, LabelFamilies, DaytimeMattersOnlyWhenClear and DefaultExactlyWhenUnrecognised. |
| EmblemPhotos.ChooseIsFirstMatchingRule | backend/weather/emblem_photos.py:25-51 | The selector picks the emblem of the first rule of the ordered list (heatwave, snow/frost, rain, storm, cloudy, clear day, clear night, generic) whose test holds. |
| EmblemPhotos.NormaliseCondition | backend/weather/emblem_photos.py:22 | The normalised label has no upper-case letter and no white space at either end; a missing condition becomes the empty label. |
| EmblemPhotos.NormaliseIdempotent | backend/weather/emblem_photos.py:22 | Normalising an already normalised label changes nothing. |
| EmblemPhotos.HeatwaveWins | backend/weather/emblem_photos.py:25-26 | At 32 degrees or more the heatwave photo is chosen, whatever the label and the time of day. |
| EmblemPhotos.SnowPrecedesLaterRules | backend/weather/emblem_photos.py:29-30 | Below 32 degrees, a snow or sleet label or a temperature of 0 or less gives the snow photo, even for labels of later rules. |
| EmblemPhotos.LabelFamilies | backend/weather/emblem_photos.py:33-51 | Strictly between 0 and 32 degrees, each label family gives its own emblem: rain, storm, cloudy, clear day or night depending on the time of day, and generic for every other label. |
| EmblemPhotos.LabelFamiliesDisjoint | backend/weather/emblem_photos.py:29-45 | No label belongs to two families, so the order of the label rules decides nothing among themselves. |
| EmblemPhotos.CaseAndPaddingIgnored | backend/weather/emblem_photos.py:22 | A condition and its lower-cased, stripped form select the same photo. |
| EmblemPhotos.PaddingAndCaseIgnored | backend/weather/emblem_photos.py:22 | White space around a condition never changes the photo. |
| EmblemPhotos.PaddedUpperCaseRain | backend/weather/emblem_photos.py:22-34 | Any white-space-padded spelling of "rain" in any case gives the rain photo between 0 and 32 degrees. |
| EmblemPhotos.UpperCaseRainLowersToRain | backend/weather/emblem_photos.py:22 | "RAIN" lower-cases to "rain". |
| EmblemPhotos.BlankConditionIsClear | backend/weather/emblem_photos.py:45-48 | A missing, empty or blank condition counts as clear: the clear-day or clear-night photo, depending on the time of day. |
| EmblemPhotos.DaytimeMattersOnlyWhenClear | backend/weather/emblem_photos.py:45-48 | The time of day changes the photo exactly when the clear rule is the one that fires. |
| EmblemPhotos.DefaultExactlyWhenUnrecognised | backend/weather/emblem_photos.py:51 | The generic photo is chosen exactly when the temperature is strictly between 0 and 32 and the label belongs to no family. |
| EmblemPhotos.FileNamesDistinct | backend/weather/emblem_photos.py:26-51 | Different emblems have different file names. |
| EmblemPhotos.SelectedFileListed | backend/weather/emblem_photos.py:6-12 | The selected photo's code is always one of the eight file names. |
| CityPhotos.SelectCityPhoto | backend/weather/city_photos.py:30-54 | The chosen code is a value of one of the two tables or the generic photo. |
| CityPhotos.TableValues | backend/weather/city_photos.py:6-18 | Both tables map onto the same four skyline photos. |
| CityPhotos.TableCodesNonEmpty | backend/weather/city_photos.py:6-18 | No table code is empty, so every table hit passes the `if code` test. |
| CityPhotos.IdWins | backend/weather/city_photos.py:41-44 | A known city id decides the photo, whatever the name. |
| CityPhotos.IdOneBeatsMadridName | backend/weather/city_photos.py:41-44 | Id 1 with the name "madrid" gives the Barcelona photo. |
| CityPhotos.UnknownIdFallsThrough | backend/weather/city_photos.py:41-47 | A missing or unknown id answers as if no id were given. |
| CityPhotos.NameLookupNormalised | backend/weather/city_photos.py:47-51 | Names that lower-case and strip to the same key select the same photo. |
| CityPhotos.PaddedUpperCaseMadrid | backend/weather/city_photos.py:47-51 | Without an id, any padded spelling of "madrid" in any case gives the Madrid photo. |
| CityPhotos.UpperCaseMadridLowers | backend/weather/city_photos.py:48 | "MADRID" lower-cases to "madrid". |
| CityPhotos.EmptyNameIsAbsent | backend/weather/city_photos.py:47 | An empty name is falsy: it answers like no name. |
| CityPhotos.NameHitGivesNameCode | backend/weather/city_photos.py:47-51 | Without an id hit, a name whose normalised key is in the name table gives that key's code. |
| CityPhotos.DefaultExactlyWithoutMatch | backend/weather/city_photos.py:54 | The generic photo is chosen exactly when neither the id nor the normalised name is in its table. |
| TemperatureColors.ParseIntHex | frontend/src/styles/temperatureColors.ts:18-20 | No contract of its own: `parseInt(s, 16)` skips leading white space, takes one sign and an optional `0x`, then the longest hex-digit prefix, or `NaN` (`None`) if it is empty; see ParseTwoHexDigits. |
| TemperatureColors.HexDigitChar | frontend/src/styles/temperatureColors.ts:25 | The digit printed for a value below 16 is a lower-case hex digit that reads back as that value. |
| TemperatureColors.ParseTwoHexDigits | frontend/src/styles/temperatureColors.ts:18-20 | `parseInt` with radix 16 reads two hex digits as their byte value. |
| TemperatureColors.FirstIndex | frontend/src/styles/temperatureColors.ts:17 | The position found holds the character and no earlier position does. |
| TemperatureColors.ReplaceFirst | frontend/src/styles/temperatureColors.ts:17 | `replace("#", "")` removes the character at the first `#` and keeps everything before and after it in order; a string without `#` is unchanged. |
| TemperatureColors.Slice | frontend/src/styles/temperatureColors.ts:18-20 | `slice` is the substring when it is in range; an end past the string is clamped to its length, and a start past it gives `""`; it is never longer than asked. |
| TemperatureColors.PadStart2 | frontend/src/styles/temperatureColors.ts:25 | `padStart(2, "0")` is at least two long, ends with the padded text and fills every position before it with `'0'`. |
| TemperatureColors.HexToRgb | frontend/src/styles/temperatureColors.ts:16-22 | No contract of its own: drop the first `#`, then parse characters 0-1, 2-3 and 4-5 in base 16; see HexColorChannels, HexRoundTrip and HexNormalises. |
| TemperatureColors.ToHex | frontend/src/styles/temperatureColors.ts:25 | No contract of its own: `toString(16)` padded to two with `'0'`, and "NaN" for `NaN`; see ToHexByte. |
| TemperatureColors.RgbToHex | frontend/src/styles/temperatureColors.ts:24-27 | No contract of its own: `#` then the three channels through ToHex; see RgbToHexFormat and HexRoundTrip. |
| TemperatureColors.ToHexByte | frontend/src/styles/temperatureColors.ts:25 | A byte prints as exactly two lower-case hex digits: its high and its low nibble. |
| TemperatureColors.RgbToHexFormat | frontend/src/styles/temperatureColors.ts:24-27 | Three bytes print as a `#RRGGBB` colour in lower case. |
| TemperatureColors.HexColorChannels | frontend/src/styles/temperatureColors.ts:16-22 | A `#RRGGBB` colour parses into the three byte values of its digit pairs. |
| TemperatureColors.HexRoundTrip | frontend/src/styles/temperatureColors.ts:16-27 | Printing three bytes and parsing the result gives the same three bytes. |
| TemperatureColors.HexNormalises | frontend/src/styles/temperatureColors.ts:16-27 | Parsing a `#RRGGBB` colour and printing it back gives the colour in lower case. |
| TemperatureColors.Round | frontend/src/styles/temperatureColors.ts:32 | `Math.round` gives the integer nearest to its argument, with halves rounded up. |
| TemperatureColors.MixBetween | frontend/src/styles/temperatureColors.ts:32 | Mixing two bytes with a weight in [0, 1] stays between them and so stays a byte. |
| TemperatureColors.InterpolateColor | frontend/src/styles/temperatureColors.ts:29-39 | No contract of its own: each channel of the two parsed colours is mixed and rounded, then printed; see InterpolateWellFormed, InterpolateAtZero and InterpolateAtOne. |
| TemperatureColors.InterpolateWellFormed | frontend/src/styles/temperatureColors.ts:29-39 | Interpolating two colours with a weight in [0, 1] gives a lower-case `#RRGGBB` colour. |
| TemperatureColors.InterpolateAtZero | frontend/src/styles/temperatureColors.ts:29-39 | At weight 0 the interpolation is the first colour, lower-cased. |
| TemperatureColors.InterpolateAtOne | frontend/src/styles/temperatureColors.ts:29-39 | At weight 1 the interpolation is the second colour, lower-cased. |
| TemperatureColors.SegmentPosition | frontend/src/styles/temperatureColors.ts:54-55 | The position inside a segment is in [0, 1]: 0 at its lower stop and 1 at its upper stop. |
| TemperatureColors.FirstSegment | frontend/src/styles/temperatureColors.ts:49-58 | The loop's search finds the first segment that holds the temperature, or reports that none does. |
| TemperatureColors.TemperatureColor | frontend/src/styles/temperatureColors.ts:41-62 | No contract of its own: the specification of the scale (clamp at either end, interpolate in the first segment holding the temperature, else the last colour); see GetTemperatureColor, FallbackUnreachable, TemperatureColorWellFormed and InnerStopColor. |
| TemperatureColors.GetTemperatureColor | frontend/src/styles/temperatureColors.ts:41-62 | The loop returns the colour of the scale: a clamped end colour, or the interpolation in the first segment that holds the temperature, or the fallback. |
| TemperatureColors.FallbackUnreachable | frontend/src/styles/temperatureColors.ts:60-61 | On strictly ascending stops, every temperature strictly between the ends lies in some segment, so the fallback colour is never returned. |
| TemperatureColors.TemperatureColorWellFormed | frontend/src/styles/temperatureColors.ts:41-62 | On ascending `#RRGGBB` stops, every temperature gets a `#RRGGBB` colour. |
| TemperatureColors.InnerStopColor | frontend/src/styles/temperatureColors.ts:53-56 | At the temperature of an inner stop the colour is that stop's colour, lower-cased. |
| TemperatureColors.TempColorStopsWellFormed | frontend/src/styles/temperatureColors.ts:8-14 | The five stops of the scale ascend strictly and carry `#RRGGBB` colours. |
| TemperatureColors.TempColorStopsClamp | frontend/src/styles/temperatureColors.ts:42-47 | At -5 degrees or below the scale is the first stop's colour, and at 40 or above the last one's, exactly as written. |
| TemperatureColors.TempColorStopsInnerStops | frontend/src/styles/temperatureColors.ts:9-13 | At 0, 15 and 30 degrees the scale shows that stop's colour in lower case. |
| WeatherInfo.LowerCondition | frontend/src/components/weather/WeatherInfo.jsx:19 | The lower-cased condition has no upper-case letter, and a missing condition reads as "". |
| WeatherInfo.GetWeatherIcon | frontend/src/components/weather/WeatherInfo.jsx:18-44 | For each of the four icons, the exact condition under which it is chosen: rain keywords first, then snow, cloud and sun keywords, then the temperature bands. |
| WeatherInfo.MissingConditionIsBlank | frontend/src/components/weather/WeatherInfo.jsx:19 | A missing condition gives the same icon as an empty one. |
| WeatherInfo.CaseIgnored | frontend/src/components/weather/WeatherInfo.jsx:19 | A condition and its lower-cased form give the same icon. |
| WeatherInfo.KeywordIgnoresTemperature | frontend/src/components/weather/WeatherInfo.jsx:22-33 | Once a keyword occurs, the temperature plays no part. |
| WeatherInfo.RainKeywordWins | frontend/src/components/weather/WeatherInfo.jsx:22-24 | A label containing "rain" or "lluvia" in any case shows rain, whatever else it says. |
| WeatherInfo.SnowKeyword | frontend/src/components/weather/WeatherInfo.jsx:25-27 | A label containing "snow" or "nieve" and no rain keyword shows snow. |
| WeatherInfo.SunKeyword | frontend/src/components/weather/WeatherInfo.jsx:31-33 | A label containing "sun", "sol" or "clear", and no earlier keyword, shows the sun. |
| WeatherInfo.TemperatureFallback | frontend/src/components/weather/WeatherInfo.jsx:36-43 | Without a keyword: sun above 25 degrees, snow below 0, cloud in between, and cloud for a missing reading. |
| WeatherInfo.PartlyCloudyFollowsTemperature | frontend/src/components/weather/WeatherInfo.jsx:98 | The label the card falls back to, "Parcialmente nublado", has no keyword, so its icon follows the temperature alone. |
| CitySelector.FilterCities | frontend/src/components/weather/CitySelector.jsx:36-38 | The result keeps exactly the cities whose lower-cased name contains the lower-cased term, in their original order. |
| CitySelector.FilterCounts | frontend/src/components/weather/CitySelector.jsx:36-38 | Each matching city is kept as often as it occurs; each other city is dropped entirely. |
| CitySelector.EmptyTermKeepsAll | frontend/src/components/weather/CitySelector.jsx:36-38 | An empty search term keeps the whole list. |
| CitySelector.TermCaseIgnored | frontend/src/components/weather/CitySelector.jsx:37 | The case of the search term does not matter. |
| CitySelector.NameCaseIgnored | frontend/src/components/weather/CitySelector.jsx:37 | The case of a city's name does not matter. |
| CitySelector.FilterIdempotent | frontend/src/components/weather/CitySelector.jsx:36-38 | Filtering twice by the same term is filtering once. |
| FooterActions.IsActive | frontend/src/components/layout/FooterActions.jsx:27-32 | No contract of its own: `"/"` matches only exactly, every other target by `startsWith`; see RootOnlyExact, PrefixSlots and AtMostOneActive. |
| FooterActions.SlotClass | frontend/src/components/layout/FooterActions.jsx:40-42 | The class is "footer-slot", with the active modifier appended exactly when the slot is active. |
| FooterActions.RootOnlyExact | frontend/src/components/layout/FooterActions.jsx:27-30 | The dashboard slot is active exactly on "/". |
| FooterActions.PrefixSlots | frontend/src/components/layout/FooterActions.jsx:27-32 | The history and charts slots are active exactly on paths that start with "/history" and "/charts". |
| FooterActions.HistoryPrefixIgnoresBoundary | frontend/src/components/layout/FooterActions.jsx:31 | Any path that extends "/history", such as "/historyX", activates the history slot. |
| FooterActions.AtMostOneActive | frontend/src/components/layout/FooterActions.jsx:8-32 | No path activates two slots. |
| FooterActions.ActiveCount | frontend/src/components/layout/FooterActions.jsx:8-32 | The number of active slots is 0 or 1, and it is 1 exactly when some slot is active. |
| FooterActions.RootHighlightsPredictions | frontend/src/components/layout/FooterActions.jsx:19-30 | On "/" only the dashboard slot is active. |
| Serializers.ValidateTemperature | backend/weather/serializers.py:19-24 | A temperature is accepted unchanged exactly when it lies in [-100, 100]; otherwise it is refused with the range message. |
| Serializers.ClosedRange | backend/weather/serializers.py:20 | Both bounds are accepted, and anything beyond either bound is refused. |
| Serializers.ValidationIdempotent | backend/weather/serializers.py:19-24 | Validating an accepted value again gives the same result. |
| PythonInt.ParseInt | backend/weather/views.py:36 | No contract of its own: `int()` trims the white space it skips (IsIntSpace), then reads one optional sign and digit groups; see ParseIntOfString, ParseIntPadded, ParseIntBlank, SeparatorRefused and ParseIntNeedsDigitAfterSign. |
| PythonInt.ParseDigitGroups | backend/weather/views.py:36 | A digit run with single underscores between digits parses, and only such a run. |
| PythonInt.NatDigits | backend/weather/views.py:36 | The decimal digits of a natural number read back as that number. |
| PythonInt.IntToString | backend/weather/views.py:77 | A printed integer is non-empty and has no white space at either end. |
| PythonInt.ParseIntOfString | backend/weather/views.py:36 | `int` reads back every printed integer, negative ones included. |
| PythonInt.TrimIntIsStrip | backend/weather/views.py:36 | On text without the information separators U+001C to U+001F, the white space `int` trims is exactly what `str.strip` trims. |
| PythonInt.ParseIntPadded | backend/weather/views.py:36 | White space that `int` skips (ASCII tab to carriage return and space, and the non-ASCII `str.isspace` characters) around a number is ignored. |
| PythonInt.SeparatorRefused | backend/weather/views.py:36 | An information separator U+001C to U+001F anywhere in the text makes `int` raise, though `str.isspace` counts it as white space. |
| PythonInt.ParseIntBlank | backend/weather/views.py:35-41 | An empty or blank parameter is refused. |
| PythonInt.ParseIntNeedsDigitAfterSign | backend/weather/views.py:35-41 | A sign not followed by a digit is refused. |
| Views.ObservationsOf | backend/weather/views.py:47 | A city's observations are exactly the stored observations with that city id. |
| Views.Latest | backend/weather/views.py:47 | The latest observation exists exactly when there is one; it is one of them, with a timestamp no earlier than any other. |
| Views.CurrentWeather | backend/weather/views.py:26-69 | 400 exactly when `city_id` is missing ("city_id es obligatorio") or not an integer ("city_id debe ser un entero"); 404 for an unknown city or a city without observations; otherwise the city's latest temperature and timestamp, labelled "Parcialmente nublado". |
| Views.SeparatorInIdRefused | backend/weather/views.py:35-41 | A `city_id` holding an information separator U+001C to U+001F, even around the digits, answers 400 "city_id debe ser un entero". |
| Views.NoObservationsExactly | backend/weather/views.py:49-57 | A known city answers 404 exactly when no observation of it is stored. |
| Views.NewerObservationReported | backend/weather/tests/test_current_weather.py:77-98 | After a reading newer than all of a city's stored ones is added, that reading's temperature and timestamp are reported. |
| Views.OtherCitiesIgnored | backend/weather/views.py:47 | An observation of another city, stored at any position, never changes a city's observations. |
| Views.ProphetForecast | backend/weather/views.py:75-103 | 400 without `city_id`, and 400 when either value is not an integer; otherwise the engine's points for the parsed id and periods. |
| Views.DefaultPeriodsIs24 | backend/weather/views.py:77 | The default "24" parses as 24. |
| Views.ForecastDefaultsTo24 | backend/weather/views.py:77-94 | Without `periods`, the engine is asked for 24 periods. |
| Views.ForecastPassesAnyPeriods | backend/weather/views.py:85-94 | Any integer number of periods is passed on, including zero and negative ones. |
| Views.RStripSlashes | backend/weather/views.py:138 | `rstrip("/")` removes only trailing slashes, all of them. |
| Views.LenientCityId | backend/weather/views.py:114-123 | A missing `city_id` gives no id, and a present one gives its integer or no id when it does not parse. |
| Views.JoinUrl | backend/weather/views.py:138 | No contract of its own: `base.rstrip("/") + "/" + code`; see JoinShape, JoinIgnoresTrailingSlashes and JoinWithoutTrailingSlash. |
| Views.CurrentConditions | backend/weather/views.py:113-161 | The response echoes the leniently parsed city id, the city name and the placeholders; its emblem is the placeholder reading's emblem; its city photo is the one chosen for the lenient id and the name; each URL joins its base and its code. |
| Views.PlaceholderEmblem | backend/weather/views.py:127-132 | The emblem for the hard-coded clear day at 18 degrees is the clear-day photo. |
| Views.PlaceholderEmblemIsClearDay | backend/weather/views.py:127-132 | Every response shows the clear-day emblem. |
| Views.UnparsableIdIgnored | backend/weather/views.py:118-123 | A `city_id` that does not parse answers as if it were absent. |
| Views.JoinIgnoresTrailingSlashes | backend/weather/views.py:138 | Any number of trailing slashes on a base URL gives the same photo URL. |
| Views.JoinWithoutTrailingSlash | backend/weather/views.py:138 | A base without a trailing slash gets exactly one slash before the code. |
| Views.JoinShape | backend/weather/views.py:138 | A photo URL is the base up to its trailing slashes, then one slash, then the code. |
| Views.EmblemUrlUnder | backend/weather/views.py:133-138 | A configured emblem base ending in one slash is used as written. |
| Views.DefaultEmblemUrl | backend/weather/views.py:133-138 | Without settings, the emblem URL is the default CDN address followed by the clear-day code. |
| TextOps.Lower | backend/weather/emblem_photos.py:22 | Each character is mapped through the lower-case mapping, and the length is kept. |
| TextOps.Strip | backend/weather/emblem_photos.py:22 | The result is empty or neither starts nor ends with white space; see StripPadded and StripIdempotent. |
| TextOps.Contains | frontend/src/components/weather/CitySelector.jsx:37 | `includes` holds exactly when the text has the pattern as a prefix at some position. |
| TextOps.LowerIdempotent | backend/weather/emblem_photos.py:22 | Lower-casing twice is lower-casing once. |
| TextOps.StripIdempotent | backend/weather/emblem_photos.py:22 | Stripping twice is stripping once. |
| TextOps.StripPadded | backend/weather/city_photos.py:48 | White space added around a string does not change what `strip` gives. |
| TextOps.StripLowerCommute | backend/weather/city_photos.py:48 | Lower-casing and stripping can be done in either order. |

## Left out

- `build_prophet_forecast` (Prophet, pandas, the database) is not part of this model. The forecast view takes it as a function parameter, and its result is passed through untouched.
- Views.ProphetForecast: `build_prophet_forecast` can raise, for example when `model.fit` gets too short a history (backend/weather/prophet_service.py:40), and the view does not catch it, so the request answers 500. The engine parameter is a total function, so the model cannot express that failure.
- The database is a map from city ids to names plus a sequence of observations. `get_object_or_404` is modelled only as its outcome, and the 404 body text is not modelled.
- DRF's request and response plumbing, permissions and URL routing are not modelled. A query string is a map with one value per key; repeated keys are not modelled.
- `CurrentWeatherSerializer` is imported by views.py (line 13) but is not defined in serializers.py, so that import raises `ImportError`: views.py as written cannot be imported and none of its views runs. The model therefore describes the evidently intended behaviour, and the 200 response of the current-weather view is modelled as the data dictionary the view builds.
- TemperatureColors.Slice, TemperatureColors.ReplaceFirst, TemperatureColors.FirstIndex and TemperatureColors.HexToRgb index strings by Unicode code point, while JavaScript strings are indexed by UTF-16 code unit; they disagree on text with characters outside the Basic Multilingual Plane (`"#\u{1F600}1234".slice(1, 3)`). The scale only ever parses its own ASCII stop colours, so no result of the colour scale changes.
- Views.Latest: timestamps are Django `DateTimeField` values (time-zone-aware datetimes), modelled as integers; the view only compares them, so their ordering is all that matters.
- Views.Latest: when two observations of a city share the greatest timestamp, the model returns the earliest stored one. The database order among ties is unspecified.
- Views.ProphetForecast: the code passes zero and negative `periods` to the engine. The model follows the code, and ForecastPassesAnyPeriods states it.
- Temperatures are real numbers: `NaN`, infinities and floating-point rounding in the colour weight are not modelled. A JavaScript `null` temperature compares as 0 (`Degrees`).
- Case mapping covers ASCII and Latin-1 letters only. Python's and JavaScript's full Unicode lower-casing, including the characters whose lower case is longer than one character, is not modelled.
- PythonInt.ParseInt: Unicode decimal digits other than ASCII, and CPython's limit of 4300 digits, are not modelled.
- `calculateFeelsLike`, unit conversion and the React state, effects and rendering of `WeatherInfo`, `CitySelector` and `FooterActions` are outside the modelled decisions. The icons are modelled as a four-value enum, not as rendered elements.
- TemperatureColors.GetTemperatureColor: the source reads the module constant `TEMP_COLOR_STOPS`, while the model takes the stop list as a parameter. The lemmas named `TempColorStops…` specialise it to the constant.
- The `label` field of a footer slot is named `caption`, because `label` is a reserved word in Dafny.
- Authentication, users and the remaining endpoints of the backend are not part of this model.
