/**
 * The city photo shown on the dashboard: looked up by city id first, then by
 * the lower-cased, stripped city name, with a generic photo as the fallback.
 */
module CityPhotos {
  import opened Wrappers
  import opened TextOps

  /** The selected city photo; `code` is its file name. */
  datatype CityPhoto = CityPhoto(code: string)

  const BarcelonaCode := "barcelona_skyline_01.jpg"
  const MadridCode := "madrid_skyline_01.jpg"
  const ParisCode := "paris_skyline_01.jpg"
  const LondonCode := "london_skyline_01.jpg"
  const DefaultCityCode := "default_city_01.jpg"

  /** `CITY_ID_TO_PHOTO_CODE`. */
  const CityIdToPhotoCode: map<int, string> :=
    map[1 := BarcelonaCode, 2 := MadridCode, 3 := ParisCode, 4 := LondonCode]

  /** `CITY_NAME_TO_PHOTO_CODE`. */
  const CityNameToPhotoCode: map<string, string> :=
    map["barcelona" := BarcelonaCode, "madrid" := MadridCode, "paris" := ParisCode, "london" := LondonCode]

  /** Python truthiness of an optional string: present and non-empty. */
  predicate IsTruthy(s: Option<string>) {
    s.Some? && s.value != ""
  }

  /** `select_city_photo`: id table first, then the normalised name, then the default. */
  function SelectCityPhoto(cityId: Option<int>, cityName: Option<string>): (photo: CityPhoto)
    ensures photo.code in CityIdToPhotoCode.Values || photo.code in CityNameToPhotoCode.Values || photo.code == DefaultCityCode
  {
    if cityId.Some? && cityId.value in CityIdToPhotoCode && CityIdToPhotoCode[cityId.value] != "" then
      CityPhoto(CityIdToPhotoCode[cityId.value])
    else if IsTruthy(cityName) then
      var key := Strip(Lower(cityName.value));
      if key in CityNameToPhotoCode && CityNameToPhotoCode[key] != "" then
        CityPhoto(CityNameToPhotoCode[key])
      else
        CityPhoto(DefaultCityCode)
    else
      CityPhoto(DefaultCityCode)
  }

  /** The codes above are exactly the values of the two tables: every result comes from a table or is the default. */
  lemma TableValues()
    ensures CityIdToPhotoCode.Values == CityNameToPhotoCode.Values == {BarcelonaCode, MadridCode, ParisCode, LondonCode}
  {
    assert CityIdToPhotoCode[1] == BarcelonaCode && CityIdToPhotoCode[2] == MadridCode;
    assert CityIdToPhotoCode[3] == ParisCode && CityIdToPhotoCode[4] == LondonCode;
    assert CityNameToPhotoCode["barcelona"] == BarcelonaCode && CityNameToPhotoCode["madrid"] == MadridCode;
    assert CityNameToPhotoCode["paris"] == ParisCode && CityNameToPhotoCode["london"] == LondonCode;
  }

  /** Every code of both tables is a non-empty string, so a table hit is never skipped. */
  lemma TableCodesNonEmpty()
    ensures forall k :: k in CityIdToPhotoCode ==> CityIdToPhotoCode[k] != ""
    ensures forall k :: k in CityNameToPhotoCode ==> CityNameToPhotoCode[k] != ""
  {
  }

  /** A known id decides the photo, whatever the name says. */
  lemma IdWins(cityId: int, cityName: Option<string>)
    requires cityId in CityIdToPhotoCode
    ensures SelectCityPhoto(Some(cityId), cityName).code == CityIdToPhotoCode[cityId]
  {
  }

  /** Id 1 with the name `"madrid"` still gives the Barcelona photo. */
  lemma IdOneBeatsMadridName()
    ensures SelectCityPhoto(Some(1), Some("madrid")).code == BarcelonaCode
  {
  }

  /** An absent id or one missing from the table falls through to the name lookup. */
  lemma UnknownIdFallsThrough(cityId: Option<int>, cityName: Option<string>)
    requires cityId == None || cityId.value !in CityIdToPhotoCode
    ensures SelectCityPhoto(cityId, cityName) == SelectCityPhoto(None, cityName)
  {
  }

  /** The name lookup sees only the normalised name: names that agree after lower-casing and stripping select alike. */
  lemma NameLookupNormalised(cityId: Option<int>, a: string, b: string)
    requires Strip(Lower(a)) == Strip(Lower(b))
    ensures SelectCityPhoto(cityId, Some(a)) == SelectCityPhoto(cityId, Some(b))
  {
    if a == "" {
      EmptyNameHasNoKey(a);
    }
    if b == "" {
      EmptyNameHasNoKey(b);
    }
  }

  /**
   * The example: a name such as `"  MADRID "` (whitespace, then a word that
   * lower-cases to `"madrid"`, then whitespace) selects the Madrid photo.
   */
  lemma PaddedUpperCaseMadrid(p: string, word: string, q: string)
    requires AllSpace(p) && AllSpace(q)
    requires Lower(word) == "madrid"
    ensures SelectCityPhoto(None, Some(p + word + q)).code == MadridCode
  {
    var n := p + word + q;
    var key := Strip(Lower(n));
    assert key == Lower(word) by {
      NormalisePadded(p, word, q);
      MadridKey(Lower(word));
      StripTrimmed(Lower(word));
    }
    MadridKey(key);
    NameHitGivesNameCode(None, Some(n));
  }

  lemma MadridKey(key: string)
    requires key == "madrid"
    ensures key in CityNameToPhotoCode && CityNameToPhotoCode[key] == MadridCode
    ensures !IsSpace(key[0]) && !IsSpace(key[|key| - 1])
  {
  }

  /** `"MADRID"` lower-cases to `"madrid"`. */
  lemma UpperCaseMadridLowers()
    ensures Lower("MADRID") == "madrid"
  {
    var u := Lower("MADRID");
    assert u[0] == 'm' && u[1] == 'a' && u[2] == 'd' && u[3] == 'r' && u[4] == 'i' && u[5] == 'd';
  }

  /** An empty name is treated like an absent one. */
  lemma EmptyNameIsAbsent(cityId: Option<int>)
    ensures SelectCityPhoto(cityId, Some("")) == SelectCityPhoto(cityId, None)
  {
  }

  /** An id that the id table knows. */
  predicate IdHit(cityId: Option<int>) {
    cityId.Some? && cityId.value in CityIdToPhotoCode
  }

  /** A name whose normalised form the name table knows. */
  predicate NameHit(cityName: Option<string>) {
    cityName.Some? && Strip(Lower(cityName.value)) in CityNameToPhotoCode
  }

  /** Without an id hit, a name hit decides the photo. */
  lemma NameHitGivesNameCode(cityId: Option<int>, cityName: Option<string>)
    requires !IdHit(cityId) && NameHit(cityName)
    ensures SelectCityPhoto(cityId, cityName).code == CityNameToPhotoCode[Strip(Lower(cityName.value))]
  {
    var key := Strip(Lower(cityName.value));
    if cityName.value == "" {
      EmptyNameHasNoKey(cityName.value);
    }
    NameCodeNotEmpty(key);
  }

  /** The empty name normalises to the empty key, which the name table lacks. */
  lemma EmptyNameHasNoKey(name: string)
    requires name == ""
    ensures Strip(Lower(name)) == "" && "" !in CityNameToPhotoCode
  {
    assert Lower(name) == "";
  }

  lemma NameCodeNotEmpty(key: string)
    requires key in CityNameToPhotoCode
    ensures CityNameToPhotoCode[key] != ""
  {
  }

  /**
   * The generic photo is returned exactly when neither table matches; in
   * particular when both the id and the name are absent.
   */
  lemma DefaultExactlyWithoutMatch(cityId: Option<int>, cityName: Option<string>)
    ensures SelectCityPhoto(cityId, cityName).code == DefaultCityCode <==> !IdHit(cityId) && !NameHit(cityName)
  {
    TableValues();
    assert DefaultCityCode !in {BarcelonaCode, MadridCode, ParisCode, LondonCode} by {
      assert |DefaultCityCode| == 19;
      assert |BarcelonaCode| == 24 && |MadridCode| == 21 && |ParisCode| == 20 && |LondonCode| == 21;
    }
    if IdHit(cityId) {
      IdWins(cityId.value, cityName);
      assert CityIdToPhotoCode[cityId.value] in CityIdToPhotoCode.Values;
    } else if NameHit(cityName) {
      NameHitGivesNameCode(cityId, cityName);
      assert CityNameToPhotoCode[Strip(Lower(cityName.value))] in CityNameToPhotoCode.Values;
    }
  }
}
