/** The provider calls of package kkcity (request.go), on an already fetched and decoded
    answer: the status decides the error, and on "OK" the fields are taken out of the body. */
module KkcityRequest {
  import opened Base
  import opened Geocoding

  /** oneLatLngResult: only the place id is read; the raw fields are not modelled. */
  datatype LatLngPlace = LatLngPlace(placeId: string)
  datatype LatLngLocation = LatLngLocation(status: string, results: seq<LatLngPlace>)

  /** predictResult: only the description and the place id are read. */
  datatype Prediction = Prediction(description: string, placeId: string)
  datatype PredictLocation = PredictLocation(status: string, predictions: seq<Prediction>)

  datatype PlaceDetail = PlaceDetail(components: seq<AddressComponent>, address: string)
  datatype PlaceDetailResponse = PlaceDetailResponse(status: string, result: PlaceDetail)

  /** The provider promises at least one result with status "OK"; the code indexes the
      first result without a check. */
  predicate OkHasResults(f: Fetched<LatLngLocation>)
  {
    Decoded(f).Ok? && Decoded(f).value.status == StatusOk ==> |Decoded(f).value.results| > 0
  }

  /** requestLocationWithLatLng: the place id of the first result. */
  function RequestLocationWithLatLng(f: Fetched<LatLngLocation>): (r: Result<string, ProviderError>)
    requires OkHasResults(f)
    ensures Decoded(f).Err? ==> r == Err(Decoded(f).error)
    ensures r.Ok? <==> Decoded(f).Ok? && Decoded(f).value.status == StatusOk
    ensures r.Ok? ==> r.value == Decoded(f).value.results[0].placeId
    ensures r == Err(ErrNoPlace) <==> Decoded(f).Ok? && Decoded(f).value.status == StatusZeroResults
    ensures r == Err(ErrLimitation) <==> Decoded(f).Ok? && Decoded(f).value.status == StatusOverQueryLimit
    ensures Decoded(f).Ok? && Decoded(f).value.status !in {StatusZeroResults, StatusOverQueryLimit, StatusOk} ==>
              r == Err(NewError(UnhandledMessage))
  {
    match Decoded(f)
    case Err(e) => Err(e)
    case Ok(result) =>
      if result.status == StatusZeroResults then Err(ErrNoPlace)
      else if result.status == StatusOverQueryLimit then Err(ErrLimitation)
      else if result.status == StatusOk then Ok(result.results[0].placeId)
      else Err(NewError(UnhandledMessage))
  }

  /** requestAutoComplete: on "OK", the place ids and the descriptions of the predictions,
      in the predictions' order; on every error, two empty lists. */
  method RequestAutoComplete(f: Fetched<PredictLocation>)
    returns (placeids: seq<string>, descriptions: seq<string>, err: Option<ProviderError>)
    ensures Decoded(f).Err? ==> err == Some(Decoded(f).error)
    ensures err == None <==> Decoded(f).Ok? && Decoded(f).value.status == StatusOk
    ensures err == Some(ErrNoPlace) <==> Decoded(f).Ok? && Decoded(f).value.status == StatusZeroResults
    ensures err == Some(ErrLimitation) <==> Decoded(f).Ok? && Decoded(f).value.status == StatusOverQueryLimit
    ensures Decoded(f).Ok? && Decoded(f).value.status !in {StatusZeroResults, StatusOverQueryLimit, StatusOk} ==>
              err == Some(NewError(UnhandledMessage))
    ensures err != None ==> placeids == [] && descriptions == []
    ensures err == None ==>
              var ps := Decoded(f).value.predictions;
              |placeids| == |descriptions| == |ps| &&
              forall i :: 0 <= i < |ps| ==> placeids[i] == ps[i].placeId && descriptions[i] == ps[i].description
  {
    placeids, descriptions := [], [];
    var d := Decoded(f);
    if d.Err? {
      return [], [], Some(d.error);
    }
    var result := d.value;
    if result.status == StatusZeroResults {
      err := Some(ErrNoPlace);
    } else if result.status == StatusOverQueryLimit {
      err := Some(ErrLimitation);
    } else if result.status == StatusOk {
      for i := 0 to |result.predictions|
        invariant |placeids| == |descriptions| == i
        invariant forall k :: 0 <= k < i ==>
                    placeids[k] == result.predictions[k].placeId &&
                    descriptions[k] == result.predictions[k].description
      {
        placeids := placeids + [result.predictions[i].placeId];
        descriptions := descriptions + [result.predictions[i].description];
      }
      err := None;
    } else {
      err := Some(NewError(UnhandledMessage));
    }
  }

  /** requestPlaceInfo: on "OK", the country code and name (short and long name of the
      "country" component), the place name (short name of the "locality" component) and the
      formatted address. Its status handling differs from the two calls above: the limit
      gives a new error that is not ErrLimitation, and an unknown status gives no error and
      four empty fields. */
  method RequestPlaceInfo(f: Fetched<PlaceDetailResponse>)
    returns (country: string, countryName: string, placeName: string, address: string, err: Option<ProviderError>)
    ensures Decoded(f).Err? ==> err == Some(Decoded(f).error)
    ensures err == Some(ErrNoPlace) <==> Decoded(f).Ok? && Decoded(f).value.status == StatusZeroResults
    ensures err == Some(NewError(TooManyMessage)) <==>
              Decoded(f).Ok? && Decoded(f).value.status == StatusOverQueryLimit
    ensures err != Some(ErrLimitation)
    ensures err == None <==> Decoded(f).Ok? && Decoded(f).value.status !in {StatusZeroResults, StatusOverQueryLimit}
    ensures (err != None || Decoded(f).value.status != StatusOk) ==>
              country == countryName == placeName == address == ""
    ensures err == None && Decoded(f).value.status == StatusOk ==>
              var detail := Decoded(f).value.result;
              country == GetString(detail.components, "country", true).0 &&
              countryName == GetString(detail.components, "country", false).0 &&
              placeName == GetString(detail.components, "locality", true).0 &&
              address == detail.address
  {
    country, countryName, placeName, address := "", "", "", "";
    err := None;
    var d := Decoded(f);
    if d.Err? {
      err := Some(d.error);
      return;
    }
    var result := d.value;
    if result.status == StatusZeroResults {
      err := Some(ErrNoPlace);
    } else if result.status == StatusOverQueryLimit {
      err := Some(NewError(TooManyMessage));
    } else if result.status == StatusOk {
      country := GetString(result.result.components, "country", true).0;
      countryName := GetString(result.result.components, "country", false).0;
      placeName := GetString(result.result.components, "locality", true).0;
      address := result.result.address;
    }
  }

  /** On "OK" the country code and the country name come from one component, and both are
      empty exactly when the answer holds no country. */
  lemma PlaceInfoCountryConsistent(detail: PlaceDetail)
    ensures var code := GetString(detail.components, "country", true).0;
            var name := GetString(detail.components, "country", false).0;
            (HasType(detail.components, "country") ==>
               exists i :: FirstWithType(detail.components, "country", i) &&
                           code == detail.components[i].shortName && name == detail.components[i].longName) &&
            (!HasType(detail.components, "country") ==> code == "" && name == "")
  {
    GetStringFindsFirst(detail.components, "country", true);
    GetStringFindsFirst(detail.components, "country", false);
    if HasType(detail.components, "country") {
      ShortAndLongFromSameComponent(detail.components, "country");
    }
  }
}
