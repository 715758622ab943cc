/** Package request (request/request.go): reverse geocoding that returns a description, a
    place id and a city name. ErrNoPlace and LatLngResult are used there but not defined in
    the files of this model; ErrNoPlace is taken to be the same "no place" error as kkcity's. */
module Request {
  import opened Base
  import opened Geocoding
  import KkcityRequest

  /** oneLatlngResult (request/model.go), without the geometry. */
  datatype LatLngPlace = LatLngPlace(components: seq<AddressComponent>, formatted: string, placeId: string)
  datatype LatLngLocation = LatLngLocation(status: string, results: seq<LatLngPlace>)

  datatype LatLngResult = LatLngResult(description: string, placeId: string, city: string)

  /** "OK" means there is at least one result: the code reads the first without a check. */
  predicate OkHasResults(f: Fetched<LatLngLocation>)
  {
    Decoded(f).Ok? && Decoded(f).value.status == StatusOk ==> |Decoded(f).value.results| > 0
  }

  /** GetLocationWithLatLng: on "OK", the formatted address, the place id and the short name
      of the "locality" component of the first result. */
  function GetLocationWithLatLng(f: Fetched<LatLngLocation>): (r: Result<LatLngResult, ProviderError>)
    requires OkHasResults(f)
    ensures Decoded(f).Err? ==> r == Err(Decoded(f).error)
    ensures r.Ok? <==> Decoded(f).Ok? && Decoded(f).value.status == StatusOk
    ensures r.Ok? ==>
              var first := Decoded(f).value.results[0];
              r.value.description == first.formatted && r.value.placeId == first.placeId &&
              r.value.city == GetString(first.components, "locality", true).0 &&
              (r.value.city == "" <== !HasType(first.components, "locality"))
    ensures r == Err(ErrNoPlace) <==> Decoded(f).Ok? && Decoded(f).value.status == StatusZeroResults
    ensures r == Err(NewError(TooManyMessage)) <==>
              Decoded(f).Ok? && Decoded(f).value.status == StatusOverQueryLimit
    ensures r != Err(ErrLimitation)
    ensures Decoded(f).Ok? && Decoded(f).value.status !in {StatusZeroResults, StatusOverQueryLimit, StatusOk} ==>
              r == Err(NewError(UnhandledMessage))
  {
    match Decoded(f)
    case Err(e) => Err(e)
    case Ok(result) =>
      if result.status == StatusZeroResults then Err(ErrNoPlace)
      else if result.status == StatusOverQueryLimit then Err(NewError(TooManyMessage))
      else if result.status == StatusOk then
        var one := result.results[0];
        GetStringFindsFirst(one.components, "locality", true);
        Ok(LatLngResult(one.formatted, one.placeId, GetString(one.components, "locality", true).0))
      else Err(NewError(UnhandledMessage))
  }

  /** The same answer as request.go's requestLocationWithLatLng decodes it. */
  function Older(f: Fetched<LatLngLocation>): Fetched<KkcityRequest.LatLngLocation>
  {
    match f
    case TransportFailed => TransportFailed
    case Answered(code, body) =>
      Answered(code, if body.None? then None
                     else Some(KkcityRequest.LatLngLocation(
                                 body.value.status,
                                 seq(|body.value.results|, i requires 0 <= i < |body.value.results| =>
                                       KkcityRequest.LatLngPlace(body.value.results[i].placeId)))))
  }

  /** The two generations of reverse geocoding agree on every answer except the limit:
      the same place id on "OK" and the same error otherwise, but where kkcity returns
      ErrLimitation this package returns a new "Request too many." error. */
  lemma GenerationsAgreeExceptOnLimit(f: Fetched<LatLngLocation>)
    requires OkHasResults(f)
    ensures KkcityRequest.OkHasResults(Older(f))
    ensures var older := KkcityRequest.RequestLocationWithLatLng(Older(f));
            var newer := GetLocationWithLatLng(f);
            (newer.Ok? <==> older.Ok?) &&
            (newer.Ok? ==> newer.value.placeId == older.value) &&
            (older == Err(ErrLimitation) <==> newer == Err(NewError(TooManyMessage))) &&
            (older != Err(ErrLimitation) && newer.Err? ==> older.error == newer.error)
  {
    match f
    case TransportFailed =>
    case Answered(code, body) =>
      if code == 200 && body.Some? {
        var older := Older(f).body.value;
        assert Decoded(Older(f)) == Ok(older);
        assert older.status == body.value.status;
        assert |older.results| == |body.value.results|;
        if older.status == StatusOk {
          assert older.results[0].placeId == body.value.results[0].placeId;
        }
      }
  }
}
