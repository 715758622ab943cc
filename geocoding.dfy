/** What both request files share: the decoded shapes of the provider's answers, the
    errors, and getString (request.go and request/request.go hold the same function). */
module Geocoding {
  import opened Base

  /** oneAddress: one entry of "address_components". */
  datatype AddressComponent = AddressComponent(longName: string, shortName: string, types: seq<string>)

  /** The errors a provider call returns. NewError is a value made by errors.New at the
      point of return: it is never equal to one of the package's sentinel errors, even when
      the message is the same. */
  datatype ProviderError =
    | ErrNoPlace               // "No place found."
    | ErrLimitation            // "Request too many."
    | NewError(message: string)
    | TransportError           // the first error of the HTTP client
    | ResponseStatus(code: int) // "Response status: %d" for a status other than 200
    | DecodeError              // the body is not the expected JSON

  /** The outcome of the HTTP request, its body already decoded (None: undecodable). */
  datatype Fetched<T> = TransportFailed | Answered(statusCode: int, body: Option<T>)

  const StatusZeroResults: string := "ZERO_RESULTS"
  const StatusOverQueryLimit: string := "OVER_QUERY_LIMIT"
  const StatusOk: string := "OK"
  const TooManyMessage: string := "Request too many."
  const UnhandledMessage: string := "Unhandled result."

  /** The checks every call makes before looking at the provider's status: a transport
      error, then an HTTP status other than 200, then a body that does not decode. */
  function Decoded<T>(f: Fetched<T>): (r: Result<T, ProviderError>)
    ensures r.Ok? <==> f.Answered? && f.statusCode == 200 && f.body.Some?
    ensures r.Ok? ==> r.value == f.body.value
    ensures f.TransportFailed? ==> r == Err(TransportError)
    ensures f.Answered? && f.statusCode != 200 ==> r == Err(ResponseStatus(f.statusCode))
    ensures f.Answered? && f.statusCode == 200 && f.body.None? ==> r == Err(DecodeError)
  {
    match f
    case TransportFailed => Err(TransportError)
    case Answered(code, body) =>
      if code != 200 then Err(ResponseStatus(code))
      else if body.None? then Err(DecodeError)
      else Ok(body.value)
  }

  /** Some component has type tp. */
  predicate HasType(addr: seq<AddressComponent>, tp: string)
  {
    exists i :: 0 <= i < |addr| && tp in addr[i].types
  }

  /** Component i is the first, in list order, with type tp. */
  predicate FirstWithType(addr: seq<AddressComponent>, tp: string, i: int)
  {
    0 <= i < |addr| && tp in addr[i].types && forall j :: 0 <= j < i ==> tp !in addr[j].types
  }

  /** getString: the short or long name of the first component whose types contain tp,
      with true; ("", false) when no component has that type. */
  function GetString(addr: seq<AddressComponent>, tp: string, isShort: bool): (r: (string, bool))
    ensures !r.1 ==> r.0 == ""
  {
    if addr == [] then ("", false)
    else if tp in addr[0].types then (if isShort then addr[0].shortName else addr[0].longName, true)
    else GetString(addr[1..], tp, isShort)
  }

  /** getString finds a component exactly when one has the type, and then it is the first
      such component, read by its short or its long name; otherwise it yields "". */
  lemma {:induction false} GetStringFindsFirst(addr: seq<AddressComponent>, tp: string, isShort: bool)
    ensures GetString(addr, tp, isShort).1 <==> HasType(addr, tp)
    ensures !GetString(addr, tp, isShort).1 ==> GetString(addr, tp, isShort).0 == ""
    ensures GetString(addr, tp, isShort).1 && isShort ==>
              exists i :: FirstWithType(addr, tp, i) && GetString(addr, tp, isShort).0 == addr[i].shortName
    ensures GetString(addr, tp, isShort).1 && !isShort ==>
              exists i :: FirstWithType(addr, tp, i) && GetString(addr, tp, isShort).0 == addr[i].longName
  {
    if addr == [] || tp in addr[0].types {
      if addr != [] {
        assert FirstWithType(addr, tp, 0);
      }
    } else {
      var rest := addr[1..];
      GetStringFindsFirst(rest, tp, isShort);
      var r := GetString(rest, tp, isShort);
      if r.1 && isShort {
        var i :| FirstWithType(rest, tp, i) && r.0 == rest[i].shortName;
        assert FirstWithType(addr, tp, i + 1);
      } else if r.1 {
        var i :| FirstWithType(rest, tp, i) && r.0 == rest[i].longName;
        assert FirstWithType(addr, tp, i + 1);
      } else {
        forall i | 0 <= i < |addr| ensures tp !in addr[i].types {
          if i > 0 { assert addr[i] == rest[i - 1]; }
        }
      }
    }
  }

  /** The first component with a type is unique. */
  lemma FirstWithTypeUnique(addr: seq<AddressComponent>, tp: string, i: int, k: int)
    requires FirstWithType(addr, tp, i) && FirstWithType(addr, tp, k)
    ensures i == k
  {
  }

  /** The short and the long lookup of one type read the same component: a country code
      and a country name taken with "country" belong together. */
  lemma ShortAndLongFromSameComponent(addr: seq<AddressComponent>, tp: string)
    requires HasType(addr, tp)
    ensures exists i :: FirstWithType(addr, tp, i) &&
                        GetString(addr, tp, true).0 == addr[i].shortName &&
                        GetString(addr, tp, false).0 == addr[i].longName
  {
    GetStringFindsFirst(addr, tp, true);
    GetStringFindsFirst(addr, tp, false);
    var short, long := GetString(addr, tp, true), GetString(addr, tp, false);
    var i :| FirstWithType(addr, tp, i) && short.0 == addr[i].shortName;
    var k :| FirstWithType(addr, tp, k) && long.0 == addr[k].longName;
    FirstWithTypeUnique(addr, tp, i, k);
  }
}
