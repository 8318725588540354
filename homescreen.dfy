/**
 * The lookup state of MobileApp/components/HomeScreen.js: the four state
 * hooks `ipAddress`, `searchedIp`, `searchedGeoInfo` and `error`, and the
 * handlers that set them. What the network answers is a parameter: the
 * public-IP endpoint's answer is an `Outcome<string>`, the geolocation
 * endpoint is a function from the requested IP to its `Outcome<GeoInfo>`.
 */
module HomeScreen {
  import opened Optional
  import opened IpValidation

  /** The parsed geolocation body, as far as the screen reads it. */
  datatype GeoInfo = GeoInfo(ip: string, city: string, region: string, country: string, loc: string, postal: string)

  /** What one request ends in: a parsed body, or a thrown error (transport or JSON parsing). */
  datatype Outcome<T> = Fetched(value: T) | Failed

  /** A request the screen issues. */
  datatype Request = PublicIpRequest | GeoRequest(ip: string)

  /** The screen's four state values; `searchedGeoInfo` is `null` until a lookup succeeds. */
  datatype View = View(ipAddress: string, searchedIp: string, searchedGeoInfo: Option<GeoInfo>, error: string)

  const InvalidIpMessage: string := "Invalid IP address"
  const GeoErrorMessage: string := "Error fetching geolocation information"
  const IpErrorMessage: string := "Error fetching current IP address"

  /** The `useState` initial values. */
  const InitialView: View := View("", "", None, "")

  /** `error` is empty or one of the three messages the screen sets. */
  predicate KnownError(v: View)
  {
    v.error in {"", InvalidIpMessage, GeoErrorMessage, IpErrorMessage}
  }

  /** The state effect of `fetchGeoInfo` once its request has ended in `outcome`. */
  function GeoStep(v: View, outcome: Outcome<GeoInfo>): View
  {
    match outcome
    case Fetched(info) => v.(searchedGeoInfo := Some(info), error := "")
    case Failed => v.(error := GeoErrorMessage)
  }

  /** The state effect of `fetchCurrentUserIp`, including the geolocation step it starts. */
  function CurrentIpStep(v: View, publicIp: Outcome<string>, geo: string -> Outcome<GeoInfo>): View
  {
    match publicIp
    case Fetched(ip) => GeoStep(v.(ipAddress := ip, searchedIp := ""), geo(ip))
    case Failed => v.(error := IpErrorMessage)
  }

  /** The state effect of `handleSearch`: validate `searchedIp`, then look it up. */
  function SearchStep(v: View, geo: string -> Outcome<GeoInfo>): View
  {
    if IsValidIp(v.searchedIp) then GeoStep(v, geo(v.searchedIp))
    else v.(error := InvalidIpMessage)
  }

  /** Every handler keeps `error` to the empty string and the three messages. */
  lemma StepsKeepKnownError(v: View, outcome: Outcome<GeoInfo>, publicIp: Outcome<string>, geo: string -> Outcome<GeoInfo>)
    requires KnownError(v)
    ensures KnownError(GeoStep(v, outcome))
    ensures KnownError(CurrentIpStep(v, publicIp, geo))
    ensures KnownError(SearchStep(v, geo))
  {
  }

  /** A successful lookup shows its data and clears the error; a failed one sets the error and keeps the old data. */
  lemma GeoStepEffect(v: View, outcome: Outcome<GeoInfo>)
    ensures var r := GeoStep(v, outcome);
      && r.ipAddress == v.ipAddress && r.searchedIp == v.searchedIp
      && (r.error == "" <==> outcome.Fetched?)
      && (outcome.Fetched? ==> r.searchedGeoInfo == Some(outcome.value))
      && (outcome.Failed? ==> r.searchedGeoInfo == v.searchedGeoInfo && r.error == GeoErrorMessage)
  {
  }

  /**
   * An invalid search text sets only the error. A valid one is looked up as
   * is, and `ipAddress` and `searchedIp` are kept either way.
   */
  lemma SearchStepEffect(v: View, geo: string -> Outcome<GeoInfo>)
    ensures !IsValidIp(v.searchedIp) ==> SearchStep(v, geo) == v.(error := InvalidIpMessage)
    ensures IsValidIp(v.searchedIp) ==> SearchStep(v, geo) == GeoStep(v, geo(v.searchedIp))
    ensures SearchStep(v, geo).ipAddress == v.ipAddress && SearchStep(v, geo).searchedIp == v.searchedIp
    ensures SearchStep(v, geo).error == "" <==> IsValidIp(v.searchedIp) && geo(v.searchedIp).Fetched?
  {
  }

  /**
   * Fetching the user's IP: on success the IP is shown, the search box is
   * emptied and that IP is looked up; on failure only the error changes.
   */
  lemma CurrentIpStepEffect(v: View, publicIp: Outcome<string>, geo: string -> Outcome<GeoInfo>)
    ensures var r := CurrentIpStep(v, publicIp, geo);
      && (publicIp.Fetched? ==>
            && r.ipAddress == publicIp.value && r.searchedIp == ""
            && r == GeoStep(v.(ipAddress := publicIp.value, searchedIp := ""), geo(publicIp.value)))
      && (publicIp.Failed? ==> r == v.(error := IpErrorMessage))
      && (r.error == "" <==> publicIp.Fetched? && geo(publicIp.value).Fetched?)
  {
  }

  /** Mounting with public IP "2.2.2.2" whose lookup names the city "Testville" shows that city and no error. */
  lemma MountExample(info: GeoInfo)
    requires info.city == "Testville"
    ensures var r := CurrentIpStep(InitialView, Fetched("2.2.2.2"), (ip: string) => if ip == "2.2.2.2" then Fetched(info) else Failed);
      r.ipAddress == "2.2.2.2" && r.searchedGeoInfo.Some? && r.searchedGeoInfo.value.city == "Testville" && r.error == ""
  {
  }

  /** The screen component, holding its four state hooks as fields. */
  class Screen {
    var ipAddress: string
    var searchedIp: string
    var searchedGeoInfo: Option<GeoInfo>
    var error: string

    function State(): View
      reads this
    {
      View(ipAddress, searchedIp, searchedGeoInfo, error)
    }

    predicate Valid()
      reads this
    {
      KnownError(State())
    }

    /** The first render: every hook at its initial value. */
    constructor ()
      ensures Valid() && State() == InitialView
    {
      ipAddress, searchedIp, searchedGeoInfo, error := "", "", None, "";
    }

    /** `onChangeText={setSearchedIp}`: the text box writes `searchedIp`. */
    method ChangeSearchText(text: string)
      requires Valid()
      modifies this
      ensures Valid() && State() == old(State()).(searchedIp := text)
    {
      searchedIp := text;
    }

    /** `fetchGeoInfo(ip)`: one geolocation request for `ip`. */
    method FetchGeoInfo(ip: string, geo: string -> Outcome<GeoInfo>) returns (requests: seq<Request>)
      requires Valid()
      modifies this
      ensures Valid() && State() == GeoStep(old(State()), geo(ip))
      ensures requests == [GeoRequest(ip)]
    {
      requests := [GeoRequest(ip)];
      match geo(ip)
      case Fetched(data) =>
        searchedGeoInfo := Some(data);
        error := "";
      case Failed =>
        error := GeoErrorMessage;
    }

    /** `fetchCurrentUserIp()`: the public-IP request, then on success the geolocation request for that IP. */
    method FetchCurrentUserIp(publicIp: Outcome<string>, geo: string -> Outcome<GeoInfo>) returns (requests: seq<Request>)
      requires Valid()
      modifies this
      ensures Valid() && State() == CurrentIpStep(old(State()), publicIp, geo)
      ensures requests == [PublicIpRequest] + (if publicIp.Fetched? then [GeoRequest(publicIp.value)] else [])
    {
      requests := [PublicIpRequest];
      match publicIp
      case Fetched(ip) =>
        ipAddress := ip;
        searchedIp := "";
        var geoRequests := FetchGeoInfo(ip, geo);
        requests := requests + geoRequests;
      case Failed =>
        error := IpErrorMessage;
    }

    /** The mount effect: `useEffect(() => { fetchCurrentUserIp(); }, [])`. */
    method Mount(publicIp: Outcome<string>, geo: string -> Outcome<GeoInfo>) returns (requests: seq<Request>)
      requires Valid()
      modifies this
      ensures Valid() && State() == CurrentIpStep(old(State()), publicIp, geo)
      ensures requests == [PublicIpRequest] + (if publicIp.Fetched? then [GeoRequest(publicIp.value)] else [])
    {
      requests := FetchCurrentUserIp(publicIp, geo);
    }

    /** `handleSearch()`: an invalid `searchedIp` sets the error and issues no request. */
    method HandleSearch(geo: string -> Outcome<GeoInfo>) returns (requests: seq<Request>)
      requires Valid()
      modifies this
      ensures Valid() && State() == SearchStep(old(State()), geo)
      ensures requests == if IsValidIp(old(searchedIp)) then [GeoRequest(old(searchedIp))] else []
    {
      if IsValidIp(searchedIp) {
        requests := FetchGeoInfo(searchedIp, geo);
      } else {
        error := InvalidIpMessage;
        requests := [];
      }
    }

    /** `handleClear()`: exactly `fetchCurrentUserIp()`. */
    method HandleClear(publicIp: Outcome<string>, geo: string -> Outcome<GeoInfo>) returns (requests: seq<Request>)
      requires Valid()
      modifies this
      ensures Valid() && State() == CurrentIpStep(old(State()), publicIp, geo)
      ensures requests == [PublicIpRequest] + (if publicIp.Fetched? then [GeoRequest(publicIp.value)] else [])
    {
      requests := FetchCurrentUserIp(publicIp, geo);
    }
  }
}
