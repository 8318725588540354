# IP lookup client: reducers, IP validation and lookup state

This project models the logic of a React Native client that shows the user's
public IP address and looks up the geolocation of any IP address the user types.
It covers three parts:

- **History** (`history.dfy`) models the search-history reducer. `ADD_SEARCH`
  puts the payload first and then removes duplicates, keeping first occurrences,
  as `[...new Set([payload, ...state])]` does. `CLEAR_HISTORY` empties the list.
  Any other action returns the state unchanged, and a missing state becomes `[]`.
- **Auth** (`auth.dfy`) models the authentication reducer. Its state is the
  pair `isLoading` / `isLoggedIn`, plus any further properties, which the
  object spread copies unchanged. Only `LOGIN` and `LOGOUT` change the pair.
- **IpValidation** (`ip.dfy`) models the screen's `isValidIp`, the anchored
  pattern `^([0-9]{1,3}\.){3}[0-9]{1,3}$`. Here it is a predicate over
  characters: cut the string at every dot, then require exactly four pieces of
  one to three ASCII digits each. It is proved equal to a direct reading of the
  pattern: the string is `a.b.c.d` for four such digit groups. As in the source,
  octets are not bounded by 255.
- **HomeScreen** (`homescreen.dfy`) models the screen as a class `Screen`. Its
  fields are the four state hooks: `ipAddress`, `searchedIp`,
  `searchedGeoInfo` and `error`. Its methods are the handlers
  `fetchGeoInfo`, `fetchCurrentUserIp`, `handleSearch` and `handleClear`, plus
  the mount effect and the text box's setter. Each method's new state is tied
  to a pure step function on a `View` value, and the lemmas state the
  properties of those step functions.

`Optional` (`optional.dfy`) holds the `Option` type used for `undefined` and `null`.

The network is a parameter, not a call. The public-IP endpoint's answer is an
`Outcome<string>`. The geolocation endpoint is a function from the requested
IP to an `Outcome<GeoInfo>`. `Failed` stands for anything that makes the
source's `try` block throw (transport failure or a body that is not JSON).
Each handler returns the list of requests it issued, so "no network call" is
part of its contract.

Facts about the code that the model keeps:

- The auth state is two booleans, starting with `isLoading = true` and
  `isLoggedIn = false`.
- The history is not persisted, and the screen does not record searches in
  it: the reducer is not connected to the screen in the code.
- A failed geolocation lookup sets the error text. A failed public-IP fetch
  sets its own error text and skips the geolocation lookup.
- The screen has one `error` string, set to one of three messages or cleared.

## Model

| member | source | states |
|---|---|---|
| `History.Dedup` | MobileApp/reducers/historyReducer.js:5 | the Set's insertion order: a duplicate-free list with exactly the input's elements, never longer than the input, starting with the input's first element; that every value sits at its first occurrence follows from `History.AddMovesToFront` and `History.DedupOfNoDuplicates` |
| `History.Without` | MobileApp/reducers/historyReducer.js:5 | removing one value keeps exactly the other elements |
| `History.Reduce` | MobileApp/reducers/historyReducer.js:2-9 | `ADD_SEARCH` puts the payload first, leaves no duplicates, and keeps exactly the old entries plus the payload; `CLEAR_HISTORY` gives `[]`; any other action returns the state |
| `History.HistoryReducer` | MobileApp/reducers/historyReducer.js:1 | an omitted state is treated as the empty list |
| `History.DedupOfNoDuplicates` | MobileApp/reducers/historyReducer.js:5 | removing duplicates from a duplicate-free list changes nothing |
| `History.WithoutLength` | MobileApp/reducers/historyReducer.js:5 | on a duplicate-free list, removing a value lowers the length by one exactly when the value is present |
| `History.AddMovesToFront` | MobileApp/reducers/historyReducer.js:4-5 | prepending `p` and removing duplicates gives `p` followed by the other distinct entries in their first-occurrence order |
| `History.AddToDistinctHistory` | MobileApp/reducers/historyReducer.js:4-5 | on a duplicate-free history, `ADD_SEARCH p` moves `p` to the front and keeps the relative order of the others |
| `History.AddIdempotent` | MobileApp/reducers/historyReducer.js:4-5 | adding the same payload twice gives the same history as adding it once |
| `History.AddLength` | MobileApp/reducers/historyReducer.js:4-5 | on a duplicate-free history the length stays the same if the payload is present and grows by one otherwise |
| `History.ReAddMovesExample` | MobileApp/reducers/historyReducer.js:4-5 | `["a","b"]` plus `"b"` gives `["b","a"]` |
| `History.AddTwiceExample` | MobileApp/reducers/historyReducer.js:4-5 | adding `"1.1.1.1"` twice to the empty history gives `["1.1.1.1"]` |
| `Auth.InitialState` | MobileApp/reducers/authReducer.js:1-4 | the initial state is loading, not logged in, and has no other properties |
| `Auth.Reduce` | MobileApp/reducers/authReducer.js:6-22 | `LOGIN` and `LOGOUT` clear `isLoading` and set `isLoggedIn` to whether the action was `LOGIN`; the other properties are kept; any other action returns the state unchanged |
| `Auth.LoginIdempotent` | MobileApp/reducers/authReducer.js:8-13 | `LOGIN` applied twice equals `LOGIN` applied once |
| `Auth.LogoutIdempotent` | MobileApp/reducers/authReducer.js:14-19 | `LOGOUT` applied twice equals `LOGOUT` applied once |
| `Auth.RunKeepsOthers` | MobileApp/reducers/authReducer.js:9-19 | no sequence of actions changes the properties other than the two flags (the keys of `others`, which for a well-formed state exclude `isLoading` and `isLoggedIn`) |
| `Auth.Run` | MobileApp/reducers/authReducer.js:6-22 | successive dispatches of `authReducer`, in order; its properties are the `Auth.Run…` lemmas |
| `Auth.ReducePreservesWellFormed` | MobileApp/reducers/authReducer.js:9-19 | the spread never puts the two flag names into the other properties |
| `Auth.RunWithoutSessionEvents` | MobileApp/reducers/authReducer.js:20-21 | a sequence with no `LOGIN` or `LOGOUT` leaves the state unchanged |
| `Auth.RunFollowsLastSessionEvent` | MobileApp/reducers/authReducer.js:6-22 | after any sequence of actions, `isLoggedIn` holds exactly when the last `LOGIN`/`LOGOUT` was `LOGIN`, and `isLoading` is false |
| `Auth.LoadingStaysCleared` | MobileApp/reducers/authReducer.js:6-22 | once `isLoading` is false, no later dispatches make it true again |
| `IpValidation.IsValidIp` | MobileApp/components/HomeScreen.js:54-59 | `isValidIp`: four dot-separated pieces, each of 1-3 ASCII digits; its meaning is stated by `IpValidation.IsValidIpMatchesPattern` |
| `IpValidation.Split` | MobileApp/components/HomeScreen.js:56 | cutting at dots gives dot-free pieces that join back to the input |
| `IpValidation.SplitJoin` | MobileApp/components/HomeScreen.js:56 | dot-free pieces joined by dots cut back into the same pieces |
| `IpValidation.IsValidIpMatchesPattern` | MobileApp/components/HomeScreen.js:54-59 | the validator accepts a string exactly when the whole string is four groups of 1-3 digits separated by single dots |
| `IpValidation.IsValidIpOfDotted` | MobileApp/components/HomeScreen.js:56 | for four dot-free pieces joined by dots, the validator accepts exactly when every piece is 1-3 ASCII digits |
| `IpValidation.ValidIpShape` | MobileApp/components/HomeScreen.js:56 | an accepted string has 7 to 15 characters, contains only digits and dots, and starts and ends with a digit |
| `IpValidation.AcceptsExample` | MobileApp/components/HomeScreen.js:56 | `"8.8.8.8"` is accepted |
| `IpValidation.AcceptsOutOfRangeOctet` | MobileApp/components/HomeScreen.js:56 | `"999.1.1.1"` is accepted: octets are not bounded by 255 |
| `IpValidation.RejectsWrongGroupCount` | MobileApp/components/HomeScreen.js:56 | `"8.8.8"` and `"8.8.8.8.8"` are rejected |
| `IpValidation.RejectsNonDigit` | MobileApp/components/HomeScreen.js:56 | `"8.8.8.a"` is rejected |
| `IpValidation.RejectsEmptyGroup` | MobileApp/components/HomeScreen.js:56 | `"1..1.1"` is rejected |
| `IpValidation.RejectsLongGroup` | MobileApp/components/HomeScreen.js:56 | `"1234.1.1.1"` is rejected |
| `IpValidation.RejectsLeadingWhitespace` | MobileApp/components/HomeScreen.js:56 | `" 1.1.1.1"` is rejected |
| `IpValidation.RejectsTrailingWhitespace` | MobileApp/components/HomeScreen.js:56 | `"1.1.1.1 "` is rejected |
| `HomeScreen.GeoStep` | MobileApp/components/HomeScreen.js:10-19 | the state effect of `fetchGeoInfo`; stated by `HomeScreen.GeoStepEffect` |
| `HomeScreen.CurrentIpStep` | MobileApp/components/HomeScreen.js:21-31 | the state effect of `fetchCurrentUserIp`; stated by `HomeScreen.CurrentIpStepEffect` |
| `HomeScreen.SearchStep` | MobileApp/components/HomeScreen.js:37-43 | the state effect of `handleSearch`; stated by `HomeScreen.SearchStepEffect` |
| `HomeScreen.StepsKeepKnownError` | MobileApp/components/HomeScreen.js:8-43 | every handler keeps `error` equal to the empty string or one of the three messages |
| `HomeScreen.GeoStepEffect` | MobileApp/components/HomeScreen.js:10-19 | a successful lookup stores the data and clears the error; a failed one sets the geolocation error and keeps the previous data; the IP fields are untouched |
| `HomeScreen.SearchStepEffect` | MobileApp/components/HomeScreen.js:37-43 | an invalid `searchedIp` sets only the error `'Invalid IP address'`; a valid one is looked up as typed; the error ends up empty exactly when the text is valid and the lookup succeeds |
| `HomeScreen.CurrentIpStepEffect` | MobileApp/components/HomeScreen.js:21-31 | on success the fetched IP is shown, the search text is cleared, and that IP's lookup follows; on failure only the error changes; the error ends up empty exactly when both requests succeed |
| `HomeScreen.MountExample` | MobileApp/components/HomeScreen.js:33-35 | mounting with public IP `"2.2.2.2"`, whose lookup names the city `"Testville"`, shows that IP and that city with no error |
| `HomeScreen.Screen.constructor` | MobileApp/components/HomeScreen.js:5-8 | the hooks start as `''`, `''`, `null`, `''` |
| `HomeScreen.Screen.ChangeSearchText` | MobileApp/components/HomeScreen.js:69-70 | the text box sets `searchedIp` and nothing else |
| `HomeScreen.Screen.FetchGeoInfo` | MobileApp/components/HomeScreen.js:10-19 | issues one geolocation request for the given IP; the new state is the geolocation step applied to the old one |
| `HomeScreen.Screen.FetchCurrentUserIp` | MobileApp/components/HomeScreen.js:21-31 | issues the public-IP request and, on success, the lookup of that IP; the new state is the current-IP step applied to the old one |
| `HomeScreen.Screen.Mount` | MobileApp/components/HomeScreen.js:33-35 | the mount effect is the current-IP fetch |
| `HomeScreen.Screen.HandleSearch` | MobileApp/components/HomeScreen.js:37-43 | issues no request for an invalid `searchedIp` and one lookup of it for a valid one; the new state is the search step applied to the old one |
| `HomeScreen.Screen.HandleClear` | MobileApp/components/HomeScreen.js:45-47 | has exactly the requests and state effect of the current-IP fetch |

## Left out

- The HTTP requests to the public-IP and geolocation services, and JSON parsing, are left out. They are foreign I/O. Their outcomes are parameters, and any exception they raise is `Failed`.
- A public-IP body without an `ip` field is left out. In the source, `setIpAddress(undefined)` then runs and the lookup URL contains `undefined`. The model's successful outcome always carries a string.
- The geolocation body can have fields the screen never reads. `GeoInfo` keeps only the fields that are displayed.
- The order in which asynchronous requests complete is left out. The lookup started by `fetchCurrentUserIp` is not awaited, so an older response can overwrite a newer one. The model runs each handler to completion, in call order.
- Rendering, styles, how the `loc` field is displayed, and the logout navigation (`handleLogout`) are presentation only and are left out. `GeoInfo` still carries `loc` as a plain string.
- The whole of `MobileApp/App.js` (navigator wiring, the hard-coded login check and the route choice) is context, not part of this model.
- Persisting the history is left out. No storage appears in the code, and the history reducer is not connected to the screen.
- `fetch` does not reject on an HTTP error status, so a non-2xx response with a JSON body is stored like a successful lookup and clears the error. The model covers this by letting `geo` answer `Fetched`. A `null` body (which sets `searchedGeoInfo` back to `null`) and a body missing some displayed fields cannot be written as a `GeoInfo` with six strings, so they are left out.
- Action payloads are modelled as strings. JavaScript would accept any value as an `ADD_SEARCH` payload.
