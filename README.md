# weather-better: the time label and the page's query state

A Dafny model of the two pieces of logic in the weather-better web front end.

- `TimeFormat` (time_format.dfy) models `getCurrentTimeAndDay` from
  src/utils.js. It builds the label `Day H:MMam` from a clock reading made of
  a day of the week, an hour and a minute. This is the label that the results
  panel shows next to the location. The day name comes from a seven-entry
  table. The suffix is `pm` from hour 12 on. The hour is taken mod 12, and
  0 is shown as 12. The minutes are zero-padded to two digits. The model also
  has an inverse, `ParseTimeAndDay`, which reads a label back into the 24-hour
  reading. It accepts exactly the labels the formatter writes: parsing a label
  gives back its reading, and every accepted string is the label of the reading
  it yields. So the label loses no information.
- `WeatherPage` (weather_page.dfy) models the component state in
  src/app/page.tsx. The five `useState` hooks (`place`, `data`, `error`,
  `loading`, `showRain`) are the fields of the class `Page`. The handlers
  `getData`, `handleInputChange` and `handleSubmit` are its methods. The three
  render conditions (results, loader, error message) are predicates.
  `getData` is split at its `await`: `BeginFetch` clears the data, sets
  loading and returns the URL it would request. `Settle` takes the request's
  outcome as an argument and runs the `try`/`catch`/`finally`. `GetData` does
  both in turn.
- `Wrappers` (wrappers.dfy) holds `Option`. In the page it stands for
  `null`, and for the optional `override` argument of `getData` when it is
  left out (src/app/page.tsx:42, 65). In the parser it stands for a failed
  parse.

Behaviour of the page that the model keeps as the code has it:

- `getData` never resets `error`; only an input change does. After a failed
  request, resubmitting without editing the input can succeed and store data.
  Even then `error` stays true, so neither the results panel nor the error
  message is shown (`ResubmitAfterFailure`). Editing the input first avoids
  this (`ResubmitAfterEdit`).
- A failed request leaves `data` as it was. Within one `getData` call it is
  `null` by then, because the start of the call cleared it.
- The submit button stays enabled while a request is in flight, so two
  requests can overlap. The first response to arrive is stored and ends the
  loading state, even though the request for the newer place is still open.
  It is shown unless the error flag is set (`OverlappingSubmits`).
- The location goes into the URL unescaped, straight after the fixed prefix.

The backend route in src/api/weather.js is a stub. server.js:17 mounts it
under `/api`, so it answers `GET /api/` with a fixed example message. It makes
no upstream call and does no reshaping of a response. The page's request to
`/api/weather/<location>` does not match this route; it falls through to the
Next.js catch-all at server.js:20. None of the backend is modelled: the page's
request outcome is an argument.

## Model

| member | source | states |
|---|---|---|
| `TimeFormat.DisplayHour` | src/utils.js:37-38 | The hour shown is always in 1..12 and congruent to the input hour mod 12, so a remainder of 0 shows as 12 |
| `TimeFormat.NatToString` | src/utils.js:42 | The decimal text of the hour is non-empty and all digits; it is one digit exactly below 10 and at most two below 100 |
| `TimeFormat.ParseNatToString` | src/utils.js:42 | Reading the decimal text back gives the number, so the displayed digits denote the displayed hour |
| `TimeFormat.PadStart` | src/utils.js:40 | `padStart` keeps the string as its suffix, fills the front with the fill character and reaches the target width when shorter |
| `TimeFormat.MinutesFieldTwoDigits` | src/utils.js:40 | For minutes 0..59 the field is exactly two digits with the input's value, and it starts with '0' exactly when the minutes are below 10 |
| `TimeFormat.Meridiem` | src/utils.js:36 | The suffix has two letters; it is "pm" exactly when the hour is at least 12 and "am" exactly when it is below 12 |
| `TimeFormat.MinutesField` | src/utils.js:40 | The minutes padded to two characters; its contract is carried by `MinutesFieldTwoDigits` |
| `TimeFormat.CurrentTimeAndDay` | src/utils.js:30-45 | The label `day + " " + H + ":" + MM + ampm`; its contract is carried by `StartsWithDayName`, `SpaceAfterDayName`, `ColonBeforeMinutes`, `MeridiemSuffix`, the examples and the two round trips |
| `TimeFormat.ClockText` | src/utils.js:42 | The `${hours}:${minutes}` part of the label: the displayed hour, a colon and the minutes field; `ColonBeforeMinutes` carries its contract |
| `TimeFormat.SpaceAfterDayName` | src/utils.js:42 | The label has exactly one space, at the index right after the day name |
| `TimeFormat.ColonBeforeMinutes` | src/utils.js:42 | The label has exactly one colon, five characters from the end; the next two characters are the minutes field and the last two are the suffix, with nothing in between |
| `TimeFormat.StartsWithDayName` | src/utils.js:31-33 | The label starts with `DaysOfWeek[day]` (0 = Sunday, 6 = Saturday) followed by one space |
| `TimeFormat.DayNamesDistinct` | src/utils.js:31 | Each day name is found at its own index in the table, so the seven names are pairwise distinct |
| `TimeFormat.DayNameHasNoSpace` | src/utils.js:31 | No day name contains a space, so the first space of the label ends the day name |
| `TimeFormat.MeridiemSuffix` | src/utils.js:36 | The label ends in "pm" exactly when the hour is at least 12, and in "am" exactly when it is below 12 |
| `TimeFormat.MidnightExample` | src/utils.js:36-42 | Hour 0 is shown as 12 with "am": day 0, 0:05 gives "Sunday 12:05am" |
| `TimeFormat.NoonExample` | src/utils.js:36-42 | Hour 12 is shown as 12 with "pm": day 1, 12:30 gives "Monday 12:30pm" |
| `TimeFormat.AfternoonExample` | src/utils.js:36-42 | Hour 13 is shown as 1 with "pm", with no space before the suffix: day 6, 13:07 gives "Saturday 1:07pm" |
| `TimeFormat.To24Hour` | src/utils.js:36-38 | A 12-hour hour 1..12 with its suffix denotes an hour below 24 that is at least 12 exactly for "pm" and displays as that 12-hour hour |
| `TimeFormat.DisplayHourTo24` | src/utils.js:36-38 | The displayed hour with its suffix determines the 24-hour hour |
| `TimeFormat.ParseTimeAndDay` | src/utils.js:42 | Any label the inverse accepts yields a valid reading: day 0..6, hour 0..23, minute 0..59 |
| `TimeFormat.ParseFormatRoundTrip` | src/utils.js:30-45 | Reading the label `day + " " + H + ":" + MM + ampm` back yields exactly the day, 24-hour hour and minute it was built from |
| `TimeFormat.FormatParseRoundTrip` | src/utils.js:30-45 | Every string the inverse accepts is exactly the label of the reading it yields |
| `TimeFormat.CanonicalNatToString` | src/utils.js:42 | The decimal text of a positive hour has no leading zero |
| `TimeFormat.FormatInjective` | src/utils.js:30-45 | Two valid clock readings with the same label are equal |
| `WeatherPage.RequestLocation` | src/app/page.tsx:46 | A present, non-empty override is requested; otherwise the typed place is; the location is empty only when the place is |
| `WeatherPage.RequestUrl` | src/app/page.tsx:46 | The URL is exactly the prefix `http://127.0.0.1:3000/api/weather/` followed by the chosen location |
| `WeatherPage.RequestUrlDeterminesLocation` | src/app/page.tsx:46 | Two requests have the same URL only when they ask for the same location |
| `WeatherPage.Page.Valid` | src/app/page.tsx:25-61 | The invariant of all reachable states: data present implies rain on, and loading implies no data; every method requires and re-establishes it |
| `WeatherPage.Page.constructor` | src/app/page.tsx:25-29 | The initial state: empty place, no data, no error, not loading, no rain; the state invariant holds |
| `WeatherPage.Page.BeginFetch` | src/app/page.tsx:43-46 | Starting a fetch clears the data and sets loading before any result is stored; the loader is the only panel shown; everything else is unchanged |
| `WeatherPage.Page.Settle` | src/app/page.tsx:47-55 | After the request settles loading is false; on success the body is stored and rain turns on; on failure the error is set and data is untouched; the error is never cleared |
| `WeatherPage.Page.GetData` | src/app/page.tsx:42-56 | A whole fetch requests the computed URL; it ends with loading false, with the body stored and rain on if it succeeded, or with no data and the error set if it failed |
| `WeatherPage.Page.HandleInputChange` | src/app/page.tsx:58-61 | The place becomes the typed value and the error is cleared; data, loading and rain are unchanged |
| `WeatherPage.Page.HandleSubmit` | src/app/page.tsx:63-66 | Submitting runs a fetch of the prefix followed by the typed place, with the same end states as `GetData` |
| `WeatherPage.Page.ShowResults` | src/app/page.tsx:91 | The results panel shows when data is present and the error flag is off; `AtMostOnePanel` and the scenario methods carry its contract |
| `WeatherPage.Page.ShowLoader` | src/app/page.tsx:155 | The loader shows when loading and no data is present; `AtMostOnePanel` and `LoaderMatchesButton` carry its contract |
| `WeatherPage.Page.ShowError` | src/app/page.tsx:161 | The error message shows when not loading, the error flag is on and no data is present; `AtMostOnePanel` carries its contract |
| `WeatherPage.Page.ButtonLabel` | src/app/page.tsx:88 | The button reads "Loading..." while loading and "Get Weather" otherwise; `LoaderMatchesButton` carries its contract |
| `WeatherPage.AtMostOnePanel` | src/app/page.tsx:91-161 | No two of the results panel, the loader and the error message are shown together |
| `WeatherPage.LoaderMatchesButton` | src/app/page.tsx:88-155 | In every reachable state the loader is shown exactly when the button reads "Loading..." |
| `WeatherPage.ResubmitAfterFailure` | src/app/page.tsx:43-161 | After a failure (error message shown) a successful resubmit without an edit stores data yet shows no results, no error message and no loader |
| `WeatherPage.ResubmitAfterEdit` | src/app/page.tsx:58-91 | Editing the input after a failure and resubmitting successfully shows the results and the rain |
| `WeatherPage.OverlappingSubmits` | src/app/page.tsx:42-56 | With two requests in flight, the first response is shown and loading ends while the second is still open |

Every method of `Page` requires and ensures `Valid()`. This is the invariant
of all reachable states: data is present only when `showRain` is set, and
while loading there is no data. Every method also ensures that `showRain`
never goes from true back to false.

## Left out

- Geolocation and reverse geocoding (`getCurrentLocationString`, src/utils.js:1-28): browser APIs, an external HTTP service and promises.
- The first-load `useEffect` (src/app/page.tsx:31-40): it depends on the geolocation result. Its `getData(locationString)` call corresponds to `GetData` with `locationString` as the `override`. Before that call the effect runs `setPlace(locationString)` (src/app/page.tsx:36). `locationString` is `data?.address?.city` (src/utils.js:17) and can be `undefined`. A later submit would then request `.../api/weather/undefined`. The model's `place: string` cannot hold `undefined`, so that case is not modelled.
- The wall clock (`new Date()`, src/utils.js:32): day, hours and minutes are parameters.
- The axios request and the async timing (src/app/page.tsx:46): the request is not made. Its outcome is an argument of `Settle`, and any interleaving is a choice of when each call happens.
- React's batching of state updates: each method applies its updates at once. Together they correspond to one batched render before the `await` and one after it.
- Numbers in the response (temperature, humidity, wind speed): they are passed through and never computed with, so they are modelled as `real` with no IEEE rounding.
- The response body is modelled as always present (truthy). The `WeatherData` interface is not checked at run time in the source.
- JSX rendering, icons, images, the rain effect and the CSS spinner (src/app/page.tsx:68-168, src/app/loader.jsx): presentation only. Only the render conditions, the button label and the `showRain` flag are modelled.
- The Express/Next server setup, CORS and the `PORT` default (server.js:1-30): framework wiring.
- The example route (src/api/weather.js:4-6): it returns a constant message.
- Console logging throughout.
