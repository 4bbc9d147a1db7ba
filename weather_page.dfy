/**
 * The query/result state of the page component (src/app/page.tsx). The five
 * `useState` hooks become the fields of a `Page` object, each event handler a
 * method, and each render condition a predicate over the fields. The awaited
 * HTTP request is not performed: `getData` is split at its `await` into
 * `BeginFetch`, which returns the URL that would be requested, and `Settle`,
 * which takes how that request ended as an argument.
 */
module WeatherPage {
  import opened Wrappers

  /** The `weather` member of the response body. */
  datatype Condition = Condition(id: int, main: string, description: string, icon: string)

  /** The response body the page renders (`interface WeatherData`). */
  datatype WeatherData = WeatherData(
    location: string,
    weather: Condition,
    temperature: real,
    humidity: real,
    windSpeed: real)

  /** How the awaited request settled: with a response body, or by throwing. */
  datatype Outcome = Succeeded(body: WeatherData) | Failed

  /** The fixed part of every request URL. */
  const ApiPrefix: string := "http://127.0.0.1:3000/api/weather/"

  /**
   * `override || place`: a present, non-empty override wins; an absent or empty
   * one falls back to the place in the input box.
   */
  function RequestLocation(override: Option<string>, place: string): (loc: string)
    ensures override.Some? && override.value != "" ==> loc == override.value
    ensures override.None? || override.value == "" ==> loc == place
    ensures loc == "" ==> place == ""
  {
    match override
    case Some(o) => if o != "" then o else place
    case None => place
  }

  /** The URL `getData` requests: the fixed prefix followed by the chosen location, unescaped. */
  function RequestUrl(override: Option<string>, place: string): (url: string)
    ensures |url| == |ApiPrefix| + |RequestLocation(override, place)|
    ensures url[..|ApiPrefix|] == ApiPrefix
    ensures url[|ApiPrefix|..] == RequestLocation(override, place)
  {
    ApiPrefix + RequestLocation(override, place)
  }

  /** Two requests go to the same URL only when they ask for the same location. */
  lemma RequestUrlDeterminesLocation(o1: Option<string>, p1: string, o2: Option<string>, p2: string)
    requires RequestUrl(o1, p1) == RequestUrl(o2, p2)
    ensures RequestLocation(o1, p1) == RequestLocation(o2, p2)
  {
    assert RequestUrl(o1, p1)[|ApiPrefix|..] == RequestUrl(o2, p2)[|ApiPrefix|..];
  }

  class Page {
    var place: string
    var data: Option<WeatherData>   // None is `null`
    var error: bool
    var loading: bool
    var showRain: bool

    /**
     * What every reachable state satisfies: data is only ever stored together
     * with `showRain`, and a request in flight has always cleared the data.
     */
    ghost predicate Valid()
      reads this
    {
      (data.Some? ==> showRain) && (loading ==> data.None?)
    }

    /** The initial `useState` values. */
    constructor ()
      ensures Valid()
      ensures place == "" && data == None && !error && !loading && !showRain
    {
      place, data, error, loading, showRain := "", None, false, false, false;
    }

    /** The results panel: `data && !error`. */
    predicate ShowResults()
      reads this
    {
      data.Some? && !error
    }

    /** The loader: `loading && !data`. */
    predicate ShowLoader()
      reads this
    {
      loading && data.None?
    }

    /** The error message: `!loading && error && !data`. */
    predicate ShowError()
      reads this
    {
      !loading && error && data.None?
    }

    /** The submit button's text. */
    function ButtonLabel(): string
      reads this
    {
      if loading then "Loading..." else "Get Weather"
    }

    /** `getData` up to its `await`: clear the data, set loading, issue the request. */
    method BeginFetch(override: Option<string>) returns (url: string)
      requires Valid()
      modifies this
      ensures Valid()
      ensures url == RequestUrl(override, place)
      ensures data == None && loading
      ensures place == old(place) && error == old(error) && showRain == old(showRain)
      ensures ShowLoader() && !ShowResults() && !ShowError()
    {
      data := None;
      loading := true;
      url := RequestUrl(override, place);
    }

    /**
     * `getData` after its `await`: the `try` stores the body and starts the
     * rain, the `catch` sets the error flag, and the `finally` clears loading.
     * Neither branch clears `error`.
     */
    method Settle(outcome: Outcome)
      requires Valid()
      modifies this
      ensures Valid()
      ensures !loading && place == old(place)
      ensures outcome.Succeeded? ==> data == Some(outcome.body) && showRain && error == old(error)
      ensures outcome.Failed? ==> error && data == old(data) && showRain == old(showRain)
    {
      match outcome {
        case Succeeded(body) =>
          data := Some(body);
          showRain := true;
        case Failed =>
          error := true;
      }
      loading := false;
    }

    /** The whole of `getData` when no other request settles in between. */
    method GetData(override: Option<string>, outcome: Outcome) returns (url: string)
      requires Valid()
      modifies this
      ensures Valid()
      ensures url == RequestUrl(override, old(place))
      ensures !loading && place == old(place)
      ensures outcome.Succeeded? ==> data == Some(outcome.body) && showRain && error == old(error)
      ensures outcome.Failed? ==> data == None && error && showRain == old(showRain)
    {
      url := BeginFetch(override);
      Settle(outcome);
    }

    /** `handleInputChange`: take the typed value and clear the error flag. */
    method HandleInputChange(value: string)
      requires Valid()
      modifies this
      ensures Valid()
      ensures place == value && !error
      ensures data == old(data) && loading == old(loading) && showRain == old(showRain)
    {
      error := false;
      place := value;
    }

    /** `handleSubmit`: `getData()` without an override, so the typed place is requested. */
    method HandleSubmit(outcome: Outcome) returns (url: string)
      requires Valid()
      modifies this
      ensures Valid()
      ensures url == ApiPrefix + old(place)
      ensures !loading && place == old(place)
      ensures outcome.Succeeded? ==> data == Some(outcome.body) && showRain && error == old(error)
      ensures outcome.Failed? ==> data == None && error && showRain == old(showRain)
    {
      url := GetData(None, outcome);
    }
  }

  /** No two of the three panels are ever shown together. */
  lemma AtMostOnePanel(p: Page)
    ensures !(p.ShowResults() && p.ShowLoader())
    ensures !(p.ShowResults() && p.ShowError())
    ensures !(p.ShowLoader() && p.ShowError())
  {
  }

  /** In every reachable state the loader is shown exactly when the button reads "Loading...". */
  lemma LoaderMatchesButton(p: Page)
    requires p.Valid()
    ensures p.ShowLoader() <==> p.ButtonLabel() == "Loading..."
  {
  }

  /**
   * A failed request followed by a successful resubmit without editing the
   * input: the error flag survives, so neither the results nor the error
   * message is shown, although data is present.
   */
  method ResubmitAfterFailure(place: string, body: WeatherData)
    returns (errorShownFirst: bool, dataPresent: bool, results: bool, errorShown: bool, loader: bool)
    ensures errorShownFirst && dataPresent
    ensures !results && !errorShown && !loader
  {
    var p := new Page();
    p.HandleInputChange(place);
    var _ := p.HandleSubmit(Failed);
    errorShownFirst := p.ShowError();
    var _ := p.HandleSubmit(Succeeded(body));
    dataPresent := p.data.Some?;
    results, errorShown, loader := p.ShowResults(), p.ShowError(), p.ShowLoader();
  }

  /** The same sequence with an edit of the input before resubmitting shows the results. */
  method ResubmitAfterEdit(place: string, body: WeatherData) returns (results: bool, rain: bool)
    ensures results && rain
  {
    var p := new Page();
    p.HandleInputChange(place);
    var _ := p.HandleSubmit(Failed);
    p.HandleInputChange(place);
    var _ := p.HandleSubmit(Succeeded(body));
    results, rain := p.ShowResults(), p.showRain;
  }

  /**
   * The button is not disabled while loading, so a second submit can start
   * before the first settles. When the first response arrives it is shown and
   * loading ends, although the request for the second place is still open.
   */
  method OverlappingSubmits(first: string, second: string, firstBody: WeatherData)
    returns (firstUrl: string, secondUrl: string, shown: Option<WeatherData>, results: bool, stillLoading: bool)
    ensures firstUrl == ApiPrefix + first && secondUrl == ApiPrefix + second
    ensures shown == Some(firstBody) && results && !stillLoading
  {
    var p := new Page();
    p.HandleInputChange(first);
    firstUrl := p.BeginFetch(None);
    p.HandleInputChange(second);
    secondUrl := p.BeginFetch(None);
    p.Settle(Succeeded(firstBody));
    shown, results, stillLoading := p.data, p.ShowResults(), p.loading;
  }
}
