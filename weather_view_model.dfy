/** The screen's state holder: one observable UI state and the query that moves it
    from Loading to Success or Error. The repository is seen only through what its
    two fetches return for a city name: a value, or a thrown exception. One query
    runs at a time; the coroutine that runs it is not modelled. */
module ViewModel {
  import opened WeatherData

  /** The four phases the screen renders. `Success` holds both raw responses: the
      forecast is aggregated per day only when it is displayed. */
  datatype WeatherUiState =
    | Loading
    | Success(currentWeather: WeatherResponse, forecast: ForecastResponse)
    | Error(message: string)
    | Initial

  /** A thrown exception; its message may be null. */
  datatype Exception = Exception(message: Option<string>)

  /** How one repository fetch ends. */
  datatype Fetch<+T> = Fetched(value: T) | Threw(exception: Exception)

  /** The repository: the outcome of each of its two fetches for a city name. */
  datatype WeatherRepository = WeatherRepository(
    getCurrentWeather: string -> Fetch<WeatherResponse>,
    getFiveDayForecast: string -> Fetch<ForecastResponse>)

  /** A call made to the repository. */
  datatype Request = CurrentWeatherRequest(city: string) | ForecastRequest(city: string)

  /** What the view model does, in order: each value written to `uiState`, and each
      call into the repository. */
  datatype Event = Published(state: WeatherUiState) | Requested(request: Request)

  const UnknownError: string := "An unknown error occurred"

  /** `e.message ?: "An unknown error occurred"`. */
  function ErrorMessage(e: Exception): (m: string)
    ensures e.message.Some? ==> m == e.message.value
    ensures e.message.None? ==> m == UnknownError
  {
    match e.message
    case Some(text) => text
    case None => UnknownError
  }

  /** The state the query's try/catch block leaves behind, given how the two fetches
      end. It is Success or Error, never Loading or Initial: Success exactly when both
      fetches return, holding the two returned values unchanged (the forecast is not
      aggregated); otherwise Error with the message of the first exception, or the
      fallback text when that message is null. There is no partial success, and once
      the current weather fails the forecast's outcome plays no part. */
  function QueryOutcome(current: Fetch<WeatherResponse>, forecast: Fetch<ForecastResponse>): (s: WeatherUiState)
    ensures s.Success? || s.Error?
    ensures s.Success? <==> current.Fetched? && forecast.Fetched?
    ensures s.Success? ==> s.currentWeather == current.value && s.forecast == forecast.value
    ensures current.Threw? ==> s == Error(ErrorMessage(current.exception))
    ensures current.Fetched? && forecast.Threw? ==> s == Error(ErrorMessage(forecast.exception))
  {
    match current
    case Threw(e) => Error(ErrorMessage(e))
    case Fetched(weather) =>
      match forecast
      case Threw(e) => Error(ErrorMessage(e))
      case Fetched(forecastResponse) => Success(weather, forecastResponse)
  }

  /** Everything one query does, in order. Loading is written before any call into
      the repository; the current weather is requested once, first, and the forecast
      once, only if the current weather arrived, both for the city name exactly as
      given; nothing else is written until the outcome, which comes last. */
  function QueryEvents(repository: WeatherRepository, cityName: string): (es: seq<Event>)
    ensures |es| == if repository.getCurrentWeather(cityName).Fetched? then 4 else 3
    ensures es[0] == Published(Loading)
    ensures es[1] == Requested(CurrentWeatherRequest(cityName))
    ensures forall i :: 0 < i < |es| - 1 ==> es[i].Requested? && es[i].request.city == cityName
    ensures Requested(ForecastRequest(cityName)) in es <==> repository.getCurrentWeather(cityName).Fetched?
    ensures es[|es| - 1] == Published(QueryOutcome(
      repository.getCurrentWeather(cityName), repository.getFiveDayForecast(cityName)))
  {
    var current := repository.getCurrentWeather(cityName);
    var forecast := repository.getFiveDayForecast(cityName);
    [Published(Loading), Requested(CurrentWeatherRequest(cityName))]
    + (if current.Fetched? then [Requested(ForecastRequest(cityName))] else [])
    + [Published(QueryOutcome(current, forecast))]
  }

  /** The view model: the observable state and, as a ghost, the writes and repository
      calls it has made. */
  class WeatherViewModel {
    const repository: WeatherRepository
    var uiState: WeatherUiState
    ghost var events: seq<Event>

    /** A fresh view model is in state Initial and has done nothing yet. */
    constructor(repository: WeatherRepository)
      ensures this.repository == repository
      ensures uiState == Initial && events == []
    {
      this.repository := repository;
      uiState := Initial;
      events := [];
    }

    /** `getWeatherForCity`: publish Loading, fetch the current weather, then the
        forecast, for the city name exactly as given, and publish Success with both
        raw results or Error with the failure's message. */
    method GetWeatherForCity(cityName: string)
      modifies this
      ensures uiState == QueryOutcome(repository.getCurrentWeather(cityName), repository.getFiveDayForecast(cityName))
      ensures events == old(events) + QueryEvents(repository, cityName)
    {
      uiState := Loading;
      events := events + [Published(Loading)];
      events := events + [Requested(CurrentWeatherRequest(cityName))];
      var current := repository.getCurrentWeather(cityName);
      match current {
        case Threw(e) =>
          uiState := Error(ErrorMessage(e));
        case Fetched(weather) =>
          events := events + [Requested(ForecastRequest(cityName))];
          var forecast := repository.getFiveDayForecast(cityName);
          match forecast {
            case Threw(e) =>
              uiState := Error(ErrorMessage(e));
            case Fetched(forecastResponse) =>
              uiState := Success(weather, forecastResponse);
          }
      }
      events := events + [Published(uiState)];
    }
  }
}
