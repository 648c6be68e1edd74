/** The records the weather API hands back, as the screen and the view model use them.
    Temperatures and wind speed are whole numbers here: the app's floating-point
    values only matter through their order, which `int` keeps. */
module WeatherData {

  /** Kotlin's nullable value. */
  datatype Option<+T> = None | Some(value: T)

  /** One weather-condition descriptor: a description and the provider's icon id. */
  datatype Condition = Condition(description: string, icon: string)

  /** The answer of the current-weather endpoint. */
  datatype WeatherResponse = WeatherResponse(
    name: string,
    country: string,
    temp: int,
    humidity: int,
    pressure: int,
    windSpeed: int,
    weather: seq<Condition>)

  /** One 3-hour sample of the forecast feed: `dt` is seconds since the epoch,
      `dtTxt` the provider's "date time" text. */
  datatype ForecastItem = ForecastItem(
    dt: int,
    dtTxt: string,
    tempMin: int,
    tempMax: int,
    weather: seq<Condition>)

  /** The answer of the forecast endpoint: the samples in feed order. */
  datatype ForecastResponse = ForecastResponse(list: seq<ForecastItem>)
}
