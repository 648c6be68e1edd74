# Weather Forecast App: daily forecast aggregation and the weather view model

This project models the two pieces of logic in the Android weather app that are not
just layout:

- **The daily forecast list** (`ForecastDisplay`): the provider's forecast holds one
  sample every three hours. The screen groups the samples by the date part of their
  `dt_txt` text (everything before the first space). It keeps the sample with the
  highest `tempMax` for each date, where the first of several equal maxima wins. It
  drops absent values and sorts what is left by the `dt` timestamp with a stable sort.
  `forecast_aggregation.dfy` models each Kotlin step on its own. `groupBy` is an
  insertion-ordered map of non-empty lists. `maxByOrNull` is a fold that replaces only
  on a strictly larger value. `sortedBy` is a stable insertion sort.
  The lemmas describe the list without the steps that build it: one entry per day
  present in the input; each entry is the first warmest sample of its day; the list is
  ascending by `dt`; entries with equal `dt` keep the order in which their days first
  occur. `DailyForecastsUnique` proves that this description has one solution only.
- **The view model** (`WeatherViewModel`): its observable state is `Initial`,
  `Loading`, `Success(current weather, forecast)` or `Error(message)`. A query for a
  city name publishes `Loading`. It then fetches the current weather, and only if that
  succeeds the forecast. It ends in `Success` with both raw responses, or in `Error`
  with the failing exception's message. When that message is null, the text is
  "An unknown error occurred". The city name goes to the repository exactly as typed:
  nothing checks whether it is empty.
  `weather_view_model.dfy` models the view model as a class with a mutable `uiState`
  field. A ghost `events` field records, in order, each value written to `uiState` and
  each repository call. The repository is a pair of functions from a city name to the
  outcome of each fetch: a value, or a thrown exception whose message may be null.

`weather_data.dfy` holds the response records as the two core files use them.

`Success` holds the raw `ForecastResponse`; the screen aggregates it only when it
renders that state (WeatherViewModel.kt:17, WeatherScreen.kt:75 and 147-152).

## Model

| member | source | states |
|---|---|---|
| ForecastAggregation.DailyForecasts | app/src/main/java/com/example/weatherforecastapp/ui/screens/WeatherScreen.kt:147-152 | The model of `ForecastDisplay`'s `dailyForecasts`: the Kotlin chain step by step. `DailyForecastsIsDailyForecast` and `DailyForecastsUnique` show that it is exactly the one sequence meeting the step-free description below. |
| ForecastAggregation.Day | app/src/main/java/com/example/weatherforecastapp/ui/screens/WeatherScreen.kt:148 | The `groupBy` key of a sample: `SubstringBefore` of its `dtTxt` at a space, whose contract makes it the prefix with no space that ends at the first space or at the end of the text. |
| ForecastAggregation.AddToGroups | app/src/main/java/com/example/weatherforecastapp/ui/screens/WeatherScreen.kt:148 | One step of Kotlin's `groupBy`, which adds the sample to the list stored under its key: appends the sample to its day's entry, or adds a new entry at the end. `AddToGroupsKeepsDays` and `AddToGroupsGrouped` state what the step keeps. |
| ForecastAggregation.GroupByDay | app/src/main/java/com/example/weatherforecastapp/ui/screens/WeatherScreen.kt:148 | `groupBy { day key }` as a fold of that step over the samples. `GroupByDayGrouped` characterises its result. |
| ForecastAggregation.DayMaxima | app/src/main/java/com/example/weatherforecastapp/ui/screens/WeatherScreen.kt:149-150 | `mapValues { maxByOrNull { tempMax } }` followed by `values`: one `maxByOrNull` result per entry, in entry order. `DayPicksAreGroupMaxima` states that each is present and is its group's first maximum. |
| ForecastAggregation.DayPicks | app/src/main/java/com/example/weatherforecastapp/ui/screens/WeatherScreen.kt:149-151 | The list before the sort, ending in `filterNotNull`. `DayPicksAreGroupMaxima` and `DayPicksCharacterised` characterise it. |
| ForecastAggregation.SubstringBefore | app/src/main/java/com/example/weatherforecastapp/ui/screens/WeatherScreen.kt:148 | The day key is a prefix of the text with no space in it, and it stops at the first space or at the end of the text (the whole text when there is no space). |
| ForecastAggregation.DayOfDateTime | app/src/main/java/com/example/weatherforecastapp/ui/screens/WeatherScreen.kt:148 | For provider text of the form "date time" whose date has no space, the day key is exactly the date, whatever the time part is. |
| ForecastAggregation.OfDay | app/src/main/java/com/example/weatherforecastapp/ui/screens/WeatherScreen.kt:148 | The samples of one day are exactly the input samples whose key is that day. |
| ForecastAggregation.GroupByDayGrouped | app/src/main/java/com/example/weatherforecastapp/ui/screens/WeatherScreen.kt:148 | `groupBy` gives one entry per key, with no key repeated. Each entry's list is non-empty and holds exactly that day's samples in input order. Every sample's day has an entry. Entries are in the order in which their keys first occur. |
| ForecastAggregation.DaysOfCount | app/src/main/java/com/example/weatherforecastapp/ui/screens/WeatherScreen.kt:148 | A sequence has at most as many distinct days as entries. The two counts are equal exactly when no two entries share a day. |
| ForecastAggregation.MaxByTempMax | app/src/main/java/com/example/weatherforecastapp/ui/screens/WeatherScreen.kt:149 | `maxByOrNull` is null exactly for an empty list. Otherwise it is a member of the list whose `tempMax` no member exceeds. |
| ForecastAggregation.MaxByTempMaxFirstWins | app/src/main/java/com/example/weatherforecastapp/ui/screens/WeatherScreen.kt:149 | Among equal maxima, the first one wins: every earlier member is strictly cooler. |
| ForecastAggregation.FilterNotNull | app/src/main/java/com/example/weatherforecastapp/ui/screens/WeatherScreen.kt:151 | `filterNotNull` keeps exactly the present values and is never longer than its input. |
| ForecastAggregation.FilterNotNullAllPresent | app/src/main/java/com/example/weatherforecastapp/ui/screens/WeatherScreen.kt:151 | When every value is present, `filterNotNull` removes nothing and keeps the order. |
| ForecastAggregation.DayPicksAreGroupMaxima | app/src/main/java/com/example/weatherforecastapp/ui/screens/WeatherScreen.kt:149-151 | `filterNotNull` removes nothing after `mapValues { maxByOrNull }`, because no group is empty. The i-th value is the first maximum of the i-th group. |
| ForecastAggregation.DayPicksCharacterised | app/src/main/java/com/example/weatherforecastapp/ui/screens/WeatherScreen.kt:148-151 | Before the sort there is one input sample per day that occurs. Each is the first warmest sample of its day. The days are in first-occurrence order. |
| ForecastAggregation.InsertByDt | app/src/main/java/com/example/weatherforecastapp/ui/screens/WeatherScreen.kt:152 | One insertion step of the sort adds exactly the new sample and loses nothing. |
| ForecastAggregation.SortByDt | app/src/main/java/com/example/weatherforecastapp/ui/screens/WeatherScreen.kt:152 | `sortedBy { it.dt }` returns a permutation of its input. |
| ForecastAggregation.SortByDtSorted | app/src/main/java/com/example/weatherforecastapp/ui/screens/WeatherScreen.kt:152 | The sorted list is ascending by `dt`. |
| ForecastAggregation.SortByDtStable | app/src/main/java/com/example/weatherforecastapp/ui/screens/WeatherScreen.kt:152 | The sort is stable: for every timestamp, the samples at that timestamp keep their input order. |
| ForecastAggregation.StableSortUnique | app/src/main/java/com/example/weatherforecastapp/ui/screens/WeatherScreen.kt:152 | Two sequences that are ascending by `dt` and hold the same samples per timestamp, in the same order, are equal. So every stable sort by `dt` gives the same result. |
| ForecastAggregation.DailyForecastsFromInput | app/src/main/java/com/example/weatherforecastapp/ui/screens/WeatherScreen.kt:147-152 | Every entry of the daily list is one of the input samples. |
| ForecastAggregation.DailyForecastsDayMaximum | app/src/main/java/com/example/weatherforecastapp/ui/screens/WeatherScreen.kt:147-152 | Each entry is the first sample of its day with the highest `tempMax`. No sample of that day is warmer. |
| ForecastAggregation.DailyForecastsOnePerDay | app/src/main/java/com/example/weatherforecastapp/ui/screens/WeatherScreen.kt:147-152 | No two entries share a day, and the entries' days are exactly the input's days. The length is the number of distinct days, which is at most the number of samples. |
| ForecastAggregation.DailyForecastsSorted | app/src/main/java/com/example/weatherforecastapp/ui/screens/WeatherScreen.kt:147-152 | The list is ascending by `dt`. Entries with equal `dt` are in the order in which their days first occur in the input. |
| ForecastAggregation.DailyForecastsIsDailyForecast | app/src/main/java/com/example/weatherforecastapp/ui/screens/WeatherScreen.kt:147-152 | The list satisfies the whole description: first day maxima, every input day present, ascending by `dt`, ties in day order. |
| ForecastAggregation.DailyForecastsUnique | app/src/main/java/com/example/weatherforecastapp/ui/screens/WeatherScreen.kt:147-152 | Any sequence that satisfies that description is the daily list, so the description determines the list completely. |
| ForecastAggregation.DailyForecastsEmpty | app/src/main/java/com/example/weatherforecastapp/ui/screens/WeatherScreen.kt:147-152 | An empty forecast gives an empty list, not an error. |
| ForecastAggregation.DailyForecastsExample | app/src/main/java/com/example/weatherforecastapp/ui/screens/WeatherScreen.kt:147-152 | Two samples on 2024-01-01 (highs 10 and 15) and one on 2024-01-02 (high 8) give the 15-degree sample and then the 2024-01-02 sample. |
| ViewModel.ErrorMessage | app/src/main/java/com/example/weatherforecastapp/ui/screens/WeatherViewModel.kt:38 | The error text is the exception's message, or "An unknown error occurred" when the message is null. |
| ViewModel.QueryOutcome | app/src/main/java/com/example/weatherforecastapp/ui/screens/WeatherViewModel.kt:31-39 | A query ends in Success or Error, never in Loading or Initial. It is Success exactly when both fetches return, and then holds the two returned values unchanged. Otherwise it is Error for the first failure, and a failed current-weather fetch decides the outcome whatever the forecast would have been. |
| ViewModel.QueryEvents | app/src/main/java/com/example/weatherforecastapp/ui/screens/WeatherViewModel.kt:28-40 | Loading is published before any repository call. The current weather is requested first. The forecast is requested if and only if the current weather arrived. Both requests use the city name as given. The outcome is published last and nothing is published in between. |
| ViewModel.WeatherViewModel.constructor | app/src/main/java/com/example/weatherforecastapp/ui/screens/WeatherViewModel.kt:22-25 | A new view model is in state Initial and has made no request. |
| ViewModel.WeatherViewModel.GetWeatherForCity | app/src/main/java/com/example/weatherforecastapp/ui/screens/WeatherViewModel.kt:28-41 | After a query, the state is the query's outcome. What the query showed the outside world, in order, is appended to the event record. |

## Left out

- The Compose UI is not modelled: the search field, the state-dependent layout, the current-weather card, the date and temperature formatting (including `toInt()` of temperatures), and the icons. `ForecastDisplay` is modelled up to the list it renders.
- Floating point: temperatures and wind speed are integers. The aggregation uses them only through `<`, which integers keep. NaN ordering is not modelled.
- Nested records: the forecast sample carries `dt`, `dt_txt`, `tempMin`, `tempMax` and its conditions directly, without the provider's nested `main` object. The data-class file is not part of this model, and its fields are reconstructed from their uses in the two core files.
- Coroutines: `viewModelScope.launch` is not modelled. A query runs to completion before the next one starts, so the last-write-wins race between overlapping queries, and cancellation when the view model is cleared, are not captured.
- Exceptions: every failure is an exception with an optional message. `CancellationException` is not treated specially, and throwables that are not `Exception` are not modelled.
- The network layer is not part of this model: the Retrofit service, the Gson converter, the HTTP client, the API key and the units parameter. The repository only forwards calls, and it appears only through the outcome of its two fetches.
- `DateUtils`, `Constants`, `ViewModelFactory` and `MainActivity` are not part of this model. They are wiring and formatting only.
- ViewModel.WeatherViewModel.GetWeatherForCity: the repository's fetches are modelled as functions of the city name, so two queries for the same city see the same outcomes. Outcomes that vary over time are not captured.
