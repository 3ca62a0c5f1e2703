# WeatherWeb weather logic, modelled in Dafny

WeatherWeb is a browser page that fetches a seven-day forecast from
Open-Meteo, keeps the raw response in `localStorage` for an hour, derives
threshold alerts for today and renders everything as HTML. This project
models the three pieces of `wheather/get_weather.js` that carry logic:

- `cache.dfy` (module `ExpiringCache`): the expiring cache. `WeatherCache`
  is a class whose `store` field (a map from key to `Entry(timestamp, data)`)
  stands for `localStorage`; `Save` and `Load` are `saveWeatherToCache` and
  `loadWeatherFromCache`, with the clock passed in as `now` and the default
  window of 3 600 000 ms as a default parameter value. The pure functions
  `LoadResult`, `AfterLoad`, `Step` and `Run` describe the same behaviour on
  values, so that properties of call sequences (save then load, purge then
  later loads) can be stated as lemmas; `Load`'s contract ties the method to
  them, and `Replay` shows that driving the object through any call sequence
  does what `Run` says.
- `alerts.dfy` (module `Alerts`): `generateWeatherAlerts`. `GenerateAlerts`
  appends messages rule by rule as the source does; its contract
  (`FollowsRules`) states each rule as an if-and-only-if, the fallback and the
  fixed order, and `RulesDetermineAlerts` shows that contract fixes the list.
  Messages are the enum `Alert`; `Message` gives their literal text, and
  `GenerateAlertTexts` returns the strings the page receives.
- `forecast.dfy` (module `Forecast`): the `daily.time.map(...)` zip that builds
  per-day records, `forecast[0]` ("today") and `forecast.slice(1)` (the later
  cards).
- `options.dfy` (module `Options`): `Option`, standing for `null`.

Values read from the provider's numeric arrays are `Reading`s: `Missing`
(JavaScript `undefined`, an index past the end of a shorter array), `Null`
(a JSON `null`) or `Num(v)`. The alert comparisons follow JavaScript:
`undefined` compares false with everything, `null` compares as 0.

The code does not clamp rain probability to [0, 100], does not merge any
advisory strings into the alerts, and does not turn a malformed stored
entry into a cache miss (the `JSON.parse` at line 16 is unguarded and
throws).

## Model

| member | source | states |
|---|---|---|
| ExpiringCache.WeatherCache.Save | wheather/get_weather.js:3-9 | The entry for `key` becomes `(now, data)`, overwriting any old one; every other key keeps its entry and no key appears or disappears. |
| ExpiringCache.WeatherCache.Load | wheather/get_weather.js:12-25 | Absent key: returns null, store unchanged. Age strictly over the window: returns null and the entry is removed. Otherwise: returns the stored payload, store unchanged. |
| ExpiringCache.Step | wheather/get_weather.js:3-25 | One save or load touches only its own key; a save leaves `(now, data)` under it; a load that returns a payload found the key and changed nothing. |
| ExpiringCache.Run | wheather/get_weather.js:3-25 | Running a sequence of calls yields one answer per call, the first being the first call's answer. |
| ExpiringCache.RunAppend | wheather/get_weather.js:3-25 | Running `a + b` is running `a` and then `b` from the store `a` left: final store and answers compose. |
| ExpiringCache.RunAnswerAt | wheather/get_weather.js:3-25 | Answer i of a run is what call i returns on the store left by the calls before it. |
| ExpiringCache.Replay | wheather/get_weather.js:3-25 | Calling `Save`/`Load` on a `WeatherCache` for each call of a sequence leaves the store and returns the answers that `Run` gives. |
| ExpiringCache.SaveThenLoadOnCache | wheather/get_weather.js:3-24 | On the object: `Save(key, data, t)` then `Load(key, t, w)` with w >= 0 returns `data`, and the store is the old one with `(t, data)` under `key`. |
| ExpiringCache.LoadIsFresh | wheather/get_weather.js:16-24 | A load only ever returns the payload of a present entry whose age is within the window. |
| ExpiringCache.SaveThenLoad | wheather/get_weather.js:3-24 | Saving at time t then loading at t with any window >= 0 returns exactly the saved payload and keeps the saved entry. |
| ExpiringCache.AgeEqualToWindowIsServed | wheather/get_weather.js:17-24 | An entry whose age equals the window exactly is still returned and not removed (the comparison is strict). |
| ExpiringCache.AbsentStaysAbsent | wheather/get_weather.js:13-14 | From a store without `key`, any sequence of calls that never saves `key` leaves it absent, and every load of `key` in it returns null. |
| ExpiringCache.ExpiryIsPermanent | wheather/get_weather.js:17-21 | A load that finds the entry stale returns null and purges it; every later load of that key, under any window and clock, returns null until a new save. |
| Alerts.GenerateAlerts | wheather/get_weather.js:28-50 | High-rain message iff rain >= 80; showers message iff 50 <= rain < 80; heat iff max >= 35; cold iff min <= 10; all-clear iff no rule fired, and then it is the only message; order rain, heat, cold; 1 to 3 messages. |
| Alerts.GenerateAlertTexts | wheather/get_weather.js:28-50 | Returns the texts of a list of alerts that meets the rules for the day, one to three strings, as the function returns its `alerts` array. |
| Alerts.Message | wheather/get_weather.js:32-46 | The five literal message texts; each starts with its own emoji. |
| Alerts.MessagesDistinct | wheather/get_weather.js:32-46 | Different alerts have different texts. |
| Alerts.Texts | wheather/get_weather.js:29-49 | The string list has one text per alert, text i being the message of alert i. |
| Alerts.TextsDetermineAlerts | wheather/get_weather.js:29-49 | Equal string lists come from equal alert lists, so the strings carry the rule results unchanged. |
| Alerts.RulesDetermineAlerts | wheather/get_weather.js:28-50 | Any two lists meeting the rules for the same day are equal, so the output is determined by the day. |
| Alerts.InclusiveThresholds | wheather/get_weather.js:31-43 | rain 80, max 35, min 10 give exactly [high rain, heat, cold]; rain 79, max 34.9, min 10.1 give showers only. |
| Alerts.AllClearScenario | wheather/get_weather.js:45-47 | rain 0, max 20, min 15 gives exactly the all-clear message. |
| Alerts.MissingValuesScenario | wheather/get_weather.js:31-47 | A day with every value `undefined` gets only the all-clear message; a day with every value `null` gets exactly the cold alert. |
| Forecast.Assemble | wheather/get_weather.js:65-70 | One record per date; record i holds `time[i]` and index i of the max, min and rain arrays (`undefined` where an array is shorter). |
| Forecast.FullArraysNoMissing | wheather/get_weather.js:65-70 | When the three numeric arrays are at least as long as `time`, record i is exactly the four array elements at i. |
| Forecast.Today | wheather/get_weather.js:73 | `forecast[0]` exists iff the forecast is non-empty, and is then its first record. |
| Forecast.LaterDays | wheather/get_weather.js:109 | `forecast.slice(1)` has one element fewer than a non-empty forecast (none for an empty one), element j being record j + 1. |
| Forecast.TodayIsFirstIndex | wheather/get_weather.js:65-73 | With at least one date, today is the record built from index 0 of every array. |
| Forecast.NoDatesNoToday | wheather/get_weather.js:73-74 | With no dates there is no today (the code then throws reading its fields) and no later cards. |
| Forecast.LaterDaysAligned | wheather/get_weather.js:107-109 | The later cards are the records for dates 1 onwards (one fewer than the dates), card j from index j + 1; today followed by them is the whole forecast. |

## Left out

- JSON text: `JSON.stringify` (line 8) and `JSON.parse` (line 16) are not modelled; the store holds structured entries, so the throw on a malformed stored string is not represented.
- The `if (!cached)` test at line 14 is modelled as "key absent"; a stored empty string cannot arise because the code only stores JSON text.
- `localStorage` quota errors from `setItem` are not modelled; `Save` always succeeds.
- `Date.now()` becomes the `now` parameter; the real clock is not modelled.
- The fetch-or-cache flow of `getWeatherByCoords` (lines 53-63), including its `if (!data)` refetch on a falsy payload, `fetch`, `response.json()` and `getCoordinates` (lines 132-146): network I/O.
- Cache-key building `weather_${latitude}_${longitude}` (line 54): floating-point-to-string formatting.
- HTML rendering (lines 76-128), `searchWeather`, `detectLocationWeather`, geolocation and `window.onload`: DOM and browser plumbing.
- `WeatherWeb/script.js` (`toggleTheme`): CSS theme switching, UI only.
- The shape of the provider's response is not modelled: `Assemble` takes the four arrays as given, so the TypeError the zip at lines 65-69 throws when the response has no `daily` object, or lacks `time` or (with a non-empty `time`) one of the three numeric arrays, as an error object from the provider would, cannot arise in the model.
- Numbers are modelled as mathematical reals, not IEEE doubles; NaN and infinities other than `undefined`'s conversion are not represented, and values other than numbers, `null` and `undefined` in the provider's arrays are not modelled.
- Alert texts are sequences of Unicode scalar values, not JavaScript's UTF-16 code units.
