# Weather monitor core, modelled in Dafny

The weather monitor polls a weather service for a fixed list of cities on a timer. It has two periodic steps:

- **Aggregation tick** (`process_weather_data`). Each city's fetched reading goes into an in-memory bucket keyed by city and UTC calendar date. The bucket holds the temperatures and the condition labels in arrival order. Once a bucket holds `1 / CHECK_INTERVAL` samples (two with the deployed configuration), every further reading that day produces a daily summary over the whole bucket. The summary holds the mean, the maximum, the minimum and the most frequent condition, and is handed to the store.
- **Alert tick** (`check_alerts`). Each city has a counter of consecutive readings strictly above the threshold. A reading at or below the threshold resets it, and a failed fetch leaves it alone. When the counter reaches the trigger count, one alert carrying the city and the current temperature is handed to the notifier, and the counter starts over at 0.

The project has these parts:

- `wrappers.dfy`: `Option`.
- `config.dfy`: the deployed constants: the cities, the threshold, the trigger count and the interval.
- `weather.dfy`: the reading, the UTC day key, and the layout of successive ticks as one batch.
- `stats.dfy`: sum, mean, extremes and the most frequent label.
- `aggregation.dfy`: the buckets and the daily rollup, as pure specification functions.
- `alerting.dfy`: the consecutive-breach counters, as pure specification functions.
- `engine.dfy`: the monitor's mutable state, as a class `Monitor.Engine`.

`Monitor.Engine` has two state fields. `buckets` is the source's `weather_data`. `alertCount` is the source's `alert_count`. Its methods update these fields step by step, as the source does. Each method is proved against the specification function of its step.

Inputs:

- The fetch results of a tick are an input to the model. They are given in the order of the configured cities, with `None` for a failed fetch.
- The store and the notifier are the sequences of summaries and alerts that a tick returns.
- Successive ticks share the state, so the model also states what any number of ticks does (`FeedTicks`, `CheckTicks`) and what one city sees of them, whatever the other cities report in between.

## Model

| member | source | states |
|---|---|---|
| Weather.DayKey | main.py:82 | the day key of a timestamp is the UTC day whose 86400-second interval contains it |
| Weather.SameUtcDay | main.py:82-87 | two timestamps inside one UTC day get the same key, so their readings share a bucket |
| Weather.FlattenLength | main.py:79 | ticks of one fetch result per configured city line up with the cities repeated once per tick |
| Stats.SumAppend | main.py:97 | one more temperature adds exactly itself to the sum |
| Stats.Max | main.py:98 | the maximum is a recorded temperature that no recorded temperature exceeds |
| Stats.Min | main.py:99 | the minimum is a recorded temperature that exceeds no recorded temperature |
| Stats.Average | main.py:97 | the mean times the number of samples is the sum of the temperatures |
| Stats.SumBetween | main.py:97 | temperatures between lo and hi sum to between n·lo and n·hi |
| Stats.AverageBetween | main.py:97 | the mean stays inside any range that holds all the temperatures, because dividing a total between n·lo and n·hi by n lands between lo and hi |
| Stats.AverageBetweenExtremes | main.py:97-99 | minimum ≤ mean ≤ maximum |
| Stats.Count | main.py:100 | a label's count is at most the length of the list, and positive exactly when the label occurs |
| Stats.CountIsMultiplicity | main.py:100 | counting a label in the list equals its multiplicity in the multiset of the list |
| Stats.MostFrequent | main.py:100 | the result is one of the candidates, and no candidate occurs more often |
| Stats.Dominant | main.py:100 | the dominant condition is a recorded label, and no recorded label occurs more often |
| Stats.DominantOfStrictMaximum | main.py:100 | a label that occurs strictly more often than every other is always the dominant condition |
| Aggregation.Appended | main.py:82-90 | an accepted reading appends its temperature and label to the bucket of its city and day, which is created when missing; every other bucket is unchanged; the temperature and label lists stay the same length and non-empty |
| Aggregation.Summarize | main.py:96-100 | a summary names its city and day; its average times the bucket size is the sum of the bucket's temperatures; its max and min are recorded temperatures and its dominant condition a recorded label |
| Aggregation.SummaryOfBucket | main.py:95-102 | a summary's max and min bound every temperature of the bucket and the average; its dominant condition is a recorded label of maximal count |
| Aggregation.FourSampleExample | main.py:96-100 | the samples 30, 32, 31, 29 with conditions Clear, Clear, Rain, Clear summarise to 30.5 / 32 / 29 / Clear |
| Aggregation.RecordStep | main.py:80-102 | a failed fetch changes nothing; an accepted reading is appended; a summary of the whole bucket, for the reading's city and day, is produced exactly when the bucket then holds at least N samples |
| Aggregation.RecordElsewhere | main.py:80-90 | a failed fetch, or a reading for another city or another day, leaves a bucket as it was |
| Aggregation.Feed | main.py:79-102 | a tick keeps every bucket well formed, stores at most as many summaries as it visits cities, each for a visited city, and leaves the buckets of unvisited cities unchanged |
| Aggregation.FeedOnePerVisit | main.py:79-102 | as a multiset, the cities of a tick's summaries are among the cities it visits: at most one summary per visit |
| Aggregation.FeedAppend | main.py:72-102 | feeding two batches one after the other, the second from the buckets the first left, is feeding their concatenation |
| Aggregation.StepOnDay | main.py:86-102 | one more reading on a day extends that day's bucket and summarises the extended bucket exactly when it reaches N samples |
| Aggregation.DaySummariesAt | main.py:95-102 | a day yields no summary before its N-th reading, then stores \|samples\| − N + 1 summaries, the j-th over the first N + j readings |
| Aggregation.DayReadings | main.py:80-90 | the readings a batch holds for one city and day are readings of that day, no more than the batch |
| Aggregation.OnDay | main.py:102 | the summaries picked out for one city and day are summaries of the list for that city and day |
| Aggregation.DayBucket | main.py:79-90 | whatever other cities and days are interleaved, a batch extends the bucket of one city and day by exactly that city's accepted readings of the day, in order |
| Aggregation.DaySeries | main.py:79-103 | whatever is interleaved, from a day not yet bucketed, a batch stores for that city and day exactly the summaries DaySummaries describes over its readings of the day |
| Aggregation.FeedTicks | main.py:72-103 | successive aggregation ticks keep every bucket well formed and store summaries only for configured cities |
| Aggregation.FeedTicksIsFeed | main.py:72-103 | successive ticks are one batch over the cities repeated once per tick and the ticks' fetch results in order |
| Aggregation.TicksDaySeries | main.py:72-103 | over any number of ticks, a city's day holds exactly that city's readings of the day, and the summaries stored for it are exactly those DaySummaries describes |
| Alerting.Step | main.py:124-133 | an alert fires exactly when the reading is above the threshold and the increment reaches the trigger count, and the counter is then 0; otherwise a reading above the threshold increments the counter and any other reading resets it; a counter in [0, T) stays there |
| Alerting.CheckStep | main.py:123-133 | a failed fetch changes no counter and fires nothing; a reading moves only its city's counter by Step; an alert fires exactly when Step fires, and it carries the city and a temperature above the threshold |
| Alerting.CheckAll | main.py:122-133 | an alert tick keeps the set of counters and their range, leaves unvisited cities alone, and fires at most as many alerts as it visits cities, each for a visited city, above the threshold |
| Alerting.CheckAllOnePerVisit | main.py:122-133 | as a multiset, the cities of a tick's alerts are among the cities it visits: at most one alert per visit |
| Alerting.CheckAllRun | main.py:122-133 | whatever other cities are interleaved, a tick moves one city's counter exactly as Run does over that city's fetch results, and the alerts for that city carry exactly the temperatures Run reports |
| Alerting.CheckAllAppend | main.py:106-133 | checking two batches one after the other, the second from the counters the first left, is checking their concatenation |
| Alerting.CheckTicks | main.py:106-133 | successive alert ticks keep the set of counters and their [0, T) range |
| Alerting.CheckTicksIsCheckAll | main.py:106-133 | successive alert ticks are one batch over the cities repeated once per tick and the ticks' fetch results in order |
| Alerting.TicksRun | main.py:106-133 | over any number of alert ticks, one city's counter and alerts are exactly those Run gives over that city's fetch results of all the ticks |
| Alerting.TicksStreakFires | main.py:106-133 | over any number of alert ticks, from a reset counter, T breaches of one city fire exactly one alert for it, on the last, carrying its temperature, and leave its counter at 0, whatever the other cities report |
| Alerting.Run | main.py:124-133 | over successive ticks one city's counter stays in [0, T), and every alert carries a temperature above the threshold |
| Alerting.RunAppend | main.py:124-133 | running two stretches of ticks is running the first, then the second from the counter the first left |
| Alerting.RunLast | main.py:124-133 | one more fetch result leaves the run alone when it failed, and otherwise is one more Step from the counter so far |
| Alerting.RunSkipsFailedFetch | main.py:124 | a failed fetch neither extends nor breaks a streak |
| Alerting.RunBreaks | main.py:127-128 | a reading at or below the threshold leaves the counter at 0, whatever came before |
| Alerting.StreakBuilds | main.py:125-126 | above-threshold readings short of the trigger count only build the streak up and fire nothing |
| Alerting.StreakFires | main.py:125-133 | from 0, T consecutive readings above the threshold fire exactly one alert, on the last of them, and reset the counter |
| Alerting.ConfiguredScenario | main.py:24-25 | with the configured threshold of 35 and two updates: 36, 36 fires once; 34 fires nothing; 34, 36 leaves the counter at 1; 34, 36, 36 fires once and resets |
| Config.SamplesPerDayMatchesInterval | main.py:26 | with an interval of 0.5 minutes, comparing a sample count with 1 / CHECK_INTERVAL is the same as comparing it with 2 |
| Monitor.Configured | main.py:23-26 | the deployed monitor visits the configured cities with two samples per day, a threshold of 35 and a trigger of 2, and starts with no bucket and every counter at 0 |
| Monitor.Engine.constructor | main.py:72-106 | the monitor starts with no bucket (main.py:72) and with a counter of 0 for every configured city and for no other (main.py:106) |
| Monitor.Engine.Record | main.py:80-102 | in-place update of the nested buckets, with lazy creation of the city and the day entry and two appends; the new buckets and the returned summary are those of RecordStep |
| Monitor.Engine.Check | main.py:124-133 | in-place update of one counter, either incremented or reset, then reset again once the alert is handed over; the new counters and the alert are those of CheckStep |
| Monitor.Engine.ProcessWeatherData | main.py:75-103 | the loop over the cities leaves the buckets and returns the stored summaries that Feed describes, and keeps the state valid |
| Monitor.Engine.CheckAlerts | main.py:120-133 | the loop over the cities leaves the counters and returns the sent alerts that CheckAll describes, and keeps the state valid |

The aggregation tick summarises on every reading from the N-th of a day on. With two samples per day, a day with five readings stores four summaries. Each summary covers the readings so far. This is what the code does. The comment next to the rollup call says "at end of the day", but the code does not wait for the end of the day.

The constants of `config.dfy` are those of main.py:23-26. `CHECK_INTERVAL` is 0.5 minutes: both ticks are scheduled every half minute (main.py:172-173), and the rollup reads its reciprocal, 2, as the number of samples a day needs.

## Left out

- Fetching from the weather service (`fetch_weather`): the HTTP call, the JSON reading and the Kelvin to Celsius conversion. These are I/O. A tick's fetch results are an input of the model, and a failed fetch is `None`.
- Storing the summaries (`insert_daily_summary`) and creating the table: these go to an SQLite database. The model returns each tick's summaries in order instead.
- Sending the alert e-mail (`send_email_alert`): this goes over SMTP. The model returns each tick's alerts in order instead.
- Printing the data of a city (`print_weather_data_for_city`), the log lines, and the chart (`visualize_weather_data`): these are output only and change no state.
- The scheduler loop, the sleep between runs, and the check that `API_KEY` is set at start-up: these are process control and the clock.
- Floating point: temperatures are exact reals, so the mean is the exact quotient and is not rounded.
- The calendar date string: the bucket key is the day number of the timestamp since 1970-01-01 in UTC. This is not the `'%Y-%m-%d'` text. The two keys group readings the same way. Timestamps outside the range the date conversion accepts are not modelled.
- Exceptions from the HTTP client, the database and the mail transport are not modelled: the model treats every store and every send as succeeding. The source sends the e-mail (main.py:132) before it resets the counter (main.py:133). An SMTP failure, such as the login at main.py:151 with the placeholder credentials of main.py:137-139, raises out of `check_alerts`. That city's counter then stays at the trigger count, the remaining cities of the tick are not checked, and, since nothing in main.py:171-178 catches the exception, the scheduler loop ends.
- The interval test `len(temps) >= 1/CHECK_INTERVAL` compares with a real. The model uses a whole sample count N. For a positive real x, `len >= x` holds exactly when `len >= ceil(x)`. `Config.SamplesPerDayMatchesInterval` shows that the deployed value is 2.
- Stats.Dominant: the source takes the maximum over `set(conditions)`, so a tie goes to whichever label the set's hash order presents first, and that order can differ between runs. The model picks the label that was recorded first. The contract states only that the result is a label of maximal count. `Stats.DominantOfStrictMaximum` shows that the result is determined whenever there is no tie. Picking the first-recorded label is one of the outcomes the source allows. It is not a promise.
- Monitor.Engine.Check: requires the city to have a counter. For a city without one, the source raises `KeyError` on the increment path (main.py:126); a reading at or below the threshold instead creates the counter at 0 (main.py:128). Its only caller visits the configured cities, which all have counters from start-up (main.py:106).
- Monitor.Engine: the trigger count and N are required to be at least 1. With a trigger of 0 every reading would fire an alert, and the [0, T) counter range would be empty.
