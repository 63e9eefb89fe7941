# BTC/USDT market data into ClickHouse — a Dafny model of the ingestion path

The repository polls the Binance REST API for the BTC/USDT ticker price, the top of
the order book and the recent trades, and writes them into ClickHouse by POSTing one
`INSERT` command per row to the ClickHouse HTTP endpoint. This project models the
path from decoded responses to posted commands, in two programs:

- `clickhouse.rs`, the blocking poller. `main` loops over `fetch_and_print_data`
  forever. A pass fetches the ticker, the order book and the recent trades. It then
  inserts the price, every bid, every ask and every trade, in that order. Asks go
  through `insert_bid_into_clickhouse`, so they land in `btc_bids`. A send failure
  panics through `.expect`, which ends the process. A fetch error ends the pass before
  any insert; it is logged and the loop goes on.
- `clickhouse_rocket.rs`, the async variant. `binance_btc_price` fetches the ticker
  and inserts the price once. `periodic_insert_into_clickhouse` calls it and, on
  success, inserts the same price again, stamped with the instant taken at the top of
  its loop. `insert_price_into_clickhouse` returns `Err` only when the POST cannot be
  sent. `binance_order_book_data` splits the decoded book into its two ladders.

Modules:

- `Results`: `Option`, `Result` and the fetch error.
- `DateTimes`: chrono's `NaiveDateTime` as far as the code uses it. It covers the
  Gregorian calendar, `format("%Y-%m-%d %H:%M:%S")`, `to_string()`, and
  `from_timestamp(secs, 0)` for seconds since 1970.
- `Commands`: the four tables, the rows, and the `format!` templates. It also has a
  reader that takes a command back apart into its values.
- `Sinks`: the ClickHouse endpoint as a class `Sink`. The class keeps the log of rows
  whose command reached the endpoint (`sent`) and a POST counter (`attempts`). The
  network is a function from POST number to `Response(status)` or `SendFailed`.
- `ClickHouse`: `clickhouse.rs`.
- `ClickHouseRocket`: `clickhouse_rocket.rs`.

The network and `Utc::now()` are inputs. Every fetch is a `Result` handed to the
operation, every capture instant a parameter, and the outcome of every POST comes
from the sink's `network` function. An endless loop is modelled by a method that runs
one iteration per element of an input sequence, with no early exit besides the one
the source has (the panic in `clickhouse.rs`). Each stateful method is proved against
a function of its inputs: `PassEffect`, `RunEffect`, `BtcPriceEffect`, `TickEffect`
and `PeriodicEffect`. The properties are then proved about those functions.

Values are spliced into commands verbatim. Nothing escapes quotes or binds
parameters, and the model follows the code. `Commands.CommandRoundTrip` holds only
for values free of single quotes. `Commands.QuoteShiftsValueBoundaries` shows two
different rows that post the same command.

## Model

| member | source | states |
|---|---|---|
| DateTimes.FormatRoundTrip | clickhouse.rs:83 | `%Y-%m-%d %H:%M:%S` of a valid date-time with a four-digit year is 19 characters. It reads back to the same date-time with the sub-second part dropped. |
| DateTimes.Format | clickhouse.rs:83 | `timestamp.format("%Y-%m-%d %H:%M:%S")`: the date, a space and the clock, zero-padded, with no sub-second part. `DateTimes.FormatRoundTrip` and `DateTimes.FormatHasNoQuote` pin its behaviour down. |
| DateTimes.DisplayText | clickhouse_rocket.rs:116 | `current_time.to_string()`: the `%Y-%m-%d %H:%M:%S` text followed by the fraction, if any. `ClickHouseRocket.BtcPriceReturnsFetchedPrice` uses it: the returned time starts with the stamp of the inserted row. |
| DateTimes.FormatHasNoQuote | clickhouse.rs:104-105 | A formatted timestamp never holds a single quote, so it cannot break the command around it. |
| DateTimes.DecimalRoundTrip | clickhouse.rs:84 | The `{}` rendering of a trade id is digits only and reads back to the id. |
| DateTimes.YearOfDayCorrect | clickhouse.rs:72 | Splitting a day count into a year and a day of that year: the day lies in that year, and the years before it plus the day give the count back. |
| DateTimes.MonthOfDayCorrect | clickhouse.rs:72 | Splitting a day of the year into a month and a day of that month: the day lies in that month, and the months before it plus the day give the day of the year back. |
| DateTimes.CivilFromEpoch | clickhouse.rs:72 | `NaiveDateTime::from_timestamp(secs, 0)` for seconds since 1970: whole days into year, month and day, and the rest into the clock. `DateTimes.CivilFromEpochCorrect` and `DateTimes.CivilFromEpochInverse` pin its behaviour down. |
| DateTimes.CivilFromEpochCorrect | clickhouse.rs:72 | `from_timestamp(secs, 0)` yields a well-formed date-time from 1970 on, with zero nanoseconds, that lies exactly `secs` seconds after the epoch. |
| DateTimes.CivilFromEpochInverse | clickhouse.rs:72 | Every well-formed date-time from 1970 on without a fraction is what the conversion gives for its own epoch seconds. The conversion is therefore onto. |
| Commands.Values | clickhouse.rs:81-87 | A row renders one value per column of its table. |
| Commands.Render | clickhouse.rs:81-150 | The `format!` text of each insert function: the four templates at 81-87, 103-107, 124-129 and 145-150, written out literally. The `btc_price` template is the same at clickhouse_rocket.rs:154-158. `Commands.RenderFollowsTemplate` and `Commands.CommandRoundTrip` pin its behaviour down. |
| Commands.RenderFollowsTemplate | clickhouse.rs:81-150 | Every command is its table's `INSERT INTO <table> (<columns>) VALUES ('` header, then the values in column order separated by `', '`, then `')`. This covers the four templates at 81-87, 103-107, 124-129 and 145-150. |
| Commands.ParseJoinedValues | clickhouse.rs:124-129 | Quoted values joined by `', '` and closed by `')` read back as the same list of values, when none holds a single quote. |
| Commands.CommandRoundTrip | clickhouse.rs:81-150 | Reading a row's command back gives exactly the row's values. Price, quantity and amount strings reach the endpoint byte for byte. Nothing is parsed, rounded or reformatted. This holds when the strings hold no single quote. |
| Commands.QuoteShiftsValueBoundaries | clickhouse.rs:124-129 | Nothing is escaped. The bid rows `("1', '2", "3")` and `("1", "2', '3")` differ, yet they post the same command text. |
| Sinks.Sink.Post | clickhouse.rs:89-92 | One POST per insert. The counter grows by one. The row is logged as sent exactly when a response came back, whatever its status. |
| Sinks.PostAllPrefix | clickhouse.rs:54-74 | Posting rows in order until the first send failure delivers a prefix of them. It makes one POST per delivered row, plus the failed one. When nothing fails, every row is delivered. |
| Sinks.PostAllCompletes | clickhouse.rs:54-74 | Posting all the rows succeeds exactly when every one of their POSTs gets a response. It then delivers all of them with one POST each. |
| Sinks.PostAllStops | clickhouse.rs:92 | After a failed POST, no later row is ever posted. |
| ClickHouse.TradeTimeWholeSeconds | clickhouse.rs:72 | A trade is stamped with the whole second its millisecond time falls in. The stamp has zero nanoseconds and satisfies `1000 * secs <= time < 1000 * secs + 1000`. |
| ClickHouse.TradeTimeSameSecond | clickhouse.rs:72 | Two trades get the same stamp exactly when their times fall in the same second. Sub-second precision is discarded, and nothing else is. |
| ClickHouse.TradeTimeExample | clickhouse.rs:72 | A trade at 1700000000500 ms is stamped 2023-11-14 22:13:20. |
| ClickHouse.TradeTime | clickhouse.rs:72 | A trade's stamp: `from_timestamp(time / 1000, 0)`. `ClickHouse.TradeTimeWholeSeconds`, `ClickHouse.TradeTimeSameSecond` and `ClickHouse.TradeTimeExample` pin its behaviour down. |
| ClickHouse.LevelRows | clickhouse.rs:57-66 | Each ladder entry, in order, becomes a `btc_bids` row stamped `now` with the entry's price and quantity. |
| ClickHouse.TradeRows | clickhouse.rs:69-74 | Each trade, in order, becomes a `btc_trades` row with its own stamp, id, price and quantity. |
| ClickHouse.PassRows | clickhouse.rs:53-74 | The rows one pass issues once its fetches succeeded: the price, the bids, the asks, the trades. `ClickHouse.PassRowsLayout` and `ClickHouse.PassRowsStampsAndTables` pin its behaviour down. |
| ClickHouse.PassRowsLength | clickhouse.rs:54-74 | A pass issues 1 + bids + asks + trades inserts. |
| ClickHouse.PassRowsLayout | clickhouse.rs:53-74 | A pass issues, in order: the price stamped `now`, every bid, every ask as a bid row, then every trade. Each row is at its fixed position and carries its source values. |
| ClickHouse.PassRowsStampsAndTables | clickhouse.rs:53-66 | The price row and every ladder row carry the one instant captured at line 53. No row goes to `btc_asks`. |
| ClickHouse.InsertPriceIntoClickHouse | clickhouse.rs:101-119 | One POST of the `btc_price` row. A send failure aborts, which is the `.expect` panic. Any response is only logged. |
| ClickHouse.InsertBidIntoClickHouse | clickhouse.rs:122-141 | One POST of the `btc_bids` row. A send failure aborts; any response is only logged. |
| ClickHouse.InsertAskIntoClickHouse | clickhouse.rs:143-162 | One POST of the `btc_asks` row. It is defined but never called. |
| ClickHouse.InsertTradeIntoClickHouse | clickhouse.rs:79-99 | One POST of the `btc_trades` row. A send failure aborts; any response is only logged. |
| ClickHouse.FetchFailureWritesNothing | clickhouse.rs:47-49 | If any fetch fails, the pass ends with the first failing fetch's error and makes no POST. |
| ClickHouse.PassEffect | clickhouse.rs:41-77 | What a pass does to the endpoint: nothing and the first fetch error, or its rows posted until a send failure and then a panic or `Ok`. `ClickHouse.FetchAndPrintData` is proved to follow it. `ClickHouse.FetchFailureWritesNothing` and `ClickHouse.PassDeliversAllRows` pin its behaviour down. |
| ClickHouse.PassDeliversAllRows | clickhouse.rs:47-76 | With every fetch and every POST succeeding, a pass delivers exactly its 1 + bids + asks + trades rows, in order, and returns `Ok`. |
| ClickHouse.FetchAndPrintData | clickhouse.rs:41-77 | The sink's log and counter after a pass are those that `PassEffect` gives. The result is the fetch error, a panic, or `Ok`. |
| ClickHouse.InsertFetched | clickhouse.rs:53-74 | After the fetches, the pass posts its rows in order until a send failure. |
| ClickHouse.InsertPassRows | clickhouse.rs:53-74 | The price insert and the three loops together post all of the pass's rows, stopping at a send failure. |
| ClickHouse.InsertLevels | clickhouse.rs:57-60 | The ladder loop posts one bid row per entry, in order, and stops at a send failure. |
| ClickHouse.InsertTrades | clickhouse.rs:69-74 | The trade loop posts one trade row per trade, each stamped `time / 1000`, and stops at a send failure. |
| ClickHouse.RunEffectStops | clickhouse.rs:92 | Once a pass has panicked, no later pass runs. |
| ClickHouse.RunEffect | clickhouse.rs:31-39 | What `main`'s loop does over a sequence of passes: each pass runs after the previous one, until one panics. `ClickHouse.RunMainLoop` is proved to follow it. `ClickHouse.RunEffectStops`, `ClickHouse.MainLoopSurvivesFetchErrors` and `ClickHouse.MainLoopNeverWritesAsks` pin its behaviour down. |
| ClickHouse.MainLoopSurvivesFetchErrors | clickhouse.rs:31-39 | A fetch error never stops the loop. While the endpoint answers, every pass runs. The endpoint receives the rows of every pass whose fetches succeeded, and nothing else. |
| ClickHouse.MainLoopNeverWritesAsks | clickhouse.rs:63-66 | However far the loop gets, no delivered row goes to `btc_asks`. |
| ClickHouse.RunMainLoop | clickhouse.rs:31-39 | The loop runs every pass until one panics. The sink's log and counter are those that `RunEffect` gives. |
| ClickHouseRocket.BinanceOrderBookData | clickhouse_rocket.rs:88-103 | The result is `Ok` exactly when the depth request succeeded. The bid and ask ladders come back unchanged and in order, and together with the update id they rebuild the book. A failed request passes its error on. |
| ClickHouseRocket.InsertPriceIntoClickHouse | clickhouse_rocket.rs:152-171 | One POST. The result is `Ok` exactly when a response came back, whatever its status, and `Err` only when the POST could not be sent. |
| ClickHouseRocket.BtcPriceEffect | clickhouse_rocket.rs:105-118 | What `binance_btc_price` does: nothing on a fetch error; otherwise one POST, then `Err` if it could not be sent, or the price and time. `ClickHouseRocket.BinanceBtcPrice` is proved to follow it. `ClickHouseRocket.BtcPriceReturnsFetchedPrice` pins its behaviour down. |
| ClickHouseRocket.BinanceBtcPrice | clickhouse_rocket.rs:105-118 | The sink's log and counter and the result are those that `BtcPriceEffect` gives. |
| ClickHouseRocket.BtcPriceReturnsFetchedPrice | clickhouse_rocket.rs:105-118 | The call succeeds exactly when the ticker was fetched and its one POST was sent. It then has inserted one price row stamped `now`. It returns the fetched price string unchanged, with `now` as text that starts with the row's stamp. A fetch error posts nothing. A send failure is an `Err` even though a price was fetched. |
| ClickHouseRocket.PriceCommandReadsBack | clickhouse_rocket.rs:154-158 | The price command is the `btc_price` template. It reads back the fetched price string and the capture instant, to the second. |
| ClickHouseRocket.TickEffect | clickhouse_rocket.rs:136-146 | What one loop iteration does: `binance_btc_price`, then on its success a second insert of the returned price, stamped with the loop's instant, whose error is ignored. `ClickHouseRocket.PeriodicIteration` is proved to follow it. `ClickHouseRocket.TickPostsItsRows` and `ClickHouseRocket.TickDeliversItsPrice` pin its behaviour down. |
| ClickHouseRocket.TickRows | clickhouse_rocket.rs:110-139 | The rows one iteration sets out to insert: none on a fetch error, otherwise the fetched price stamped at line 110, then again stamped at line 136. `ClickHouseRocket.TickPostsItsRows` relates it to `ClickHouseRocket.TickEffect`. |
| ClickHouseRocket.TickPostsItsRows | clickhouse_rocket.rs:136-146 | One loop iteration posts the fetched price twice: first stamped at line 110, then at line 136. It stops at the first POST that cannot be sent, and a failed fetch posts nothing. |
| ClickHouseRocket.TickDeliversItsPrice | clickhouse_rocket.rs:137-141 | Every row one iteration delivers is a `btc_price` row with the price that iteration fetched. |
| ClickHouseRocket.PeriodicEffect | clickhouse_rocket.rs:134-150 | What the endless loop does over a sequence of iterations: every iteration runs after the previous one, whatever it came to. `ClickHouseRocket.RunPeriodic` is proved to follow it. `ClickHouseRocket.PeriodicEveryIterationRuns`, `ClickHouseRocket.PeriodicAllDelivered` and `ClickHouseRocket.PeriodicOnlyPrices` pin its behaviour down. |
| ClickHouseRocket.PeriodicAllDelivered | clickhouse_rocket.rs:134-150 | While the endpoint answers, the loop delivers the rows of every iteration: two per successful fetch, none for a failed one. |
| ClickHouseRocket.PeriodicEveryIterationRuns | clickhouse_rocket.rs:137-146 | A send failure never stops the loop. Whatever the earlier iterations came to, iteration n runs. When its fetch succeeds, it makes one POST, or two when the first one is sent, and it keeps every row delivered before it. When its fetch fails, it changes nothing. |
| ClickHouseRocket.PeriodicKeepsPosting | clickhouse_rocket.rs:137-146 | Over the whole run, the POST count lies between one and two per successful fetch, and at most two rows per successful fetch are delivered. |
| ClickHouseRocket.PeriodicRowsPaired | clickhouse_rocket.rs:110-139 | Every fetched price is inserted twice in a row. The rows come in pairs, all go to `btc_price`, and the two rows of a pair carry the same price string. |
| ClickHouseRocket.PeriodicOnlyPrices | clickhouse_rocket.rs:134-150 | Whatever the network does, the loop writes only `btc_price` rows, and only prices it fetched. |
| ClickHouseRocket.PeriodicIteration | clickhouse_rocket.rs:136-146 | One iteration changes the sink as `TickEffect` says. |
| ClickHouseRocket.RunPeriodic | clickhouse_rocket.rs:134-150 | The loop runs every iteration, whatever the earlier ones came to. The sink's log and counter are those that `PeriodicEffect` gives. |

## Left out

- rocket.rs is not part of this model. It holds only Rocket routing and HTTP fetching, and its call to `insert_price_into_clickhouse` refers to a function it does not define.
- The Rocket route handlers (clickhouse_rocket.rs:56-86), `main`, `tokio::spawn` and the async runtime are left out. They are web-framework plumbing and concurrency.
- `binance_btc_trades` (clickhouse_rocket.rs:120-132) is left out. It calls `insert_trades_into_clickhouse`, which is defined nowhere in the repository.
- The HTTP requests and JSON decoding are left out. Each fetch is an input `Result`, and each POST's outcome comes from the sink's `network` function.
- The symbols and URLs are left out, since they are constant and reach no command.
- `Utc::now()` is left out. Each capture instant is a parameter.
- The sleeps (500 ms and 2 s) are left out, as are all `println!`/`eprintln!` output and the HTTP status in log lines.
- The endless loops are modelled for a finite sequence of iterations given as input.
- The fresh `reqwest` client each insert creates is left out.
- Leap seconds and time zones are left out. `NaiveDateTime` is naive UTC, and the model has no leap-second representation.
- ClickHouse.TradeTime: requires `time < 2^63`. This stands in for the `u64 as i64` cast, whose wrap-around for larger values is not modelled.
- ClickHouse.FetchAndPrintData: requires every trade time to be convertible. This stands in for the panic in `from_timestamp` when the year is out of chrono's range. Ruling that case out is the same requirement for `ClickHouse.RunMainLoop`.
- ClickHouse.RunMainLoop: requires every trade time of every pass to be convertible. This stands in for the same panic in `from_timestamp` when the year is out of chrono's range.
- DateTimes.FormatRoundTrip: stated for years 0 to 9999 only, where `%Y` prints exactly four digits.
- ClickHouseRocket.PriceCommandReadsBack: stated for years 0 to 9999 and for price strings without single quotes.
- Commands.CommandRoundTrip: stated for values without single quotes, because the code does not escape.
