/** clickhouse_rocket.rs: the price poller behind the web routes. `binance_btc_price`
    fetches the ticker and inserts one price row; the periodic loop calls it and then
    inserts the fetched price once more. A send failure is an `Err`, never a panic, and
    the loop goes on whatever happens. */
module ClickHouseRocket {
  import opened Results
  import opened DateTimes
  import opened Commands
  import opened Sinks

  datatype TickerPrice = TickerPrice(symbol: string, price: string)

  /** The price a caller of `binance_btc_price` gets back, with its capture time as text. */
  datatype BtcPrice = BtcPrice(price: string, time: string)

  /** The decoded depth response; each ladder entry is a list of strings. */
  datatype OrderBook = OrderBook(lastUpdateId: int, bids: seq<seq<string>>, asks: seq<seq<string>>)

  datatype Bids = Bids(bids: seq<seq<string>>)

  datatype Asks = Asks(asks: seq<seq<string>>)

  /** The `reqwest::Error` a call ends with: a GET or its decoding failed, or a POST
      could not be sent. */
  datatype RequestError = Fetch(cause: FetchError) | Send

  /** What a run of POSTs leaves behind: the rows whose command reached the endpoint,
      and the POST counter. */
  datatype Trace = Trace(delivered: seq<Row>, attempts: nat)

  // ---------------------------------------------------------------------------
  // binance_order_book_data

  /** `binance_order_book_data`, given the outcome of the depth request: the two ladders
      of the book, split apart and otherwise untouched. */
  function BinanceOrderBookData(fetched: Result<OrderBook, FetchError>): (r: Result<(Bids, Asks), RequestError>)
    ensures r.Ok? <==> fetched.Ok?
    ensures fetched.Err? ==> r == Err(Fetch(fetched.error))
    ensures fetched.Ok? ==>
      OrderBook(fetched.value.lastUpdateId, r.value.0.bids, r.value.1.asks) == fetched.value
  {
    match fetched
    case Err(e) => Err(Fetch(e))
    case Ok(book) => Ok((Bids(book.bids), Asks(book.asks)))
  }

  // ---------------------------------------------------------------------------
  // insert_price_into_clickhouse and binance_btc_price

  /** `insert_price_into_clickhouse`: one POST of the `btc_price` command. Only a POST
      that cannot be sent is an `Err`; a non-success status is logged and the call is `Ok`. */
  method InsertPriceIntoClickHouse(sink: Sink, timestamp: DateTime, price: string)
    returns (r: Result<(), RequestError>)
    modifies sink
    ensures sink.attempts == old(sink.attempts) + 1
    ensures r.Ok? <==> sink.network(old(sink.attempts)).Response?
    ensures r.Err? ==> r.error == Send
    ensures sink.sent == if r.Ok? then old(sink.sent) + [PriceRow(timestamp, price)] else old(sink.sent)
  {
    var d := sink.Post(PriceRow(timestamp, price));
    if d.SendFailed? {
      return Err(Send);
    }
    return Ok(());
  }

  /** What `binance_btc_price` does from POST number `a` on, given the outcome of the
      ticker request and the capture instant `now`. */
  function BtcPriceEffect(ticker: Result<TickerPrice, FetchError>, now: DateTime,
                          network: nat -> Delivery, a: nat): (Trace, Result<BtcPrice, RequestError>) {
    match ticker
    case Err(e) => (Trace([], a), Err(Fetch(e)))
    case Ok(t) =>
      if network(a).SendFailed? then (Trace([], a + 1), Err(Send))
      else (Trace([PriceRow(now, t.price)], a + 1), Ok(BtcPrice.BtcPrice(t.price, DisplayText(now))))
  }

  /** `binance_btc_price`, with the ticker request's outcome and `Utc::now()` as inputs. */
  method BinanceBtcPrice(sink: Sink, ticker: Result<TickerPrice, FetchError>, now: DateTime)
    returns (r: Result<BtcPrice, RequestError>)
    modifies sink
    ensures var e := BtcPriceEffect(ticker, now, sink.network, old(sink.attempts));
      sink.sent == old(sink.sent) + e.0.delivered && sink.attempts == e.0.attempts && r == e.1
  {
    if ticker.Err? {
      return Err(Fetch(ticker.error));
    }
    var inserted := InsertPriceIntoClickHouse(sink, now, ticker.value.price);
    if inserted.Err? {
      return Err(inserted.error);
    }
    return Ok(BtcPrice.BtcPrice(ticker.value.price, DisplayText(now)));
  }

  /** `binance_btc_price` succeeds exactly when the ticker was fetched and its one POST
      was sent, whatever status came back. It then has inserted the price once, stamped
      `now`, and returns the fetched price string unchanged with `now` as text, whose
      leading part is the stamp of the inserted row. A fetch error posts nothing; a
      POST that cannot be sent is an `Err` although a price was fetched. */
  lemma BtcPriceReturnsFetchedPrice(ticker: Result<TickerPrice, FetchError>, now: DateTime,
                                    network: nat -> Delivery, a: nat)
    ensures var e := BtcPriceEffect(ticker, now, network, a);
      e.1.Ok? <==> ticker.Ok? && network(a).Response?
    ensures var e := BtcPriceEffect(ticker, now, network, a);
      e.1.Ok? ==>
        e.0 == Trace([PriceRow(now, ticker.value.price)], a + 1) &&
        e.1.value.price == ticker.value.price &&
        |Format(now)| <= |e.1.value.time| && e.1.value.time[..|Format(now)|] == Format(now)
    ensures ticker.Err? ==> BtcPriceEffect(ticker, now, network, a) == (Trace([], a), Err(Fetch(ticker.error)))
    ensures ticker.Ok? && network(a).SendFailed? ==>
      BtcPriceEffect(ticker, now, network, a) == (Trace([], a + 1), Err(Send))
  {
    if ticker.Ok? && network(a).Response? {
      var text := DisplayText(now);
      assert text == Format(now) + FractionText(now.nanosecond);
      assert text[..|Format(now)|] == Format(now);
    }
  }

  /** The command `binance_btc_price` posts is the `btc_price` template, and it reads
      back the capture instant, to the second, and the price string as fetched. */
  lemma PriceCommandReadsBack(now: DateTime, price: string)
    requires '\'' !in price
    requires Valid(now) && 0 <= now.year <= 9999
    ensures Render(PriceRow(now, price)) == Header(Table.BtcPrice) + Format(now) + Separator + price + Closing
    ensures ParseCommand(Table.BtcPrice, Render(PriceRow(now, price))) == Some([Format(now), price])
    ensures ParseFormat(Format(now)) == Some(now.(nanosecond := 0))
  {
    RenderFollowsTemplate(PriceRow(now, price));
    JoinTwo(Format(now), price, Separator);
    CommandRoundTrip(PriceRow(now, price));
    FormatRoundTrip(now);
  }

  // ---------------------------------------------------------------------------
  // periodic_insert_into_clickhouse

  /** One iteration of the periodic loop: the instant taken at the top of the loop, the
      outcome of the ticker request, and the instant `binance_btc_price` takes after it. */
  datatype Tick = Tick(loopTime: DateTime, ticker: Result<TickerPrice, FetchError>, fetchTime: DateTime)

  /** What one iteration does from POST number `a` on: `binance_btc_price`, and on its
      success a second insert of the returned price, stamped with the loop's instant. */
  function TickEffect(t: Tick, network: nat -> Delivery, a: nat): Trace {
    var (q, r) := BtcPriceEffect(t.ticker, t.fetchTime, network, a);
    match r
    case Err(_) => q
    case Ok(data) =>
      var again := if network(q.attempts).Response? then [PriceRow(t.loopTime, data.price)] else [];
      Trace(q.delivered + again, q.attempts + 1)
  }

  /** The rows one iteration sets out to insert: none when the fetch fails, otherwise the
      fetched price twice, first stamped by `binance_btc_price`, then by the loop. */
  function TickRows(t: Tick): seq<Row> {
    match t.ticker
    case Err(_) => []
    case Ok(tp) => [PriceRow(t.fetchTime, tp.price), PriceRow(t.loopTime, tp.price)]
  }

  /** An iteration posts its two rows one after the other, stopping at the first POST
      that cannot be sent: the second insert is only reached when the first was sent. */
  lemma TickPostsItsRows(t: Tick, network: nat -> Delivery, a: nat)
    ensures TickEffect(t, network, a) ==
      Trace(PostAll(TickRows(t), network, a).delivered, PostAll(TickRows(t), network, a).attempts)
  {
    var rows := TickRows(t);
    if t.ticker.Ok? {
      assert rows[..0] == [];
      PostAllNext(rows, network, a, 0);
      PostAllNext(rows, network, a, 1);
      assert rows[..2] == rows;
    }
  }

  /** What one iteration delivers is the price it fetched, in the `btc_price` table. */
  lemma TickDeliversItsPrice(t: Tick, network: nat -> Delivery, a: nat)
    ensures forall k :: 0 <= k < |TickEffect(t, network, a).delivered| ==>
      t.ticker.Ok? && TickEffect(t, network, a).delivered[k].PriceRow? &&
      TickEffect(t, network, a).delivered[k].price == t.ticker.value.price
  {
    var d := TickEffect(t, network, a).delivered;
    if t.ticker.Err? || network(a).SendFailed? {
      assert d == [];
    } else {
      var price := t.ticker.value.price;
      var again := if network(a + 1).Response? then [PriceRow(t.loopTime, price)] else [];
      assert d == [PriceRow(t.fetchTime, price)] + again;
      forall k | 0 <= k < |d|
        ensures d[k].PriceRow? && d[k].price == price
      {
        if k > 0 {
          assert d[k] == again[k - 1];
        }
      }
    }
  }

  /** The iterations of the endless loop over `ticks`, from POST number `a` on: every
      iteration runs, whatever the one before it came to. */
  function PeriodicEffect(ticks: seq<Tick>, network: nat -> Delivery, a: nat): Trace {
    if ticks == [] then Trace([], a)
    else
      var r := PeriodicEffect(ticks[..|ticks| - 1], network, a);
      var e := TickEffect(ticks[|ticks| - 1], network, r.attempts);
      Trace(r.delivered + e.delivered, e.attempts)
  }

  /** The rows of all iterations, in order. */
  function PeriodicRows(ticks: seq<Tick>): seq<Row> {
    if ticks == [] then []
    else PeriodicRows(ticks[..|ticks| - 1]) + TickRows(ticks[|ticks| - 1])
  }

  /** The iterations whose ticker request succeeded. */
  function FetchedCount(ticks: seq<Tick>): nat {
    if ticks == [] then 0
    else FetchedCount(ticks[..|ticks| - 1]) + if ticks[|ticks| - 1].ticker.Ok? then 1 else 0
  }

  /** While the endpoint answers every POST, the loop delivers the rows of every
      iteration, two per successful fetch, and none for a failed one. */
  lemma {:induction false} PeriodicAllDelivered(ticks: seq<Tick>, network: nat -> Delivery, a: nat)
    requires forall n :: a <= n ==> network(n).Response?
    ensures PeriodicEffect(ticks, network, a) == Trace(PeriodicRows(ticks), a + |PeriodicRows(ticks)|)
    ensures |PeriodicRows(ticks)| == 2 * FetchedCount(ticks)
  {
    if ticks != [] {
      var init := ticks[..|ticks| - 1];
      var t := ticks[|ticks| - 1];
      PeriodicAllDelivered(init, network, a);
      var r := PeriodicEffect(init, network, a);
      TickPostsItsRows(t, network, r.attempts);
      PostAllCompletes(TickRows(t), network, r.attempts);
    }
  }

  /** A send failure never stops the loop: every iteration whose fetch succeeds makes
      one or two POSTs, and one whose fetch fails makes none. */
  lemma {:induction false} PeriodicKeepsPosting(ticks: seq<Tick>, network: nat -> Delivery, a: nat)
    ensures a + FetchedCount(ticks) <= PeriodicEffect(ticks, network, a).attempts <= a + 2 * FetchedCount(ticks)
    ensures |PeriodicEffect(ticks, network, a).delivered| <= 2 * FetchedCount(ticks)
  {
    if ticks != [] {
      PeriodicKeepsPosting(ticks[..|ticks| - 1], network, a);
    }
  }

  /** A send failure never stops the loop: whatever the iterations before it came to,
      iteration `n` runs. When its fetch succeeds it makes one POST, or two when the
      first is sent, and it keeps every row delivered before it; when its fetch fails it
      changes nothing. */
  lemma PeriodicEveryIterationRuns(ticks: seq<Tick>, network: nat -> Delivery, a: nat, n: nat)
    requires n < |ticks|
    ensures var r := PeriodicEffect(ticks[..n], network, a);
      var s := PeriodicEffect(ticks[..n + 1], network, a);
      ticks[n].ticker.Ok? ==>
        s.attempts == r.attempts + (if network(r.attempts).Response? then 2 else 1) &&
        |r.delivered| <= |s.delivered| && s.delivered[..|r.delivered|] == r.delivered
    ensures ticks[n].ticker.Err? ==>
      PeriodicEffect(ticks[..n + 1], network, a) == PeriodicEffect(ticks[..n], network, a)
  {
    PeriodicNext(ticks, network, a, n);
    var r := PeriodicEffect(ticks[..n], network, a);
    var e := TickEffect(ticks[n], network, r.attempts);
    assert (r.delivered + e.delivered)[..|r.delivered|] == r.delivered;
  }

  /** Every fetched price is inserted twice in a row: in the rows of the loop, each row
      at an odd position repeats the price of the row before it, and all go to `btc_price`. */
  lemma {:induction false} PeriodicRowsPaired(ticks: seq<Tick>)
    ensures |PeriodicRows(ticks)| % 2 == 0
    ensures forall k :: 0 <= k < |PeriodicRows(ticks)| ==> PeriodicRows(ticks)[k].PriceRow?
    ensures forall k :: 0 <= k < |PeriodicRows(ticks)| && k % 2 == 1 ==>
      PeriodicRows(ticks)[k].price == PeriodicRows(ticks)[k - 1].price
  {
    if ticks != [] {
      var init := ticks[..|ticks| - 1];
      PeriodicRowsPaired(init);
      var rs := PeriodicRows(init);
      var ts := TickRows(ticks[|ticks| - 1]);
      var all: seq<Row> := rs + ts;
      assert PeriodicRows(ticks) == all;
      forall k | 0 <= k < |all| && k % 2 == 1
        ensures all[k].price == all[k - 1].price
      {
        if k >= |rs| {
          assert k - |rs| == 1;
        }
      }
    }
  }

  /** `price` is the price some iteration of `ticks` fetched. */
  predicate Fetched(ticks: seq<Tick>, price: string) {
    exists j :: 0 <= j < |ticks| && ticks[j].ticker.Ok? && ticks[j].ticker.value.price == price
  }

  /** Whatever the network does, the loop only ever writes to `btc_price`, and only
      prices it fetched. */
  lemma {:induction false} PeriodicOnlyPrices(ticks: seq<Tick>, network: nat -> Delivery, a: nat)
    ensures forall k :: 0 <= k < |PeriodicEffect(ticks, network, a).delivered| ==>
      PeriodicEffect(ticks, network, a).delivered[k].PriceRow? &&
      Fetched(ticks, PeriodicEffect(ticks, network, a).delivered[k].price)
  {
    if ticks != [] {
      var init := ticks[..|ticks| - 1];
      var t := ticks[|ticks| - 1];
      PeriodicOnlyPrices(init, network, a);
      var r := PeriodicEffect(init, network, a);
      var e := TickEffect(t, network, r.attempts);
      var d := PeriodicEffect(ticks, network, a).delivered;
      assert d == r.delivered + e.delivered;
      TickDeliversItsPrice(t, network, r.attempts);
      forall k | 0 <= k < |d|
        ensures d[k].PriceRow? && Fetched(ticks, d[k].price)
      {
        if k < |r.delivered| {
          assert d[k] == r.delivered[k];
          var j :| 0 <= j < |init| && init[j].ticker.Ok? && init[j].ticker.value.price == r.delivered[k].price;
          assert ticks[j] == init[j];
        } else {
          assert e.delivered[k - |r.delivered|] == d[k];
          assert ticks[|ticks| - 1] == t;
        }
      }
    }
  }

  /** One more iteration: the step the loop takes. */
  lemma PeriodicNext(ticks: seq<Tick>, network: nat -> Delivery, a: nat, n: nat)
    requires n < |ticks|
    ensures var r := PeriodicEffect(ticks[..n], network, a);
      var e := TickEffect(ticks[n], network, r.attempts);
      PeriodicEffect(ticks[..n + 1], network, a) == Trace(r.delivered + e.delivered, e.attempts)
  {
    assert ticks[..n + 1][..n] == ticks[..n];
  }

  /** One iteration of `periodic_insert_into_clickhouse` (the 2 s sleep is left out). */
  method PeriodicIteration(sink: Sink, t: Tick)
    modifies sink
    ensures var e := TickEffect(t, sink.network, old(sink.attempts));
      sink.sent == old(sink.sent) + e.delivered && sink.attempts == e.attempts
  {
    var fetched := BinanceBtcPrice(sink, t.ticker, t.fetchTime);
    if fetched.Ok? {
      var inserted := InsertPriceIntoClickHouse(sink, t.loopTime, fetched.value.price);
    }
  }

  /** `periodic_insert_into_clickhouse`'s endless loop, run for the iterations in
      `ticks`: fetch and insert errors are logged and the loop goes on. */
  method RunPeriodic(sink: Sink, ticks: seq<Tick>)
    modifies sink
    ensures var e := PeriodicEffect(ticks, sink.network, old(sink.attempts));
      sink.sent == old(sink.sent) + e.delivered && sink.attempts == e.attempts
  {
    ghost var a0, s0 := sink.attempts, sink.sent;
    assert ticks[..0] == [];
    var i := 0;
    while i < |ticks|
      invariant 0 <= i <= |ticks|
      invariant var e := PeriodicEffect(ticks[..i], sink.network, a0);
        sink.sent == s0 + e.delivered && sink.attempts == e.attempts
    {
      PeriodicNext(ticks, sink.network, a0, i);
      PeriodicIteration(sink, ticks[i]);
      i := i + 1;
    }
    assert ticks[..|ticks|] == ticks;
  }
}
