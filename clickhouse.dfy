/** clickhouse.rs: the blocking poller. Each pass fetches the ticker, the order book
    and the recent trades, then posts one insert per row: the price, every bid, every
    ask (through the bid insert, into `btc_bids`) and every trade. A send failure
    panics, which ends the process; a fetch failure ends the pass before any insert. */
module ClickHouse {
  import opened Results
  import opened DateTimes
  import opened Commands
  import opened Sinks

  /** `trade.time as i64` keeps the value only below this bound. */
  const I64Bound: nat := 0x8000_0000_0000_0000

  datatype TickerPrice = TickerPrice(symbol: string, price: string)

  /** One `[String; 2]` ladder entry: price, then quantity. */
  datatype Level = Level(price: string, quantity: string)

  datatype OrderBook = OrderBook(lastUpdateId: nat, bids: seq<Level>, asks: seq<Level>)

  datatype RecentTrade = RecentTrade(id: nat, price: string, qty: string, time: nat)

  // ---------------------------------------------------------------------------
  // Trade timestamps

  /** The trade's time survives the `as i64` cast and chrono can represent its date. */
  predicate Representable(t: RecentTrade) {
    t.time < I64Bound && InChronoRange(t.time / 1000)
  }

  /** `NaiveDateTime::from_timestamp(trade.time as i64 / 1000, 0)`: the milliseconds
      are cut to whole seconds (the cast keeps the value non-negative, so Rust's
      truncating division and Dafny's agree). */
  function TradeTime(t: RecentTrade): DateTime
    requires t.time < I64Bound
  {
    CivilFromEpoch(t.time / 1000)
  }

  /** A trade row is stamped with the whole second its millisecond time falls in. */
  lemma TradeTimeWholeSeconds(t: RecentTrade)
    requires t.time < I64Bound
    ensures TradeTime(t).nanosecond == 0
    ensures 1 <= TradeTime(t).month <= 12
    ensures 1000 * EpochSeconds(TradeTime(t)) <= t.time < 1000 * EpochSeconds(TradeTime(t)) + 1000
  {
    CivilFromEpochCorrect(t.time / 1000);
  }

  /** Two trades get the same timestamp exactly when their times fall in the same
      second: sub-second precision is discarded and nothing else is. */
  lemma TradeTimeSameSecond(t: RecentTrade, u: RecentTrade)
    requires t.time < I64Bound && u.time < I64Bound
    ensures TradeTime(t) == TradeTime(u) <==> t.time / 1000 == u.time / 1000
  {
    CivilFromEpochCorrect(t.time / 1000);
    CivilFromEpochCorrect(u.time / 1000);
  }

  /** A trade at 1_700_000_000_500 ms is stamped 2023-11-14 22:13:20. */
  lemma TradeTimeExample(t: RecentTrade)
    requires t.time == 1_700_000_000_500
    ensures TradeTime(t) == DateTime(2023, 11, 14, 22, 13, 20, 0)
  {
    var dt := DateTime(2023, 11, 14, 22, 13, 20, 0);
    assert DaysBeforeYear(2023) == 19358;
    assert EpochSeconds(dt) == 1_700_000_000 == t.time / 1000;
    CivilFromEpochInverse(dt, t.time / 1000);
  }

  // ---------------------------------------------------------------------------
  // The rows of one pass

  /** One row per ladder entry, all stamped `now`, through `insert_bid_into_clickhouse`. */
  function LevelRows(now: DateTime, levels: seq<Level>): (rows: seq<Row>)
    ensures |rows| == |levels|
    ensures forall k :: 0 <= k < |levels| ==>
      rows[k] == BidRow(now, levels[k].price, levels[k].quantity)
  {
    if levels == [] then []
    else LevelRows(now, levels[..|levels| - 1])
         + [BidRow(now, levels[|levels| - 1].price, levels[|levels| - 1].quantity)]
  }

  /** One row per trade, each stamped with its own whole-second time. */
  function TradeRows(trades: seq<RecentTrade>): (rows: seq<Row>)
    requires forall k :: 0 <= k < |trades| ==> trades[k].time < I64Bound
    ensures |rows| == |trades|
    ensures forall k :: 0 <= k < |trades| ==>
      rows[k] == TradeRow(TradeTime(trades[k]), trades[k].id, trades[k].price, trades[k].qty)
  {
    if trades == [] then []
    else
      var t := trades[|trades| - 1];
      TradeRows(trades[..|trades| - 1]) + [TradeRow(TradeTime(t), t.id, t.price, t.qty)]
  }

  /** The inserts one pass issues once all three fetches succeeded, in issuing order. */
  function PassRows(price: string, book: OrderBook, trades: seq<RecentTrade>, now: DateTime): seq<Row>
    requires forall k :: 0 <= k < |trades| ==> trades[k].time < I64Bound
  {
    [PriceRow(now, price)] + LevelRows(now, book.bids) + LevelRows(now, book.asks) + TradeRows(trades)
  }

  /** A pass issues one insert for the price, one per level of either ladder and one per trade. */
  lemma PassRowsLength(price: string, book: OrderBook, trades: seq<RecentTrade>, now: DateTime)
    requires forall k :: 0 <= k < |trades| ==> trades[k].time < I64Bound
    ensures |PassRows(price, book, trades, now)| == 1 + |book.bids| + |book.asks| + |trades|
  {
  }

  /** A pass issues 1 + |bids| + |asks| + |trades| inserts: the price, the bids in
      order, the asks in order (as bid rows), then the trades in order. */
  lemma PassRowsLayout(price: string, book: OrderBook, trades: seq<RecentTrade>, now: DateTime)
    requires forall k :: 0 <= k < |trades| ==> trades[k].time < I64Bound
    ensures |PassRows(price, book, trades, now)| == 1 + |book.bids| + |book.asks| + |trades|
    ensures PassRows(price, book, trades, now)[0] == PriceRow(now, price)
    ensures forall k :: 0 <= k < |book.bids| ==>
      PassRows(price, book, trades, now)[1 + k] == BidRow(now, book.bids[k].price, book.bids[k].quantity)
    ensures forall k :: 0 <= k < |book.asks| ==>
      PassRows(price, book, trades, now)[1 + |book.bids| + k] == BidRow(now, book.asks[k].price, book.asks[k].quantity)
    ensures forall k :: 0 <= k < |trades| ==>
      PassRows(price, book, trades, now)[1 + |book.bids| + |book.asks| + k]
        == TradeRow(TradeTime(trades[k]), trades[k].id, trades[k].price, trades[k].qty)
  {
    var bids, asks, tr := LevelRows(now, book.bids), LevelRows(now, book.asks), TradeRows(trades);
    var rows := [PriceRow(now, price)] + bids + asks + tr;
    assert rows == PassRows(price, book, trades, now);
    forall k | 0 <= k < |book.bids| ensures rows[1 + k] == bids[k] {
    }
    forall k | 0 <= k < |book.asks| ensures rows[1 + |book.bids| + k] == asks[k] {
    }
    forall k | 0 <= k < |trades| ensures rows[1 + |book.bids| + |book.asks| + k] == tr[k] {
    }
  }

  /** The price row and every ladder row of a pass carry the one capture instant
      `now`, and no row of a pass goes to `btc_asks`. */
  lemma PassRowsStampsAndTables(price: string, book: OrderBook, trades: seq<RecentTrade>, now: DateTime)
    requires forall k :: 0 <= k < |trades| ==> trades[k].time < I64Bound
    ensures var rows := PassRows(price, book, trades, now);
      (forall k :: 0 <= k < 1 + |book.bids| + |book.asks| ==> rows[k].at == now) &&
      (forall k :: 0 <= k < |rows| ==> TableOf(rows[k]) != BtcAsks)
  {
    PassRowsLayout(price, book, trades, now);
    var rows := PassRows(price, book, trades, now);
    var nb, na := |book.bids|, |book.asks|;
    forall k | 0 <= k < |rows| ensures TableOf(rows[k]) != BtcAsks && (k < 1 + nb + na ==> rows[k].at == now) {
      if k >= 1 + nb + na {
        assert rows[1 + nb + na + (k - 1 - nb - na)].TradeRow?;
      } else if k >= 1 + nb {
        assert rows[1 + nb + (k - 1 - nb)].BidRow?;
      } else if k >= 1 {
        assert rows[1 + (k - 1)].BidRow?;
      }
    }
  }

  // ---------------------------------------------------------------------------
  // The insert functions

  /** `insert_price_into_clickhouse`; `aborted` is the `.expect` panic on a send failure.
      A response with any status, success or not, is only logged. */
  method InsertPriceIntoClickHouse(sink: Sink, timestamp: DateTime, price: string)
    returns (aborted: bool)
    modifies sink
    ensures aborted == sink.network(old(sink.attempts)).SendFailed?
    ensures sink.attempts == old(sink.attempts) + 1
    ensures sink.sent == if aborted then old(sink.sent) else old(sink.sent) + [PriceRow(timestamp, price)]
  {
    var d := sink.Post(PriceRow(timestamp, price));
    aborted := d.SendFailed?;
  }

  /** `insert_bid_into_clickhouse`. */
  method InsertBidIntoClickHouse(sink: Sink, timestamp: DateTime, price: string, quantity: string)
    returns (aborted: bool)
    modifies sink
    ensures aborted == sink.network(old(sink.attempts)).SendFailed?
    ensures sink.attempts == old(sink.attempts) + 1
    ensures sink.sent ==
      if aborted then old(sink.sent) else old(sink.sent) + [BidRow(timestamp, price, quantity)]
  {
    var d := sink.Post(BidRow(timestamp, price, quantity));
    aborted := d.SendFailed?;
  }

  /** `insert_ask_into_clickhouse`: defined, but no pass calls it. */
  method InsertAskIntoClickHouse(sink: Sink, timestamp: DateTime, price: string, quantity: string)
    returns (aborted: bool)
    modifies sink
    ensures aborted == sink.network(old(sink.attempts)).SendFailed?
    ensures sink.attempts == old(sink.attempts) + 1
    ensures sink.sent ==
      if aborted then old(sink.sent) else old(sink.sent) + [AskRow(timestamp, price, quantity)]
  {
    var d := sink.Post(AskRow(timestamp, price, quantity));
    aborted := d.SendFailed?;
  }

  /** `insert_trade_into_clickhouse`. */
  method InsertTradeIntoClickHouse(sink: Sink, timestamp: DateTime, id: nat, price: string, amount: string)
    returns (aborted: bool)
    modifies sink
    ensures aborted == sink.network(old(sink.attempts)).SendFailed?
    ensures sink.attempts == old(sink.attempts) + 1
    ensures sink.sent ==
      if aborted then old(sink.sent) else old(sink.sent) + [TradeRow(timestamp, id, price, amount)]
  {
    var d := sink.Post(TradeRow(timestamp, id, price, amount));
    aborted := d.SendFailed?;
  }

  // ---------------------------------------------------------------------------
  // One pass: `fetch_and_print_data`

  /** What the three fetches of a pass returned, and the instant `Utc::now()` gave after them. */
  datatype Pass = Pass(ticker: Result<TickerPrice, FetchError>,
                       book: Result<OrderBook, FetchError>,
                       trades: Result<seq<RecentTrade>, FetchError>,
                       now: DateTime)

  /** How a pass ends: `Ok(())`, the `Err` of the first failed fetch, or a panic. */
  datatype PassOutcome = Completed | FetchFailed(error: FetchError) | Panicked

  /** Every fetched trade time can be converted without a panic. */
  predicate TradesRepresentable(p: Pass) {
    p.trades.Ok? ==> forall k :: 0 <= k < |p.trades.value| ==> Representable(p.trades.value[k])
  }

  /** All three fetches of the pass succeeded. */
  predicate AllFetched(p: Pass) {
    p.ticker.Ok? && p.book.Ok? && p.trades.Ok?
  }

  /** The `?` chain over the three fetches: the error of the first one that failed. */
  function FirstError(p: Pass): FetchError
    requires !AllFetched(p)
  {
    if p.ticker.Err? then p.ticker.error
    else if p.book.Err? then p.book.error
    else p.trades.error
  }

  /** The rows a pass whose fetches all succeeded issues. */
  function RowsOf(p: Pass): seq<Row>
    requires AllFetched(p) && TradesRepresentable(p)
  {
    PassRows(p.ticker.value.price, p.book.value, p.trades.value, p.now)
  }

  /** What a pass sets out to do once its fetches are in: post its rows, or stop
      with the error of the first failed fetch. */
  type Plan = Result<seq<Row>, FetchError>

  function PassPlan(p: Pass): Plan
    requires TradesRepresentable(p)
  {
    if AllFetched(p) then Ok(RowsOf(p)) else Err(FirstError(p))
  }

  /** What carrying out a plan does with the endpoint, starting at POST number `a`:
      nothing for a fetch error, otherwise the rows posted in order until a send failure. */
  function PlanEffect(plan: Plan, network: nat -> Delivery, a: nat): (Posting, PassOutcome) {
    match plan
    case Err(e) => (Posting([], a, false), FetchFailed(e))
    case Ok(rows) =>
      var q := PostAll(rows, network, a);
      (q, if q.failed then Panicked else Completed)
  }

  /** What a pass does with the endpoint, starting at POST number `a`. */
  function PassEffect(p: Pass, network: nat -> Delivery, a: nat): (Posting, PassOutcome)
    requires TradesRepresentable(p)
  {
    PlanEffect(PassPlan(p), network, a)
  }

  /** A failed fetch ends the pass before any insert, with that fetch's error. */
  lemma FetchFailureWritesNothing(p: Pass, network: nat -> Delivery, a: nat)
    requires TradesRepresentable(p)
    requires p.ticker.Err? || p.book.Err? || p.trades.Err?
    ensures PassEffect(p, network, a).0 == Posting([], a, false)
    ensures PassEffect(p, network, a).1 ==
      FetchFailed(if p.ticker.Err? then p.ticker.error
                  else if p.book.Err? then p.book.error else p.trades.error)
  {
  }

  /** With every fetch and every POST succeeding, a pass delivers exactly its
      1 + |bids| + |asks| + |trades| rows, in order, and completes. */
  lemma PassDeliversAllRows(p: Pass, network: nat -> Delivery, a: nat)
    requires TradesRepresentable(p)
    requires AllFetched(p)
    requires forall n :: a <= n ==> network(n).Response?
    ensures PassEffect(p, network, a) == (Posting(RowsOf(p), a + |RowsOf(p)|, false), Completed)
    ensures |RowsOf(p)| == 1 + |p.book.value.bids| + |p.book.value.asks| + |p.trades.value|
  {
    PostAllCompletes(RowsOf(p), network, a);
    PassRowsLength(p.ticker.value.price, p.book.value, p.trades.value, p.now);
  }

  /** `fetch_and_print_data`, with the three fetch results and the capture instant as inputs. */
  method FetchAndPrintData(sink: Sink, ticker: Result<TickerPrice, FetchError>,
                           book: Result<OrderBook, FetchError>,
                           trades: Result<seq<RecentTrade>, FetchError>, now: DateTime)
    returns (outcome: PassOutcome)
    requires TradesRepresentable(Pass(ticker, book, trades, now))
    modifies sink
    ensures var e := PassEffect(Pass(ticker, book, trades, now), sink.network, old(sink.attempts));
      sink.sent == old(sink.sent) + e.0.delivered && sink.attempts == e.0.attempts && outcome == e.1
  {
    if ticker.Err? {
      return FetchFailed(ticker.error);
    }
    if book.Err? {
      return FetchFailed(book.error);
    }
    if trades.Err? {
      return FetchFailed(trades.error);
    }
    var aborted := InsertFetched(sink, ticker.value.price, book.value, trades.value, now);
    return if aborted then Panicked else Completed;
  }

  /** The part of a pass after its three fetches succeeded: its rows posted in order
      until an insert panics. */
  method InsertFetched(sink: Sink, price: string, book: OrderBook, trades: seq<RecentTrade>, now: DateTime)
    returns (aborted: bool)
    requires forall k :: 0 <= k < |trades| ==> trades[k].time < I64Bound
    modifies sink
    ensures var q := PostAll(PassRows(price, book, trades, now), sink.network, old(sink.attempts));
      sink.sent == old(sink.sent) + q.delivered && sink.attempts == q.attempts && aborted == q.failed
  {
    ghost var rows := PassRows(price, book, trades, now);
    ghost var a0, s0 := sink.attempts, sink.sent;
    PassRowsLayout(price, book, trades, now);
    assert rows[..0] == [];
    aborted := InsertPassRows(sink, now, price, book, trades, rows, a0, s0);
    if !aborted {
      PostedAll(rows, sink.network, a0, s0, sink.sent, sink.attempts);
    }
  }

  /** The inserts of a pass whose fetches succeeded, in the order the source makes
      them: the price, the bid loop, the ask loop and the trade loop. `rows` are the
      rows these inserts are; an aborted insert is where posting `rows` stops. */
  method InsertPassRows(sink: Sink, now: DateTime, price: string, book: OrderBook, trades: seq<RecentTrade>,
                        ghost rows: seq<Row>, ghost a0: nat, ghost s0: seq<Row>)
    returns (aborted: bool)
    requires forall k :: 0 <= k < |trades| ==> trades[k].time < I64Bound
    requires |rows| == 1 + |book.bids| + |book.asks| + |trades| && rows[0] == PriceRow(now, price)
    requires forall k :: 0 <= k < |book.bids| ==>
      rows[1 + k] == BidRow(now, book.bids[k].price, book.bids[k].quantity)
    requires forall k :: 0 <= k < |book.asks| ==>
      rows[1 + |book.bids| + k] == BidRow(now, book.asks[k].price, book.asks[k].quantity)
    requires forall k :: 0 <= k < |trades| ==>
      rows[1 + |book.bids| + |book.asks| + k]
        == TradeRow(TradeTime(trades[k]), trades[k].id, trades[k].price, trades[k].qty)
    requires PostedUpTo(rows, sink.network, a0, s0, 0, sink.sent, sink.attempts)
    modifies sink
    ensures !aborted ==> PostedUpTo(rows, sink.network, a0, s0, |rows|, sink.sent, sink.attempts)
    ensures aborted ==>
      PostAll(rows, sink.network, a0).failed &&
      sink.sent == s0 + PostAll(rows, sink.network, a0).delivered &&
      sink.attempts == PostAll(rows, sink.network, a0).attempts
  {
    PostedStep(rows, sink.network, a0, s0, 0, sink.sent, sink.attempts);
    aborted := InsertPriceIntoClickHouse(sink, now, price);
    if aborted {
      return;
    }
    aborted := InsertLevels(sink, now, book.bids, rows, a0, s0, 1);
    if aborted {
      return;
    }
    aborted := InsertLevels(sink, now, book.asks, rows, a0, s0, 1 + |book.bids|);
    if aborted {
      return;
    }
    aborted := InsertTrades(sink, trades, rows, a0, s0, 1 + |book.bids| + |book.asks|);
  }

  /** The `for bid in …` and `for ask in …` loops of a pass: both insert each level
      with `insert_bid_into_clickhouse`, stamped `now`. `rows[off..]` are the rows of
      the pass these inserts are, and `rows[..off]` have already been posted. */
  method InsertLevels(sink: Sink, now: DateTime, levels: seq<Level>,
                      ghost rows: seq<Row>, ghost a0: nat, ghost s0: seq<Row>, ghost off: nat)
    returns (aborted: bool)
    requires off + |levels| <= |rows|
    requires forall k :: 0 <= k < |levels| ==> rows[off + k] == BidRow(now, levels[k].price, levels[k].quantity)
    requires PostedUpTo(rows, sink.network, a0, s0, off, sink.sent, sink.attempts)
    modifies sink
    ensures !aborted ==> PostedUpTo(rows, sink.network, a0, s0, off + |levels|, sink.sent, sink.attempts)
    ensures aborted ==>
      PostAll(rows, sink.network, a0).failed &&
      sink.sent == s0 + PostAll(rows, sink.network, a0).delivered &&
      sink.attempts == PostAll(rows, sink.network, a0).attempts
  {
    var i := 0;
    while i < |levels|
      invariant 0 <= i <= |levels|
      invariant PostedUpTo(rows, sink.network, a0, s0, off + i, sink.sent, sink.attempts)
    {
      PostedStep(rows, sink.network, a0, s0, off + i, sink.sent, sink.attempts);
      aborted := InsertBidIntoClickHouse(sink, now, levels[i].price, levels[i].quantity);
      if aborted {
        return;
      }
      i := i + 1;
    }
    return false;
  }

  /** The `for trade in …` loop of a pass: each trade is inserted stamped with its
      own `time / 1000` seconds. `rows[off..]` are the rows of the pass these inserts
      are, and `rows[..off]` have already been posted. */
  method InsertTrades(sink: Sink, trades: seq<RecentTrade>,
                      ghost rows: seq<Row>, ghost a0: nat, ghost s0: seq<Row>, ghost off: nat)
    returns (aborted: bool)
    requires off + |trades| <= |rows|
    requires forall k :: 0 <= k < |trades| ==> trades[k].time < I64Bound
    requires forall k :: 0 <= k < |trades| ==>
      rows[off + k] == TradeRow(TradeTime(trades[k]), trades[k].id, trades[k].price, trades[k].qty)
    requires PostedUpTo(rows, sink.network, a0, s0, off, sink.sent, sink.attempts)
    modifies sink
    ensures !aborted ==> PostedUpTo(rows, sink.network, a0, s0, off + |trades|, sink.sent, sink.attempts)
    ensures aborted ==>
      PostAll(rows, sink.network, a0).failed &&
      sink.sent == s0 + PostAll(rows, sink.network, a0).delivered &&
      sink.attempts == PostAll(rows, sink.network, a0).attempts
  {
    var i := 0;
    while i < |trades|
      invariant 0 <= i <= |trades|
      invariant PostedUpTo(rows, sink.network, a0, s0, off + i, sink.sent, sink.attempts)
    {
      var trade := trades[i];
      var timestamp := TradeTime(trade);
      PostedStep(rows, sink.network, a0, s0, off + i, sink.sent, sink.attempts);
      aborted := InsertTradeIntoClickHouse(sink, timestamp, trade.id, trade.price, trade.qty);
      if aborted {
        return;
      }
      i := i + 1;
    }
    return false;
  }

  // ---------------------------------------------------------------------------
  // The outer loop: `main`

  /** The plans of a sequence of passes, pass after pass: the plan at each position
      is the plan of the pass at that position. */
  function PassPlans(passes: seq<Pass>): (plans: seq<Plan>)
    requires forall k :: 0 <= k < |passes| ==> TradesRepresentable(passes[k])
    ensures |plans| == |passes| && forall k :: 0 <= k < |passes| ==> plans[k] == PassPlan(passes[k])
  {
    if passes == [] then []
    else PassPlans(passes[..|passes| - 1]) + [PassPlan(passes[|passes| - 1])]
  }

  /** The passes of `main`'s loop, given by their plans, from POST number `a` on:
      every pass runs, whatever its fetches returned, until one panics; a panic ends
      the process. */
  function RunEffect(plans: seq<Plan>, network: nat -> Delivery, a: nat): Posting {
    if plans == [] then Posting([], a, false)
    else
      var r := RunEffect(plans[..|plans| - 1], network, a);
      if r.failed then r
      else
        var e := PlanEffect(plans[|plans| - 1], network, r.attempts);
        Posting(r.delivered + e.0.delivered, e.0.attempts, e.1.Panicked?)
  }

  /** Once a pass has panicked, the passes after it never run. */
  lemma {:induction false} RunEffectStops(plans: seq<Plan>, network: nat -> Delivery, a: nat, j: nat)
    requires j <= |plans| && RunEffect(plans[..j], network, a).failed
    ensures RunEffect(plans, network, a) == RunEffect(plans[..j], network, a)
    decreases |plans|
  {
    if j < |plans| {
      var init := plans[..|plans| - 1];
      assert init[..j] == plans[..j];
      RunEffectStops(init, network, a, j);
    } else {
      assert plans[..j] == plans;
    }
  }

  /** The rows of the plans whose fetches all succeeded, pass after pass. */
  function FetchedRows(plans: seq<Plan>): seq<Row> {
    if plans == [] then []
    else
      var p := plans[|plans| - 1];
      FetchedRows(plans[..|plans| - 1]) + if p.Ok? then p.value else []
  }

  /** Fetch errors never stop the loop: while the endpoint answers every POST, every
      pass runs and the endpoint receives the rows of every pass whose fetches succeeded. */
  lemma {:induction false} MainLoopSurvivesFetchErrors(plans: seq<Plan>, network: nat -> Delivery, a: nat)
    requires forall n :: a <= n ==> network(n).Response?
    ensures RunEffect(plans, network, a) == Posting(FetchedRows(plans), a + |FetchedRows(plans)|, false)
  {
    if plans != [] {
      var init := plans[..|plans| - 1];
      MainLoopSurvivesFetchErrors(init, network, a);
      var r := RunEffect(init, network, a);
      var p := plans[|plans| - 1];
      if p.Ok? {
        PostAllCompletes(p.value, network, r.attempts);
      }
    }
  }

  /** A property every planned row has holds of every row the loop delivers,
      however far it gets. */
  lemma {:induction false} RunEffectKeeps(plans: seq<Plan>, network: nat -> Delivery, a: nat, good: Row -> bool)
    requires forall j, i :: 0 <= j < |plans| && plans[j].Ok? && 0 <= i < |plans[j].value| ==> good(plans[j].value[i])
    ensures forall k :: 0 <= k < |RunEffect(plans, network, a).delivered| ==>
      good(RunEffect(plans, network, a).delivered[k])
  {
    if plans != [] {
      var init := plans[..|plans| - 1];
      RunEffectKeeps(init, network, a, good);
      var r := RunEffect(init, network, a);
      var p := plans[|plans| - 1];
      if !r.failed && p.Ok? {
        PostAllPrefix(p.value, network, r.attempts);
        var q := PostAll(p.value, network, r.attempts);
        assert forall k :: 0 <= k < |q.delivered| ==> q.delivered[k] == p.value[k];
      }
    }
  }

  /** No row the loop delivers, however far it gets, goes to `btc_asks`. */
  lemma MainLoopNeverWritesAsks(passes: seq<Pass>, network: nat -> Delivery, a: nat)
    requires forall k :: 0 <= k < |passes| ==> TradesRepresentable(passes[k])
    ensures var r := RunEffect(PassPlans(passes), network, a);
      forall k :: 0 <= k < |r.delivered| ==> TableOf(r.delivered[k]) != BtcAsks
  {
    var plans := PassPlans(passes);
    forall j | 0 <= j < |plans| && plans[j].Ok?
      ensures forall i :: 0 <= i < |plans[j].value| ==> TableOf(plans[j].value[i]) != BtcAsks
    {
      var p := passes[j];
      PassRowsStampsAndTables(p.ticker.value.price, p.book.value, p.trades.value, p.now);
    }
    RunEffectKeeps(plans, network, a, row => TableOf(row) != BtcAsks);
  }

  /** Running one more pass: the step `main`'s loop takes. */
  lemma RunEffectNext(plans: seq<Plan>, network: nat -> Delivery, a: nat, n: nat)
    requires n < |plans|
    ensures var r := RunEffect(plans[..n], network, a);
      var e := PlanEffect(plans[n], network, r.attempts);
      RunEffect(plans[..n + 1], network, a) ==
        if r.failed then r else Posting(r.delivered + e.0.delivered, e.0.attempts, e.1.Panicked?)
  {
    assert plans[..n + 1][..n] == plans[..n];
  }

  /** `main`'s loop has run the passes of `plans[..n]` from POST number `a` on without
      a panic, leaving the log `sent` and the counter `attempts`. */
  ghost predicate RanUpTo(plans: seq<Plan>, network: nat -> Delivery, a: nat, s0: seq<Row>,
                          n: nat, sent: seq<Row>, attempts: nat) {
    n <= |plans| &&
    var r := RunEffect(plans[..n], network, a);
    !r.failed && sent == s0 + r.delivered && attempts == r.attempts
  }

  /** A pass that does not panic leaves the loop running. */
  lemma RanStep(plans: seq<Plan>, network: nat -> Delivery, a: nat, s0: seq<Row>,
                n: nat, sent: seq<Row>, attempts: nat)
    requires n < |plans| && RanUpTo(plans, network, a, s0, n, sent, attempts)
    requires !PlanEffect(plans[n], network, attempts).1.Panicked?
    ensures var e := PlanEffect(plans[n], network, attempts);
      RanUpTo(plans, network, a, s0, n + 1, sent + e.0.delivered, e.0.attempts)
  {
    RunEffectNext(plans, network, a, n);
  }

  /** A pass that panics is where the loop over all of `plans` stops. */
  lemma RanIntoPanic(plans: seq<Plan>, network: nat -> Delivery, a: nat, s0: seq<Row>,
                     n: nat, sent: seq<Row>, attempts: nat)
    requires n < |plans| && RanUpTo(plans, network, a, s0, n, sent, attempts)
    requires PlanEffect(plans[n], network, attempts).1.Panicked?
    ensures var e := PlanEffect(plans[n], network, attempts);
      var r := RunEffect(plans, network, a);
      r.failed && sent + e.0.delivered == s0 + r.delivered && e.0.attempts == r.attempts
  {
    RunEffectNext(plans, network, a, n);
    RunEffectStops(plans, network, a, n + 1);
  }

  /** `main`'s endless loop, run for the passes in `passes` (the 500 ms sleep is left
      out). A pass that fails a fetch is logged and the next one starts; the loop
      stops only when an insert panics. */
  method RunMainLoop(sink: Sink, passes: seq<Pass>) returns (panicked: bool)
    requires forall k :: 0 <= k < |passes| ==> TradesRepresentable(passes[k])
    modifies sink
    ensures var r := RunEffect(PassPlans(passes), sink.network, old(sink.attempts));
      sink.sent == old(sink.sent) + r.delivered && sink.attempts == r.attempts && panicked == r.failed
  {
    ghost var plans := PassPlans(passes);
    ghost var a0, s0 := sink.attempts, sink.sent;
    assert plans[..0] == [];
    assert RanUpTo(plans, sink.network, a0, s0, 0, sink.sent, sink.attempts);
    var i := 0;
    while i < |passes|
      invariant 0 <= i <= |passes|
      invariant RanUpTo(plans, sink.network, a0, s0, i, sink.sent, sink.attempts)
    {
      var p := passes[i];
      ghost var sent, attempts := sink.sent, sink.attempts;
      var outcome := FetchAndPrintData(sink, p.ticker, p.book, p.trades, p.now);
      if outcome.Panicked? {
        RanIntoPanic(plans, sink.network, a0, s0, i, sent, attempts);
        return true;
      }
      RanStep(plans, sink.network, a0, s0, i, sent, attempts);
      i := i + 1;
    }
    assert plans[..|plans|] == plans;
    return false;
  }
}
