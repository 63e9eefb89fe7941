/** The ClickHouse `INSERT` commands the ingestion path posts: one row per command,
    every column value wrapped in single quotes and spliced into the text as it is. */
module Commands {
  import opened Results
  import opened DateTimes

  datatype Table = BtcPrice | BtcBids | BtcAsks | BtcTrades

  function Columns(t: Table): seq<string> {
    match t
    case BtcPrice => ["timestamp", "price"]
    case BtcBids => ["timestamp", "price", "quantity"]
    case BtcAsks => ["timestamp", "price", "quantity"]
    case BtcTrades => ["timestamp", "id", "price", "amount"]
  }

  /** One row handed to an `insert_*_into_clickhouse` function: the timestamp it is
      stamped with, and the other arguments as the caller passed them. */
  datatype Row =
    | PriceRow(at: DateTime, price: string)
    | BidRow(at: DateTime, price: string, quantity: string)
    | AskRow(at: DateTime, price: string, quantity: string)
    | TradeRow(at: DateTime, id: nat, price: string, amount: string)

  function TableOf(row: Row): Table {
    match row
    case PriceRow(_, _) => BtcPrice
    case BidRow(_, _, _) => BtcBids
    case AskRow(_, _, _) => BtcAsks
    case TradeRow(_, _, _, _) => BtcTrades
  }

  /** The column values in column order, rendered as the `format!` arguments render them. */
  function Values(row: Row): (vs: seq<string>)
    ensures |vs| == |Columns(TableOf(row))|
  {
    match row
    case PriceRow(at, p) => [Format(at), p]
    case BidRow(at, p, q) => [Format(at), p, q]
    case AskRow(at, p, q) => [Format(at), p, q]
    case TradeRow(at, id, p, a) => [Format(at), Decimal(id), p, a]
  }

  /** The query text each `insert_*_into_clickhouse` function builds with `format!`. */
  function Render(row: Row): string {
    match row
    case PriceRow(at, p) =>
      "INSERT INTO btc_price (timestamp, price) VALUES ('" + Format(at) + "', '" + p + "')"
    case BidRow(at, p, q) =>
      "INSERT INTO btc_bids (timestamp, price, quantity) VALUES ('" + Format(at) + "', '" + p + "', '" + q + "')"
    case AskRow(at, p, q) =>
      "INSERT INTO btc_asks (timestamp, price, quantity) VALUES ('" + Format(at) + "', '" + p + "', '" + q + "')"
    case TradeRow(at, id, p, a) =>
      "INSERT INTO btc_trades (timestamp, id, price, amount) VALUES ('" + Format(at) + "', '" + Decimal(id) + "', '" + p + "', '" + a + "')"
  }

  /** `items` separated by `sep`. */
  function Join(items: seq<string>, sep: string): string {
    if |items| == 0 then ""
    else if |items| == 1 then items[0]
    else items[0] + sep + Join(items[1..], sep)
  }

  /** What stands between two quoted values of a command, and what closes the last one. */
  const Separator: string := "', '"
  const Closing: string := "')"

  /** The part of a command before its first value, up to the quote that opens it. */
  function Header(t: Table): string {
    match t
    case BtcPrice => "INSERT INTO btc_price (timestamp, price) VALUES ('"
    case BtcBids => "INSERT INTO btc_bids (timestamp, price, quantity) VALUES ('"
    case BtcAsks => "INSERT INTO btc_asks (timestamp, price, quantity) VALUES ('"
    case BtcTrades => "INSERT INTO btc_trades (timestamp, id, price, amount) VALUES ('"
  }

  lemma JoinTwo(a: string, b: string, sep: string)
    ensures Join([a, b], sep) == a + sep + b
  {
    assert [a, b][1..] == [b];
  }

  lemma JoinThree(a: string, b: string, c: string, sep: string)
    ensures Join([a, b, c], sep) == a + sep + b + sep + c
  {
    assert [a, b, c][1..] == [b, c];
    JoinTwo(b, c, sep);
  }

  lemma JoinFour(a: string, b: string, c: string, d: string, sep: string)
    ensures Join([a, b, c, d], sep) == a + sep + b + sep + c + sep + d
  {
    assert [a, b, c, d][1..] == [b, c, d];
    JoinThree(b, c, d, sep);
  }

  lemma ShapeTwo(h: string, a: string, b: string, sep: string, close: string)
    ensures h + (a + sep + b) + close == h + a + sep + b + close
  {
  }

  lemma ShapeThree(h: string, a: string, b: string, c: string, sep: string, close: string)
    ensures h + (a + sep + b + sep + c) + close == h + a + sep + b + sep + c + close
  {
  }

  lemma ShapeFour(h: string, a: string, b: string, c: string, d: string, sep: string, close: string)
    ensures h + (a + sep + b + sep + c + sep + d) + close == h + a + sep + b + sep + c + sep + d + close
  {
  }

  /** Every command has the one shape `INSERT INTO <table> (<columns>) VALUES ('v1', ..., 'vn')`:
      its table's header, then the values in column order, each in single quotes. */
  lemma RenderFollowsTemplate(row: Row)
    ensures Render(row) == Header(TableOf(row)) + Join(Values(row), Separator) + Closing
  {
    match row
    case PriceRow(at, p) =>
      JoinTwo(Format(at), p, Separator);
      ShapeTwo(Header(BtcPrice), Format(at), p, Separator, Closing);
    case BidRow(at, p, q) =>
      JoinThree(Format(at), p, q, Separator);
      ShapeThree(Header(BtcBids), Format(at), p, q, Separator, Closing);
    case AskRow(at, p, q) =>
      JoinThree(Format(at), p, q, Separator);
      ShapeThree(Header(BtcAsks), Format(at), p, q, Separator, Closing);
    case TradeRow(at, id, p, a) =>
      JoinFour(Format(at), Decimal(id), p, a, Separator);
      ShapeFour(Header(BtcTrades), Format(at), Decimal(id), p, a, Separator, Closing);
  }

  // ---------------------------------------------------------------------------
  // Reading the values back: the values are spliced in verbatim

  /** The first index at or after `i` holding a single quote, or `|s|`. */
  function NextQuote(s: string, i: nat): (j: nat)
    requires i <= |s|
    ensures i <= j <= |s|
    decreases |s| - i
  {
    if i == |s| || s[i] == '\'' then i else NextQuote(s, i + 1)
  }

  /** Reads `v1', 'v2', ..., 'vn')` back into its values: each value runs up to the
      next single quote. */
  function ParseValues(s: string): Option<seq<string>>
    decreases |s|
  {
    var j := NextQuote(s, 0);
    var rest := s[j..];
    if rest == Closing then Some([s[..j]])
    else if |rest| >= 4 && rest[..4] == Separator then
      match ParseValues(rest[4..])
      case Some(vs) => Some([s[..j]] + vs)
      case None => None
    else None
  }

  /** Reads a command for table `t` back into its values. */
  function ParseCommand(t: Table, s: string): Option<seq<string>> {
    var h := Header(t);
    if |h| <= |s| && s[..|h|] == h then ParseValues(s[|h|..]) else None
  }

  lemma {:induction false} NextQuoteAfter(v: string, rest: string, i: nat)
    requires '\'' !in v && i <= |v| && |rest| > 0 && rest[0] == '\''
    ensures NextQuote(v + rest, i) == |v|
    decreases |v| - i
  {
    var s := v + rest;
    if i < |v| {
      assert s[i] == v[i];
      NextQuoteAfter(v, rest, i + 1);
    }
  }

  /** A list of values none of which holds a single quote reads back unchanged. */
  lemma {:induction false} ParseJoinedValues(vs: seq<string>)
    requires |vs| >= 1
    requires forall k :: 0 <= k < |vs| ==> '\'' !in vs[k]
    ensures ParseValues(Join(vs, Separator) + Closing) == Some(vs)
    decreases |vs|
  {
    var v := vs[0];
    var s := Join(vs, Separator) + Closing;
    if |vs| == 1 {
      assert s == v + Closing;
      NextQuoteAfter(v, Closing, 0);
      assert s[|v|..] == Closing && s[..|v|] == v;
      assert vs == [v];
    } else {
      var tail := Join(vs[1..], Separator) + Closing;
      assert s == v + (Separator + tail);
      NextQuoteAfter(v, Separator + tail, 0);
      var rest := s[|v|..];
      assert rest == Separator + tail && s[..|v|] == v;
      assert rest[1] != Closing[1];
      assert rest[..4] == Separator && rest[4..] == tail;
      ParseJoinedValues(vs[1..]);
      assert [v] + vs[1..] == vs;
    }
  }

  /** The strings a caller passes in hold no single quote. */
  predicate QuoteFree(row: Row) {
    match row
    case PriceRow(_, p) => '\'' !in p
    case BidRow(_, p, q) => '\'' !in p && '\'' !in q
    case AskRow(_, p, q) => '\'' !in p && '\'' !in q
    case TradeRow(_, _, p, a) => '\'' !in p && '\'' !in a
  }

  lemma ValuesQuoteFree(row: Row)
    requires QuoteFree(row)
    ensures forall k :: 0 <= k < |Values(row)| ==> '\'' !in Values(row)[k]
  {
    FormatHasNoQuote(row.at);
    if row.TradeRow? {
      NoQuoteInDigits(Decimal(row.id));
    }
  }

  lemma ParseAfterHeader(t: Table, x: string)
    ensures ParseCommand(t, Header(t) + x) == ParseValues(x)
  {
    var h := Header(t);
    assert (h + x)[..|h|] == h && (h + x)[|h|..] == x;
  }

  /** A command built on the template reads back the values it was built from,
      provided none of them holds a single quote. */
  lemma ParseTemplate(t: Table, vs: seq<string>)
    requires |vs| >= 1
    requires forall k :: 0 <= k < |vs| ==> '\'' !in vs[k]
    ensures ParseCommand(t, Header(t) + Join(vs, Separator) + Closing) == Some(vs)
  {
    ParseJoinedValues(vs);
    Regroup(Header(t), Join(vs, Separator), Closing);
    ParseAfterHeader(t, Join(vs, Separator) + Closing);
  }

  lemma Regroup(a: string, b: string, c: string)
    ensures a + b + c == a + (b + c)
  {
  }

  /** Price, quantity and amount strings reach the command byte for byte: from a
      command whose values hold no single quote, every value reads back unchanged. */
  lemma CommandRoundTrip(row: Row)
    requires QuoteFree(row)
    ensures ParseCommand(TableOf(row), Render(row)) == Some(Values(row))
  {
    ValuesQuoteFree(row);
    RenderFollowsTemplate(row);
    ParseTemplate(TableOf(row), Values(row));
  }

  lemma SplitLastTwo(x: string, p: string, q: string)
    ensures x + p + "', '" + q + "')" == x + (p + "', '" + q + "')")
  {
  }

  /** Nothing is escaped: a quote inside a value moves the value boundaries, so two
      different bid rows post the very same command. */
  lemma QuoteShiftsValueBoundaries(at: DateTime)
    ensures BidRow(at, "1', '2", "3") != BidRow(at, "1", "2', '3")
    ensures Render(BidRow(at, "1', '2", "3")) == Render(BidRow(at, "1", "2', '3"))
  {
    assert "1', '2"[1] != "1"[0];
    var x := "INSERT INTO btc_bids (timestamp, price, quantity) VALUES ('" + Format(at) + "', '";
    SplitLastTwo(x, "1', '2", "3");
    SplitLastTwo(x, "1", "2', '3");
    assert "1', '2" + "', '" + "3" + "')" == "1', '2', '3')";
    assert "1" + "', '" + "2', '3" + "')" == "1', '2', '3')";
  }
}
