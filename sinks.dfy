/** The ClickHouse HTTP endpoint as the ingestion path sees it: each insert is
    one POST, which either comes back with some HTTP status or fails to send. */
module Sinks {
  import opened Commands

  /** What one POST to the endpoint came back with. */
  datatype Delivery = Response(status: nat) | SendFailed

  /** POSTs numbered `from` up to `to` (exclusive) all got a response. */
  ghost predicate Delivered(network: nat -> Delivery, from: nat, to: nat) {
    forall n :: from <= n < to ==> network(n).Response?
  }

  /** The endpoint, with the log of the rows whose command reached it. */
  class Sink {
    /** What the `n`-th POST comes back with; the network is not under the program's control. */
    const network: nat -> Delivery
    /** The rows whose command reached the endpoint, in posting order. */
    var sent: seq<Row>
    /** The POSTs made so far, whether they reached the endpoint or not. */
    var attempts: nat

    constructor (network: nat -> Delivery)
      ensures this.network == network && sent == [] && attempts == 0
    {
      this.network := network;
      sent := [];
      attempts := 0;
    }

    /** `client.post(CLICKHOUSE_ENDPOINT).body(query).send()` for the command of `row`.
        Whatever the status, a response means the command reached the endpoint. */
    method Post(row: Row) returns (d: Delivery)
      modifies this
      ensures d == network(old(attempts)) && attempts == old(attempts) + 1
      ensures sent == if d.Response? then old(sent) + [row] else old(sent)
    {
      d := network(attempts);
      attempts := attempts + 1;
      if d.Response? {
        sent := sent + [row];
      }
    }
  }

  /** What posting a list of rows one after another, stopping at the first send
      failure, leaves behind: the rows delivered, the POST counter, and whether it stopped. */
  datatype Posting = Posting(delivered: seq<Row>, attempts: nat, failed: bool)

  /** Posting `rows` in order from POST number `a` on, stopping at the first send failure. */
  function PostAll(rows: seq<Row>, network: nat -> Delivery, a: nat): Posting {
    if rows == [] then Posting([], a, false)
    else
      var p := PostAll(rows[..|rows| - 1], network, a);
      if p.failed then p
      else if network(p.attempts).SendFailed? then Posting(p.delivered, p.attempts + 1, true)
      else Posting(p.delivered + [rows[|rows| - 1]], p.attempts + 1, false)
  }

  /** Posting delivers a prefix of the rows, one POST per delivered row plus the failed
      one; it fails exactly at the first POST that does not get a response. */
  lemma {:induction false} PostAllPrefix(rows: seq<Row>, network: nat -> Delivery, a: nat)
    ensures var p := PostAll(rows, network, a);
      |p.delivered| <= |rows| && p.delivered == rows[..|p.delivered|] &&
      p.attempts == a + |p.delivered| + (if p.failed then 1 else 0) &&
      Delivered(network, a, a + |p.delivered|) &&
      (p.failed ==> |p.delivered| < |rows| && network(a + |p.delivered|).SendFailed?) &&
      (!p.failed ==> p.delivered == rows)
  {
    if rows != [] {
      PostAllPrefix(rows[..|rows| - 1], network, a);
    }
  }

  /** Every row is delivered exactly when every POST it takes gets a response. */
  lemma {:induction false} PostAllCompletes(rows: seq<Row>, network: nat -> Delivery, a: nat)
    ensures !PostAll(rows, network, a).failed <==> Delivered(network, a, a + |rows|)
    ensures Delivered(network, a, a + |rows|) ==>
      PostAll(rows, network, a) == Posting(rows, a + |rows|, false)
  {
    PostAllPrefix(rows, network, a);
    var p := PostAll(rows, network, a);
    if p.failed {
      assert !network(a + |p.delivered|).Response?;
    }
  }

  /** Once a POST has failed, the rows after it are never posted. */
  lemma {:induction false} PostAllStops(rows: seq<Row>, network: nat -> Delivery, a: nat, j: nat)
    requires j <= |rows| && PostAll(rows[..j], network, a).failed
    ensures PostAll(rows, network, a) == PostAll(rows[..j], network, a)
    decreases |rows|
  {
    if j < |rows| {
      var init := rows[..|rows| - 1];
      assert init[..j] == rows[..j];
      PostAllStops(init, network, a, j);
    } else {
      assert rows[..j] == rows;
    }
  }

  /** Posting one more row: the step a posting loop takes. */
  lemma PostAllNext(rows: seq<Row>, network: nat -> Delivery, a: nat, k: nat)
    requires k < |rows|
    ensures var p := PostAll(rows[..k], network, a);
      PostAll(rows[..k + 1], network, a) ==
        if p.failed then p
        else if network(p.attempts).SendFailed? then Posting(p.delivered, p.attempts + 1, true)
        else Posting(p.delivered + [rows[k]], p.attempts + 1, false)
  {
    assert rows[..k + 1][..k] == rows[..k];
  }

  /** A posting loop that has posted `rows[..n]` from POST number `a` on without a
      send failure, leaving the log `sent` and the counter `attempts`. */
  ghost predicate PostedUpTo(rows: seq<Row>, network: nat -> Delivery, a: nat, s0: seq<Row>,
                             n: nat, sent: seq<Row>, attempts: nat) {
    n <= |rows| &&
    var q := PostAll(rows[..n], network, a);
    !q.failed && sent == s0 + q.delivered && attempts == q.attempts
  }

  /** One more POST of a posting loop: a response extends the delivered prefix by
      `rows[n]`; a send failure is where posting all of `rows` stops. */
  lemma PostedStep(rows: seq<Row>, network: nat -> Delivery, a: nat, s0: seq<Row>,
                   n: nat, sent: seq<Row>, attempts: nat)
    requires n < |rows| && PostedUpTo(rows, network, a, s0, n, sent, attempts)
    ensures network(attempts).Response? ==>
      PostedUpTo(rows, network, a, s0, n + 1, sent + [rows[n]], attempts + 1)
    ensures network(attempts).SendFailed? ==>
      PostAll(rows, network, a).failed && sent == s0 + PostAll(rows, network, a).delivered &&
      attempts + 1 == PostAll(rows, network, a).attempts
  {
    PostAllNext(rows, network, a, n);
    if network(attempts).SendFailed? {
      PostAllStops(rows, network, a, n + 1);
    }
  }

  /** A posting loop that got through every row has done what `PostAll` does. */
  lemma PostedAll(rows: seq<Row>, network: nat -> Delivery, a: nat, s0: seq<Row>,
                  sent: seq<Row>, attempts: nat)
    requires PostedUpTo(rows, network, a, s0, |rows|, sent, attempts)
    ensures !PostAll(rows, network, a).failed && sent == s0 + PostAll(rows, network, a).delivered &&
      attempts == PostAll(rows, network, a).attempts
  {
    assert rows[..|rows|] == rows;
  }
}
