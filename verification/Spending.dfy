/** The spending chart: card spend bucketed by day, with nothing lost between buckets and total. */
module Spending {
  import opened Cards

  /** The rows the chart is about: pending or settled, since the first day asked for. */
  predicate Charted(row: TxRow, user: string, since: int) {
    row.user == user && row.createdAt >= since && (row.status == Pending || row.status == Cleared)
  }

  function Rows(table: seq<TxRow>, user: string, since: int): seq<TxRow> {
    if table == [] then []
    else
      Rows(table[..|table| - 1], user, since) +
      if Charted(table[|table| - 1], user, since) then [table[|table| - 1]] else []
  }

  /** The chart is of the user's pending and settled transactions since its first day, each as often as it is there. */
  lemma {:induction false} RowsAre(table: seq<TxRow>, user: string, since: int, row: TxRow)
    ensures multiset(Rows(table, user, since))[row] ==
            if row.user == user && row.createdAt >= since && (row.status == Pending || row.status == Cleared)
            then multiset(table)[row] else 0
  {
    if table == [] {
    } else {
      var n := |table| - 1;
      RowsAre(table[..n], user, since, row);
      assert table == table[..n] + [table[n]];
    }
  }

  function TotalOf(rows: seq<TxRow>): int {
    if rows == [] then 0 else TotalOf(rows[..|rows| - 1]) + Counted(rows[|rows| - 1])
  }

  /** What was spent on one day. */
  function SpentOn(rows: seq<TxRow>, dayOf: int -> string, day: string): int {
    if rows == [] then 0
    else
      var last := rows[|rows| - 1];
      SpentOn(rows[..|rows| - 1], dayOf, day) + if dayOf(last.createdAt) == day then Counted(last) else 0
  }

  function SumPoints(points: seq<(string, int)>): int {
    if points == [] then 0 else SumPoints(points[..|points| - 1]) + points[|points| - 1].1
  }

  predicate Distinct(days: seq<string>) {
    forall i, j | 0 <= i < j < |days| :: days[i] != days[j]
  }

  /** Every row falls on a listed day. */
  predicate AllListed(days: seq<string>, rows: seq<TxRow>, dayOf: int -> string) {
    forall i | 0 <= i < |rows| :: dayOf(rows[i].createdAt) in days
  }

  /** The spend of every listed day in USDT units, in order. */
  function Points(days: seq<string>, rows: seq<TxRow>, dayOf: int -> string): (points: seq<(string, int)>)
    ensures |points| == |days|
    ensures forall i | 0 <= i < |days| :: points[i] == (days[i], UsdCentsToUsdt(SpentOn(rows, dayOf, days[i])))
  {
    seq(|days|, i requires 0 <= i < |days| => (days[i], UsdCentsToUsdt(SpentOn(rows, dayOf, days[i]))))
  }

  lemma {:induction false} PointsMove(days: seq<string>, rows: seq<TxRow>, row: TxRow, dayOf: int -> string)
    requires Distinct(days)
    ensures SumPoints(Points(days, rows + [row], dayOf)) ==
            SumPoints(Points(days, rows, dayOf)) +
            if dayOf(row.createdAt) in days then UsdCentsToUsdt(Counted(row)) else 0
  {
    assert (rows + [row])[..|rows|] == rows;
    if days == [] {
    } else {
      var init := days[..|days| - 1];
      PointsMove(init, rows, row, dayOf);
      assert Points(days, rows, dayOf)[..|init|] == Points(init, rows, dayOf);
      assert Points(days, rows + [row], dayOf)[..|init|] == Points(init, rows + [row], dayOf);
      assert days == init + [days[|days| - 1]];
    }
  }

  lemma {:induction false} NothingSpent(rows: seq<TxRow>, dayOf: int -> string, day: string)
    requires forall i | 0 <= i < |rows| :: dayOf(rows[i].createdAt) != day
    ensures SpentOn(rows, dayOf, day) == 0
  {
    if rows == [] {
    } else {
      NothingSpent(rows[..|rows| - 1], dayOf, day);
    }
  }

  /** When every row's day is listed once, the points add up to the total. */
  lemma {:induction false} PointsAddUp(days: seq<string>, rows: seq<TxRow>, dayOf: int -> string)
    requires Distinct(days) && AllListed(days, rows, dayOf)
    ensures SumPoints(Points(days, rows, dayOf)) == UsdCentsToUsdt(TotalOf(rows))
  {
    if rows == [] {
      AllZero(days, dayOf);
    } else {
      var init := rows[..|rows| - 1];
      PointsAddUp(days, init, dayOf);
      PointsMove(days, init, rows[|rows| - 1], dayOf);
      assert rows == init + [rows[|rows| - 1]];
    }
  }

  lemma {:induction false} AllZero(days: seq<string>, dayOf: int -> string)
    ensures SumPoints(Points(days, [], dayOf)) == 0
  {
    if days == [] {
    } else {
      AllZero(days[..|days| - 1], dayOf);
      assert Points(days, [], dayOf)[..|days| - 1] == Points(days[..|days| - 1], [], dayOf);
    }
  }

  /** The days asked for, each once, in order of first mention: what a Map makes of them. */
  function Once(days: seq<string>): (order: seq<string>)
    ensures Distinct(order) && forall d :: d in order <==> d in days
  {
    if days == [] then []
    else
      var n := |days| - 1;
      var order := Once(days[..n]);
      assert days == days[..n] + [days[n]];
      if days[n] in order then order else order + [days[n]]
  }

  lemma OneMore(rows: seq<TxRow>, k: nat, dayOf: int -> string)
    requires k < |rows|
    ensures TotalOf(rows[..k + 1]) == TotalOf(rows[..k]) + Counted(rows[k])
    ensures forall d :: SpentOn(rows[..k + 1], dayOf, d) ==
                        SpentOn(rows[..k], dayOf, d) + if dayOf(rows[k].createdAt) == d then Counted(rows[k]) else 0
  {
    assert rows[..k + 1][..k] == rows[..k];
  }

  /** The buckets hold the spend of each listed day, and no other day has any. */
  ghost predicate Bucketed(order: seq<string>, buckets: map<string, int>, rows: seq<TxRow>, dayOf: int -> string) {
    && Distinct(order)
    && AllListed(order, rows, dayOf)
    && (forall d :: d in order <==> d in buckets)
    && (forall d | d in buckets :: buckets[d] == SpentOn(rows, dayOf, d))
  }

  lemma ListedMore(order: seq<string>, more: seq<string>, rows: seq<TxRow>, k: nat, dayOf: int -> string)
    requires k < |rows| && AllListed(order, rows[..k], dayOf)
    requires (forall d | d in order :: d in more) && dayOf(rows[k].createdAt) in more
    ensures AllListed(more, rows[..k + 1], dayOf)
  {
    assert rows[..k + 1] == rows[..k] + [rows[k]];
  }

  function OrderWith(order: seq<string>, key: string): seq<string> {
    if key in order then order else order + [key]
  }

  function BucketsWith(buckets: map<string, int>, key: string, value: int): map<string, int> {
    buckets[key := (if key in buckets then buckets[key] else 0) + value]
  }

  lemma BucketMore(order: seq<string>, buckets: map<string, int>, rows: seq<TxRow>, k: nat, dayOf: int -> string)
    requires k < |rows| && Bucketed(order, buckets, rows[..k], dayOf)
    ensures var key := dayOf(rows[k].createdAt);
            && order <= OrderWith(order, key)
            && Bucketed(OrderWith(order, key), BucketsWith(buckets, key, Counted(rows[k])), rows[..k + 1], dayOf)
  {
    var key := dayOf(rows[k].createdAt);
    OneMore(rows, k, dayOf);
    if key !in order {
      NothingSpent(rows[..k], dayOf, key);
    }
    ListedMore(order, OrderWith(order, key), rows, k, dayOf);
  }

  function EmptyBuckets(order: seq<string>): map<string, int> {
    map d | d in order :: 0
  }

  /** The first rows are in their buckets and in the total, the asked-for days first. */
  ghost predicate Filled(days: seq<string>, rows: seq<TxRow>, dayOf: int -> string, k: nat,
                         order: seq<string>, buckets: map<string, int>, total: int)
  {
    k <= |rows| && Bucketed(order, buckets, rows[..k], dayOf) && Once(days) <= order && total == TotalOf(rows[..k])
  }

  lemma NothingYet(days: seq<string>, rows: seq<TxRow>, dayOf: int -> string)
    ensures Filled(days, rows, dayOf, 0, Once(days), EmptyBuckets(Once(days)), 0)
  {
  }

  lemma FilledMore(days: seq<string>, rows: seq<TxRow>, dayOf: int -> string, k: nat,
                   order: seq<string>, buckets: map<string, int>, total: int)
    requires k < |rows| && Filled(days, rows, dayOf, k, order, buckets, total)
    ensures var key, value := dayOf(rows[k].createdAt), Counted(rows[k]);
            Filled(days, rows, dayOf, k + 1, OrderWith(order, key), BucketsWith(buckets, key, value), total + value)
  {
    BucketMore(order, buckets, rows, k, dayOf);
    OneMore(rows, k, dayOf);
  }

  lemma AllFilled(days: seq<string>, rows: seq<TxRow>, dayOf: int -> string,
                  order: seq<string>, buckets: map<string, int>, total: int)
    requires Filled(days, rows, dayOf, |rows|, order, buckets, total)
    ensures Bucketed(order, buckets, rows, dayOf) && Once(days) <= order && total == TotalOf(rows)
  {
    assert rows[..|rows|] == rows;
  }

  /** The loop over the rows. */
  method FillBuckets(days: seq<string>, rows: seq<TxRow>, dayOf: int -> string)
    returns (order: seq<string>, buckets: map<string, int>, total: int)
    ensures Bucketed(order, buckets, rows, dayOf) && Once(days) <= order && total == TotalOf(rows)
  {
    order := Once(days); // a Map keeps the order its keys were first set in
    buckets := EmptyBuckets(order);
    total := 0;
    NothingYet(days, rows, dayOf);
    for k := 0 to |rows|
      invariant Filled(days, rows, dayOf, k, order, buckets, total)
    {
      FilledMore(days, rows, dayOf, k, order, buckets, total);
      var row := rows[k];
      var key := dayOf(row.createdAt);
      var value := if row.status == Cleared && row.settled.Some? then row.settled.value else row.amount;
      order := OrderWith(order, key);
      buckets := BucketsWith(buckets, key, value);
      total := total + value;
    }
    AllFilled(days, rows, dayOf, order, buckets, total);
  }

  /**
   * The asked-for days start at zero; a row of any other day opens a bucket of
   * its own. Every bucket is its day's spend and together they are the total.
   */
  method SpendingOverview(days: seq<string>, table: seq<TxRow>, user: string, since: int, dayOf: int -> string)
    returns (total: int, points: seq<(string, int)>)
    ensures total == UsdCentsToUsdt(TotalOf(Rows(table, user, since)))
    ensures exists order ::
              && Distinct(order) && Once(days) <= order
              && AllListed(order, Rows(table, user, since), dayOf)
              && points == Points(order, Rows(table, user, since), dayOf)
    ensures SumPoints(points) == total
  {
    var rows := Rows(table, user, since);
    var order, buckets, cents := FillBuckets(days, rows, dayOf);
    points := seq(|order|, i requires 0 <= i < |order| => (order[i], buckets[order[i]] * 10_000));
    assert points == Points(order, rows, dayOf);
    PointsAddUp(order, rows, dayOf);
    total := cents * 10_000;
  }
}
