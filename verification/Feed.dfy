/**
 * The transaction feed: three tables merged newest first, paged by a time
 * cursor. A page is cut from the newest 2 * limit rows of each table.
 */
module Feed {
  import opened Wrappers

  datatype Source = CardSource | DepositSource | FeeSource

  /** A feed row; amounts are signed relative to the available balance, in USDT units. */
  datatype Row = Row(
    id: string, source: Source, user: string, card: Option<string>, status: string, amount: int, createdAt: int)

  datatype CardEntry = CardEntry(
    id: string, user: string, card: string, status: string, cents: int, settledCents: Option<int>, createdAt: int)

  datatype DepositEntry = DepositEntry(id: string, user: string, status: string, amount: int, createdAt: int)

  datatype FeeEntry = FeeEntry(id: string, user: string, amount: int, createdAt: int)

  datatype Tables = Tables(cards: seq<CardEntry>, deposits: seq<DepositEntry>, fees: seq<FeeEntry>)

  datatype FeedType = All | Deposits | CardOnly | Refunds | FeesOnly

  datatype Query = Query(
    user: string, kind: FeedType, status: Option<string>, card: Option<string>,
    from: Option<int>, to: Option<int>, limit: nat)

  datatype Page = Page(data: seq<Row>, nextCursor: Option<int>, hasMore: bool)

  // ------------------------------------------------------------ Presentation

  function PresentCard(t: CardEntry): Row {
    var cents := if t.settledCents.Some? then t.settledCents.value else t.cents;
    Row(t.id, CardSource, t.user, Some(t.card), t.status, -cents * 10_000, t.createdAt)
  }

  function PresentDeposit(d: DepositEntry): Row {
    Row(d.id, DepositSource, d.user, None, d.status, d.amount, d.createdAt)
  }

  function PresentFee(f: FeeEntry): Row {
    Row(f.id, FeeSource, f.user, None, "SETTLED", -f.amount, f.createdAt)
  }

  function Insert(row: Row, sorted: seq<Row>): (r: seq<Row>)
    ensures |r| == |sorted| + 1
  {
    if sorted == [] || row.createdAt >= sorted[0].createdAt then [row] + sorted
    else [sorted[0]] + Insert(row, sorted[1..])
  }

  /** Newest first; rows of the same moment keep their order. */
  function Newest(rows: seq<Row>): (r: seq<Row>)
    ensures |r| == |rows|
  {
    if rows == [] then [] else Insert(rows[0], Newest(rows[1..]))
  }

  function Take(rows: seq<Row>, n: nat): seq<Row> {
    if |rows| <= n then rows else rows[..n]
  }

  // ------------------------------------------------------------------- Query

  /** `to` and the cursor bound the window from above; the cursor row itself is excluded. */
  predicate InWindow(q: Query, cursor: Option<int>, t: int) {
    var upper :=
      if cursor.Some? && q.to.Some? then (if cursor.value < q.to.value then cursor else q.to)
      else if cursor.Some? then cursor
      else q.to;
    && (q.from.Some? ==> q.from.value <= t)
    && (upper.Some? ==> if cursor.Some? then t < upper.value else t <= upper.value)
  }

  predicate WantedCard(q: Query, r: Row) {
    && (q.kind.All? || q.kind.CardOnly? || q.kind.Refunds?)
    && (q.card.Some? ==> r.card == q.card)
    && (if q.kind.Refunds? then r.status == "REFUNDED" else q.status.Some? ==> r.status == q.status.value)
  }

  predicate WantedDeposit(q: Query, r: Row) {
    (q.kind.All? || q.kind.Deposits?) && q.card.None? && (q.status.Some? ==> r.status == q.status.value)
  }

  predicate WantedFee(q: Query, r: Row) {
    (q.kind.All? || q.kind.FeesOnly?) && q.card.None?
  }

  predicate Wanted(q: Query, r: Row) {
    && r.user == q.user
    && match r.source
       case CardSource => WantedCard(q, r)
       case DepositSource => WantedDeposit(q, r)
       case FeeSource => WantedFee(q, r)
  }

  function CardRows(t: Tables): seq<Row> {
    seq(|t.cards|, i requires 0 <= i < |t.cards| => PresentCard(t.cards[i]))
  }

  function DepositRows(t: Tables): seq<Row> {
    seq(|t.deposits|, i requires 0 <= i < |t.deposits| => PresentDeposit(t.deposits[i]))
  }

  function FeeRows(t: Tables): seq<Row> {
    seq(|t.fees|, i requires 0 <= i < |t.fees| => PresentFee(t.fees[i]))
  }

  predicate Selected(r: Row, q: Query, cursor: Option<int>) {
    Wanted(q, r) && InWindow(q, cursor, r.createdAt)
  }

  function Select(rows: seq<Row>, q: Query, cursor: Option<int>): seq<Row> {
    if rows == [] then []
    else (if Selected(rows[0], q, cursor) then [rows[0]] else []) + Select(rows[1..], q, cursor)
  }

  /** What the database returns of the selected rows of one table: the newest. */
  function Fetch(selected: seq<Row>, take: nat): seq<Row> {
    Take(Newest(selected), take)
  }

  /** The fetched rows of three tables, merged. */
  function MergeFetched(cards: seq<Row>, deposits: seq<Row>, fees: seq<Row>, fetchSize: nat): seq<Row> {
    Newest(Fetch(cards, fetchSize) + Fetch(deposits, fetchSize) + Fetch(fees, fetchSize))
  }

  function Merged(t: Tables, q: Query, cursor: Option<int>): seq<Row> {
    MergeFetched(Select(CardRows(t), q, cursor), Select(DepositRows(t), q, cursor), Select(FeeRows(t), q, cursor),
                 2 * q.limit)
  }

  /** Trim to the limit; a cursor only when there is more. */
  function Trim(rows: seq<Row>, limit: nat): Page {
    var page := Take(rows, limit);
    var hasMore := |rows| > limit;
    Page(page, if hasMore && page != [] then Some(page[|page| - 1].createdAt) else None, hasMore)
  }

  /** One page of the feed. */
  function List(t: Tables, q: Query, cursor: Option<int>): Page {
    Trim(Merged(t, q, cursor), q.limit)
  }

  // ------------------------------------------------------- The intended feed

  function AllRows(t: Tables): seq<Row> {
    CardRows(t) + DepositRows(t) + FeeRows(t)
  }

  /** Every row the query asks for, of all three tables, newest first. */
  function Everything(t: Tables, q: Query, cursor: Option<int>): seq<Row> {
    Newest(Select(AllRows(t), q, cursor))
  }
}
