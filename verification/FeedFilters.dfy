/** Who sees what: the filters of the feed, said of the rows it shows. */
module FeedFilters {
  import opened Wrappers
  import opened Feed
  import FeedPaging

  predicate Shown(t: Tables, q: Query, cursor: Option<int>, x: Row) {
    x in Everything(t, q, cursor)
  }

  lemma ShownIff(t: Tables, q: Query, cursor: Option<int>, x: Row)
    ensures Shown(t, q, cursor, x) <==> x in AllRows(t) && Wanted(q, x) && InWindow(q, cursor, x.createdAt)
  {
    FeedPaging.EverythingMeans(t, q, cursor);
    assert x in Everything(t, q, cursor) <==> multiset(Everything(t, q, cursor))[x] > 0;
    assert x in AllRows(t) <==> multiset(AllRows(t))[x] > 0;
  }

  /** Whoever asks sees their own rows only; asked without filters, the feed has all of them. */
  lemma OwnRowsOnly(t: Tables, q: Query, cursor: Option<int>, x: Row)
    ensures Shown(t, q, cursor, x) ==> x.user == q.user
    ensures q == Query(q.user, All, None, None, None, None, q.limit) && cursor == None ==>
              (Shown(t, q, cursor, x) <==> x in AllRows(t) && x.user == q.user)
  {
    ShownIff(t, q, cursor, x);
  }

  /**
   * The row of an entry. Card spend and fees are negative; card cents are in
   * USDT units, of the settled amount where there is one.
   */
  ghost predicate Presents(t: Tables, x: Row) {
    match x.source
    case CardSource =>
      exists i | 0 <= i < |t.cards| ::
        var e := t.cards[i];
        && x.id == e.id && x.user == e.user && x.card == Some(e.card)
        && x.status == e.status && x.createdAt == e.createdAt
        && x.amount == -10_000 * (match e.settledCents case Some(settled) => settled case None => e.cents)
    case DepositSource =>
      exists i | 0 <= i < |t.deposits| ::
        var e := t.deposits[i];
        && x.id == e.id && x.user == e.user && x.card == None
        && x.status == e.status && x.createdAt == e.createdAt && x.amount == e.amount
    case FeeSource =>
      exists i | 0 <= i < |t.fees| ::
        var e := t.fees[i];
        && x.id == e.id && x.user == e.user && x.card == None
        && x.status == "SETTLED" && x.createdAt == e.createdAt && x.amount == -e.amount
  }

  /** The feed's rows are its tables' entries, each presented with its own amount, owner, status and time. */
  lemma RowsPresentEntries(t: Tables, x: Row)
    ensures x in AllRows(t) <==> Presents(t, x)
  {
    if Presents(t, x) {
      match x.source {
        case CardSource =>
          var i :| 0 <= i < |t.cards| && PresentCard(t.cards[i]) == x;
          assert CardRows(t)[i] == x;
        case DepositSource =>
          var i :| 0 <= i < |t.deposits| && PresentDeposit(t.deposits[i]) == x;
          assert DepositRows(t)[i] == x;
        case FeeSource =>
          var i :| 0 <= i < |t.fees| && PresentFee(t.fees[i]) == x;
          assert FeeRows(t)[i] == x;
      }
    }
  }

  /** What is delivered is presented: every row of a page is an entry of the asking user, amount and all. */
  lemma DeliveredRowsPresent(t: Tables, q: Query, cursor: Option<int>, x: Row)
    requires x in List(t, q, cursor).data
    ensures Presents(t, x) && x.user == q.user
  {
    FeedPaging.PageIsNewest(t, q, cursor);
    assert Shown(t, q, cursor, x);
    ShownIff(t, q, cursor, x);
    RowsPresentEntries(t, x);
  }

  /** A time window shows the rows of the full feed from its first moment to its last, both included. */
  lemma WindowShows(t: Tables, q: Query, x: Row)
    ensures Shown(t, q, None, x) <==>
              && Shown(t, q.(from := None, to := None), None, x)
              && (q.from.Some? ==> q.from.value <= x.createdAt)
              && (q.to.Some? ==> x.createdAt <= q.to.value)
  {
    ShownIff(t, q, None, x);
    ShownIff(t, q.(from := None, to := None), None, x);
  }

  /** One card's feed is that card's rows of the feed: no deposits, no fees. */
  lemma CardFilterShows(t: Tables, q: Query, card: string, cursor: Option<int>, x: Row)
    requires q.card == Some(card)
    ensures Shown(t, q, cursor, x) <==>
              Shown(t, q.(card := None), cursor, x) && x.source == CardSource && x.card == Some(card)
  {
    ShownIff(t, q, cursor, x);
    ShownIff(t, q.(card := None), cursor, x);
  }

  /** A status filter keeps the card and deposit rows of that status, and every fee. */
  lemma StatusFilterShows(t: Tables, q: Query, status: string, cursor: Option<int>, x: Row)
    requires q.status == Some(status) && q.kind != Refunds
    ensures Shown(t, q, cursor, x) <==>
              Shown(t, q.(status := None), cursor, x) && (x.source == FeeSource || x.status == status)
  {
    ShownIff(t, q, cursor, x);
    ShownIff(t, q.(status := None), cursor, x);
  }

  /** The feed of refunds is the refunded card rows, whatever other status is asked for. */
  lemma RefundsShow(t: Tables, q: Query, cursor: Option<int>, x: Row)
    requires q.kind == Refunds
    ensures Shown(t, q, cursor, x) <==>
              Shown(t, q.(kind := CardOnly, status := None), cursor, x) && x.status == "REFUNDED"
  {
    ShownIff(t, q, cursor, x);
    ShownIff(t, q.(kind := CardOnly, status := None), cursor, x);
  }

  function TypeOf(x: Row): FeedType {
    match x.source
    case CardSource => CardOnly
    case DepositSource => Deposits
    case FeeSource => FeesOnly
  }

  /** The feed of one type is exactly the rows of that type in the full feed. */
  lemma TypesPartition(t: Tables, q: Query, kind: FeedType, cursor: Option<int>, x: Row)
    requires q.kind == All
    requires kind == CardOnly || kind == Deposits || kind == FeesOnly
    ensures Shown(t, q.(kind := kind), cursor, x) <==> Shown(t, q, cursor, x) && TypeOf(x) == kind
  {
    ShownIff(t, q, cursor, x);
    ShownIff(t, q.(kind := kind), cursor, x);
  }
}
