/**
 * What a webhook does to a hold it closes - and what one that died half way
 * leaves behind for its redelivery, which is nothing to do.
 */
module WebhookEffects {
  import opened Wrappers
  import opened Postings
  import opened Commands
  import opened Cards
  import opened CardRuns
  import opened Selection
  import Decisions
  import LedgerRuns

  /** A readable event for a known card. */
  predicate Received(d: Desk, ev: CardEvent) {
    ev.token != "" && ev.cardToken != "" && ev.cardToken in d.cards
  }

  /** What an event does to the table: the row it creates, or the status and capture it updates. */
  lemma WebhookRecords(d: Desk, ev: CardEvent, status: TxStatus)
    requires Received(d, ev) && Says(ev.status, status)
    ensures var rows := Sync(d, ev).0.rows;
            var captured := if ev.settlement > 0 then Some(ev.settlement) else None;
            match RowOf(d.rows, ev.token)
            case None =>
              var user := d.cards[ev.cardToken].user;
              rows == d.rows + [TxRow(ev.token, ev.cardToken, user, status, ev.hold, captured, 0, ev.now)]
            case Some(i) =>
              var row := d.rows[i];
              rows == d.rows[i := row.(status := status, settled := if captured.Some? then captured else row.settled)]
  {
    StatusTexts(ev.status, status);
  }

  /** An event that brings a transaction it can read to a status it did not have. */
  predicate Changes(d: Desk, ev: CardEvent, status: TxStatus) {
    && Received(d, ev) && Says(ev.status, status) && !ev.crashes
    && (RowOf(d.rows, ev.token).Some? ==> d.rows[RowOf(d.rows, ev.token).value].status != status)
  }

  /** What is reserved for a token: spend and fee of its row, or what the event itself says if it has none. */
  predicate ReservedFor(rows: seq<TxRow>, ev: CardEvent, held: int, fee: int) {
    match RowOf(rows, ev.token)
    case None => held == 10_000 * ev.hold && fee == 0
    case Some(i) => held == 10_000 * rows[i].amount + rows[i].fee && fee == rows[i].fee
  }

  lemma SettlementCommand(log: Log, rows: seq<TxRow>, ev: CardEvent, u: string, held: int, fee: int, cents: int)
    requires ev.status == "SETTLED" && ReservedFor(rows, ev, held, fee)
    requires cents == if ev.settlement > 0 then ev.settlement else ev.hold
    ensures EventCommand(log, rows, ev, u) ==
            Some(SettleAuthorization(u, Settle(ev.token), held, 10_000 * cents, fee))
  {
  }

  lemma ClosingCommand(d: Desk, ev: CardEvent, held: int, fee: int, cents: int)
    requires Valid(d.db) && Changes(d, ev, Cleared) && ReservedFor(d.rows, ev, held, fee)
    requires cents == if ev.settlement > 0 then ev.settlement else ev.hold
    ensures var c := SettleAuthorization(d.cards[ev.cardToken].user, Settle(ev.token), held, 10_000 * cents, fee);
            Sync(d, ev).0.db == Exec(d.db, c).db
  {
    StatusTexts(ev.status, Cleared);
    SettlementCommand(d.db.log, d.rows, ev, d.cards[ev.cardToken].user, held, fee, cents);
    StepRunsItsCommand(d, Webhook(ev));
  }

  /**
   * A settlement, whatever the rates are by now: held falls by what was
   * reserved, the merchant is paid the capture - the hold, if the event names
   * none - and revenue the stored fee, and available makes up the difference.
   */
  lemma WebhookSettles(d: Desk, ev: CardEvent, held: int, fee: int, cents: int)
    requires Valid(d.db) && Received(d, ev) && ev.status == "SETTLED" && !ev.crashes
    requires RowOf(d.rows, ev.token).Some? ==> d.rows[RowOf(d.rows, ev.token).value].status != Cleared
    requires ReservedFor(d.rows, ev, held, fee) && held > 0 && fee >= 0
    requires cents == if ev.settlement > 0 then ev.settlement else ev.hold
    requires !Posted(d.db.log, Settle(ev.token))
    ensures var u := d.cards[ev.cardToken].user;
            var before, after := d.db.log, Sync(d, ev).0.db.log;
            && Balance(after, Held(u)) == Balance(before, Held(u)) - held
            && Balance(after, CardSettlement) == Balance(before, CardSettlement) + 10_000 * cents
            && Balance(after, FeeRevenue) == Balance(before, FeeRevenue) + fee
            && Balance(after, Available(u)) == Balance(before, Available(u)) + held - 10_000 * cents - fee
            && Posted(after, Settle(ev.token))
  {
    var u := d.cards[ev.cardToken].user;
    var c := SettleAuthorization(u, Settle(ev.token), held, 10_000 * cents, fee);
    ClosingCommand(d, ev, held, fee, cents);
    ExecMeaning(d.db, c);
    LedgerRuns.SettlementPosts(d.db, c, Exec(d.db, c));
    LedgerRuns.SettleEffect(d.db, c, Exec(d.db, c));
    Moves(d.db, c, Exec(d.db, c), Available(u));
    Decisions.KeysPosted(d.db, c, Exec(d.db, c), Settle(ev.token));
  }

  lemma ReleasingCommand(d: Desk, ev: CardEvent, status: TxStatus, held: int, fee: int)
    requires Valid(d.db) && Changes(d, ev, status) && ReservedFor(d.rows, ev, held, fee) && held > 0
    requires status == Declined || status == Reversed || status == Expired
    ensures var c := ReleaseHold(d.cards[ev.cardToken].user, Release(ev.token), held);
            Sync(d, ev).0.db == if Posted(d.db.log, Auth(ev.token)) then Exec(d.db, c).db else d.db
  {
    StatusTexts(ev.status, status);
    StepRunsItsCommand(d, Webhook(ev));
  }

  lemma ReleaseEffect(db: Db, c: Command)
    requires Valid(db) && c.ReleaseHold? && c.amount > 0 && !Posted(db.log, c.key)
    ensures Balance(Exec(db, c).db.log, Held(c.user)) == Balance(db.log, Held(c.user)) - c.amount
    ensures Balance(Exec(db, c).db.log, Available(c.user)) == Balance(db.log, Available(c.user)) + c.amount
    ensures Posted(Exec(db, c).db.log, c.key)
  {
    ExecMeaning(db, c);
    FindAppend(db.log, PostingOf(c));
    Moves(db, c, Exec(db, c), Held(c.user));
    Moves(db, c, Exec(db, c), Available(c.user));
  }

  /** The status a text that ends an authorization brings it to. */
  predicate Ends(text: string, status: TxStatus) {
    || ((text == "VOIDED" || text == "REVERSED") && status == Reversed)
    || (text == "DECLINED" && status == Declined)
    || (text == "EXPIRED" && status == Expired)
  }

  /** A void, reversal, decline or expiry gives the whole reservation back, if there was a hold. */
  lemma WebhookReleases(d: Desk, ev: CardEvent, status: TxStatus, held: int, fee: int)
    requires Valid(d.db) && Received(d, ev) && Ends(ev.status, status) && !ev.crashes
    requires RowOf(d.rows, ev.token).Some? ==> d.rows[RowOf(d.rows, ev.token).value].status != status
    requires ReservedFor(d.rows, ev, held, fee) && held > 0 && !Posted(d.db.log, Release(ev.token))
    ensures var u := d.cards[ev.cardToken].user;
            var before, after := d.db.log, Sync(d, ev).0.db.log;
            var back := if Posted(before, Auth(ev.token)) then held else 0;
            && Balance(after, Held(u)) == Balance(before, Held(u)) - back
            && Balance(after, Available(u)) == Balance(before, Available(u)) + back
            && LedgerRuns.Total(after, u) == LedgerRuns.Total(before, u)
            && (Posted(before, Auth(ev.token)) ==> Posted(after, Release(ev.token)))
  {
    ReleasingCommand(d, ev, status, held, fee);
    if Posted(d.db.log, Auth(ev.token)) {
      ReleaseEffect(d.db, ReleaseHold(d.cards[ev.cardToken].user, Release(ev.token), held));
    }
  }

  /** Any other text, and a status the row has already, move no money. */
  lemma WebhookWaits(d: Desk, ev: CardEvent, status: TxStatus)
    requires Says(ev.status, status)
    requires status == Pending || At(d, ev.token, status)
    ensures Sync(d, ev).0.db == d.db && Sync(d, ev).1.None?
  {
    StatusTexts(ev.status, status);
  }

  lemma UpsertSetsStatus(rows: seq<TxRow>, ev: CardEvent, user: string)
    requires UniqueTokens(rows)
    ensures var after := UpsertRow(rows, ev, user);
            RowOf(after, ev.token).Some? && after[RowOf(after, ev.token).value].status == MapStatus(ev.status)
  {
    var after := UpsertRow(rows, ev, user);
    UpsertKeepsRows(rows, ev, user);
    var j := if RowOf(rows, ev.token).Some? then RowOf(rows, ev.token).value else |rows|;
    assert after[j].token == ev.token && after[j].status == MapStatus(ev.status);
  }

  /** The row of a token is on record with a given status. */
  predicate At(d: Desk, token: string, status: TxStatus) {
    RowOf(d.rows, token).Some? && d.rows[RowOf(d.rows, token).value].status == status
  }

  /** A step that leaves the row's status alone: redeliveries of it included, a sweep of the row not. */
  predicate KeepsStatus(d: Desk, step: DeskStep, token: string, status: TxStatus) {
    match step
    case Webhook(ev) => ev.token == token ==> MapStatus(ev.status) == status
    case StaleRow(i, _) => i < |d.rows| ==> d.rows[i].token != token
    case _ => true
  }

  /** The keys a webhook closes a token under. */
  predicate ClosingKey(key: Key, token: string) {
    key == Settle(token) || key == Release(token)
  }

  lemma OnlyChangesClose(d: Desk, step: DeskStep, token: string, status: TxStatus)
    requires At(d, token, status) && KeepsStatus(d, step, token, status)
    ensures StepCommand(d, step).Some? ==> !ClosingKey(KeyOf(StepCommand(d, step).value), token)
  {
  }

  /** A row that is where it was with the status it had. */
  lemma StillAt(rows: seq<TxRow>, after: seq<TxRow>, token: string, status: TxStatus)
    requires RowsKept(rows, after) && RowOf(rows, token).Some?
    requires after[RowOf(rows, token).value].status == status
    ensures RowOf(after, token).Some? && after[RowOf(after, token).value].status == status
  {
    var i := RowOf(rows, token).value;
    assert after[i].token == token;
    var j := RowOf(after, token).value;
    assert after[j].token == token;
  }

  lemma WebhookKeepsStatus(d: Desk, ev: CardEvent, token: string, status: TxStatus)
    requires Valid(d.db) && At(d, token, status) && (ev.token == token ==> MapStatus(ev.status) == status)
    ensures var i := RowOf(d.rows, token).value;
            i < |Sync(d, ev).0.rows| && Sync(d, ev).0.rows[i].status == status
  {
    SyncEffect(d, ev);
  }

  lemma StatusKept(d: Desk, step: DeskStep, token: string, status: TxStatus)
    requires Valid(d.db) && UniqueTokens(d.rows)
    requires At(d, token, status) && KeepsStatus(d, step, token, status)
    ensures At(Next(d, step), token, status)
  {
    StepKeepsRows(d, step);
    match step {
      case Asa(req, env) => DecideEffect(d, req, env);
      case Webhook(ev) => WebhookKeepsStatus(d, ev, token, status);
      case StaleRow(j, reply) => if j < |d.rows| { SweepEffect(d, j, reply); }
      case _ =>
    }
    StillAt(d.rows, Next(d, step).rows, token, status);
  }

  lemma NoClosingPosted(d: Desk, step: DeskStep, token: string, status: TxStatus, key: Key)
    requires Valid(d.db) && At(d, token, status) && KeepsStatus(d, step, token, status) && ClosingKey(key, token)
    ensures Valid(Next(d, step).db)
    ensures Posted(Next(d, step).db.log, key) <==> Posted(d.db.log, key)
  {
    StepRunsItsCommand(d, step);
    OnlyChangesClose(d, step, token, status);
    var c := StepCommand(d, step);
    if c.Some? {
      ExecMeaning(d.db, c.value);
      Decisions.KeysPosted(d.db, c.value, Exec(d.db, c.value), key);
    }
  }

  /** Over any run that leaves a row's status alone, no webhook closes its token. */
  lemma {:induction false} StatusKeptNeverCloses(
      d: Desk, steps: seq<DeskStep>, token: string, status: TxStatus, key: Key)
    requires Valid(d.db) && UniqueTokens(d.rows) && At(d, token, status) && ClosingKey(key, token)
    requires forall k | 0 <= k < |steps| :: KeepsStatus(Run(d, steps[..k]), steps[k], token, status)
    ensures At(Run(d, steps), token, status)
    ensures Posted(Run(d, steps).db.log, key) <==> Posted(d.db.log, key)
    decreases |steps|
  {
    if steps == [] {
    } else {
      var d', tail := Next(d, steps[0]), steps[1..];
      assert steps[..0] == [];
      StatusKept(d, steps[0], token, status);
      NoClosingPosted(d, steps[0], token, status, key);
      StepKeepsRows(d, steps[0]);
      forall k | 0 <= k < |tail| ensures KeepsStatus(Run(d', tail[..k]), tail[k], token, status) {
        assert steps[..k + 1][1..] == tail[..k] && steps[..k + 1][0] == steps[0];
        assert KeepsStatus(Run(d, steps[..k + 1]), steps[k + 1], token, status);
      }
      StatusKeptNeverCloses(d', tail, token, status, key);
    }
  }

  /**
   * The row's status is written before the ledger is called. If the process
   * dies in between, or the ledger refuses, the row is there with its new
   * status and the token is not closed - and whatever runs and is redelivered
   * afterwards, as long as that status stays, it is not closed then either.
   */
  lemma HalfDoneIsNeverFinished(d: Desk, ev: CardEvent, steps: seq<DeskStep>, key: Key)
    requires Valid(d.db) && UniqueTokens(d.rows)
    requires ev.token != "" && ev.cardToken != "" && ev.cardToken in d.cards
    requires ev.crashes || Sync(d, ev).1.Some?
    requires ClosingKey(key, ev.token) && !Posted(d.db.log, key)
    requires var mid := Sync(d, ev).0;
             forall k | 0 <= k < |steps| :: KeepsStatus(Run(mid, steps[..k]), steps[k], ev.token, MapStatus(ev.status))
    ensures Sync(d, ev).0.db == d.db
    ensures var later := Run(Sync(d, ev).0, steps);
            At(later, ev.token, MapStatus(ev.status)) && !Posted(later.db.log, key)
  {
    var mid := Sync(d, ev).0;
    SyncEffect(d, ev);
    var c := StepCommand(d, Webhook(ev));
    if c.Some? { ExecMeaning(d.db, c.value); }
    UpsertSetsStatus(d.rows, ev, d.cards[ev.cardToken].user);
    UpsertKeepsRows(d.rows, ev, d.cards[ev.cardToken].user);
    StatusKeptNeverCloses(mid, steps, ev.token, MapStatus(ev.status), key);
  }

  // ------------------------------------------------------------- Stale sweep

  lemma ReleasePosts(db: Db, c: Command)
    requires Valid(db) && c.ReleaseHold? && c.amount > 0
    ensures Exec(db, c).result.Ok? && Posted(Exec(db, c).db.log, c.key)
    ensures Posted(db.log, c.key) ==> Exec(db, c).db.log == db.log
    ensures Valid(Exec(db, c).db)
  {
    ExecMeaning(db, c);
    FindAppend(db.log, PostingOf(c));
  }

  /** A stale row the provider never heard of: the whole reservation goes back and the row expires. */
  lemma SweepReleases(d: Desk, i: nat)
    requires Valid(d.db) && i < |d.rows| && 10_000 * d.rows[i].amount + d.rows[i].fee > 0
    requires !Posted(d.db.log, StaleRelease(d.rows[i].token))
    ensures var row := d.rows[i];
            var back := 10_000 * row.amount + row.fee;
            var (d', result) := SweepRow(d, i, Unknown(false));
            && result == Swept
            && d'.rows == d.rows[i := row.(status := Expired)]
            && Posted(d'.db.log, StaleRelease(row.token))
            && Balance(d'.db.log, Held(row.user)) == Balance(d.db.log, Held(row.user)) - back
            && Balance(d'.db.log, Available(row.user)) == Balance(d.db.log, Available(row.user)) + back
            && LedgerRuns.Total(d'.db.log, row.user) == LedgerRuns.Total(d.db.log, row.user)
  {
    ReleasePosts(d.db, StaleCommand(d.rows[i]));
    ReleaseEffect(d.db, StaleCommand(d.rows[i]));
  }

  /**
   * Unlike a webhook, a sweep that died between the release and the row update
   * is completed by the next one: no second release, and the row expires.
   */
  lemma SweepAgainCompletes(d: Desk, i: nat)
    requires Valid(d.db) && i < |d.rows| && Reserved(d.rows[i]) > 0
    ensures var mid := SweepRow(d, i, Unknown(true)).0;
            var (after, result) := SweepRow(mid, i, Unknown(false));
            && mid.rows == d.rows
            && result == Swept
            && after.db.log == mid.db.log
            && after.rows == d.rows[i := d.rows[i].(status := Expired)]
  {
    var c := StaleCommand(d.rows[i]);
    ReleasePosts(d.db, c);
    ReleasePosts(Exec(d.db, c).db, c);
  }

  /** One row of a sweep leaves every other row as it was, and what is released for it. */
  lemma SweepRowTouches(d: Desk, i: nat, reply: ProviderReply)
    requires Valid(d.db) && i < |d.rows|
    ensures var (d', result) := SweepRow(d, i, reply);
            && Valid(d'.db) && d.db.log <= d'.db.log
            && |d'.rows| == |d.rows|
            && (forall j | 0 <= j < |d.rows| && j != i :: d'.rows[j] == d.rows[j])
            && d'.rows[i] == (if reply.Unknown? && result != Stopped then d.rows[i].(status := Expired) else d.rows[i])
            && (reply.Unknown? && result != Stopped ==> Posted(d'.db.log, StaleRelease(d.rows[i].token)))
            && (forall t :: t != d.rows[i].token ==>
                  (Posted(d'.db.log, StaleRelease(t)) <==> Posted(d.db.log, StaleRelease(t))))
  {
    var c := StaleCommand(d.rows[i]);
    ExecMeaning(d.db, c);
    FindAppend(d.db.log, PostingOf(c));
  }

  /** A sweep leaves the rows it was not given, and releases nothing for their tokens. */
  lemma {:induction false} SweepLeaves(d: Desk, stale: seq<nat>, replies: string -> ProviderReply)
    requires Valid(d.db) && forall k | 0 <= k < |stale| :: stale[k] < |d.rows|
    ensures var d' := SweepRows(d, stale, replies).0;
            && |d'.rows| == |d.rows| && d.db.log <= d'.db.log
            && (forall i: nat | i < |d.rows| && i !in stale :: d'.rows[i] == d.rows[i])
            && forall t | (forall i | i in stale :: d.rows[i].token != t) ::
                 Posted(d'.db.log, StaleRelease(t)) <==> Posted(d.db.log, StaleRelease(t))
    decreases |stale|
  {
    if stale == [] {
    } else {
      var reply := replies(d.rows[stale[0]].token);
      var (next, result) := SweepRow(d, stale[0], reply);
      SweepRowTouches(d, stale[0], reply);
      assert forall i | i in stale[1..] :: i in stale;
      if result != Stopped {
        SweepLeaves(next, stale[1..], replies);
        var d' := SweepRows(next, stale[1..], replies).0;
        forall t | forall i | i in stale :: d.rows[i].token != t
          ensures Posted(d'.db.log, StaleRelease(t)) <==> Posted(d.db.log, StaleRelease(t))
        {
          assert stale[0] in stale;
          assert forall i | i in stale[1..] :: next.rows[i].token == d.rows[i].token;
        }
      }
    }
  }

  /** A sweep that was not stopped has expired exactly the rows the provider had never heard of, each released. */
  lemma {:induction false} SweepExpires(d: Desk, stale: seq<nat>, replies: string -> ProviderReply)
    requires Valid(d.db) && Distinct(stale) && forall k | 0 <= k < |stale| :: stale[k] < |d.rows|
    requires Stopped !in SweepRows(d, stale, replies).1
    ensures var d' := SweepRows(d, stale, replies).0;
            && |d'.rows| == |d.rows|
            && forall i | i in stale ::
                 var row := d.rows[i];
                 && d'.rows[i] == (if replies(row.token).Unknown? then row.(status := Expired) else row)
                 && (replies(row.token).Unknown? ==> Posted(d'.db.log, StaleRelease(row.token)))
    decreases |stale|
  {
    if stale == [] {
    } else {
      var first := d.rows[stale[0]];
      var (next, result) := SweepRow(d, stale[0], replies(first.token));
      SweepRowTouches(d, stale[0], replies(first.token));
      SweepExpires(next, stale[1..], replies);
      SweepLeaves(next, stale[1..], replies);
      var d' := SweepRows(next, stale[1..], replies).0;
      if replies(first.token).Unknown? {
        FindPrefix(next.db.log, d'.db.log, StaleRelease(first.token));
      }
      forall i | i in stale && i != stale[0] ensures i in stale[1..] && next.rows[i] == d.rows[i] {}
    }
  }

  /**
   * The sweep as the job runs it. A transaction that is not pending, or was
   * made at or after the cutoff, stays as it is; and unless such a one shares
   * its token with a stale one, nothing is released under it.
   */
  lemma SweepTouchesStaleOnly(d: Desk, cutoff: int, take: nat, replies: string -> ProviderReply)
    requires Valid(d.db)
    ensures var d' := SweepRows(d, StaleRows(d.rows, cutoff, take), replies).0;
            && |d'.rows| == |d.rows|
            && (forall i: nat | i < |d.rows| && (d.rows[i].status != Pending || d.rows[i].createdAt >= cutoff) ::
                  d'.rows[i] == d.rows[i])
            && forall t |
                 (forall i: nat | i < |d.rows| && d.rows[i].token == t ::
                    d.rows[i].status != Pending || d.rows[i].createdAt >= cutoff) ::
                 Posted(d'.db.log, StaleRelease(t)) <==> Posted(d.db.log, StaleRelease(t))
  {
    var stale := StaleRows(d.rows, cutoff, take);
    StaleRowsAre(d.rows, cutoff, take);
    SweepLeaves(d, stale, replies);
  }

  /** ... and a stale one is expired and released, in its turn, exactly when the provider has never heard of it. */
  lemma SweepExpiresStale(d: Desk, cutoff: int, take: nat, replies: string -> ProviderReply, i: nat)
    requires Valid(d.db) && i < |d.rows| && d.rows[i].status == Pending && d.rows[i].createdAt < cutoff
    requires Stopped !in SweepRows(d, StaleRows(d.rows, cutoff, take), replies).1
    ensures var stale := StaleRows(d.rows, cutoff, take);
            var d' := SweepRows(d, stale, replies).0;
            && |d'.rows| == |d.rows|
            && (i in stale || (|stale| == take && forall j | j in stale :: j < i))
            && d'.rows[i] ==
               (if i in stale && replies(d.rows[i].token).Unknown? then d.rows[i].(status := Expired) else d.rows[i])
            && (i in stale && replies(d.rows[i].token).Unknown? ==> Posted(d'.db.log, StaleRelease(d.rows[i].token)))
  {
    var stale := StaleRows(d.rows, cutoff, take);
    StaleRowsAre(d.rows, cutoff, take);
    assert InOrBehind(stale, take, i);
    SweepLeaves(d, stale, replies);
    SweepExpires(d, stale, replies);
  }
}
