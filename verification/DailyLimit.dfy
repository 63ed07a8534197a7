/**
 * The daily limit of one card, over any sequential run within a day: the spend
 * the desk counts stays within it exactly as long as every card event fits in
 * the room left. Authorizations always do, because they are checked.
 */
module DailyLimit {
  import opened Wrappers
  import opened Commands
  import opened Cards
  import opened CardRuns

  ghost predicate NonNegative(rows: seq<TxRow>) {
    forall i | 0 <= i < |rows| ::
      rows[i].amount >= 0 && (rows[i].settled.Some? ==> rows[i].settled.value >= 0)
  }

  predicate OnDay(row: TxRow, card: string, dayStart: int) {
    row.card == card && row.createdAt >= dayStart
  }

  /** What a row counts towards its card's day, and what it counts once an event is applied. */
  function CountNow(row: TxRow): int {
    if row.status == Pending || row.status == Cleared then Counted(row) else 0
  }

  function CountAfter(row: TxRow, ev: CardEvent): int {
    match MapStatus(ev.status)
    case Pending => row.amount
    case Cleared =>
      if ev.settlement > 0 then ev.settlement
      else if row.settled.Some? then row.settled.value
      else row.amount
    case _ => 0
  }

  predicate Raises(row: TxRow, ev: CardEvent) {
    CountAfter(row, ev) > CountNow(row)
  }

  /** Limited to a positive amount, for good: card updates leave it alone. */
  predicate Limited(d: Desk, card: string, limit: int) {
    limit > 0 && card in d.cards && d.cards[card].dailyLimit == Some(limit)
  }

  /** One day and one limit: what the clock and the card's settings do meanwhile. */
  predicate SameDay(step: DeskStep, card: string, limit: int, dayStart: int) {
    match step
    case Asa(req, env) => req.cardToken == card ==> env.dayStart == dayStart
    case SetCard(token, updated) => token == card ==> updated.dailyLimit == Some(limit)
    case _ => true
  }

  /** What a row that an event creates counts. */
  function CountCreated(ev: CardEvent): int {
    match MapStatus(ev.status)
    case Pending => ev.hold
    case Cleared => if ev.settlement > 0 then ev.settlement else ev.hold
    case _ => 0
  }

  /** By how much an event moves the counted spend of a card's day. */
  function Raise(rows: seq<TxRow>, ev: CardEvent, card: string, dayStart: int): int {
    match RowOf(rows, ev.token)
    case None => if ev.cardToken == card && ev.now >= dayStart then CountCreated(ev) else 0
    case Some(i) => if OnDay(rows[i], card, dayStart) then CountAfter(rows[i], ev) - CountNow(rows[i]) else 0
  }

  /** A card event that is acted on raises the spend by no more than the room left. */
  predicate Fits(d: Desk, step: DeskStep, card: string, limit: int, dayStart: int) {
    step.Webhook? && step.ev.token != "" && step.ev.cardToken != "" && step.ev.cardToken in d.cards ==>
      Raise(d.rows, step.ev, card, dayStart) <= limit - SpentSince(d.rows, card, dayStart)
  }

  lemma {:induction false} SpentBesides(rows: seq<TxRow>, after: seq<TxRow>, card: string, dayStart: int, j: nat)
    requires |rows| == |after| && j < |rows|
    requires forall i | 0 <= i < |rows| && i != j :: rows[i] == after[i]
    ensures SpentSince(after, card, dayStart) - SpentSince(rows, card, dayStart) ==
            CountsOn(after[j], card, dayStart) - CountsOn(rows[j], card, dayStart)
  {
    var n := |rows| - 1;
    if j == n {
      assert rows[..n] == after[..n];
    } else {
      SpentBesides(rows[..n], after[..n], card, dayStart, j);
    }
  }

  lemma SpentAppend(rows: seq<TxRow>, row: TxRow, card: string, dayStart: int)
    ensures SpentSince(rows + [row], card, dayStart) == SpentSince(rows, card, dayStart) + CountsOn(row, card, dayStart)
  {
    assert (rows + [row])[..|rows|] == rows;
  }

  /** An event moves the counted spend by what it raises, no more and no less. */
  lemma UpsertMovesSpend(rows: seq<TxRow>, ev: CardEvent, user: string, card: string, dayStart: int)
    ensures SpentSince(UpsertRow(rows, ev, user), card, dayStart) ==
            SpentSince(rows, card, dayStart) + Raise(rows, ev, card, dayStart)
  {
    match RowOf(rows, ev.token) {
      case None => SpentAppend(rows, UpsertRow(rows, ev, user)[|rows|], card, dayStart);
      case Some(i) => SpentBesides(rows, UpsertRow(rows, ev, user), card, dayStart, i);
    }
  }

  /** Which events raise a row: a capture above what it counts, a reopening, pending again after a smaller capture. */
  lemma RaisesIff(row: TxRow, ev: CardEvent)
    requires row.amount > 0 && (row.settled.Some? ==> row.settled.value > 0)
    ensures Raises(row, ev) <==>
              var captured := if ev.settlement > 0 then Some(ev.settlement) else row.settled;
              match MapStatus(ev.status)
              case Pending =>
                row.status != Pending &&
                (row.status == Cleared ==> row.settled.Some? && row.settled.value < row.amount)
              case Cleared =>
                if row.status == Pending then captured.Some? && captured.value > row.amount
                else if row.status == Cleared then
                  ev.settlement > 0 && ev.settlement > (if row.settled.Some? then row.settled.value else row.amount)
                else true
              case _ => false
  {
  }

  /** A row that reached the balance passed the limit check of its card. */
  lemma CandidateFits(d: Desk, req: AsaRequest, env: Env, card: string, limit: int)
    requires Limited(d, card, limit) && Candidate(d, req, env).Some?
    ensures var row := Candidate(d, req, env).value;
            && row.amount >= 0 && row.settled.None? && row.card == req.cardToken
            && (row.card == card ==> SpentSince(d.rows, card, env.dayStart) + row.amount <= limit)
  {
  }

  lemma PersistFits(rows: seq<TxRow>, row: TxRow, env: Env, card: string, limit: int, dayStart: int)
    requires NonNegative(rows) && row.amount >= 0 && row.settled.None?
    requires SpentSince(rows, card, dayStart) <= limit
    requires row.card == card ==> SpentSince(rows, card, dayStart) + row.amount <= limit
    ensures NonNegative(PersistRow(rows, row, env)) && SpentSince(PersistRow(rows, row, env), card, dayStart) <= limit
  {
    SpentAppend(rows, row, card, dayStart);
  }

  lemma AsaStep(d: Desk, req: AsaRequest, env: Env, card: string, limit: int, dayStart: int)
    requires Valid(d.db) && Limited(d, card, limit) && NonNegative(d.rows)
    requires SpentSince(d.rows, card, dayStart) <= limit
    requires req.cardToken == card ==> env.dayStart == dayStart
    ensures var d' := Decide(d, req, env).0;
            NonNegative(d'.rows) && SpentSince(d'.rows, card, dayStart) <= limit
  {
    DecideEffect(d, req, env);
    if Candidate(d, req, env).Some? {
      CandidateFits(d, req, env, card, limit);
      PersistFits(d.rows, Candidate(d, req, env).value, env, card, limit, dayStart);
    }
  }

  lemma WebhookStep(d: Desk, ev: CardEvent, card: string, limit: int, dayStart: int)
    requires Valid(d.db) && NonNegative(d.rows) && SpentSince(d.rows, card, dayStart) <= limit
    ensures var rows := Sync(d, ev).0.rows;
            && NonNegative(rows)
            && (SpentSince(rows, card, dayStart) <= limit <==> Fits(d, Webhook(ev), card, limit, dayStart))
  {
    SyncEffect(d, ev);
    if ev.cardToken in d.cards {
      UpsertMovesSpend(d.rows, ev, d.cards[ev.cardToken].user, card, dayStart);
    }
  }

  lemma StaleStep(d: Desk, i: nat, reply: ProviderReply, card: string, limit: int, dayStart: int)
    requires Valid(d.db) && NonNegative(d.rows) && SpentSince(d.rows, card, dayStart) <= limit && i < |d.rows|
    ensures var d' := SweepRow(d, i, reply).0;
            NonNegative(d'.rows) && SpentSince(d'.rows, card, dayStart) <= limit
  {
    SweepEffect(d, i, reply);
    SpentBesides(d.rows, d.rows[i := d.rows[i].(status := Expired)], card, dayStart, i);
  }

  lemma CardsKept(d: Desk, step: DeskStep)
    ensures Next(d, step).cards == if step.SetCard? then d.cards[step.token := step.card] else d.cards
  {
  }

  /** A step keeps the limit exactly when it fits; a limited card stays limited. */
  lemma LimitStep(d: Desk, step: DeskStep, card: string, limit: int, dayStart: int)
    requires Valid(d.db) && Limited(d, card, limit) && NonNegative(d.rows)
    requires SpentSince(d.rows, card, dayStart) <= limit && SameDay(step, card, limit, dayStart)
    ensures Limited(Next(d, step), card, limit) && NonNegative(Next(d, step).rows)
    ensures SpentSince(Next(d, step).rows, card, dayStart) <= limit <==> Fits(d, step, card, limit, dayStart)
  {
    CardsKept(d, step);
    match step
    case Asa(req, env) => AsaStep(d, req, env, card, limit, dayStart);
    case Webhook(ev) => WebhookStep(d, ev, card, limit, dayStart);
    case StaleRow(i, reply) => if i < |d.rows| { StaleStep(d, i, reply, card, limit, dayStart); }
    case SetCard(_, _) =>
    case Other(_) =>
  }

  /** An event that raises no row, on an authorization that has one, fits however full the day is. */
  lemma NoRaiseFits(d: Desk, ev: CardEvent, card: string, limit: int, dayStart: int)
    requires SpentSince(d.rows, card, dayStart) <= limit
    requires RowOf(d.rows, ev.token).Some? && !Raises(d.rows[RowOf(d.rows, ev.token).value], ev)
    ensures Fits(d, Webhook(ev), card, limit, dayStart)
  {
  }

  lemma StepKeepsValid(d: Desk, step: DeskStep)
    requires Valid(d.db)
    ensures Valid(Next(d, step).db)
  {
    StepRunsItsCommand(d, step);
    if StepCommand(d, step).Some? {
      ExecMeaning(d.db, StepCommand(d, step).value);
    }
  }

  /** Every step of a run fits when its turn comes. */
  predicate FitsThroughout(d: Desk, steps: seq<DeskStep>, card: string, limit: int, dayStart: int)
    decreases |steps|
  {
    steps == [] ||
    (Fits(d, steps[0], card, limit, dayStart) && FitsThroughout(Next(d, steps[0]), steps[1..], card, limit, dayStart))
  }

  /** The counted spend is within the limit at every state of a run. */
  predicate WithinThroughout(d: Desk, steps: seq<DeskStep>, card: string, limit: int, dayStart: int)
    decreases |steps|
  {
    SpentSince(d.rows, card, dayStart) <= limit &&
    (steps == [] || WithinThroughout(Next(d, steps[0]), steps[1..], card, limit, dayStart))
  }

  /** The day's counted spend stays within the limit throughout exactly the runs whose events all fit. */
  lemma {:induction false} LimitThroughoutIffFits(
      d: Desk, steps: seq<DeskStep>, card: string, limit: int, dayStart: int)
    requires Valid(d.db) && Limited(d, card, limit) && NonNegative(d.rows)
    requires SpentSince(d.rows, card, dayStart) <= limit
    requires forall k | 0 <= k < |steps| :: SameDay(steps[k], card, limit, dayStart)
    ensures WithinThroughout(d, steps, card, limit, dayStart) <==> FitsThroughout(d, steps, card, limit, dayStart)
    decreases |steps|
  {
    if steps == [] {
    } else {
      var d', tail := Next(d, steps[0]), steps[1..];
      StepKeepsValid(d, steps[0]);
      LimitStep(d, steps[0], card, limit, dayStart);
      if Fits(d, steps[0], card, limit, dayStart) {
        LimitThroughoutIffFits(d', tail, card, limit, dayStart);
      } else {
        assert !WithinThroughout(d', tail, card, limit, dayStart);
      }
    }
  }
}
