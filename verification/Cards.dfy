/**
 * Card authorizations: the decision taken at the tap, the webhook that settles
 * or releases the hold, and the sweep for holds whose webhook never came.
 * Everything here is one atomic step on the desk; faults are inputs.
 */
module Cards {
  import opened Wrappers
  import opened Postings
  import opened Commands
  import opened Fees
  import opened Selection

  datatype CardStatus = Active | Frozen | Closed

  datatype Card = Card(
    user: string, status: CardStatus, userActive: bool,
    perTransactionLimit: Option<int>, dailyLimit: Option<int>)

  datatype TxStatus = Pending | Cleared | Declined | Reversed | Expired | Refunded

  /** A card transaction: cents authorized, cents settled, the fee in USDT units. */
  datatype TxRow = TxRow(
    token: string, card: string, user: string, status: TxStatus,
    amount: int, settled: Option<int>, fee: int, createdAt: int)

  datatype Decision =
    | Approved
    | InsufficientFunds
    | VelocityExceeded
    | CardPaused
    | CardClosed
    | UnauthorizedMerchant
    | SuspectedFraud
    | Errored

  datatype Desk = Desk(
    db: Db, cards: map<string, Card>, rows: seq<TxRow>, decisions: map<string, Decision>)

  // ------------------------------------------------------------ Transactions

  function RowOf(rows: seq<TxRow>, token: string): (r: Option<nat>)
    ensures r.Some? ==> r.value < |rows| && rows[r.value].token == token
    ensures r.None? ==> forall i | 0 <= i < |rows| :: rows[i].token != token
  {
    RowFrom(rows, token, 0)
  }

  function RowFrom(rows: seq<TxRow>, token: string, i: nat): (r: Option<nat>)
    requires i <= |rows|
    ensures r.Some? ==> r.value < |rows| && rows[r.value].token == token
    ensures r.None? ==> forall j | i <= j < |rows| :: rows[j].token != token
    decreases |rows| - i
  {
    if i == |rows| then None
    else if rows[i].token == token then Some(i)
    else RowFrom(rows, token, i + 1)
  }

  /** USD cents to USDT units, at the fixed 1:1 peg. */
  function UsdCentsToUsdt(cents: int): int {
    cents * 10_000
  }

  /** What was reserved for a transaction: the spend and its fee. */
  function Reserved(row: TxRow): int {
    UsdCentsToUsdt(row.amount) + row.fee
  }

  /** What a row counts towards a daily limit. */
  function Counted(row: TxRow): int {
    if row.status == Cleared && row.settled.Some? then row.settled.value else row.amount
  }

  function CountsOn(row: TxRow, card: string, dayStart: int): int {
    if row.card == card && row.createdAt >= dayStart && (row.status == Pending || row.status == Cleared)
    then Counted(row)
    else 0
  }

  function SpentSince(rows: seq<TxRow>, card: string, dayStart: int): int {
    if rows == [] then 0
    else SpentSince(rows[..|rows| - 1], card, dayStart) + CountsOn(rows[|rows| - 1], card, dayStart)
  }

  // ----------------------------------------------------------- Authorization

  datatype Number = NotFinite | Finite(value: real)

  /** A token is empty when the payload lacks it. */
  datatype AsaRequest = AsaRequest(
    token: string, cardToken: string, foreign: bool,
    amount: Option<Number>, hold: Option<Number>, cardholder: Option<Number>, merchant: Option<Number>)

  /** Where an infrastructure error strikes, if it does. */
  datatype Fault = NoFault | AtReplayLookup | BeforeHold | AtHold

  datatype Env = Env(
    now: int, dayStart: int, rates: Rates, fault: Fault, rowPersists: bool, decisionPersists: bool)

  datatype Response = Response(code: Decision)

  function ExtractAmount(req: AsaRequest): (r: Option<int>)
    ensures r.Some? ==> r.value >= 0
  {
    var candidate :=
      if req.amount.Some? then req.amount
      else if req.hold.Some? then req.hold
      else if req.cardholder.Some? then req.cardholder
      else req.merchant;
    match candidate
    case None => None
    case Some(NotFinite) => None
    case Some(Finite(x)) => Some(((if x < 0.0 then -x else x) + 0.5).Floor)
  }

  /** The nearest whole cent of a finite number's magnitude, halves upwards; nothing of any other. */
  predicate Reads(n: Number, r: Option<int>) {
    match n
    case NotFinite => r.None?
    case Finite(x) =>
      var magnitude := if x < 0.0 then -x else x;
      r.Some? && r.value as real - 0.5 <= magnitude < r.value as real + 0.5
  }

  /** The first amount given counts, even when it cannot be read; the later ones are not consulted. */
  lemma FirstAmountCounts(req: AsaRequest)
    ensures var given := [req.amount, req.hold, req.cardholder, req.merchant];
            var r := ExtractAmount(req);
            && (r.Some? ==> exists i :: 0 <= i < 4 && given[i].Some?)
            && forall i | 0 <= i < 4 && given[i].Some? && (forall j | 0 <= j < i :: given[j].None?) ::
                 Reads(given[i].value, r)
  {
    var given := [req.amount, req.hold, req.cardholder, req.merchant];
    assert given[0] == req.amount && given[1] == req.hold && given[2] == req.cardholder && given[3] == req.merchant;
  }

  /** Decisions with no response code of their own decline as insufficient funds. */
  function ToResponse(decision: Decision): Response {
    match decision
    case SuspectedFraud => Response(InsufficientFunds)
    case Errored => Response(InsufficientFunds)
    case _ => Response(decision)
  }

  /** The first decision recorded for a token stays. */
  function Record(d: Desk, token: string, decision: Decision, env: Env): Desk {
    if env.decisionPersists && token !in d.decisions
    then d.(decisions := d.decisions[token := decision])
    else d
  }

  function Finish(d: Desk, token: string, decision: Decision, env: Env): (Desk, Response) {
    (Record(d, token, decision, env), ToResponse(decision))
  }

  /** Fail closed: whatever broke, the answer is a decline. */
  function Fail(d: Desk, token: string, env: Env): (Desk, Response) {
    (Record(d, token, Errored, env), Response(InsufficientFunds))
  }

  /** A limit that is null or zero is no limit. */
  predicate Over(limit: Option<int>, amount: int) {
    limit.Some? && limit.value != 0 && amount > limit.value
  }

  /** The checks before the balance, in order. */
  function Screen(d: Desk, cardToken: string, cents: int, dayStart: int): Option<Decision>
    requires cardToken in d.cards
  {
    var card := d.cards[cardToken];
    if card.status == Closed then Some(CardClosed)
    else if card.status == Frozen then Some(CardPaused)
    else if !card.userActive then Some(CardPaused)
    else if Over(card.perTransactionLimit, cents) then Some(VelocityExceeded)
    else if Over(card.dailyLimit, SpentSince(d.rows, cardToken, dayStart) + cents) then Some(VelocityExceeded)
    else None
  }

  /** The pending row, unless the token already has a row or the insert fails. */
  function PersistRow(rows: seq<TxRow>, row: TxRow, env: Env): seq<TxRow> {
    if env.rowPersists && RowOf(rows, row.token).None? then rows + [row] else rows
  }

  function NewRow(req: AsaRequest, user: string, cents: int, env: Env): TxRow {
    TxRow(req.token, req.cardToken, user, Pending, cents, None,
          TransactionFee(env.rates, UsdCentsToUsdt(cents), req.foreign), env.now)
  }

  function Hold(row: TxRow): Command {
    PlaceHold(row.user, Auth(row.token), Reserved(row))
  }

  /** What the outcome of the hold leads to. */
  function Conclude(d: Desk, row: TxRow, hold: Outcome, env: Env): (Desk, Response) {
    match hold.result
    case Ok(_) =>
      Finish(d.(db := hold.db, rows := PersistRow(d.rows, row, env)), row.token, Approved, env)
    case Err(InsufficientBalance(_, _)) => Finish(d, row.token, InsufficientFunds, env)
    case Err(_) => Fail(d, row.token, env)
  }

  function Reserve(d: Desk, row: TxRow, env: Env): (Desk, Response) {
    if env.fault == AtHold then Fail(d, row.token, env)
    else Conclude(d, row, Exec(d.db, Hold(row)), env)
  }

  /** One delivery of an authorization request. */
  function Decide(d: Desk, req: AsaRequest, env: Env): (Desk, Response) {
    var cents := ExtractAmount(req);
    if req.token == "" || req.cardToken == "" || cents.None? then (d, Response(SuspectedFraud))
    else if env.fault == AtReplayLookup then Fail(d, req.token, env)
    else if req.token in d.decisions then (d, ToResponse(d.decisions[req.token]))
    else if env.fault == BeforeHold then Fail(d, req.token, env)
    else if req.cardToken !in d.cards then
      (Record(d, req.token, Errored, env), Response(SuspectedFraud))
    else
      var screened := Screen(d, req.cardToken, cents.value, env.dayStart);
      if screened.Some? then Finish(d, req.token, screened.value, env)
      else Reserve(d, NewRow(req, d.cards[req.cardToken].user, cents.value, env), env)
  }

  // ---------------------------------------------------------------- Webhooks

  /** A card_transaction.updated payload; status upper-cased, amounts absolute cents. */
  datatype CardEvent = CardEvent(
    token: string, cardToken: string, status: string, hold: nat, settlement: nat, now: int,
    crashes: bool) // the process dies between the row update and the ledger call

  function MapStatus(status: string): TxStatus {
    if status == "SETTLED" then Cleared
    else if status == "DECLINED" then Declined
    else if status == "VOIDED" || status == "REVERSED" then Reversed
    else if status == "EXPIRED" then Expired
    else Pending
  }

  /** The texts a transaction's status is known by; any other text leaves it pending. */
  predicate Says(text: string, status: TxStatus) {
    match status
    case Cleared => text == "SETTLED"
    case Declined => text == "DECLINED"
    case Reversed => text == "VOIDED" || text == "REVERSED"
    case Expired => text == "EXPIRED"
    case Refunded => false
    case Pending =>
      text != "SETTLED" && text != "DECLINED" && text != "VOIDED" && text != "REVERSED" && text != "EXPIRED"
  }

  lemma StatusTexts(text: string, status: TxStatus)
    ensures MapStatus(text) == status <==> Says(text, status)
  {
  }

  function SettledCents(ev: CardEvent): Option<int> {
    if ev.settlement > 0 then Some(ev.settlement) else None
  }

  /** Create the row, or update its status and settled amount - never amount or fee. */
  function UpsertRow(rows: seq<TxRow>, ev: CardEvent, user: string): seq<TxRow> {
    match RowOf(rows, ev.token)
    case None =>
      rows + [TxRow(ev.token, ev.cardToken, user, MapStatus(ev.status), ev.hold, SettledCents(ev), 0, ev.now)]
    case Some(i) =>
      rows[i := rows[i].(status := MapStatus(ev.status),
                         settled := if ev.settlement > 0 then Some(ev.settlement) else rows[i].settled)]
  }

  /** The reservation the event acts on: the stored row's, or what the event says. */
  function EventReserved(rows: seq<TxRow>, ev: CardEvent): (int, int) {
    match RowOf(rows, ev.token)
    case None => (UsdCentsToUsdt(ev.hold), 0)
    case Some(i) => (Reserved(rows[i]), rows[i].fee)
  }

  /** The ledger command a change of status calls for, if any. */
  function CommandFor(log: Log, ev: CardEvent, user: string, held: int, fee: int): Option<Command> {
    match MapStatus(ev.status)
    case Cleared =>
      var cents := if ev.settlement > 0 then ev.settlement else ev.hold;
      Some(SettleAuthorization(user, Settle(ev.token), held, UsdCentsToUsdt(cents), fee))
    case Pending => None
    case Refunded => None
    case _ =>
      if Posted(log, Auth(ev.token)) && held > 0
      then Some(ReleaseHold(user, Release(ev.token), held))
      else None
  }

  function EventCommand(log: Log, rows: seq<TxRow>, ev: CardEvent, user: string): Option<Command> {
    var (held, fee) := EventReserved(rows, ev);
    CommandFor(log, ev, user, held, fee)
  }

  predicate StatusUnchanged(rows: seq<TxRow>, ev: CardEvent) {
    RowOf(rows, ev.token).Some? && rows[RowOf(rows, ev.token).value].status == MapStatus(ev.status)
  }

  /** Run a command, if there is one; an error leaves the ledger as it was. */
  function Act(db: Db, command: Option<Command>): (Db, Option<Error>) {
    if command.None? then (db, None)
    else
      match Exec(db, command.value)
      case Outcome(after, Ok(_)) => (after, None)
      case Outcome(_, Err(e)) => (db, Some(e))
  }

  /** The row is written first; only a changed status reaches the ledger. */
  function Sync(d: Desk, ev: CardEvent): (Desk, Option<Error>) {
    if ev.token == "" || ev.cardToken == "" || ev.cardToken !in d.cards then (d, None)
    else
      var user := d.cards[ev.cardToken].user;
      var updated := d.(rows := UpsertRow(d.rows, ev, user));
      if StatusUnchanged(d.rows, ev) || ev.crashes then (updated, None)
      else
        var (db, thrown) := Act(d.db, EventCommand(d.db.log, d.rows, ev, user));
        (updated.(db := db), thrown)
  }

  // ------------------------------------------------------------- Stale sweep

  datatype ProviderReply = LookupFails | Known | Unknown(crashes: bool)

  datatype SweepResult = Unresolved | Resolved | Swept | Stopped

  function StaleCommand(row: TxRow): Command {
    ReleaseHold(row.user, StaleRelease(row.token), Reserved(row))
  }

  /**
   * What the webhook path reads from a provider's record of a transaction: the
   * record carries its tokens under other names, so both come out empty.
   */
  const MISREAD := CardEvent("", "", "", 0, 0, 0, false)

  /** An event without a token, or for a card nobody knows, is dropped. */
  lemma BlankEventDoesNothing(d: Desk, ev: CardEvent)
    requires ev.token == "" || ev.cardToken == "" || ev.cardToken !in d.cards
    ensures Sync(d, ev) == (d, None)
  {
  }

  /** The release of a stale hold, then its row - unless the ledger throws or the process dies between. */
  function ReleaseRow(d: Desk, i: nat, crashes: bool): (Desk, SweepResult)
    requires i < |d.rows|
  {
    match Exec(d.db, StaleCommand(d.rows[i]))
    case Outcome(_, Err(_)) => (d, Stopped)
    case Outcome(db, Ok(_)) =>
      if crashes then (d.(db := db), Stopped)
      else (d.(db := db, rows := d.rows[i := d.rows[i].(status := Expired)]), Swept)
  }

  /**
   * One stale row. A transaction the provider knows is handed to the webhook
   * path and counts as resolved. A ledger error or a crash ends the sweep.
   */
  function SweepRow(d: Desk, i: nat, reply: ProviderReply): (Desk, SweepResult)
    requires i < |d.rows|
  {
    match reply
    case LookupFails => (d, Unresolved)
    case Known => (Sync(d, MISREAD).0, Resolved)
    case Unknown(crashes) => ReleaseRow(d, i, crashes)
  }

  datatype Tally = Tally(checked: nat, resolved: nat, released: nat, unresolved: nat)

  predicate IsStale(row: TxRow, cutoff: int) {
    row.status == Pending && row.createdAt < cutoff
  }

  /** What the sweep is about. */
  function StaleRows(rows: seq<TxRow>, cutoff: int, take: nat): (ids: seq<nat>)
    ensures forall k | 0 <= k < |ids| :: ids[k] < |rows|
  {
    Selected(rows, row => IsStale(row, cutoff), take)
  }

  /** The sweep takes the transactions still pending from before the cutoff, each once, in order, up to its limit. */
  lemma StaleRowsAre(rows: seq<TxRow>, cutoff: int, take: nat)
    ensures var ids := StaleRows(rows, cutoff, take);
            && |ids| <= take && Increasing(ids)
            && (forall k | 0 <= k < |ids| :: rows[ids[k]].status == Pending && rows[ids[k]].createdAt < cutoff)
            && forall i: nat | i < |rows| && rows[i].status == Pending && rows[i].createdAt < cutoff ::
                 InOrBehind(ids, take, i)
  {
    FirstOfThem(rows, row => IsStale(row, cutoff), take);
  }

  /** The sweep: one row after another until done or stopped. */
  function SweepRows(d: Desk, stale: seq<nat>, replies: string -> ProviderReply): (Desk, seq<SweepResult>)
    requires forall k | 0 <= k < |stale| :: stale[k] < |d.rows|
    decreases |stale|
  {
    if stale == [] then (d, [])
    else
      var (next, result) := SweepRow(d, stale[0], replies(d.rows[stale[0]].token));
      if result == Stopped then (next, [Stopped])
      else
        var (last, results) := SweepRows(next, stale[1..], replies);
        (last, [result] + results)
  }

  lemma SweepRowKeepsLength(d: Desk, i: nat, reply: ProviderReply)
    requires i < |d.rows|
    ensures |SweepRow(d, i, reply).0.rows| == |d.rows|
  {
  }
}
