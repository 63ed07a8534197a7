/**
 * Short runs of a funded desk with one card that break what one would expect.
 *
 * Capping every capture at its authorization does not keep the daily limit: a
 * partial capture frees room that a second authorization takes; a further
 * capture of the first, still within its authorization, then goes over.
 *
 * An approval whose record fails to be written leaves a hold and no decision.
 */
module DeskWitnesses {
  import opened Wrappers
  import opened Postings
  import opened Commands
  import opened Fees
  import opened Cards
  import opened CardRuns
  import opened Decisions
  import DailyLimit
  import LedgerRuns
  import WebhookEffects

  const FREE := Rates(0, 0, 0, 0, 0, 0, 0)

  const CALM := Env(0, 0, FREE, NoFault, true, true)

  function Tap(token: string, card: string, cents: nat): DeskStep {
    Asa(AsaRequest(token, card, false, Some(Finite(cents as real)), None, None, None), CALM)
  }

  function Capture(token: string, card: string, cents: nat): DeskStep {
    Webhook(CardEvent(token, card, "SETTLED", 0, cents, 0, false))
  }

  /** A desk with one active card of one user, funded and limited, and no transactions. */
  function OneCard(card: string, user: string, limit: nat): Desk {
    Desk(Exec(EMPTY_DB, CreditDeposit(user, 0, 20_000 * limit, 0)).db,
         map[card := Card(user, Active, true, None, Some(limit))], [], map[])
  }

  function PendingRow(token: string, card: string, user: string, cents: nat): TxRow {
    TxRow(token, card, user, Pending, cents, None, 0, 0)
  }

  /** A tap that every check lets through: its row, its hold, its decision, and nothing else. */
  lemma TapApproved(d: Desk, token: string, card: string, user: string, cents: nat, limit: nat)
    requires Valid(d.db) && token != "" && card != "" && cents > 0
    requires card in d.cards && d.cards[card] == Card(user, Active, true, None, Some(limit))
    requires token !in d.decisions && RowOf(d.rows, token).None? && !Posted(d.db.log, Auth(token))
    requires SpentSince(d.rows, card, 0) + cents <= limit
    requires 10_000 * cents <= Balance(d.db.log, Available(user))
    ensures var d' := Next(d, Tap(token, card, cents));
            && Valid(d'.db)
            && d'.cards == d.cards
            && d'.rows == d.rows + [PendingRow(token, card, user, cents)]
            && Balance(d'.db.log, Available(user)) == Balance(d.db.log, Available(user)) - 10_000 * cents
            && (forall t :: t != token ==> (t in d'.decisions <==> t in d.decisions))
            && (forall k :: k != Auth(token) ==> (Posted(d'.db.log, k) <==> Posted(d.db.log, k)))
  {
    var req := Tap(token, card, cents).req;
    var row := PendingRow(token, card, user, cents);
    TapReads(token, card, cents);
    assert Candidate(d, req, CALM) == Some(row);
    var o := Exec(d.db, Hold(row));
    ExecMeaning(d.db, Hold(row));
    HoldMoves(d.db, Hold(row), o);
    DecideEffect(d, req, CALM);
    DecideRecords(d, req, CALM);
    DailyLimit.CardsKept(d, Tap(token, card, cents));
  }

  lemma TapReads(token: string, card: string, cents: nat)
    ensures ExtractAmount(Tap(token, card, cents).req) == Some(cents)
  {
    assert (cents as real + 0.5).Floor == cents;
  }

  lemma HoldMoves(db: Db, c: Command, o: Outcome)
    requires Meaning(db, c, o) && c.PlaceHold? && !Posted(db.log, c.key)
    requires 0 < c.amount <= Balance(db.log, Available(c.user))
    ensures o.result.Ok?
    ensures Balance(o.db.log, Available(c.user)) == Balance(db.log, Available(c.user)) - c.amount
    ensures forall k :: Posted(o.db.log, k) <==> Posted(db.log, k) || k == c.key
  {
    Moves(db, c, o, Available(c.user));
    FindAppend(db.log, PostingOf(c));
  }

  /** A first capture of part of a pending authorization: the row it leaves. */
  lemma CapturedRow(d: Desk, token: string, card: string, user: string, cents: nat)
    requires Valid(d.db) && token != "" && card != "" && card in d.cards && d.cards[card].user == user
    requires d.rows == [PendingRow(token, card, user, cents)]
    ensures var d' := Next(d, Capture(token, card, 1));
            && RowOf(d.rows, token) == Some(0)
            && d'.cards == d.cards && d'.decisions == d.decisions
            && d'.rows == [d.rows[0].(status := Cleared, settled := Some(1))]
  {
    assert RowOf(d.rows, token) == Some(0);
    SyncEffect(d, Capture(token, card, 1).ev);
  }

  /** ... and the money and holds. */
  lemma FirstCapture(d: Desk, token: string, card: string, user: string, cents: nat)
    requires Valid(d.db) && token != "" && card != "" && cents > 1 && card in d.cards && d.cards[card].user == user
    requires d.rows == [PendingRow(token, card, user, cents)] && RowOf(d.rows, token) == Some(0)
    requires !Posted(d.db.log, Settle(token))
    ensures var d' := Next(d, Capture(token, card, 1));
            && Valid(d'.db)
            && Balance(d'.db.log, Available(user)) == Balance(d.db.log, Available(user)) + 10_000 * (cents - 1)
            && (forall t :: Posted(d'.db.log, Auth(t)) <==> Posted(d.db.log, Auth(t)))
  {
    var step := Capture(token, card, 1);
    DailyLimit.StepKeepsValid(d, step);
    WebhookEffects.WebhookSettles(d, step.ev, 10_000 * cents, 0, 1);
    forall t ensures Posted(Next(d, step).db.log, Auth(t)) <==> Posted(d.db.log, Auth(t)) {
      HoldKeysComeFromAsa(d, step, t);
    }
  }

  lemma Funded(card: string, user: string, limit: nat)
    requires limit > 0
    ensures var d := OneCard(card, user, limit);
            && Valid(d.db)
            && Balance(d.db.log, Available(user)) == 20_000 * limit
            && (forall k :: Posted(d.db.log, k) <==> k == Confirm(0))
            && DailyLimit.Limited(d, card, limit)
            && SpentSince(d.rows, card, 0) == 0
  {
    LedgerRuns.FirstDeposit(user, 20_000 * limit);
  }

  lemma TapAndCapture(card: string, user: string, a: string, limit: nat)
    requires a != "" && card != "" && limit >= 2
    ensures var d := Next(Next(OneCard(card, user, limit), Tap(a, card, limit)), Capture(a, card, 1));
            && Valid(d.db)
            && card in d.cards && d.cards[card] == Card(user, Active, true, None, Some(limit))
            && d.rows == [PendingRow(a, card, user, limit).(status := Cleared, settled := Some(1))]
            && Balance(d.db.log, Available(user)) == 20_000 * limit - 10_000
            && (forall t :: t != a ==> t !in d.decisions && !Posted(d.db.log, Auth(t)))
  {
    Funded(card, user, limit);
    TapApproved(OneCard(card, user, limit), a, card, user, limit, limit);
    var d := Next(OneCard(card, user, limit), Tap(a, card, limit));
    assert d.rows == [PendingRow(a, card, user, limit)];
    CapturedRow(d, a, card, user, limit);
    FirstCapture(d, a, card, user, limit);
  }

  /** A row captured for one cent counts one cent; a pending row after it counts in full. */
  lemma CountedTogether(first: TxRow, second: TxRow, card: string)
    requires first.card == card && first.createdAt == 0 && first.status == Cleared && first.settled == Some(1)
    requires second.card == card && second.createdAt == 0 && second.status == Pending
    ensures SpentSince([first], card, 0) == 1
    ensures SpentSince([first, second], card, 0) == 1 + second.amount
  {
    assert [first][..0] == [] && [first, second] == [first] + [second];
    DailyLimit.SpentAppend([first], second, card, 0);
  }

  lemma LastCapture(d: Desk, card: string, a: string, limit: nat)
    requires card in d.cards && card != "" && a != "" && limit >= 1
    requires |d.rows| > 0 && d.rows[0].token == a && d.rows[0].card == card && d.rows[0].createdAt == 0
    requires d.rows[0].status == Cleared && d.rows[0].settled == Some(1)
    ensures RowOf(d.rows, a) == Some(0)
    ensures SpentSince(Next(d, Capture(a, card, limit)).rows, card, 0) == SpentSince(d.rows, card, 0) + limit - 1
  {
    var ev := Capture(a, card, limit).ev;
    assert RowOf(d.rows, a) == Some(0);
    DailyLimit.UpsertMovesSpend(d.rows, ev, d.cards[card].user, card, 0);
  }

  lemma {:induction false} RunOneMore(d: Desk, steps: seq<DeskStep>, step: DeskStep)
    ensures Run(d, steps + [step]) == Next(Run(d, steps), step)
    decreases |steps|
  {
    if steps == [] {
      assert [step][1..] == [] && [] + [step] == [step];
    } else {
      assert (steps + [step])[1..] == steps[1..] + [step];
      RunOneMore(Next(d, steps[0]), steps[1..], step);
    }
  }

  lemma ThreeSteps(d: Desk, s: DeskStep, t: DeskStep, u: DeskStep)
    ensures Run(d, [s, t, u]) == Next(Next(Next(d, s), t), u)
  {
    RunOneMore(d, [], s);
    RunOneMore(d, [s], t);
    RunOneMore(d, [s, t], u);
    assert [] + [s] == [s] && [s] + [t] == [s, t] && [s, t] + [u] == [s, t, u];
  }

  /**
   * A run from a limited desk in which no capture exceeds its authorization:
   * tap a for the whole limit, capture 1, tap b for the rest, capture all of a.
   */
  lemma SecondCaptureExceedsLimit(card: string, user: string, a: string, b: string, limit: nat, rest: nat)
    requires a != b && a != "" && b != "" && card != "" && rest > 0 && limit == rest + 1
    ensures var start := OneCard(card, user, limit);
            var steps := [Tap(a, card, limit), Capture(a, card, 1), Tap(b, card, rest)];
            var before := Run(start, steps);
            && DailyLimit.Limited(start, card, limit) && SpentSince(start.rows, card, 0) == 0
            && SpentSince(before.rows, card, 0) == limit
            && RowOf(before.rows, a) == Some(0) && before.rows[0].amount == limit
            && SpentSince(Run(start, steps + [Capture(a, card, limit)]).rows, card, 0) == limit + rest > limit
  {
    var start := OneCard(card, user, limit);
    Funded(card, user, limit);
    TapAndCapture(card, user, a, limit);
    var mid := Next(Next(start, Tap(a, card, limit)), Capture(a, card, 1));
    TwoRows(mid, card, user, a, b, limit, rest);
    LastCapture(Next(mid, Tap(b, card, rest)), card, a, limit);
    ThreeSteps(start, Tap(a, card, limit), Capture(a, card, 1), Tap(b, card, rest));
    RunOneMore(start, [Tap(a, card, limit), Capture(a, card, 1), Tap(b, card, rest)], Capture(a, card, limit));
  }

  lemma TwoRows(d: Desk, card: string, user: string, a: string, b: string, limit: nat, rest: nat)
    requires Valid(d.db) && a != b && b != "" && card != "" && rest > 0 && limit == rest + 1
    requires card in d.cards && d.cards[card] == Card(user, Active, true, None, Some(limit))
    requires d.rows == [PendingRow(a, card, user, limit).(status := Cleared, settled := Some(1))]
    requires b !in d.decisions && !Posted(d.db.log, Auth(b))
    requires Balance(d.db.log, Available(user)) >= 10_000 * rest
    ensures var d' := Next(d, Tap(b, card, rest));
            && d'.cards == d.cards
            && d'.rows == [d.rows[0], PendingRow(b, card, user, rest)]
            && SpentSince(d'.rows, card, 0) == limit
  {
    CountedTogether(d.rows[0], PendingRow(b, card, user, rest), card);
    TapApproved(d, b, card, user, rest, limit);
  }

  /** A tap whose decision cannot be written. */
  function UnrecordedTap(token: string, card: string, cents: nat): DeskStep {
    Asa(Tap(token, card, cents).req, CALM.(decisionPersists := false))
  }

  lemma UnrecordedHold(d: Desk, token: string, card: string, user: string, cents: nat, limit: nat)
    requires token != "" && card != "" && 0 < cents <= limit
    requires d.cards == map[card := Card(user, Active, true, None, Some(limit))] && d.rows == [] && d.decisions == map[]
    ensures var step := UnrecordedTap(token, card, cents);
            Candidate(d, step.req, step.env) == Some(PendingRow(token, card, user, cents))
  {
    TapReads(token, card, cents);
  }

  /** One such tap on a fresh desk: the hold is posted, the decision is not on record, and a redelivery asks again. */
  lemma ApprovalIsForgotten(card: string, user: string, token: string, cents: nat, limit: nat)
    requires token != "" && card != "" && 0 < cents <= limit
    ensures var d := OneCard(card, user, limit);
            var step := UnrecordedTap(token, card, cents);
            && DecisionsFaithful(d)
            && Forgets(d, step)
            && !DecisionsFaithful(Next(d, step))
  {
    var d := OneCard(card, user, limit);
    var step := UnrecordedTap(token, card, cents);
    Funded(card, user, limit);
    UnrecordedHold(d, token, card, user, cents, limit);
    FaithfulStepIff(d, step);
  }
}
