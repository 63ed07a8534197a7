/**
 * What holds over every run of authorizations, webhooks and sweeps, mixed with
 * anything else the ledger does: what is held, what was decided, and what a
 * card may spend in a day.
 */
module CardRuns {
  import opened Wrappers
  import opened Commands
  import opened Cards

  /** Commands of the other services: they never touch held money or these keys. */
  predicate Elsewhere(c: Command) {
    && !c.PlaceHold? && !c.ReleaseHold? && !c.SettleAuthorization?
    && !KeyOf(c).Auth? && !KeyOf(c).Settle? && !KeyOf(c).Release? && !KeyOf(c).StaleRelease?
  }

  datatype DeskStep =
    | Asa(req: AsaRequest, env: Env)
    | Webhook(ev: CardEvent)
    | StaleRow(i: nat, reply: ProviderReply)
    | SetCard(token: string, card: Card)
    | Other(command: Command)

  function Next(d: Desk, step: DeskStep): Desk {
    match step
    case Asa(req, env) => Decide(d, req, env).0
    case Webhook(ev) => Sync(d, ev).0
    case StaleRow(i, reply) => if i < |d.rows| then SweepRow(d, i, reply).0 else d
    case SetCard(token, card) => d.(cards := d.cards[token := card])
    case Other(c) => if Elsewhere(c) then d.(db := Exec(d.db, c).db) else d
  }

  /** Deposits, fees, refunds and adjustments, under keys of their own, run between card events as they do alone. */
  lemma OthersRun(d: Desk, c: Command)
    requires match c
             case CreditDeposit(_, _, _, _) => true
             case ReverseDeposit(_, _, _, _) => true
             case ChargeFee(_, key, _, _) => key.Monthly? || key.Named?
             case CreditRefund(_, key, _) => key.Monthly? || key.Named?
             case PostAdjustment(_, key, _) => key.Monthly? || key.Named?
             case _ => false
    ensures Next(d, Other(c)) == d.(db := Exec(d.db, c).db)
  {
  }

  function Run(d: Desk, steps: seq<DeskStep>): Desk
    decreases |steps|
  {
    if steps == [] then d else Run(Next(d, steps[0]), steps[1..])
  }

  /** The row an authorization would reserve, once it gets as far as the balance. */
  function Candidate(d: Desk, req: AsaRequest, env: Env): Option<TxRow> {
    var cents := ExtractAmount(req);
    if req.token == "" || req.cardToken == "" || cents.None? || env.fault != NoFault ||
       req.token in d.decisions || req.cardToken !in d.cards ||
       Screen(d, req.cardToken, cents.value, env.dayStart).Some?
    then None
    else Some(NewRow(req, d.cards[req.cardToken].user, cents.value, env))
  }

  /** The one ledger command a step runs, if it runs any. */
  function StepCommand(d: Desk, step: DeskStep): Option<Command> {
    match step
    case Asa(req, env) =>
      (match Candidate(d, req, env)
       case None => None
       case Some(row) => Some(Hold(row)))
    case Webhook(ev) =>
      if ev.token == "" || ev.cardToken == "" || ev.cardToken !in d.cards ||
         StatusUnchanged(d.rows, ev) || ev.crashes
      then None
      else EventCommand(d.db.log, d.rows, ev, d.cards[ev.cardToken].user)
    case StaleRow(i, reply) =>
      if i < |d.rows| && reply.Unknown? then Some(StaleCommand(d.rows[i])) else None
    case SetCard(_, _) => None
    case Other(c) => if Elsewhere(c) then Some(c) else None
  }

  /** An authorization that reaches the balance is decided by its hold; any other moves nothing. */
  lemma DecideIsConclude(d: Desk, req: AsaRequest, env: Env)
    ensures match Candidate(d, req, env)
            case None => Decide(d, req, env).0.db == d.db && Decide(d, req, env).0.rows == d.rows
            case Some(row) => Decide(d, req, env) == Conclude(d, row, Exec(d.db, Hold(row)), env)
  {
  }

  lemma ConcludeEffect(d: Desk, row: TxRow, hold: Outcome, env: Env)
    requires Meaning(d.db, Hold(row), hold)
    ensures var d' := Conclude(d, row, hold, env).0;
            && d'.db == hold.db
            && d'.rows == if hold.result.Ok? then PersistRow(d.rows, row, env) else d.rows
  {
  }

  /** The desk after an authorization: the hold and the row go in together or not at all. */
  lemma DecideEffect(d: Desk, req: AsaRequest, env: Env)
    requires Valid(d.db)
    ensures var d' := Decide(d, req, env).0;
            match Candidate(d, req, env)
            case None => d'.db == d.db && d'.rows == d.rows
            case Some(row) =>
              && d'.db == Exec(d.db, Hold(row)).db
              && d'.rows == if Exec(d.db, Hold(row)).result.Ok? then PersistRow(d.rows, row, env) else d.rows
  {
    DecideIsConclude(d, req, env);
    if Candidate(d, req, env).Some? {
      var row := Candidate(d, req, env).value;
      ExecMeaning(d.db, Hold(row));
      ConcludeEffect(d, row, Exec(d.db, Hold(row)), env);
    }
  }

  lemma SyncEffect(d: Desk, ev: CardEvent)
    requires Valid(d.db)
    ensures var d' := Sync(d, ev).0;
            if ev.token == "" || ev.cardToken == "" || ev.cardToken !in d.cards then d' == d
            else
              var c := StepCommand(d, Webhook(ev));
              && d'.rows == UpsertRow(d.rows, ev, d.cards[ev.cardToken].user)
              && d'.db == if c.None? then d.db else Exec(d.db, c.value).db
  {
    var c := StepCommand(d, Webhook(ev));
    if c.Some? {
      ExecMeaning(d.db, c.value);
    }
  }

  lemma SweepEffect(d: Desk, i: nat, reply: ProviderReply)
    requires Valid(d.db) && i < |d.rows|
    ensures var d' := SweepRow(d, i, reply).0;
            && d'.db == (if reply.Unknown? then Exec(d.db, StaleCommand(d.rows[i])).db else d.db)
            && (d'.rows == d.rows || d'.rows == d.rows[i := d.rows[i].(status := Expired)])
  {
    ExecMeaning(d.db, StaleCommand(d.rows[i]));
  }

  /** Every step moves money by its command alone. */
  lemma StepRunsItsCommand(d: Desk, step: DeskStep)
    requires Valid(d.db)
    ensures var c := StepCommand(d, step);
            Next(d, step).db == if c.None? then d.db else Exec(d.db, c.value).db
  {
    match step
    case Asa(req, env) => DecideEffect(d, req, env);
    case Webhook(ev) => SyncEffect(d, ev);
    case StaleRow(i, reply) => if i < |d.rows| { SweepEffect(d, i, reply); }
    case SetCard(_, _) =>
    case Other(_) =>
  }

  // -------------------------------------------------------------------- Rows

  ghost predicate UniqueTokens(rows: seq<TxRow>) {
    forall i, j | 0 <= i < j < |rows| :: rows[i].token != rows[j].token
  }

  predicate SameDeal(row: TxRow, other: TxRow) {
    row.token == other.token && row.user == other.user && row.amount == other.amount && row.fee == other.fee
  }

  /** Rows keep their token, owner, amount and fee; at most one new token is added. */
  ghost predicate RowsKept(rows: seq<TxRow>, after: seq<TxRow>) {
    && |rows| <= |after| <= |rows| + 1
    && UniqueTokens(after)
    && forall i | 0 <= i < |rows| :: SameDeal(rows[i], after[i])
  }

  lemma UpsertKeepsRows(rows: seq<TxRow>, ev: CardEvent, user: string)
    requires UniqueTokens(rows)
    ensures RowsKept(rows, UpsertRow(rows, ev, user))
  {
  }

  lemma PersistKeepsRows(rows: seq<TxRow>, row: TxRow, env: Env)
    requires UniqueTokens(rows)
    ensures RowsKept(rows, PersistRow(rows, row, env))
  {
  }

  lemma StepKeepsRows(d: Desk, step: DeskStep)
    requires Valid(d.db) && UniqueTokens(d.rows)
    ensures RowsKept(d.rows, Next(d, step).rows)
  {
    match step
    case Asa(req, env) =>
      DecideEffect(d, req, env);
      if Candidate(d, req, env).Some? { PersistKeepsRows(d.rows, Candidate(d, req, env).value, env); }
    case Webhook(ev) =>
      SyncEffect(d, ev);
      if ev.cardToken in d.cards { UpsertKeepsRows(d.rows, ev, d.cards[ev.cardToken].user); }
    case StaleRow(i, reply) => if i < |d.rows| { SweepEffect(d, i, reply); }
    case SetCard(_, _) =>
    case Other(_) =>
  }

  // ------------------------------------------------------------------ Sweeps

  lemma SweepKeepsTokens(d: Desk, i: nat, reply: ProviderReply)
    requires i < |d.rows|
    ensures var rows := SweepRow(d, i, reply).0.rows;
            |rows| == |d.rows| && forall j | 0 <= j < |rows| :: rows[j].token == d.rows[j].token
  {
  }

  /** A sweep is a run of stale-row steps over its rows, up to the one that stops it. */
  lemma {:induction false} SweepIsRun(d: Desk, stale: seq<nat>, replies: string -> ProviderReply)
    returns (steps: seq<DeskStep>)
    requires forall k | 0 <= k < |stale| :: stale[k] < |d.rows|
    ensures SweepRows(d, stale, replies).0 == Run(d, steps)
    ensures |steps| <= |stale|
    ensures forall k | 0 <= k < |steps| :: steps[k] == StaleRow(stale[k], replies(d.rows[stale[k]].token))
    decreases |stale|
  {
    if stale == [] {
      steps := [];
    } else {
      var step := StaleRow(stale[0], replies(d.rows[stale[0]].token));
      var next, result := SweepRow(d, stale[0], step.reply).0, SweepRow(d, stale[0], step.reply).1;
      SweepKeepsTokens(d, stale[0], step.reply);
      var rest := [];
      if result != Stopped {
        rest := SweepIsRun(next, stale[1..], replies);
      }
      steps := [step] + rest;
      assert steps[1..] == rest;
    }
  }
}
