/**
 * Authorization decisions: fail closed, approve only what is held, and give
 * every redelivery the answer that was given first.
 */
module Decisions {
  import opened Wrappers
  import opened Postings
  import opened Commands
  import opened Fees
  import opened Cards
  import opened CardRuns

  predicate Readable(req: AsaRequest) {
    req.token != "" && req.cardToken != "" && ExtractAmount(req).Some?
  }

  /** Every recorded approval has its hold. */
  ghost predicate ApprovalsBacked(d: Desk) {
    forall t | t in d.decisions && d.decisions[t] == Approved :: Posted(d.db.log, Auth(t))
  }

  /** Recorded approvals and posted holds are the same thing. */
  ghost predicate DecisionsFaithful(d: Desk) {
    forall t :: Posted(d.db.log, Auth(t)) <==> t in d.decisions && d.decisions[t] == Approved
  }

  lemma KeysPosted(db: Db, c: Command, o: Outcome, key: Key)
    requires Meaning(db, c, o)
    ensures Posted(o.db.log, key) <==> Posted(db.log, key) || (o.result.Ok? && key == KeyOf(c))
  {
    FindAppend(db.log, PostingOf(c));
  }

  lemma OnlyAsaHolds(d: Desk, step: DeskStep, t: string)
    requires StepCommand(d, step).Some? && KeyOf(StepCommand(d, step).value) == Auth(t)
    ensures step.Asa? && step.req.token == t && Candidate(d, step.req, step.env).Some?
  {
  }

  /** Only an authorization posts a hold key, and only its own token's. */
  lemma HoldKeysComeFromAsa(d: Desk, step: DeskStep, t: string)
    requires Valid(d.db)
    ensures Posted(d.db.log, Auth(t)) ==> Posted(Next(d, step).db.log, Auth(t))
    ensures Posted(Next(d, step).db.log, Auth(t)) && !Posted(d.db.log, Auth(t)) ==>
              step.Asa? && step.req.token == t && Candidate(d, step.req, step.env).Some?
  {
    StepRunsItsCommand(d, step);
    var c := StepCommand(d, step);
    if c.Some? {
      ExecMeaning(d.db, c.value);
      KeysPosted(d.db, c.value, Exec(d.db, c.value), Auth(t));
      if KeyOf(c.value) == Auth(t) {
        OnlyAsaHolds(d, step, t);
      }
    }
  }

  /** What an authorization does to the record of decisions, and what it answers. */
  ghost predicate Recorded(d: Desk, token: string, env: Env, d': Desk, r: Response) {
    && (forall t :: t != token ==> (t in d'.decisions <==> t in d.decisions))
    && (forall t :: t in d.decisions ==> t in d'.decisions && d'.decisions[t] == d.decisions[t])
    && (token !in d.decisions && token in d'.decisions ==>
          && (d'.decisions[token] == Approved <==> r.code == Approved)
          && (ToResponse(d'.decisions[token]) == r <==> r.code != SuspectedFraud))
    && (env.decisionPersists ==> token in d'.decisions)
  }

  lemma ConcludeRecords(d: Desk, row: TxRow, hold: Outcome, env: Env)
    requires Meaning(d.db, Hold(row), hold)
    ensures var (d', r) := Conclude(d, row, hold, env);
            && Recorded(d, row.token, env, d', r)
            && (r.code == Approved <==> hold.result.Ok?)
  {
    FinishRecords(d.(db := hold.db, rows := PersistRow(d.rows, row, env)), row.token, Approved, env);
    FinishRecords(d, row.token, InsufficientFunds, env);
    FinishRecords(d, row.token, Errored, env);
  }

  lemma FinishRecords(d: Desk, token: string, decision: Decision, env: Env)
    requires decision == Approved || decision == InsufficientFunds || decision == Errored
    ensures var (d', r) := Finish(d, token, decision, env);
            Recorded(d, token, env, d', r) && (r.code == Approved <==> decision == Approved)
    ensures Finish(d, token, Errored, env) == Fail(d, token, env)
  {
  }

  /** What an authorization records: the approval exactly when its hold went through. */
  lemma DecideRecords(d: Desk, req: AsaRequest, env: Env)
    requires Valid(d.db)
    ensures var (d', r) := Decide(d, req, env);
            && (if Readable(req) then Recorded(d, req.token, env, d', r) else d' == d)
            && (req.token !in d.decisions ==>
                  (r.code == Approved <==>
                     Candidate(d, req, env).Some? && Exec(d.db, Hold(Candidate(d, req, env).value)).result.Ok?))
            && (req.token in d.decisions && r.code == Approved ==> d.decisions[req.token] == Approved)
  {
    DecideIsConclude(d, req, env);
    if Candidate(d, req, env).Some? {
      var row := Candidate(d, req, env).value;
      ExecMeaning(d.db, Hold(row));
      ConcludeRecords(d, row, Exec(d.db, Hold(row)), env);
    } else {
      NoCandidateRecords(d, req, env);
    }
  }

  lemma NoCandidateRecords(d: Desk, req: AsaRequest, env: Env)
    requires Candidate(d, req, env).None?
    ensures var (d', r) := Decide(d, req, env);
            && (if Readable(req) then Recorded(d, req.token, env, d', r) else d' == d)
            && (req.token !in d.decisions ==> r.code != Approved)
            && (req.token in d.decisions && r.code == Approved ==> d.decisions[req.token] == Approved)
  {
  }

  /** After an authorization of an undecided token: approved, or already held, if held at all. */
  lemma DecideHolds(d: Desk, req: AsaRequest, env: Env)
    requires Valid(d.db) && req.token !in d.decisions
    ensures var (d', r) := Decide(d, req, env);
            Posted(d'.db.log, Auth(req.token)) <==> r.code == Approved || Posted(d.db.log, Auth(req.token))
  {
    DecideRecords(d, req, env);
    DecideEffect(d, req, env);
    if Candidate(d, req, env).Some? {
      var row := Candidate(d, req, env).value;
      ExecMeaning(d.db, Hold(row));
      KeysPosted(d.db, Hold(row), Exec(d.db, Hold(row)), Auth(req.token));
    }
  }

  lemma StepKeepsDecisions(d: Desk, step: DeskStep)
    requires Valid(d.db)
    ensures Valid(Next(d, step).db)
    ensures forall t :: t in d.decisions ==>
              t in Next(d, step).decisions && Next(d, step).decisions[t] == d.decisions[t]
  {
    StepRunsItsCommand(d, step);
    if StepCommand(d, step).Some? {
      ExecMeaning(d.db, StepCommand(d, step).value);
    }
    if step.Asa? {
      DecideRecords(d, step.req, step.env);
    }
  }

  /** Fail closed: whatever the step, every recorded approval has its hold posted. */
  lemma ApprovalsStayBacked(d: Desk, step: DeskStep)
    requires Valid(d.db) && ApprovalsBacked(d)
    ensures ApprovalsBacked(Next(d, step))
  {
    var d' := Next(d, step);
    if step.Asa? {
      DecideRecords(d, step.req, step.env);
      if step.req.token !in d.decisions { DecideHolds(d, step.req, step.env); }
    }
    forall t | t in d'.decisions && d'.decisions[t] == Approved ensures Posted(d'.db.log, Auth(t)) {
      HoldKeysComeFromAsa(d, step, t);
    }
  }

  lemma {:induction false} RunsStayBacked(d: Desk, steps: seq<DeskStep>)
    requires Valid(d.db) && ApprovalsBacked(d)
    ensures Valid(Run(d, steps).db) && ApprovalsBacked(Run(d, steps))
    decreases |steps|
  {
    if steps == [] {
    } else {
      StepKeepsDecisions(d, steps[0]);
      ApprovalsStayBacked(d, steps[0]);
      RunsStayBacked(Next(d, steps[0]), steps[1..]);
    }
  }

  /** ... and when every decision is recorded, the converse too. */
  lemma DecisionsStayFaithful(d: Desk, step: DeskStep)
    requires Valid(d.db) && DecisionsFaithful(d)
    requires step.Asa? ==> step.env.decisionPersists
    ensures DecisionsFaithful(Next(d, step))
  {
    var d' := Next(d, step);
    forall t ensures Posted(d'.db.log, Auth(t)) <==> t in d'.decisions && d'.decisions[t] == Approved {
      FaithfulFor(d, step, t);
    }
  }

  lemma FaithfulFor(d: Desk, step: DeskStep, t: string)
    requires Valid(d.db) && DecisionsFaithful(d)
    requires step.Asa? ==> step.env.decisionPersists
    ensures Posted(Next(d, step).db.log, Auth(t)) <==>
              t in Next(d, step).decisions && Next(d, step).decisions[t] == Approved
  {
    HoldKeysComeFromAsa(d, step, t);
    if step.Asa? {
      DecideRecords(d, step.req, step.env);
      if step.req.token !in d.decisions { DecideHolds(d, step.req, step.env); }
    }
  }

  /** A hold that goes through while the decision is not recorded, said before the step. */
  predicate Forgets(d: Desk, step: DeskStep) {
    && step.Asa? && !step.env.decisionPersists
    && Candidate(d, step.req, step.env).Some?
    && Succeeds(d.db, Hold(Candidate(d, step.req, step.env).value))
  }

  /** Without recording, an authorization changes no decision. */
  lemma NotRecorded(d: Desk, req: AsaRequest, env: Env)
    requires !env.decisionPersists
    ensures Decide(d, req, env).0.decisions == d.decisions
  {
  }

  lemma ForgottenHold(d: Desk, step: DeskStep)
    requires Valid(d.db) && Forgets(d, step)
    ensures var t := step.req.token;
            t !in Next(d, step).decisions && Posted(Next(d, step).db.log, Auth(t))
  {
    NotRecorded(d, step.req, step.env);
    var row := Candidate(d, step.req, step.env).value;
    ExecMeaning(d.db, Hold(row));
    DecideEffect(d, step.req, step.env);
    KeysPosted(d.db, Hold(row), Exec(d.db, Hold(row)), Auth(step.req.token));
  }

  lemma NothingForgotten(d: Desk, step: DeskStep, t: string)
    requires Valid(d.db) && step.Asa? && !step.env.decisionPersists && !Forgets(d, step)
    ensures Next(d, step).decisions == d.decisions
    ensures Posted(Next(d, step).db.log, Auth(t)) <==> Posted(d.db.log, Auth(t))
  {
    NotRecorded(d, step.req, step.env);
    DecideEffect(d, step.req, step.env);
    if Candidate(d, step.req, step.env).Some? {
      ExecMeaning(d.db, Hold(Candidate(d, step.req, step.env).value));
    }
  }

  /** Approvals on record and holds posted stay the same thing exactly when a step forgets no approval. */
  lemma FaithfulStepIff(d: Desk, step: DeskStep)
    requires Valid(d.db) && DecisionsFaithful(d)
    ensures DecisionsFaithful(Next(d, step)) <==> !Forgets(d, step)
  {
    if Forgets(d, step) {
      ForgottenHold(d, step);
    } else if step.Asa? && !step.env.decisionPersists {
      var d' := Next(d, step);
      forall t ensures Posted(d'.db.log, Auth(t)) <==> t in d'.decisions && d'.decisions[t] == Approved {
        NothingForgotten(d, step, t);
      }
    } else {
      DecisionsStayFaithful(d, step);
    }
  }

  predicate ForgetsNothing(d: Desk, steps: seq<DeskStep>)
    decreases |steps|
  {
    steps == [] || (!Forgets(d, steps[0]) && ForgetsNothing(Next(d, steps[0]), steps[1..]))
  }

  ghost predicate FaithfulThroughout(d: Desk, steps: seq<DeskStep>)
    decreases |steps|
  {
    DecisionsFaithful(d) && (steps == [] || FaithfulThroughout(Next(d, steps[0]), steps[1..]))
  }

  /** ... and over runs. */
  lemma {:induction false} FaithfulThroughoutIff(d: Desk, steps: seq<DeskStep>)
    requires Valid(d.db) && DecisionsFaithful(d)
    ensures FaithfulThroughout(d, steps) <==> ForgetsNothing(d, steps)
    decreases |steps|
  {
    if steps == [] {
    } else {
      StepKeepsDecisions(d, steps[0]);
      FaithfulStepIff(d, steps[0]);
      if !Forgets(d, steps[0]) {
        FaithfulThroughoutIff(Next(d, steps[0]), steps[1..]);
      } else {
        assert !DecisionsFaithful(Next(d, steps[0]));
      }
    }
  }

  /**
   * The answer and the hold agree, recorded or not: approved exactly when the
   * hold is posted, except that a delivery which cannot even look for an
   * earlier decision is declined regardless.
   */
  lemma AnswerMatchesHold(d: Desk, req: AsaRequest, env: Env)
    requires Valid(d.db) && DecisionsFaithful(d) && Readable(req)
    ensures var (d', r) := Decide(d, req, env);
            r.code == Approved <==> Posted(d'.db.log, Auth(req.token)) && env.fault != AtReplayLookup
  {
    if req.token !in d.decisions {
      DecideHolds(d, req, env);
    }
  }

  /** Fail closed, whatever breaks and whatever was forgotten: no answer approves without a hold. */
  lemma ApprovedIsHeld(d: Desk, req: AsaRequest, env: Env)
    requires Valid(d.db) && ApprovalsBacked(d)
    ensures Decide(d, req, env).1.code == Approved ==> Posted(Decide(d, req, env).0.db.log, Auth(req.token))
  {
    DecideRecords(d, req, env);
    HoldKeysComeFromAsa(d, Asa(req, env), req.token);
    if req.token !in d.decisions { DecideHolds(d, req, env); }
  }

  /** A first delivery that can be read, that gets as far as the hold, and whose token has none posted yet. */
  predicate FirstDelivery(d: Desk, req: AsaRequest, env: Env) {
    && Readable(req) && (env.fault == NoFault || env.fault == AtHold)
    && req.token !in d.decisions && !Posted(d.db.log, Auth(req.token))
  }

  /** The fee the settings make of an authorization's spend, one USD cent being ten thousand USDT units. */
  ghost predicate FeeOfTap(req: AsaRequest, env: Env, fee: int)
    requires Readable(req)
  {
    IsCardFee(env.rates, 10_000 * ExtractAmount(req).value, req.foreign, fee)
  }

  /** The answer to a first delivery, check by check: the first that fails names it. */
  lemma FirstAnswer(d: Desk, req: AsaRequest, env: Env, fee: int)
    requires Valid(d.db) && FirstDelivery(d, req, env) && FeeOfTap(req, env, fee)
    ensures var cents := ExtractAmount(req).value;
            Decide(d, req, env).1.code ==
              if req.cardToken !in d.cards then SuspectedFraud
              else
                var card := d.cards[req.cardToken];
                if card.status == Closed then CardClosed
                else if card.status == Frozen || !card.userActive then CardPaused
                else if Over(card.perTransactionLimit, cents) then VelocityExceeded
                else if Over(card.dailyLimit, SpentSince(d.rows, req.cardToken, env.dayStart) + cents)
                then VelocityExceeded
                else if env.fault == NoFault && 0 < 10_000 * cents + fee <= Balance(d.db.log, Available(card.user))
                then Approved
                else InsufficientFunds
  {
    TransactionFeeIs(env.rates, 10_000 * ExtractAmount(req).value, req.foreign, fee);
    if env.fault == NoFault {
      CandidateIff(d, req, env);
      DecideIsConclude(d, req, env);
      if Candidate(d, req, env).Some? {
        HoldSucceeds(d.db, Candidate(d, req, env).value);
      }
    }
  }

  /** A fresh approval means the card could spend, both limits allowed it, and the pool covered spend and fee. */
  lemma FreshApprovalIff(d: Desk, req: AsaRequest, env: Env, fee: int)
    requires Valid(d.db) && FirstDelivery(d, req, env) && FeeOfTap(req, env, fee)
    ensures var cents := ExtractAmount(req).value;
            Decide(d, req, env).1.code == Approved <==>
              && env.fault == NoFault
              && req.cardToken in d.cards
              && var card := d.cards[req.cardToken];
              && card.status == Active
              && card.userActive
              && !Over(card.perTransactionLimit, cents)
              && !Over(card.dailyLimit, SpentSince(d.rows, req.cardToken, env.dayStart) + cents)
              && 0 < 10_000 * cents + fee <= Balance(d.db.log, Available(card.user))
  {
    FirstAnswer(d, req, env, fee);
  }

  /** A hold of spend and fee that went through: its money, its pending row and its decision. */
  predicate Authorized(d: Desk, row: TxRow, env: Env, d': Desk) {
    && Balance(d'.db.log, Held(row.user)) == Balance(d.db.log, Held(row.user)) + 10_000 * row.amount + row.fee
    && Balance(d'.db.log, Available(row.user)) == Balance(d.db.log, Available(row.user)) - 10_000 * row.amount - row.fee
    && d'.rows == (if env.rowPersists && RowOf(d.rows, row.token).None? then d.rows + [row] else d.rows)
    && d'.decisions == (if env.decisionPersists then d.decisions[row.token := Approved] else d.decisions)
    && d'.cards == d.cards
  }

  /** What a fresh approval leaves: spend and fee held, a pending row with that fee, and the decision. */
  lemma ApprovalLeaves(d: Desk, req: AsaRequest, env: Env, fee: int)
    requires Valid(d.db) && FirstDelivery(d, req, env) && FeeOfTap(req, env, fee)
    requires Decide(d, req, env).1.code == Approved
    ensures req.cardToken in d.cards
    ensures var user := d.cards[req.cardToken].user;
            var row := TxRow(req.token, req.cardToken, user, Pending, ExtractAmount(req).value, None, fee, env.now);
            Authorized(d, row, env, Decide(d, req, env).0)
  {
    ApprovedCandidate(d, req, env, fee);
    var row := Candidate(d, req, env).value;
    HoldMovesReserved(d.db, row);
    ConcludeApproved(d, row, Exec(d.db, Hold(row)), env);
  }

  lemma ApprovedCandidate(d: Desk, req: AsaRequest, env: Env, fee: int)
    requires Valid(d.db) && FirstDelivery(d, req, env) && FeeOfTap(req, env, fee)
    requires Decide(d, req, env).1.code == Approved
    ensures req.cardToken in d.cards
    ensures var user := d.cards[req.cardToken].user;
            var row := TxRow(req.token, req.cardToken, user, Pending, ExtractAmount(req).value, None, fee, env.now);
            && Candidate(d, req, env) == Some(row)
            && Exec(d.db, Hold(row)).result.Ok?
            && Decide(d, req, env) == Conclude(d, row, Exec(d.db, Hold(row)), env)
  {
    FreshApprovalIff(d, req, env, fee);
    TransactionFeeIs(env.rates, 10_000 * ExtractAmount(req).value, req.foreign, fee);
    CandidateIff(d, req, env);
    DecideIsConclude(d, req, env);
    HoldSucceeds(d.db, Candidate(d, req, env).value);
  }

  lemma ConcludeApproved(d: Desk, row: TxRow, hold: Outcome, env: Env)
    requires hold.result.Ok? && row.token !in d.decisions
    ensures var d' := Conclude(d, row, hold, env).0;
            && d'.db == hold.db && d'.cards == d.cards
            && d'.rows == (if env.rowPersists && RowOf(d.rows, row.token).None? then d.rows + [row] else d.rows)
            && d'.decisions == (if env.decisionPersists then d.decisions[row.token := Approved] else d.decisions)
  {
  }

  lemma HoldMovesReserved(db: Db, row: TxRow)
    requires Valid(db) && !Posted(db.log, Auth(row.token)) && Exec(db, Hold(row)).result.Ok?
    ensures var log := Exec(db, Hold(row)).db.log;
            && Balance(log, Held(row.user)) == Balance(db.log, Held(row.user)) + 10_000 * row.amount + row.fee
            && Balance(log, Available(row.user)) == Balance(db.log, Available(row.user)) - 10_000 * row.amount - row.fee
  {
    ExecMeaning(db, Hold(row));
    Moves(db, Hold(row), Exec(db, Hold(row)), Held(row.user));
    Moves(db, Hold(row), Exec(db, Hold(row)), Available(row.user));
  }

  /** Whatever else an authorization answers, it moves no money and writes no transaction. */
  lemma DeclineMovesNothing(d: Desk, req: AsaRequest, env: Env)
    requires Valid(d.db) && Decide(d, req, env).1.code != Approved
    ensures var d' := Decide(d, req, env).0;
            d'.db.log == d.db.log && d'.rows == d.rows && d'.cards == d.cards
  {
    DecideIsConclude(d, req, env);
    if Candidate(d, req, env).Some? {
      ExecMeaning(d.db, Hold(Candidate(d, req, env).value));
    }
  }

  /** A request that cannot be read is answered as fraud; a fault before the hold as a lack of funds. */
  lemma FaultsDecline(d: Desk, req: AsaRequest, env: Env)
    ensures !Readable(req) ==> Decide(d, req, env) == (d, Response(SuspectedFraud))
    ensures Readable(req) && env.fault == AtReplayLookup ==> Decide(d, req, env).1.code == InsufficientFunds
    ensures Readable(req) && env.fault == BeforeHold && req.token !in d.decisions ==>
              Decide(d, req, env).1.code == InsufficientFunds
  {
  }

  lemma CandidateIff(d: Desk, req: AsaRequest, env: Env)
    requires Readable(req) && env.fault == NoFault && req.token !in d.decisions
    ensures var cents := ExtractAmount(req).value;
            Candidate(d, req, env).Some? <==>
              && req.cardToken in d.cards
              && var card := d.cards[req.cardToken];
              && card.status == Active
              && card.userActive
              && !Over(card.perTransactionLimit, cents)
              && !Over(card.dailyLimit, SpentSince(d.rows, req.cardToken, env.dayStart) + cents)
    ensures Candidate(d, req, env).Some? ==>
              && var cents := ExtractAmount(req).value;
                 Candidate(d, req, env).value == NewRow(req, d.cards[req.cardToken].user, cents, env)
  {
  }

  lemma HoldSucceeds(db: Db, row: TxRow)
    requires Valid(db) && !Posted(db.log, Auth(row.token))
    ensures Exec(db, Hold(row)).result.Ok? <==> 0 < Reserved(row) <= Balance(db.log, Available(row.user))
  {
    ExecMeaning(db, Hold(row));
  }

  lemma {:induction false} DecisionsSurvive(d: Desk, steps: seq<DeskStep>, token: string)
    requires Valid(d.db) && token in d.decisions
    ensures Valid(Run(d, steps).db)
    ensures token in Run(d, steps).decisions && Run(d, steps).decisions[token] == d.decisions[token]
    decreases |steps|
  {
    if steps == [] {
    } else {
      StepKeepsDecisions(d, steps[0]);
      DecisionsSurvive(Next(d, steps[0]), steps[1..], token);
    }
  }

  lemma DecideKeepsValid(d: Desk, req: AsaRequest, env: Env)
    requires Valid(d.db)
    ensures Valid(Decide(d, req, env).0.db)
  {
    StepKeepsDecisions(d, Asa(req, env));
  }

  /**
   * A delivery of a decided token changes nothing and answers from the record:
   * as decided, except that the decisions the network has no code for, and a
   * record that cannot be read, come out as a lack of funds.
   */
  lemma ReplayAnswer(d: Desk, req: AsaRequest, env: Env)
    requires Readable(req) && req.token in d.decisions
    ensures Decide(d, req, env).0 == d
    ensures var decided := d.decisions[req.token];
            Decide(d, req, env).1.code ==
              if env.fault == AtReplayLookup || decided == SuspectedFraud || decided == Errored then InsufficientFunds
              else decided
  {
  }

  /**
   * A recorded decision is replayed unchanged whatever happens to cards,
   * limits, balances or rates, and a replay places no second hold. Approve or
   * decline is always the first answer again - unless the replay cannot look
   * the decision up. The code differs only for a card nobody knew.
   */
  lemma ReplayIsStable(d: Desk, req: AsaRequest, env: Env, meanwhile: seq<DeskStep>, again: AsaRequest, env': Env)
    requires Valid(d.db) && Readable(req) && Readable(again) && again.token == req.token
    requires req.token !in d.decisions && env.decisionPersists
    ensures var (first, answer) := Decide(d, req, env);
            var later := Run(first, meanwhile);
            var (after, replayed) := Decide(later, again, env');
            && after == later
            && (env'.fault != AtReplayLookup ==>
                  && (replayed.code == Approved <==> answer.code == Approved)
                  && (replayed == answer <==> answer.code != SuspectedFraud))
            && (env'.fault == AtReplayLookup ==> replayed.code != Approved)
  {
    DecideRecords(d, req, env);
    DecideKeepsValid(d, req, env);
    var (first, answer) := Decide(d, req, env);
    DecisionsSurvive(first, meanwhile, req.token);
    ReplayAnswer(Run(first, meanwhile), again, env');
  }
}
