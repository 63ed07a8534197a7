/**
 * The held balance. At every reachable state it should equal the sum, over
 * authorizations with a posted hold and no closing posting, of what their rows
 * say was reserved. Exactly which steps keep that equation is proved here.
 */
module HeldMoney {
  import opened Wrappers
  import opened Postings
  import opened Commands
  import opened Cards
  import opened CardRuns

  predicate Closed(log: Log, token: string) {
    Posted(log, Settle(token)) || Posted(log, Release(token)) || Posted(log, StaleRelease(token))
  }

  predicate Open(log: Log, token: string) {
    Posted(log, Auth(token)) && !Closed(log, token)
  }

  function OpenTerm(log: Log, row: TxRow, u: string): int {
    if row.user == u && Open(log, row.token) then Reserved(row) else 0
  }

  /** What a user's open authorizations reserve, by the rows. */
  function OpenHolds(log: Log, rows: seq<TxRow>, u: string): int {
    if rows == [] then 0
    else OpenHolds(log, rows[..|rows| - 1], u) + OpenTerm(log, rows[|rows| - 1], u)
  }

  ghost predicate HeldMatches(d: Desk) {
    forall u :: Balance(d.db.log, Held(u)) == OpenHolds(d.db.log, d.rows, u)
  }

  /** The equation, and what keeps it going: holds have rows, closings had holds. */
  ghost predicate Inv(d: Desk) {
    && Valid(d.db)
    && UniqueTokens(d.rows)
    && (forall t :: Posted(d.db.log, Auth(t)) ==> RowOf(d.rows, t).Some?)
    && (forall t :: Closed(d.db.log, t) ==> Posted(d.db.log, Auth(t)))
    && HeldMatches(d)
  }

  /**
   * The steps that keep the equation, said before they run. An authorization
   * that posts a new hold must find a row with that owner and reservation, or
   * none and persist its own; a step that posts a new closing must find the
   * hold open and charge the row's owner.
   */
  predicate Clean(d: Desk, step: DeskStep) {
    var c := StepCommand(d, step);
    c.Some? && !Elsewhere(c.value) && Succeeds(d.db, c.value) && !Posted(d.db.log, KeyOf(c.value)) ==>
      var at := RowOf(d.rows, c.value.key.token);
      if c.value.PlaceHold? then
        if at.Some? then d.rows[at.value].user == c.value.user && Reserved(d.rows[at.value]) == c.value.amount
        else step.Asa? && step.env.rowPersists
      else
        Open(d.db.log, c.value.key.token) && at.Some? && d.rows[at.value].user == c.value.user
  }

  // ------------------------------------------------------- Sums over the rows

  lemma {:induction false} SameTerms(log: Log, rows: seq<TxRow>, log': Log, rows': seq<TxRow>, u: string)
    requires |rows| == |rows'|
    requires forall i | 0 <= i < |rows| :: OpenTerm(log, rows[i], u) == OpenTerm(log', rows'[i], u)
    ensures OpenHolds(log, rows, u) == OpenHolds(log', rows', u)
  {
    if rows == [] {
    } else {
      SameTerms(log, rows[..|rows| - 1], log', rows'[..|rows| - 1], u);
    }
  }

  lemma {:induction false} OneTermChanged(log: Log, rows: seq<TxRow>, log': Log, rows': seq<TxRow>, u: string, j: nat)
    requires |rows| == |rows'| && j < |rows|
    requires forall i | 0 <= i < |rows| && i != j :: OpenTerm(log, rows[i], u) == OpenTerm(log', rows'[i], u)
    ensures OpenHolds(log', rows', u) - OpenHolds(log, rows, u) ==
            OpenTerm(log', rows'[j], u) - OpenTerm(log, rows[j], u)
  {
    var init, init' := rows[..|rows| - 1], rows'[..|rows| - 1];
    if j == |rows| - 1 {
      SameTerms(log, init, log', init', u);
    } else {
      OneTermChanged(log, init, log', init', u, j);
    }
  }

  lemma SameDealSameTerm(log: Log, row: TxRow, log': Log, row': TxRow, u: string)
    requires SameDeal(row, row') && Open(log, row.token) == Open(log', row.token)
    ensures OpenTerm(log, row, u) == OpenTerm(log', row', u)
  {
  }

  /** What the sum moves by when only one token opens or closes. */
  function TokenTerm(log: Log, log': Log, rows: seq<TxRow>, token: string, u: string): int {
    match RowOf(rows, token)
    case None => 0
    case Some(j) => OpenTerm(log', rows[j], u) - OpenTerm(log, rows[j], u)
  }

  lemma KeptRowsMove(log: Log, rows: seq<TxRow>, log': Log, rows': seq<TxRow>, token: string, u: string)
    requires |rows| == |rows'| && RowsKept(rows, rows')
    requires forall t :: t != token ==> Open(log', t) == Open(log, t)
    ensures OpenHolds(log', rows', u) - OpenHolds(log, rows, u) == TokenTerm(log, log', rows', token, u)
  {
    forall i | 0 <= i < |rows| && rows[i].token != token
      ensures OpenTerm(log, rows[i], u) == OpenTerm(log', rows'[i], u)
    {
      SameDealSameTerm(log, rows[i], log', rows'[i], u);
    }
    match RowOf(rows', token) {
      case None => SameTerms(log, rows, log', rows', u);
      case Some(j) =>
        OneTermChanged(log, rows, log', rows', u, j);
        SameDealSameTerm(log, rows[j], log, rows'[j], u);
    }
  }

  /** The same when the step also added a row; a new row counts from zero. */
  lemma TokenMoves(log: Log, rows: seq<TxRow>, log': Log, rows': seq<TxRow>, token: string, u: string)
    requires RowsKept(rows, rows')
    requires forall t :: t != token ==> Open(log', t) == Open(log, t)
    requires |rows'| > |rows| ==> !Open(log, rows'[|rows|].token)
    ensures OpenHolds(log', rows', u) - OpenHolds(log, rows, u) == TokenTerm(log, log', rows', token, u)
  {
    if |rows'| == |rows| {
      KeptRowsMove(log, rows, log', rows', token, u);
    } else {
      var kept := rows'[..|rows|];
      KeptRowsMove(log, rows, log', kept, token, u);
      assert rows'[..|rows'| - 1] == kept;
      UniqueRow(rows', token);
      UniqueRow(kept, token);
    }
  }

  /** A token's row is wherever it is. */
  lemma UniqueRow(rows: seq<TxRow>, token: string)
    requires UniqueTokens(rows)
    ensures forall i | 0 <= i < |rows| :: rows[i].token == token <==> RowOf(rows, token) == Some(i)
  {
  }

  // -------------------------------------------------------------- One posting

  /** Posting anything but one of a token's four keys opens and closes nothing. */
  lemma OtherKeysDoNotMatter(log: Log, p: Posting, t: string)
    requires p.key != Auth(t) && p.key != Settle(t) && p.key != Release(t) && p.key != StaleRelease(t)
    ensures Open(log + [p], t) == Open(log, t) && Closed(log + [p], t) == Closed(log, t)
    ensures Posted(log + [p], Auth(t)) == Posted(log, Auth(t))
  {
    FindAppend(log, p);
  }

  lemma ElsewhereMoves(db: Db, c: Command, o: Outcome)
    requires Meaning(db, c, o) && Elsewhere(c)
    ensures forall t :: Open(o.db.log, t) == Open(db.log, t) && Closed(o.db.log, t) == Closed(db.log, t)
    ensures forall t :: Posted(o.db.log, Auth(t)) == Posted(db.log, Auth(t))
    ensures forall u :: Balance(o.db.log, Held(u)) == Balance(db.log, Held(u))
  {
    forall t ensures Open(o.db.log, t) == Open(db.log, t) && Closed(o.db.log, t) == Closed(db.log, t)
      ensures Posted(o.db.log, Auth(t)) == Posted(db.log, Auth(t))
    {
      if Fresh(db, c, o) { OtherKeysDoNotMatter(db.log, PostingOf(c), t); }
    }
    forall u ensures Balance(o.db.log, Held(u)) == Balance(db.log, Held(u)) {
      Moves(db, c, o, Held(u));
    }
  }

  /** The commands of this desk carry a key that names their token. */
  predicate TokenCommand(c: Command) {
    || (c.PlaceHold? && c.key.Auth?)
    || (c.SettleAuthorization? && c.key.Settle?)
    || (c.ReleaseHold? && (c.key.Release? || c.key.StaleRelease?))
  }

  function HeldBy(c: Command): int
    requires TokenCommand(c)
  {
    if c.PlaceHold? then c.amount else if c.SettleAuthorization? then -c.held else -c.amount
  }

  /** A fresh hold opens its token, a fresh closing closes it; held moves by the amount. */
  lemma TokenCommandMoves(db: Db, c: Command, o: Outcome)
    requires Meaning(db, c, o) && TokenCommand(c) && Fresh(db, c, o)
    ensures forall t :: t != c.key.token ==>
              && Open(o.db.log, t) == Open(db.log, t)
              && Closed(o.db.log, t) == Closed(db.log, t)
              && Posted(o.db.log, Auth(t)) == Posted(db.log, Auth(t))
    ensures c.PlaceHold? ==>
              Posted(o.db.log, Auth(c.key.token)) && Closed(o.db.log, c.key.token) == Closed(db.log, c.key.token)
    ensures !c.PlaceHold? ==>
              Closed(o.db.log, c.key.token) && Posted(o.db.log, Auth(c.key.token)) == Posted(db.log, Auth(c.key.token))
    ensures HeldBy(c) != 0
    ensures forall u :: Balance(o.db.log, Held(u)) == Balance(db.log, Held(u)) + if u == c.user then HeldBy(c) else 0
  {
    FindAppend(db.log, PostingOf(c));
    forall t | t != c.key.token
      ensures && Open(o.db.log, t) == Open(db.log, t)
              && Closed(o.db.log, t) == Closed(db.log, t)
              && Posted(o.db.log, Auth(t)) == Posted(db.log, Auth(t))
    {
      OtherKeysDoNotMatter(db.log, PostingOf(c), t);
    }
    forall u ensures Balance(o.db.log, Held(u)) == Balance(db.log, Held(u)) + if u == c.user then HeldBy(c) else 0 {
      Moves(db, c, o, Held(u));
    }
  }

  /** What a desk step runs is either elsewhere, or about one token and its row. */
  lemma CommandIsAboutItsRow(d: Desk, step: DeskStep)
    requires Inv(d) && StepCommand(d, step).Some? && !Elsewhere(StepCommand(d, step).value)
    ensures var c := StepCommand(d, step).value;
            && TokenCommand(c)
            && (!c.PlaceHold? && RowOf(d.rows, c.key.token).Some? ==>
                  -HeldBy(c) == Reserved(d.rows[RowOf(d.rows, c.key.token).value]))
  {
    if step.StaleRow? {
      var token := d.rows[step.i].token;
      assert RowOf(d.rows, token).value == step.i;
    }
  }

  /** A row the step adds belongs to a token with no hold yet. */
  lemma NewRowNotOpen(d: Desk, rows': seq<TxRow>)
    requires Inv(d) && RowsKept(d.rows, rows')
    ensures |rows'| > |d.rows| ==> !Posted(d.db.log, Auth(rows'[|d.rows|].token))
    ensures forall t :: RowOf(d.rows, t).Some? ==>
              && RowOf(rows', t) == RowOf(d.rows, t)
              && SameDeal(d.rows[RowOf(d.rows, t).value], rows'[RowOf(rows', t).value])
  {
    forall t | RowOf(d.rows, t).Some?
      ensures && RowOf(rows', t) == RowOf(d.rows, t)
              && SameDeal(d.rows[RowOf(d.rows, t).value], rows'[RowOf(rows', t).value])
    {
      var i := RowOf(d.rows, t).value;
      assert rows'[i].token == t;
      UniqueRow(rows', t);
    }
    if |rows'| > |d.rows| {
      UniqueRow(rows', rows'[|d.rows|].token);
    }
  }

  /** Nothing posted, or something posted elsewhere: the equation stays. */
  lemma QuietStep(d: Desk, d': Desk)
    requires Inv(d) && Valid(d'.db) && RowsKept(d.rows, d'.rows)
    requires forall t :: Open(d'.db.log, t) == Open(d.db.log, t) && Closed(d'.db.log, t) == Closed(d.db.log, t)
    requires forall t :: Posted(d'.db.log, Auth(t)) == Posted(d.db.log, Auth(t))
    requires forall u :: Balance(d'.db.log, Held(u)) == Balance(d.db.log, Held(u))
    ensures Inv(d')
  {
    NewRowNotOpen(d, d'.rows);
    forall u ensures Balance(d'.db.log, Held(u)) == OpenHolds(d'.db.log, d'.rows, u) {
      TokenMoves(d.db.log, d.rows, d'.db.log, d'.rows, "", u);
    }
  }

  /** The row a fresh token command needs, said of the rows after the step. */
  predicate RowFits(log: Log, rows': seq<TxRow>, c: Command)
    requires TokenCommand(c)
  {
    && RowOf(rows', c.key.token).Some?
    && var row := rows'[RowOf(rows', c.key.token).value];
    && row.user == c.user
    && if c.PlaceHold? then Reserved(row) == c.amount else Open(log, c.key.token)
  }

  /** For each user: held and the sum move together exactly when the row fits. */
  lemma TokenStepMatches(d: Desk, d': Desk, c: Command, o: Outcome)
    requires Inv(d) && RowsKept(d.rows, d'.rows) && d'.db == o.db
    requires Meaning(d.db, c, o) && TokenCommand(c) && Fresh(d.db, c, o)
    requires !c.PlaceHold? && RowOf(d.rows, c.key.token).Some? ==>
               -HeldBy(c) == Reserved(d.rows[RowOf(d.rows, c.key.token).value])
    ensures HeldMatches(d') <==> RowFits(d.db.log, d'.rows, c)
  {
    var token := c.key.token;
    TokenCommandMoves(d.db, c, o);
    NewRowNotOpen(d, d'.rows);
    forall u ensures Balance(d'.db.log, Held(u)) - OpenHolds(d'.db.log, d'.rows, u) ==
                     (if u == c.user then HeldBy(c) else 0) - TokenTerm(d.db.log, d'.db.log, d'.rows, token, u)
    {
      TokenMoves(d.db.log, d.rows, d'.db.log, d'.rows, token, u);
    }
    TokenTermFits(d, d', c, o);
    if !RowFits(d.db.log, d'.rows, c) {
      assert TokenTerm(d.db.log, d'.db.log, d'.rows, token, c.user) != HeldBy(c);
    }
  }

  lemma TokenTermFits(d: Desk, d': Desk, c: Command, o: Outcome)
    requires Inv(d) && RowsKept(d.rows, d'.rows) && d'.db == o.db
    requires Meaning(d.db, c, o) && TokenCommand(c) && Fresh(d.db, c, o)
    requires !c.PlaceHold? && RowOf(d.rows, c.key.token).Some? ==>
               -HeldBy(c) == Reserved(d.rows[RowOf(d.rows, c.key.token).value])
    ensures RowFits(d.db.log, d'.rows, c) ==>
              forall u :: TokenTerm(d.db.log, d'.db.log, d'.rows, c.key.token, u) ==
                          if u == c.user then HeldBy(c) else 0
    ensures !RowFits(d.db.log, d'.rows, c) ==>
              TokenTerm(d.db.log, d'.db.log, d'.rows, c.key.token, c.user) != HeldBy(c)
  {
    TokenCommandMoves(d.db, c, o);
    NewRowNotOpen(d, d'.rows);
  }

  /** Clean says of the desk before the step that the row will fit after it. */
  lemma CleanFits(d: Desk, step: DeskStep)
    requires Inv(d) && StepCommand(d, step).Some? && !Elsewhere(StepCommand(d, step).value)
    requires Fresh(d.db, StepCommand(d, step).value, Exec(d.db, StepCommand(d, step).value))
    requires RowsKept(d.rows, Next(d, step).rows) && TokenCommand(StepCommand(d, step).value)
    ensures Clean(d, step) <==> RowFits(d.db.log, Next(d, step).rows, StepCommand(d, step).value)
  {
    var c := StepCommand(d, step).value;
    ExecMeaning(d.db, c);
    NewRowNotOpen(d, Next(d, step).rows);
    if c.PlaceHold? && RowOf(d.rows, c.key.token).None? {
      HoldRowFits(d, step);
    }
  }

  /** A hold of a token without a row finds its row afterwards exactly when the row persists. */
  lemma HoldRowFits(d: Desk, step: DeskStep)
    requires Inv(d) && StepCommand(d, step).Some? && StepCommand(d, step).value.PlaceHold?
    requires !Elsewhere(StepCommand(d, step).value) && TokenCommand(StepCommand(d, step).value)
    requires Exec(d.db, StepCommand(d, step).value).result.Ok?
    requires RowOf(d.rows, StepCommand(d, step).value.key.token).None?
    ensures step.Asa?
    ensures step.env.rowPersists <==> RowFits(d.db.log, Next(d, step).rows, StepCommand(d, step).value)
  {
    DecideEffect(d, step.req, step.env);
    if step.env.rowPersists {
      OrderlyAsa(d, step.req, step.env);
    }
  }

  /**
   * From a state where the equation and its supports hold, a step keeps the
   * equation exactly when it is clean, and a clean step keeps all of it.
   */
  lemma HeldStep(d: Desk, step: DeskStep)
    requires Inv(d)
    ensures HeldMatches(Next(d, step)) <==> Clean(d, step)
    ensures Clean(d, step) ==> Inv(Next(d, step))
  {
    var d', c := Next(d, step), StepCommand(d, step);
    StepRunsItsCommand(d, step);
    StepKeepsRows(d, step);
    if c.None? {
      QuietStep(d, d');
    } else {
      var o := Exec(d.db, c.value);
      ExecMeaning(d.db, c.value);
      if Elsewhere(c.value) {
        ElsewhereMoves(d.db, c.value, o);
        QuietStep(d, d');
      } else if !Fresh(d.db, c.value, o) {
        assert d'.db.log == d.db.log;
        QuietStep(d, d');
      } else {
        CommandIsAboutItsRow(d, step);
        TokenStepMatches(d, d', c.value, o);
        CleanFits(d, step);
        if Clean(d, step) {
          TokenStepKeeps(d, d', c.value, o);
        }
      }
    }
  }

  lemma TokenStepKeeps(d: Desk, d': Desk, c: Command, o: Outcome)
    requires Inv(d) && Valid(o.db) && RowsKept(d.rows, d'.rows) && d'.db == o.db && HeldMatches(d')
    requires Meaning(d.db, c, o) && TokenCommand(c) && Fresh(d.db, c, o)
    requires RowFits(d.db.log, d'.rows, c)
    ensures Inv(d')
  {
    TokenCommandMoves(d.db, c, o);
    NewRowNotOpen(d, d'.rows);
  }

  // ------------------------------------------------------------------- Runs

  /** Every step of a run is clean when its turn comes. */
  predicate CleanRun(d: Desk, steps: seq<DeskStep>)
    decreases |steps|
  {
    steps == [] || (Clean(d, steps[0]) && CleanRun(Next(d, steps[0]), steps[1..]))
  }

  /** The equation holds at every state of a run. */
  ghost predicate MatchesThroughout(d: Desk, steps: seq<DeskStep>)
    decreases |steps|
  {
    HeldMatches(d) && (steps == [] || MatchesThroughout(Next(d, steps[0]), steps[1..]))
  }

  /** The held balance agrees with the open authorizations throughout exactly the clean runs. */
  lemma {:induction false} HeldThroughoutIffClean(d: Desk, steps: seq<DeskStep>)
    requires Inv(d)
    ensures MatchesThroughout(d, steps) <==> CleanRun(d, steps)
    decreases |steps|
  {
    if steps == [] {
    } else {
      HeldStep(d, steps[0]);
      if Clean(d, steps[0]) {
        HeldThroughoutIffClean(Next(d, steps[0]), steps[1..]);
      } else {
        assert !HeldMatches(Next(d, steps[0]));
      }
    }
  }

  /**
   * The operating assumption behind the design: authorizations persist their
   * row, events are about authorized tokens of the card's own user, and a
   * token is closed by one kind of event, delivered any number of times.
   */
  predicate Orderly(d: Desk, step: DeskStep) {
    match step
    case Asa(req, env) =>
      env.rowPersists && (RowOf(d.rows, req.token).Some? ==> Posted(d.db.log, Auth(req.token)))
    case Webhook(ev) =>
      && Posted(d.db.log, Auth(ev.token))
      && (ev.cardToken in d.cards && RowOf(d.rows, ev.token).Some? ==>
            d.rows[RowOf(d.rows, ev.token).value].user == d.cards[ev.cardToken].user)
      && !Posted(d.db.log, StaleRelease(ev.token))
      && (if ev.status == "SETTLED" then !Posted(d.db.log, Release(ev.token))
          else !Posted(d.db.log, Settle(ev.token)))
    case StaleRow(i, _) =>
      i < |d.rows| ==>
        && Posted(d.db.log, Auth(d.rows[i].token))
        && !Posted(d.db.log, Settle(d.rows[i].token))
        && !Posted(d.db.log, Release(d.rows[i].token))
    case SetCard(_, _) => true
    case Other(_) => true
  }

  /** An approved authorization whose row persists leaves exactly its candidate row. */
  lemma OrderlyAsa(d: Desk, req: AsaRequest, env: Env)
    requires Inv(d) && Candidate(d, req, env).Some? && env.rowPersists
    requires Exec(d.db, Hold(Candidate(d, req, env).value)).result.Ok? && RowOf(d.rows, req.token).None?
    ensures var rows := Decide(d, req, env).0.rows;
            RowOf(rows, req.token).Some? && rows[RowOf(rows, req.token).value] == Candidate(d, req, env).value
  {
    var row := Candidate(d, req, env).value;
    DecideEffect(d, req, env);
    var rows := Decide(d, req, env).0.rows;
    assert rows == d.rows + [row];
    assert rows[|d.rows|].token == req.token;
    assert forall i | 0 <= i < |d.rows| :: rows[i] == d.rows[i];
  }

  lemma OrderlyAsaIsClean(d: Desk, req: AsaRequest, env: Env)
    requires Inv(d) && Orderly(d, Asa(req, env))
    ensures Clean(d, Asa(req, env))
  {
  }

  lemma OrderlyWebhookIsClean(d: Desk, ev: CardEvent)
    requires Inv(d) && Orderly(d, Webhook(ev))
    ensures Clean(d, Webhook(ev))
  {
  }

  lemma OrderlySweepIsClean(d: Desk, i: nat, reply: ProviderReply)
    requires Inv(d) && Orderly(d, StaleRow(i, reply))
    ensures Clean(d, StaleRow(i, reply))
  {
    if i < |d.rows| {
      UniqueRow(d.rows, d.rows[i].token);
    }
  }

  lemma OrderlyIsClean(d: Desk, step: DeskStep)
    requires Inv(d) && Orderly(d, step)
    ensures Clean(d, step)
  {
    match step
    case Asa(req, env) => OrderlyAsaIsClean(d, req, env);
    case Webhook(ev) => OrderlyWebhookIsClean(d, ev);
    case StaleRow(i, reply) => OrderlySweepIsClean(d, i, reply);
    case SetCard(_, _) =>
    case Other(_) =>
  }

  /** Any orderly run, from an empty desk or any matching one, keeps held equal to the open reservations. */
  lemma {:induction false} OrderlyRunsMatch(d: Desk, steps: seq<DeskStep>)
    requires Inv(d)
    requires forall k | 0 <= k < |steps| :: Orderly(Run(d, steps[..k]), steps[k])
    ensures Inv(Run(d, steps)) && MatchesThroughout(d, steps)
    decreases |steps|
  {
    if steps == [] {
    } else {
      var d', tail := Next(d, steps[0]), steps[1..];
      assert steps[..0] == [];
      OrderlyIsClean(d, steps[0]);
      HeldStep(d, steps[0]);
      forall k | 0 <= k < |tail| ensures Orderly(Run(d', tail[..k]), tail[k]) {
        assert steps[..k + 1][1..] == tail[..k] && steps[..k + 1][0] == steps[0];
        assert Orderly(Run(d, steps[..k + 1]), steps[k + 1]);
      }
      OrderlyRunsMatch(d', tail);
    }
  }

  lemma EmptyDeskMatches(cards: map<string, Card>)
    ensures Inv(Desk(EMPTY_DB, cards, [], map[]))
  {
  }

  /** From nothing: held and the open authorizations agree throughout exactly the clean runs. */
  lemma FromEmptyIffClean(cards: map<string, Card>, steps: seq<DeskStep>)
    ensures var d := Desk(EMPTY_DB, cards, [], map[]);
            MatchesThroughout(d, steps) <==> CleanRun(d, steps)
  {
    EmptyDeskMatches(cards);
    HeldThroughoutIffClean(Desk(EMPTY_DB, cards, [], map[]), steps);
  }

  lemma SettlementTakesHeld(db: Db, c: Command)
    requires Valid(db) && c.SettleAuthorization? && WellFormed(c) && !Posted(db.log, c.key)
    ensures Balance(Exec(db, c).db.log, Held(c.user)) == Balance(db.log, Held(c.user)) - c.held
  {
    ExecMeaning(db, c);
    Moves(db, c, Exec(db, c), Held(c.user));
  }

  /** A settlement event for a token that was never authorized takes held money that is not its own. */
  lemma SettlementWithoutHold(d: Desk, ev: CardEvent)
    requires Inv(d) && ev.status == "SETTLED" && ev.hold > 0
    requires ev.token != "" && ev.cardToken != "" && ev.cardToken in d.cards && !ev.crashes
    requires RowOf(d.rows, ev.token).None?
    ensures var d' := Sync(d, ev).0;
            var u := d.cards[ev.cardToken].user;
            && !HeldMatches(d')
            && Balance(d'.db.log, Held(u)) == Balance(d.db.log, Held(u)) - 10_000 * ev.hold
  {
    var step := Webhook(ev);
    assert !Posted(d.db.log, Auth(ev.token)) && !Closed(d.db.log, ev.token);
    HeldStep(d, step);
    StepRunsItsCommand(d, step);
    SettlementTakesHeld(d.db, StepCommand(d, step).value);
  }

  /** The shortest run that breaks the equation: on an empty desk, a settlement for a token nobody authorized. */
  lemma FirstSettlementBreaks(card: string, c: Card, ev: CardEvent)
    requires ev.status == "SETTLED" && ev.hold > 0 && !ev.crashes
    requires ev.token != "" && card != "" && ev.cardToken == card
    ensures var d := Desk(EMPTY_DB, map[card := c], [], map[]);
            HeldMatches(d) && !HeldMatches(Next(d, Webhook(ev))) && !Clean(d, Webhook(ev))
  {
    var d := Desk(EMPTY_DB, map[card := c], [], map[]);
    EmptyDeskMatches(map[card := c]);
    SettlementWithoutHold(d, ev);
    HeldStep(d, Webhook(ev));
  }
}
