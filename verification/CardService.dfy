/**
 * The card desk as it runs: the authorization decision, the webhook and the
 * sweep, each updating the ledger and the card tables step by step. Every
 * method is proved to end in the desk, and return the answer, that Cards gives.
 */
module CardService {
  import opened Wrappers
  import opened Postings
  import opened Commands
  import opened Cards
  import opened LedgerService
  import CardRuns
  import WebhookEffects

  class CardDesk {
    const ledger: Ledger
    var cards: map<string, Card>
    var rows: seq<TxRow>
    var decisions: map<string, Decision>

    constructor (ledger: Ledger)
      requires ledger.Consistent()
      ensures this.ledger == ledger && Consistent()
      ensures State() == Desk(ledger.Tables(), map[], [], map[])
    {
      this.ledger := ledger;
      cards, rows, decisions := map[], [], map[];
    }

    function State(): Desk
      reads this, ledger
    {
      Desk(ledger.Tables(), cards, rows, decisions)
    }

    ghost predicate Consistent()
      reads this, ledger
    {
      ledger.Consistent()
    }

    /** The first decision recorded for a token stays; a failed insert is only logged. */
    method RecordDecision(token: string, decision: Decision, env: Env)
      requires Consistent()
      modifies this`decisions
      ensures Consistent() && State() == Record(old(State()), token, decision, env)
      ensures forall t :: t in old(decisions) ==> t in decisions && decisions[t] == old(decisions)[t]
      ensures env.decisionPersists ==> token in decisions
    {
      if env.decisionPersists && token !in decisions {
        decisions := decisions[token := decision];
      }
    }

    method FinishDecision(token: string, decision: Decision, env: Env) returns (r: Response)
      requires Consistent()
      modifies this`decisions
      ensures Consistent() && (State(), r) == Finish(old(State()), token, decision, env)
    {
      RecordDecision(token, decision, env);
      r := ToResponse(decision);
    }

    method FailClosed(token: string, env: Env) returns (r: Response)
      requires Consistent()
      modifies this`decisions
      ensures Consistent() && (State(), r) == Fail(old(State()), token, env)
    {
      RecordDecision(token, Errored, env);
      r := Response(InsufficientFunds);
    }

    /** The reduce over the day's rows. */
    method SpentToday(card: string, dayStart: int) returns (total: int)
      ensures total == SpentSince(rows, card, dayStart)
    {
      total := 0;
      for i := 0 to |rows|
        invariant total == SpentSince(rows[..i], card, dayStart)
      {
        assert rows[..i + 1][..i] == rows[..i];
        var row := rows[i];
        if row.card == card && row.createdAt >= dayStart && (row.status == Pending || row.status == Cleared) {
          var value := if row.status == Cleared && row.settled.Some? then row.settled.value else row.amount;
          total := total + value;
        }
      }
      assert rows[..|rows|] == rows;
    }

    method UpsertPending(row: TxRow, env: Env)
      requires Consistent()
      modifies this`rows
      ensures Consistent() && State() == old(State()).(rows := PersistRow(old(rows), row, env))
      ensures old(rows) <= rows && (env.rowPersists ==> RowOf(rows, row.token).Some?)
    {
      if env.rowPersists && RowOf(rows, row.token).None? {
        rows := rows + [row];
        assert rows[|rows| - 1].token == row.token;
      }
    }

    /** Hold the spend and its fee; the answer follows from how that went. */
    method ReserveHold(row: TxRow, env: Env) returns (r: Response)
      requires Consistent()
      modifies this, ledger
      ensures Consistent() && (State(), r) == Reserve(old(State()), row, env)
    {
      if env.fault == AtHold {
        r := FailClosed(row.token, env);
        return;
      }
      var held, availableAfter := ledger.PlaceHold(row.user, Auth(row.token), Reserved(row));
      if held.Ok? {
        UpsertPending(row, env);
        r := FinishDecision(row.token, Approved, env);
      } else {
        FailureKeepsTables(old(State()).db, Hold(row));
        if held.error.InsufficientBalance? {
          r := FinishDecision(row.token, InsufficientFunds, env);
        } else {
          r := FailClosed(row.token, env);
        }
      }
    }

    /** One delivery of an authorization request. */
    method DecideAuthorization(req: AsaRequest, env: Env) returns (r: Response)
      requires Consistent()
      modifies this, ledger
      ensures Consistent() && (State(), r) == Decide(old(State()), req, env)
    {
      var amount := ExtractAmount(req);
      if req.token == "" || req.cardToken == "" || amount.None? {
        return Response(SuspectedFraud);
      }
      if env.fault == AtReplayLookup {
        r := FailClosed(req.token, env);
        return;
      }
      if req.token in decisions {
        return ToResponse(decisions[req.token]);
      }
      if env.fault == BeforeHold {
        r := FailClosed(req.token, env);
        return;
      }
      if req.cardToken !in cards {
        RecordDecision(req.token, Errored, env);
        return Response(SuspectedFraud);
      }
      var refused := ScreenCard(req.cardToken, amount.value, env.dayStart);
      if refused.Some? {
        r := FinishDecision(req.token, refused.value, env);
        return;
      }
      r := ReserveHold(NewRow(req, cards[req.cardToken].user, amount.value, env), env);
    }

    method ScreenCard(cardToken: string, cents: int, dayStart: int) returns (refused: Option<Decision>)
      requires cardToken in cards
      ensures refused == Screen(State(), cardToken, cents, dayStart)
    {
      var card := cards[cardToken];
      if card.status == Closed {
        return Some(CardClosed);
      }
      if card.status == Frozen || !card.userActive {
        return Some(CardPaused);
      }
      var perTransaction := card.perTransactionLimit;
      if perTransaction.Some? && perTransaction.value != 0 && cents > perTransaction.value {
        return Some(VelocityExceeded);
      }
      if card.dailyLimit.Some? && card.dailyLimit.value != 0 {
        var spent := SpentToday(cardToken, dayStart);
        if spent + cents > card.dailyLimit.value {
          return Some(VelocityExceeded);
        }
      }
      refused := None;
    }

    /** One card_transaction.updated webhook: the row first, then the ledger. */
    method SyncCardTransaction(ev: CardEvent) returns (thrown: Option<Error>)
      requires Consistent()
      modifies this, ledger
      ensures Consistent() && (State(), thrown) == Sync(old(State()), ev)
    {
      thrown := None;
      if ev.token == "" || ev.cardToken == "" || ev.cardToken !in cards {
        return;
      }
      var user := cards[ev.cardToken].user;
      var sameStatus := StatusUnchanged(rows, ev);
      var (held, fee) := EventReserved(rows, ev);
      rows := UpsertRow(rows, ev, user);
      if !sameStatus && !ev.crashes {
        thrown := ActOn(ev, user, held, fee);
      }
      SyncFromParts(old(State()), ev, State(), thrown);
    }

    /** What a change of status does to the ledger. */
    method ActOn(ev: CardEvent, user: string, held: int, fee: int) returns (thrown: Option<Error>)
      requires Consistent()
      modifies ledger
      ensures Consistent()
      ensures (ledger.Tables(), thrown) ==
              Act(old(ledger.Tables()), CommandFor(old(ledger.log), ev, user, held, fee))
    {
      thrown := None;
      match MapStatus(ev.status) {
        case Cleared =>
          thrown := SettleHold(ev, user, held, fee);
        case Pending =>
        case Refunded =>
        case _ =>
          if Auth(ev.token) in ledger.ids && held > 0 {
            thrown := ReleaseHeld(ev, user, held);
          }
      }
    }

    method SettleHold(ev: CardEvent, user: string, held: int, fee: int) returns (thrown: Option<Error>)
      requires Consistent()
      modifies ledger
      ensures Consistent()
      ensures var cents := if ev.settlement > 0 then ev.settlement else ev.hold;
              (ledger.Tables(), thrown) == Act(old(ledger.Tables()),
                Some(Command.SettleAuthorization(user, Settle(ev.token), held, UsdCentsToUsdt(cents), fee)))
    {
      var cents := if ev.settlement > 0 then ev.settlement else ev.hold;
      var r := ledger.SettleAuthorization(user, Settle(ev.token), held, UsdCentsToUsdt(cents), fee);
      FailureKeepsTables(old(ledger.Tables()),
                         Command.SettleAuthorization(user, Settle(ev.token), held, UsdCentsToUsdt(cents), fee));
      thrown := if r.Ok? then None else Some(r.error);
    }

    method ReleaseHeld(ev: CardEvent, user: string, held: int) returns (thrown: Option<Error>)
      requires Consistent()
      modifies ledger
      ensures Consistent()
      ensures (ledger.Tables(), thrown) ==
              Act(old(ledger.Tables()), Some(Command.ReleaseHold(user, Release(ev.token), held)))
    {
      var r := ledger.ReleaseHold(user, Release(ev.token), held);
      FailureKeepsTables(old(ledger.Tables()), Command.ReleaseHold(user, Release(ev.token), held));
      thrown := if r.Ok? then None else Some(r.error);
    }

    /** One stale row: ask the provider, release only what it has never heard of. */
    method SweepStaleRow(i: nat, reply: ProviderReply) returns (result: SweepResult)
      requires Consistent() && i < |rows|
      modifies this, ledger
      ensures Consistent() && (State(), result) == SweepRow(old(State()), i, reply)
    {
      match reply {
        case LookupFails => result := Unresolved;
        case Known =>
          var thrown := SyncCardTransaction(MISREAD);
          result := Resolved;
        case Unknown(crashes) => result := ReleaseStale(i, crashes);
      }
    }

    /** The release, then the row, with the crash between them. */
    method ReleaseStale(i: nat, crashes: bool) returns (result: SweepResult)
      requires Consistent() && i < |rows|
      modifies this`rows, ledger
      ensures Consistent() && (State(), result) == ReleaseRow(old(State()), i, crashes)
    {
      var row := rows[i];
      ghost var before := State();
      var r := ledger.ReleaseHold(row.user, StaleRelease(row.token), row.amount * 10_000 + row.fee);
      assert Outcome(ledger.Tables(), r) == Exec(before.db, StaleCommand(row));
      if r.Err? {
        ReleaseFails(before, i, crashes);
        return Stopped;
      }
      if crashes {
        return Stopped;
      }
      rows := rows[i := row.(status := Expired)];
      result := Swept;
    }

    /**
     * The hourly sweep: every pending row authorized before the cutoff, at most
     * as many as asked for, counting what became of each. An error ends it.
     */
    method SweepStaleAuthorizations(cutoff: int, take: nat, replies: string -> ProviderReply)
      returns (tally: Option<Tally>)
      requires Consistent()
      modifies this, ledger
      ensures Consistent()
      ensures var stale := StaleRows(old(rows), cutoff, take);
              var (after, results) := SweepRows(old(State()), stale, replies);
              && State() == after
              && (tally.None? <==> Stopped in results)
              && (tally.Some? ==> tally.value == Count(results))
      ensures |rows| == |old(rows)|
      ensures forall i: nat | i < |rows| && (old(rows)[i].status != Pending || old(rows)[i].createdAt >= cutoff) ::
                rows[i] == old(rows)[i]
      ensures exists steps :: State() == CardRuns.Run(old(State()), steps)
    {
      WebhookEffects.SweepTouchesStaleOnly(State(), cutoff, take, replies);
      var stale := StaleRows(rows, cutoff, take);
      ghost var steps := CardRuns.SweepIsRun(State(), stale, replies);
      var counts := Tally(0, 0, 0, 0);
      ghost var done: seq<SweepResult> := [];
      ghost var start := State();
      var k := 0;
      SweepFromStart(start, stale, replies);
      while k < |stale|
        invariant 0 <= k <= |stale|
        invariant Consistent() && |rows| == |start.rows|
        invariant Stopped !in done && counts == Count(done)
        invariant SweepsOn(start, stale, replies, State(), k, done)
      {
        ghost var before := State();
        var result := SweepStaleRow(stale[k], replies(rows[stale[k]].token));
        SweepRowKeepsLength(before, stale[k], replies(before.rows[stale[k]].token));
        SweepOneMore(start, stale, replies, before, k, done, State(), result);
        if result == Stopped {
          return None;
        }
        CountMore(done, result);
        counts := Counting(counts, result);
        done := done + [result];
        k := k + 1;
      }
      SweepDone(start, stale, replies, State(), done);
      tally := Some(counts);
    }
  }

  lemma ReleaseFails(d: Desk, i: nat, crashes: bool)
    requires i < |d.rows| && Valid(d.db) && Exec(d.db, StaleCommand(d.rows[i])).result.Err?
    ensures ReleaseRow(d, i, crashes) == (d, Stopped) && Exec(d.db, StaleCommand(d.rows[i])).db == d.db
  {
    ExecMeaning(d.db, StaleCommand(d.rows[i]));
  }

  lemma SyncFromParts(d: Desk, ev: CardEvent, d': Desk, thrown: Option<Error>)
    requires ev.token != "" && ev.cardToken != "" && ev.cardToken in d.cards
    requires d' == d.(db := d'.db, rows := UpsertRow(d.rows, ev, d.cards[ev.cardToken].user))
    requires (d'.db, thrown) ==
             if StatusUnchanged(d.rows, ev) || ev.crashes then (d.db, None)
             else Act(d.db, EventCommand(d.db.log, d.rows, ev, d.cards[ev.cardToken].user))
    ensures (d', thrown) == Sync(d, ev)
  {
  }

  /** Midway: the whole sweep is what is done plus the sweep of the rest from here. */
  ghost predicate SweepsOn(start: Desk, stale: seq<nat>, replies: string -> ProviderReply,
                           now: Desk, k: nat, done: seq<SweepResult>)
  {
    && k <= |stale|
    && |now.rows| == |start.rows|
    && (forall i | 0 <= i < |stale| :: stale[i] < |start.rows|)
    && var (after, results) := SweepRows(now, stale[k..], replies);
       SweepRows(start, stale, replies) == (after, done + results)
  }

  lemma SweepFromStart(start: Desk, stale: seq<nat>, replies: string -> ProviderReply)
    requires forall i | 0 <= i < |stale| :: stale[i] < |start.rows|
    ensures SweepsOn(start, stale, replies, start, 0, [])
  {
    assert stale[0..] == stale;
    var results := SweepRows(start, stale, replies).1;
    assert [] + results == results;
  }

  lemma SweepOneMore(start: Desk, stale: seq<nat>, replies: string -> ProviderReply,
                     now: Desk, k: nat, done: seq<SweepResult>, next: Desk, result: SweepResult)
    requires SweepsOn(start, stale, replies, now, k, done) && k < |stale|
    requires (next, result) == SweepRow(now, stale[k], replies(now.rows[stale[k]].token))
    ensures if result == Stopped then SweepRows(start, stale, replies) == (next, done + [Stopped])
            else SweepsOn(start, stale, replies, next, k + 1, done + [result])
  {
    assert stale[k..][0] == stale[k] && stale[k..][1..] == stale[k + 1..];
    SweepRowKeepsLength(now, stale[k], replies(now.rows[stale[k]].token));
    if result != Stopped {
      var rest := SweepRows(next, stale[k + 1..], replies).1;
      assert done + ([result] + rest) == (done + [result]) + rest;
    }
  }

  lemma SweepDone(start: Desk, stale: seq<nat>, replies: string -> ProviderReply, now: Desk, done: seq<SweepResult>)
    requires SweepsOn(start, stale, replies, now, |stale|, done)
    ensures SweepRows(start, stale, replies) == (now, done)
  {
    assert stale[|stale|..] == [];
    assert done + [] == done;
  }

  function Counting(t: Tally, result: SweepResult): Tally {
    match result
    case Unresolved => t.(checked := t.checked + 1, unresolved := t.unresolved + 1)
    case Resolved => t.(checked := t.checked + 1, resolved := t.resolved + 1)
    case Swept => t.(checked := t.checked + 1, released := t.released + 1)
    case Stopped => t.(checked := t.checked + 1)
  }

  function Count(results: seq<SweepResult>): Tally {
    if results == [] then Tally(0, 0, 0, 0)
    else Counting(Count(results[..|results| - 1]), results[|results| - 1])
  }

  lemma CountMore(results: seq<SweepResult>, result: SweepResult)
    ensures Count(results + [result]) == Counting(Count(results), result)
  {
    assert (results + [result])[..|results|] == results;
  }

  /** The tally counts each row once: checked, and as what became of it. */
  lemma {:induction false} CountIs(results: seq<SweepResult>)
    ensures var t := Count(results);
            && t.checked == |results|
            && t.resolved == multiset(results)[Resolved]
            && t.released == multiset(results)[Swept]
            && t.unresolved == multiset(results)[Unresolved]
  {
    if results == [] {
    } else {
      var n := |results| - 1;
      CountIs(results[..n]);
      assert results == results[..n] + [results[n]];
    }
  }

  lemma FailureKeepsTables(db: Db, c: Command)
    requires Valid(db)
    ensures Exec(db, c).result.Err? ==> Exec(db, c).db == db
  {
    ExecMeaning(db, c);
  }
}
