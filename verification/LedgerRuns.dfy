/**
 * What holds of the ledger over any sequence of commands: nothing rewritten,
 * nothing created, redelivery harmless, fees accounted for, no overdraft
 * except the two the design allows.
 */
module LedgerRuns {
  import opened Wrappers
  import opened Postings
  import opened Commands

  // ------------------------------------------------------------- Integrity

  /** I1 to I4 over any run: still valid, and the old log is a prefix of the new. */
  lemma {:induction false} RunsKeepTheBook(db: Db, cs: seq<Command>)
    requires Valid(db)
    ensures Valid(Serial(db, cs))
    ensures db.log <= Serial(db, cs).log
    decreases |cs|
  {
    if cs == [] {
    } else {
      ExecMeaning(db, cs[0]);
      RunsKeepTheBook(Exec(db, cs[0]).db, cs[1..]);
    }
  }

  /** In every reachable ledger the balances of all accounts cancel. */
  lemma ReachableBalancesCancel(cs: seq<Command>)
    ensures var db := Serial(EMPTY_DB, cs);
            AllBalanced(db.log) && SumBalances(db.accounts, db.log) == 0
  {
    RunsKeepTheBook(EMPTY_DB, cs);
    var db := Serial(EMPTY_DB, cs);
    BalancesCancel(db.accounts, db.log);
  }

  lemma {:induction false} SerialConcat(db: Db, cs: seq<Command>, ds: seq<Command>)
    ensures Serial(db, cs + ds) == Serial(Serial(db, cs), ds)
    decreases |cs|
  {
    if cs == [] {
      assert cs + ds == ds;
    } else {
      assert (cs + ds)[1..] == cs[1..] + ds;
      SerialConcat(Exec(db, cs[0]).db, cs[1..], ds);
    }
  }

  // ------------------------------------------------- At least once delivery

  /**
   * A command that was accepted, run again after anything else has happened,
   * returns its original id - unless it is a debit adjustment, whose balance
   * check comes before the key is looked up.
   */
  lemma ReplayReturnsOriginal(db: Db, c: Command, meanwhile: seq<Command>)
    requires Valid(db) && Exec(db, c).result.Ok?
    ensures var first := Exec(db, c);
            var later := Serial(first.db, meanwhile);
            && Exec(later, c).db.log == later.log
            && (Exec(later, c).result == first.result <==>
                  !(c.PostAdjustment? && c.amount < 0 && Balance(later.log, Available(c.user)) < -c.amount))
  {
    var first := Exec(db, c);
    ExecMeaning(db, c);
    AcceptedArguments(db, c, first);
    RunsKeepTheBook(first.db, meanwhile);
    var later := Serial(first.db, meanwhile);
    FindPrefix(first.db.log, later.log, KeyOf(c));
    ExecMeaning(later, c);
    ReplayOf(later, c, Exec(later, c));
  }

  /** An accepted command is posted under its key, and its arguments were fit to be. */
  lemma AcceptedArguments(db: Db, c: Command, o: Outcome)
    requires Meaning(db, c, o) && o.result.Ok?
    ensures Find(o.db.log, KeyOf(c)) == Some(o.result.value)
    ensures LooksUpFirst(c) || WellFormed(c)
    ensures c.ChargeFee? ==> c.amount > 0
  {
    FindAppend(db.log, PostingOf(c));
  }

  /** A replay is refused only by the balance check of a debit adjustment. */
  lemma ReplayOf(db: Db, c: Command, o: Outcome)
    requires Meaning(db, c, o) && Posted(db.log, KeyOf(c))
    requires (LooksUpFirst(c) || WellFormed(c)) && (c.ChargeFee? ==> c.amount > 0)
    ensures o.db.log == db.log
    ensures o.result == Ok(Find(db.log, KeyOf(c)).value) <==>
              !(c.PostAdjustment? && c.amount < 0 && Balance(db.log, Available(c.user)) < -c.amount)
  {
  }

  /** A replay that is refused: all of a deposit taken back by an adjustment, and the adjustment sent again. */
  lemma RefusedReplay(u: string, name: string, amount: int)
    requires amount > 0
    ensures var c := PostAdjustment(u, Named(name), -amount);
            var db := Serial(EMPTY_DB, [CreditDeposit(u, 0, amount, 0)]);
            Exec(db, c).result.Ok? && Exec(Exec(db, c).db, c).result.Err?
  {
    var deposit, c := CreditDeposit(u, 0, amount, 0), PostAdjustment(u, Named(name), -amount);
    FirstDeposit(u, amount);
    SerialOneMore(EMPTY_DB, [], deposit);
    assert [] + [deposit] == [deposit];
    var db := Exec(EMPTY_DB, deposit).db;
    var o := Exec(db, c);
    ExecMeaning(db, c);
    ExecMeaning(o.db, c);
    SpentTwice(db, c, o, Exec(o.db, c));
  }

  lemma SpentTwice(db: Db, c: Command, o: Outcome, again: Outcome)
    requires Meaning(db, c, o) && Meaning(o.db, c, again) && c.PostAdjustment? && c.amount < 0
    requires Balance(db.log, Available(c.user)) == -c.amount && !Posted(db.log, c.key)
    ensures o.result.Ok? && again.result.Err?
  {
    Moves(db, c, o, Available(c.user));
  }

  /** The run with every command removed whose key was already posted. */
  function WithoutRedeliveries(db: Db, cs: seq<Command>): seq<Command>
    decreases |cs|
  {
    if cs == [] then []
    else
      var rest := WithoutRedeliveries(Exec(db, cs[0]).db, cs[1..]);
      if Posted(db.log, KeyOf(cs[0])) then rest else [cs[0]] + rest
  }

  /** The log after a run depends on the log before it, not on the other tables. */
  lemma ExecLogOnly(db: Db, other: Db, c: Command)
    requires Valid(db) && Valid(other) && db.log == other.log
    ensures Exec(db, c).db.log == Exec(other, c).db.log
    ensures Exec(db, c).result == Exec(other, c).result
  {
    ExecMeaning(db, c);
    ExecMeaning(other, c);
    assert Exec(db, c).result.Err? ==> PlanOf(db, c) == PlanOf(other, c);
  }

  lemma {:induction false} DropRedeliveries(db: Db, slim: Db, cs: seq<Command>)
    requires Valid(db) && Valid(slim) && db.log == slim.log
    ensures Serial(slim, WithoutRedeliveries(db, cs)).log == Serial(db, cs).log
    decreases |cs|
  {
    if cs == [] {
    } else {
      var next := Exec(db, cs[0]).db;
      ExecMeaning(db, cs[0]);
      if Posted(db.log, KeyOf(cs[0])) {
        DropRedeliveries(next, slim, cs[1..]);
      } else {
        ExecLogOnly(db, slim, cs[0]);
        ExecMeaning(slim, cs[0]);
        var rest := WithoutRedeliveries(next, cs[1..]);
        assert ([cs[0]] + rest)[0] == cs[0] && ([cs[0]] + rest)[1..] == rest;
        DropRedeliveries(next, Exec(slim, cs[0]).db, cs[1..]);
      }
    }
  }

  /** At-least-once delivery refines exactly-once: same log, entry for entry. */
  lemma AtLeastOnceIsExactlyOnce(db: Db, cs: seq<Command>)
    requires Valid(db)
    ensures Serial(db, WithoutRedeliveries(db, cs)).log == Serial(db, cs).log
  {
    DropRedeliveries(db, db, cs);
  }

  /** A redelivery slipped in anywhere after its key was posted changes no entry. */
  lemma RedeliveryIsHarmless(db: Db, before: seq<Command>, again: Command, after: seq<Command>)
    requires Valid(db) && Posted(Serial(db, before).log, KeyOf(again))
    ensures Serial(db, before + [again] + after).log == Serial(db, before + after).log
  {
    var mid := Serial(db, before);
    RunsKeepTheBook(db, before);
    SerialConcat(db, before + [again], after);
    SerialConcat(db, before, [again]);
    SerialConcat(db, before, after);
    assert [again][1..] == [];
    assert Serial(mid, [again]) == Exec(mid, again).db;
    ExecMeaning(mid, again);
    SameLogSameRun(Exec(mid, again).db, mid, after);
  }

  lemma {:induction false} SameLogSameRun(db: Db, other: Db, cs: seq<Command>)
    requires Valid(db) && Valid(other) && db.log == other.log
    ensures Serial(db, cs).log == Serial(other, cs).log
    decreases |cs|
  {
    if cs == [] {
    } else {
      ExecLogOnly(db, other, cs[0]);
      ExecMeaning(db, cs[0]);
      ExecMeaning(other, cs[0]);
      SameLogSameRun(Exec(db, cs[0]).db, Exec(other, cs[0]).db, cs[1..]);
    }
  }

  // ------------------------------------------------------------------ Fees

  function SumFees(fees: seq<FeeRow>): int {
    if fees == [] then 0 else SumFees(fees[..|fees| - 1]) + fees[|fees| - 1].amount
  }

  /** Fees that reversed deposits took back out of revenue. */
  function TakenBack(log: Log): int {
    if log == [] then 0
    else
      var p := log[|log| - 1];
      TakenBack(log[..|log| - 1]) + if p.kind.DepositReversed? then -NetOn(p.entries, FeeRevenue) else 0
  }

  predicate FeeTableAgrees(db: Db) {
    Balance(db.log, FeeRevenue) + TakenBack(db.log) == SumFees(db.fees)
  }

  /**
   * A deposit credit or settlement re-entered on a posted key, carrying a fee,
   * when that posting has no fee row: the row is inserted with no money behind
   * it. When the posting has a row, the unique index refuses the second one.
   */
  predicate StrayFee(db: Db, c: Command) {
    && (c.CreditDeposit? || c.SettleAuthorization?)
    && c.fee > 0
    && WellFormed(c)
    && Posted(db.log, KeyOf(c))
    && !HasFeeRow(db.fees, Find(db.log, KeyOf(c)).value)
  }

  lemma SumFeesAppend(fees: seq<FeeRow>, row: FeeRow)
    ensures SumFees(fees + [row]) == SumFees(fees) + row.amount
  {
    assert (fees + [row])[..|fees|] == fees;
  }

  lemma TakenBackAppend(log: Log, p: Posting)
    ensures TakenBack(log + [p]) ==
            TakenBack(log) + if p.kind.DepositReversed? then -NetOn(p.entries, FeeRevenue) else 0
  {
    assert (log + [p])[..|log|] == log;
  }

  lemma ReplayFees(db: Db, c: Command)
    requires Valid(db) && Posted(db.log, KeyOf(c))
    ensures var fees' := Exec(db, c).db.fees;
            fees' == if StrayFee(db, c)
                     then db.fees + [FeeRow(c.user, FeeOf(c).value.0, c.fee, Find(db.log, KeyOf(c)).value)]
                     else db.fees
  {
    EntriesMeaning(c);
  }

  /** A well-formed command moves revenue by its fee row, reversals aside. */
  lemma FeeAmounts(db: Db, c: Command, id: nat)
    requires WellFormed(c)
    ensures SumFees(db.fees + FeeRowsOf(c, id)) - SumFees(db.fees) ==
            if KindOf(c).DepositReversed? then 0 else Delta(c, FeeRevenue)
  {
    match FeeOf(c)
    case None => assert db.fees + FeeRowsOf(c, id) == db.fees;
    case Some((kind, amount)) => SumFeesAppend(db.fees, FeeRow(c.user, kind, amount, id));
  }

  lemma FreshFees(db: Db, c: Command, o: Outcome)
    requires Meaning(db, c, o) && Fresh(db, c, o)
    ensures SumFees(o.db.fees) - SumFees(db.fees) ==
            Balance(o.db.log, FeeRevenue) - Balance(db.log, FeeRevenue) + TakenBack(o.db.log) - TakenBack(db.log)
  {
    Moves(db, c, o, FeeRevenue);
    TakenBackAppend(db.log, PostingOf(c));
    FeeAmounts(db, c, o.result.value);
  }

  /** The fee table and the revenue account stay in step under exactly the commands that are not stray. */
  lemma FeeTableStep(db: Db, c: Command)
    requires Valid(db) && FeeTableAgrees(db)
    ensures FeeTableAgrees(Exec(db, c).db) <==> !StrayFee(db, c)
  {
    ExecMeaning(db, c);
    var o := Exec(db, c);
    if Posted(db.log, KeyOf(c)) {
      ReplayFees(db, c);
      if StrayFee(db, c) {
        SumFeesAppend(db.fees, FeeRow(c.user, FeeOf(c).value.0, c.fee, Find(db.log, KeyOf(c)).value));
      }
    } else if o.result.Ok? {
      FreshFees(db, c, o);
    }
  }

  /** The commands of a run that would insert a stray fee row when their turn comes. */
  predicate NeverStray(db: Db, cs: seq<Command>)
    decreases |cs|
  {
    cs == [] || (!StrayFee(db, cs[0]) && NeverStray(Exec(db, cs[0]).db, cs[1..]))
  }

  /** The fee table and the revenue account agree at every state of a run. */
  predicate FeesAgreeThroughout(db: Db, cs: seq<Command>)
    decreases |cs|
  {
    FeeTableAgrees(db) && (cs == [] || FeesAgreeThroughout(Exec(db, cs[0]).db, cs[1..]))
  }

  /** They agree throughout exactly the runs without a stray fee. */
  lemma {:induction false} FeesAgreeIffNeverStray(db: Db, cs: seq<Command>)
    requires Valid(db) && FeeTableAgrees(db)
    ensures FeesAgreeThroughout(db, cs) <==> NeverStray(db, cs)
    decreases |cs|
  {
    if cs == [] {
    } else {
      var db' := Exec(db, cs[0]).db;
      ExecMeaning(db, cs[0]);
      FeeTableStep(db, cs[0]);
      if StrayFee(db, cs[0]) {
        assert !FeesAgreeThroughout(db', cs[1..]);
      } else {
        FeesAgreeIffNeverStray(db', cs[1..]);
      }
    }
  }

  lemma FreeCredit(db: Db, free: Command, o: Outcome)
    requires free.CreditDeposit? && free.fee == 0 && free.amount > 0 && Meaning(db, free, o)
    requires db.log == [] && db.fees == []
    ensures Find(o.db.log, KeyOf(free)) == Some(0) && o.db.fees == []
  {
    assert !Posted(db.log, KeyOf(free)) && WellFormed(free);
    assert o.db.log == db.log + [PostingOf(free)];
    assert FeeRowsOf(free, 0) == [];
    FindAppend(db.log, PostingOf(free));
  }

  /** A stray fee: a deposit credited free of charge and credited again once there is a fee. */
  lemma StrayFeeExists(u: string, amount: int, fee: int)
    requires 0 < fee < amount
    ensures var free, charged := CreditDeposit(u, 0, amount, 0), CreditDeposit(u, 0, amount, fee);
            && StrayFee(Serial(EMPTY_DB, [free]), charged)
            && !FeesAgreeThroughout(EMPTY_DB, [free, charged])
  {
    var free, charged := CreditDeposit(u, 0, amount, 0), CreditDeposit(u, 0, amount, fee);
    ExecMeaning(EMPTY_DB, free);
    FreeCredit(EMPTY_DB, free, Exec(EMPTY_DB, free));
    SerialOneMore(EMPTY_DB, [], free);
    assert [] + [free] == [free] && [free, charged][1..] == [charged];
    StraySoon(free, charged);
  }

  lemma StraySoon(free: Command, charged: Command)
    requires StrayFee(Exec(EMPTY_DB, free).db, charged)
    ensures !FeesAgreeThroughout(EMPTY_DB, [free, charged])
  {
    assert [free, charged][1..] == [charged];
    assert !NeverStray(Exec(EMPTY_DB, free).db, [charged]);
    FeesAgreeIffNeverStray(EMPTY_DB, [free, charged]);
  }

  /** Every posting that collected a fee has its row. */
  ghost predicate FeesRecorded(db: Db) {
    forall i | 0 <= i < |db.log| ::
      NetOn(db.log[i].entries, FeeRevenue) > 0 ==> HasFeeRow(db.fees, i)
  }

  lemma FeeRowKept(fees: seq<FeeRow>, more: seq<FeeRow>, id: nat)
    requires fees <= more && HasFeeRow(fees, id)
    ensures HasFeeRow(more, id)
  {
    var k :| 0 <= k < |fees| && fees[k].posting == id;
    assert more[k].posting == id;
  }

  lemma FeeRowAdded(fees: seq<FeeRow>, c: Command, id: nat)
    requires WellFormed(c) && Delta(c, FeeRevenue) > 0
    ensures HasFeeRow(fees + FeeRowsOf(c, id), id)
  {
    assert (fees + FeeRowsOf(c, id))[|fees|].posting == id;
  }

  lemma FreshFeesRecorded(db: Db, c: Command, o: Outcome)
    requires FeesRecorded(db) && db.fees <= o.db.fees
    requires Meaning(db, c, o)
    ensures FeesRecorded(o.db)
  {
    Moves(db, c, o, FeeRevenue);
    if Fresh(db, c, o) && Delta(c, FeeRevenue) > 0 {
      FeeRowAdded(db.fees, c, |db.log|);
    }
    forall i | 0 <= i < |db.log| && NetOn(db.log[i].entries, FeeRevenue) > 0
      ensures HasFeeRow(o.db.fees, i)
    {
      FeeRowKept(db.fees, o.db.fees, i);
    }
  }

  lemma FeesStayRecorded(db: Db, c: Command)
    requires Valid(db) && FeesRecorded(db)
    ensures FeesRecorded(Exec(db, c).db)
  {
    ExecMeaning(db, c);
    if Posted(db.log, KeyOf(c)) { ReplayFees(db, c); }
    FreshFeesRecorded(db, c, Exec(db, c));
  }

  lemma FeeIsCollected(c: Command)
    requires (c.CreditDeposit? || c.SettleAuthorization?) && WellFormed(c) && c.fee > 0
    ensures NetOn(PostingOf(c).entries, FeeRevenue) == c.fee
  {
    EntriesOn(c, FeeRevenue);
  }

  /**
   * So redelivering the very command that was posted is never stray. Only a
   * fee that was zero when the money moved and is not zero now can be.
   */
  lemma StrayOnlyWhenTheFeeAppeared(db: Db, c: Command)
    requires Valid(db) && FeesRecorded(db) && StrayFee(db, c)
    ensures var posted := db.log[Find(db.log, KeyOf(c)).value];
            NetOn(posted.entries, FeeRevenue) <= 0 && posted != PostingOf(c)
  {
    FeeIsCollected(c);
  }

  // ------------------------------------------------------------- Overdraft

  /** Debits of available that no balance check guards: over-captures and reversals. */
  function Unguarded(log: Log, u: string): int {
    if log == [] then 0 else Unguarded(log[..|log| - 1], u) + UnguardedIn(log[|log| - 1], u)
  }

  function UnguardedIn(p: Posting, u: string): int {
    var moved := NetOn(p.entries, Available(u));
    if (p.kind.Settled? || p.kind.DepositReversed?) && moved < 0 then -moved else 0
  }

  lemma UnguardedAppend(log: Log, p: Posting, u: string)
    ensures Unguarded(log + [p], u) == Unguarded(log, u) + UnguardedIn(p, u)
  {
    assert (log + [p])[..|log|] == log;
  }

  predicate Solvent(db: Db, u: string) {
    Balance(db.log, Available(u)) + Unguarded(db.log, u) >= 0
  }

  /** What a posting debits unguarded, by its command. */
  lemma UnguardedBy(c: Command, u: string)
    requires WellFormed(c)
    ensures var moved := Delta(c, Available(u));
            UnguardedIn(PostingOf(c), u) == if Unchecked(c) && moved < 0 then -moved else 0
  {
    EntriesOn(c, Available(u));
  }

  /** A checked command debits a user's available by what it requires of it, if at all. */
  lemma CheckedDebits(c: Command, u: string)
    requires WellFormed(c) && !Unchecked(c)
    ensures Delta(c, Available(u)) >= 0 || (c.user == u && Required(c) == Some(-Delta(c, Available(u))))
  {
  }

  lemma GuardedDebits(c: Command, u: string)
    requires WellFormed(c) && Guarded(c) && Unchecked(c)
    ensures Delta(c, Available(u)) >= 0
  {
  }

  /** A debit of available is either fully unguarded, or exactly what was checked for. */
  lemma DebitsAreGuardedOrCounted(c: Command, u: string)
    requires WellFormed(c)
    ensures UnguardedIn(PostingOf(c), u) >= 0
    ensures Delta(c, Available(u)) + UnguardedIn(PostingOf(c), u) >= 0 ||
            (c.user == u && Required(c) == Some(-Delta(c, Available(u))))
    ensures Guarded(c) ==> Delta(c, Available(u)) >= 0 || (c.user == u && Required(c) == Some(-Delta(c, Available(u))))
  {
    UnguardedBy(c, u);
    if !Unchecked(c) {
      CheckedDebits(c, u);
    } else if Guarded(c) {
      GuardedDebits(c, u);
    }
  }

  lemma SolventStep(db: Db, c: Command, o: Outcome, u: string)
    requires Meaning(db, c, o) && Solvent(db, u) && Unguarded(db.log, u) >= 0
    ensures Solvent(o.db, u)
  {
    Moves(db, c, o, Available(u));
    if Fresh(db, c, o) {
      DebitsAreGuardedOrCounted(c, u);
      UnguardedAppend(db.log, PostingOf(c), u);
    }
  }

  lemma {:induction false} UnguardedNonNegative(log: Log, u: string)
    ensures Unguarded(log, u) >= 0
  {
    if log == [] {
    } else {
      UnguardedNonNegative(log[..|log| - 1], u);
    }
  }

  /** I5, as the code really keeps it: available never falls below minus the unguarded debits. */
  lemma {:induction false} RunsStaySolvent(db: Db, cs: seq<Command>, u: string)
    requires Valid(db) && Solvent(db, u)
    ensures Solvent(Serial(db, cs), u)
    decreases |cs|
  {
    if cs == [] {
    } else {
      ExecMeaning(db, cs[0]);
      UnguardedNonNegative(db.log, u);
      SolventStep(db, cs[0], Exec(db, cs[0]), u);
      RunsStaySolvent(Exec(db, cs[0]).db, cs[1..], u);
    }
  }

  /** Commands that cannot debit a user's available balance unguarded. */
  predicate Guarded(c: Command) {
    && !c.ReverseDeposit?
    && (c.SettleAuthorization? ==> c.settled + c.fee <= c.held)
  }

  lemma GuardedStep(db: Db, c: Command, o: Outcome, u: string)
    requires Meaning(db, c, o) && Guarded(c) && Balance(db.log, Available(u)) >= 0
    ensures Balance(o.db.log, Available(u)) >= 0
  {
    Moves(db, c, o, Available(u));
    if Fresh(db, c, o) {
      DebitsAreGuardedOrCounted(c, u);
    }
  }

  /** With no over-capture and no reversal, available itself never goes negative. */
  lemma {:induction false} GuardedRunsNeverOverdraw(db: Db, cs: seq<Command>, u: string)
    requires Valid(db) && Balance(db.log, Available(u)) >= 0
    requires forall i | 0 <= i < |cs| :: Guarded(cs[i])
    ensures Balance(Serial(db, cs).log, Available(u)) >= 0
    decreases |cs|
  {
    if cs == [] {
    } else {
      ExecMeaning(db, cs[0]);
      GuardedStep(db, cs[0], Exec(db, cs[0]), u);
      GuardedRunsNeverOverdraw(Exec(db, cs[0]).db, cs[1..], u);
    }
  }

  /**
   * What takes a user below zero, said before the command runs: a settlement
   * whose capture and fee exceed its hold by more than is available, or a
   * reversal of more than is available.
   */
  predicate Overdraws(db: Db, c: Command, u: string) {
    && c.user == u && WellFormed(c) && !Posted(db.log, KeyOf(c))
    && ((c.SettleAuthorization? && c.settled + c.fee - c.held > Balance(db.log, Available(u))) ||
        (c.ReverseDeposit? && c.amount - c.fee > Balance(db.log, Available(u))))
  }

  /** The two movements that debit available without looking at it. */
  predicate Unchecked(c: Command) {
    c.SettleAuthorization? || c.ReverseDeposit?
  }

  lemma CheckedStep(db: Db, c: Command, o: Outcome, u: string)
    requires Meaning(db, c, o) && !Unchecked(c) && Balance(db.log, Available(u)) >= 0
    ensures Balance(o.db.log, Available(u)) >= 0
  {
    assert Guarded(c);
    GuardedStep(db, c, o, u);
  }

  lemma UncheckedStep(db: Db, c: Command, o: Outcome, u: string)
    requires Meaning(db, c, o) && Unchecked(c)
    ensures Fresh(db, c, o) <==> WellFormed(c) && !Posted(db.log, KeyOf(c))
    ensures Fresh(db, c, o) ==>
              Balance(o.db.log, Available(u)) == Balance(db.log, Available(u)) + Delta(c, Available(u))
    ensures !Fresh(db, c, o) ==> o.db.log == db.log
  {
    Moves(db, c, o, Available(u));
  }

  lemma OverdrawStep(db: Db, c: Command, o: Outcome, u: string)
    requires Meaning(db, c, o) && Balance(db.log, Available(u)) >= 0
    ensures Balance(o.db.log, Available(u)) >= 0 <==> !Overdraws(db, c, u)
  {
    if Unchecked(c) {
      UncheckedStep(db, c, o, u);
    } else {
      CheckedStep(db, c, o, u);
    }
  }

  /** I5 for one command: available stays at or above zero exactly when the command does not overdraw. */
  lemma OverdrawIff(db: Db, c: Command, u: string)
    requires Valid(db) && Balance(db.log, Available(u)) >= 0
    ensures Balance(Exec(db, c).db.log, Available(u)) >= 0 <==> !Overdraws(db, c, u)
  {
    ExecMeaning(db, c);
    OverdrawStep(db, c, Exec(db, c), u);
  }

  /** No command of a run overdraws a user when its turn comes. */
  predicate NeverOverdraws(db: Db, cs: seq<Command>, u: string)
    decreases |cs|
  {
    cs == [] || (!Overdraws(db, cs[0], u) && NeverOverdraws(Exec(db, cs[0]).db, cs[1..], u))
  }

  /** I5 at every state of a run. */
  predicate CoveredThroughout(db: Db, cs: seq<Command>, u: string)
    decreases |cs|
  {
    Balance(db.log, Available(u)) >= 0 && (cs == [] || CoveredThroughout(Exec(db, cs[0]).db, cs[1..], u))
  }

  /** I5 holds throughout exactly the runs in which no command overdraws. */
  lemma {:induction false} CoveredIffNeverOverdraws(db: Db, cs: seq<Command>, u: string)
    requires Valid(db) && Balance(db.log, Available(u)) >= 0
    ensures CoveredThroughout(db, cs, u) <==> NeverOverdraws(db, cs, u)
    decreases |cs|
  {
    if cs == [] {
    } else {
      var db' := Exec(db, cs[0]).db;
      ExecMeaning(db, cs[0]);
      OverdrawIff(db, cs[0], u);
      if Overdraws(db, cs[0], u) {
        assert !CoveredThroughout(db', cs[1..], u);
      } else {
        CoveredIffNeverOverdraws(db', cs[1..], u);
      }
    }
  }

  /** A first deposit of a user on an empty ledger. */
  lemma FirstDeposit(u: string, amount: int)
    requires amount > 0
    ensures var o := Exec(EMPTY_DB, CreditDeposit(u, 0, amount, 0));
            && Valid(o.db) && o.result.Ok?
            && Balance(o.db.log, Available(u)) == amount && Balance(o.db.log, Held(u)) == 0
            && (forall k :: Posted(o.db.log, k) <==> k == Confirm(0))
  {
    var c := CreditDeposit(u, 0, amount, 0);
    var o := Exec(EMPTY_DB, c);
    ExecMeaning(EMPTY_DB, c);
    Moves(EMPTY_DB, c, o, Available(u));
    Moves(EMPTY_DB, c, o, Held(u));
    FindAppend([], PostingOf(c));
  }

  /** A hold of all that is available. */
  lemma HoldAll(db: Db, u: string, hold: Key, o: Outcome)
    requires Valid(db) && Balance(db.log, Available(u)) > 0 && !Posted(db.log, hold)
    requires var c := PlaceHold(u, hold, Balance(db.log, Available(u))); Meaning(db, c, o)
    ensures o.result.Ok? && Balance(o.db.log, Available(u)) == 0
    ensures forall k :: Posted(o.db.log, k) <==> Posted(db.log, k) || k == hold
  {
    var c := PlaceHold(u, hold, Balance(db.log, Available(u)));
    Moves(db, c, o, Available(u));
    FindAppend(db.log, PostingOf(c));
  }

  /** A deposit that is held to the last unit: nothing is available. */
  lemma AllHeld(u: string, amount: int, hold: Key)
    requires amount > 0 && hold != Confirm(0)
    ensures var db := Serial(EMPTY_DB, [CreditDeposit(u, 0, amount, 0), PlaceHold(u, hold, amount)]);
            && Valid(db)
            && Balance(db.log, Available(u)) == 0
            && (forall k :: Posted(db.log, k) <==> k == Confirm(0) || k == hold)
  {
    var c, h := CreditDeposit(u, 0, amount, 0), PlaceHold(u, hold, amount);
    var db := Exec(EMPTY_DB, c).db;
    FirstDeposit(u, amount);
    ExecMeaning(db, h);
    HoldAll(db, u, hold, Exec(db, h));
    SerialOneMore(EMPTY_DB, [c], h);
    SerialOneMore(EMPTY_DB, [], c);
    assert [] + [c] == [c] && [c] + [h] == [c, h];
  }

  /** One command more than a run. */
  lemma SerialOneMore(db: Db, cs: seq<Command>, c: Command)
    ensures Serial(db, cs + [c]) == Exec(Serial(db, cs), c).db
  {
    SerialConcat(db, cs, [c]);
    assert [c][1..] == [];
  }

  lemma TakenUnchecked(db: Db, c: Command, u: string)
    requires Valid(db) && Unchecked(c) && WellFormed(c) && !Posted(db.log, KeyOf(c))
    ensures Balance(Exec(db, c).db.log, Available(u)) == Balance(db.log, Available(u)) + Delta(c, Available(u))
  {
    ExecMeaning(db, c);
    UncheckedStep(db, c, Exec(db, c), u);
  }

  /** I5 fails by over-capture: deposit, hold it all, capture more. */
  lemma OverCaptureOverdraws(u: string, token: string, amount: int, captured: int)
    requires 0 < amount < captured
    ensures var before := [CreditDeposit(u, 0, amount, 0), PlaceHold(u, Auth(token), amount)];
            var c := SettleAuthorization(u, Settle(token), amount, captured, 0);
            && Overdraws(Serial(EMPTY_DB, before), c, u)
            && Balance(Serial(EMPTY_DB, before + [c]).log, Available(u)) == amount - captured < 0
  {
    var before := [CreditDeposit(u, 0, amount, 0), PlaceHold(u, Auth(token), amount)];
    var c := SettleAuthorization(u, Settle(token), amount, captured, 0);
    AllHeld(u, amount, Auth(token));
    TakenUnchecked(Serial(EMPTY_DB, before), c, u);
    SerialOneMore(EMPTY_DB, before, c);
  }

  /** I5 fails by reversal: deposit, hold it all, and the deposit leaves the chain. */
  lemma ReversalOverdraws(u: string, token: string, amount: int)
    requires amount > 0
    ensures var before := [CreditDeposit(u, 0, amount, 0), PlaceHold(u, Auth(token), amount)];
            var c := ReverseDeposit(u, 0, amount, 0);
            && Overdraws(Serial(EMPTY_DB, before), c, u)
            && Balance(Serial(EMPTY_DB, before + [c]).log, Available(u)) == -amount < 0
  {
    var before := [CreditDeposit(u, 0, amount, 0), PlaceHold(u, Auth(token), amount)];
    var c := ReverseDeposit(u, 0, amount, 0);
    AllHeld(u, amount, Auth(token));
    TakenUnchecked(Serial(EMPTY_DB, before), c, u);
    SerialOneMore(EMPTY_DB, before, c);
  }

  /** All that holds have reserved for a user, released or not. */
  function HoldsPlaced(log: Log, u: string): int {
    if log == [] then 0
    else
      var p := log[|log| - 1];
      HoldsPlaced(log[..|log| - 1], u) + if p.kind.Authorization? then NetOn(p.entries, Held(u)) else 0
  }

  lemma HoldsPlacedAppend(log: Log, p: Posting, u: string)
    ensures HoldsPlaced(log + [p], u) ==
            HoldsPlaced(log, u) + if p.kind.Authorization? then NetOn(p.entries, Held(u)) else 0
  {
    assert (log + [p])[..|log|] == log;
  }

  /** A fresh hold adds its amount to what its user has had held; nothing else changes that. */
  lemma HoldsPlacedBy(db: Db, c: Command, u: string)
    requires Valid(db)
    ensures HoldsPlaced(Exec(db, c).db.log, u) == HoldsPlaced(db.log, u) +
            if c.PlaceHold? && c.user == u && Exec(db, c).result.Ok? && !Posted(db.log, c.key) then c.amount else 0
  {
    ExecMeaning(db, c);
    var o := Exec(db, c);
    Moves(db, c, o, Held(u));
    if Fresh(db, c, o) {
      FreshRecord(db, c);
      HoldsPlacedAppend(db.log, PostingOf(c), u);
    }
  }

  /** The holds of a run that were approved for a user, by what they asked for. */
  function HoldsApproved(db: Db, cs: seq<Command>, u: string): int
    decreases |cs|
  {
    if cs == [] then 0
    else
      var Outcome(db', r) := Exec(db, cs[0]);
      (if cs[0].PlaceHold? && cs[0].user == u && r.Ok? && !Posted(db.log, cs[0].key) then cs[0].amount else 0) +
      HoldsApproved(db', cs[1..], u)
  }

  /** What a run adds to the holds on record is what it approved. */
  lemma {:induction false} HoldsPlacedAreApproved(db: Db, cs: seq<Command>, u: string)
    requires Valid(db)
    ensures HoldsPlaced(Serial(db, cs).log, u) == HoldsPlaced(db.log, u) + HoldsApproved(db, cs, u)
    decreases |cs|
  {
    if cs == [] {
    } else {
      ExecMeaning(db, cs[0]);
      HoldsPlacedBy(db, cs[0], u);
      HoldsPlacedAreApproved(Exec(db, cs[0]).db, cs[1..], u);
    }
  }

  /** Holds, fee charges and debit adjustments: everything that spends, nothing that credits. */
  predicate OnlySpends(c: Command) {
    c.PlaceHold? || c.ChargeFee? || (c.PostAdjustment? && c.amount < 0)
  }

  lemma SpendStep(db: Db, c: Command, o: Outcome, u: string)
    requires Meaning(db, c, o) && OnlySpends(c) && Balance(db.log, Available(u)) >= 0
    ensures Balance(o.db.log, Available(u)) >= 0
    ensures HoldsPlaced(o.db.log, u) - HoldsPlaced(db.log, u) <=
            Balance(db.log, Available(u)) - Balance(o.db.log, Available(u))
  {
    Moves(db, c, o, Available(u));
    Moves(db, c, o, Held(u));
    if Fresh(db, c, o) {
      HoldsPlacedAppend(db.log, PostingOf(c), u);
    }
  }

  lemma {:induction false} HoldsFit(db: Db, cs: seq<Command>, u: string)
    requires Valid(db) && Balance(db.log, Available(u)) >= 0
    requires forall i | 0 <= i < |cs| :: OnlySpends(cs[i])
    ensures var db' := Serial(db, cs);
            && Balance(db'.log, Available(u)) >= 0
            && HoldsPlaced(db'.log, u) - HoldsPlaced(db.log, u) <=
               Balance(db.log, Available(u)) - Balance(db'.log, Available(u))
    decreases |cs|
  {
    if cs == [] {
    } else {
      ExecMeaning(db, cs[0]);
      SpendStep(db, cs[0], Exec(db, cs[0]), u);
      HoldsFit(Exec(db, cs[0]).db, cs[1..], u);
    }
  }

  /**
   * One balance, many cards: however many cards place holds, and whatever fees
   * are charged between them, the approved holds fit in the starting pool, and
   * they are the holds the log has on record.
   */
  lemma HoldsFitThePool(db: Db, cs: seq<Command>, u: string)
    requires Valid(db) && Balance(db.log, Available(u)) >= 0
    requires forall i | 0 <= i < |cs| :: OnlySpends(cs[i])
    ensures var db' := Serial(db, cs);
            && Balance(db'.log, Available(u)) >= 0
            && HoldsApproved(db, cs, u) <= Balance(db.log, Available(u)) - Balance(db'.log, Available(u))
            && HoldsApproved(db, cs, u) == HoldsPlaced(db'.log, u) - HoldsPlaced(db.log, u)
  {
    HoldsFit(db, cs, u);
    HoldsPlacedAreApproved(db, cs, u);
  }

  // ------------------------------------------------------- Hold then settle

  function Total(log: Log, u: string): int {
    Balance(log, Available(u)) + Balance(log, Held(u))
  }

  lemma HoldEffect(db: Db, c: Command, o: Outcome)
    requires c.PlaceHold? && Meaning(db, c, o) && o.result.Ok? && !Posted(db.log, c.key)
    ensures Total(o.db.log, c.user) == Total(db.log, c.user)
    ensures Balance(o.db.log, Held(c.user)) == Balance(db.log, Held(c.user)) + c.amount
  {
    Moves(db, c, o, Available(c.user));
    Moves(db, c, o, Held(c.user));
  }

  lemma SettlementPosts(db: Db, c: Command, o: Outcome)
    requires c.SettleAuthorization? && Meaning(db, c, o) && WellFormed(c) && !Posted(db.log, c.key)
    ensures Fresh(db, c, o) && Balanced(o.db.log[o.result.value].entries)
  {
    EntriesOn(c, FeeRevenue);
  }

  lemma SettleEffect(db: Db, c: Command, o: Outcome)
    requires c.SettleAuthorization? && Meaning(db, c, o) && Fresh(db, c, o)
    ensures Total(o.db.log, c.user) == Total(db.log, c.user) - c.settled - c.fee
    ensures Balance(o.db.log, Held(c.user)) == Balance(db.log, Held(c.user)) - c.held
    ensures Balance(o.db.log, CardSettlement) == Balance(db.log, CardSettlement) + c.settled
    ensures Balance(o.db.log, FeeRevenue) == Balance(db.log, FeeRevenue) + c.fee
    ensures Balance(o.db.log, Available(c.user)) >= Balance(db.log, Available(c.user)) <==> c.settled + c.fee <= c.held
  {
    Moves(db, c, o, Available(c.user));
    Moves(db, c, o, Held(c.user));
    Moves(db, c, o, CardSettlement);
    Moves(db, c, o, FeeRevenue);
  }

  /**
   * A hold of the spend and its fee, later settled for whatever was captured:
   * the user's total falls by the capture plus the fee stored with the hold,
   * held returns to where it was, and available is debited again only when the
   * capture exceeds the authorized spend.
   */
  lemma HoldThenSettle(db: Db, u: string, hold: Key, settle: Key, spend: int, fee: int, captured: int,
                       meanwhile: seq<Command>)
    requires Valid(db) && spend + fee > 0 && fee >= 0 && captured >= 0
    requires !Posted(db.log, hold)
    requires Exec(db, PlaceHold(u, hold, spend + fee)).result.Ok?
    requires !Posted(Serial(Exec(db, PlaceHold(u, hold, spend + fee)).db, meanwhile).log, settle)
    ensures var held := Exec(db, PlaceHold(u, hold, spend + fee)).db;
            var before := Serial(held, meanwhile);
            var Outcome(after, r) := Exec(before, SettleAuthorization(u, settle, spend + fee, captured, fee));
            && r.Ok?
            && Balanced(after.log[r.value].entries)
            && Total(held.log, u) == Total(db.log, u)
            && Total(after.log, u) == Total(before.log, u) - captured - fee
            && Balance(held.log, Held(u)) - Balance(db.log, Held(u)) ==
               Balance(before.log, Held(u)) - Balance(after.log, Held(u))
            && Balance(after.log, CardSettlement) == Balance(before.log, CardSettlement) + captured
            && Balance(after.log, FeeRevenue) == Balance(before.log, FeeRevenue) + fee
            && (Balance(after.log, Available(u)) >= Balance(before.log, Available(u)) <==> captured <= spend)
  {
    var c := PlaceHold(u, hold, spend + fee);
    ExecMeaning(db, c);
    HoldEffect(db, c, Exec(db, c));
    RunsKeepTheBook(Exec(db, c).db, meanwhile);
    var before := Serial(Exec(db, c).db, meanwhile);
    var s := SettleAuthorization(u, settle, spend + fee, captured, fee);
    ExecMeaning(before, s);
    SettlementPosts(before, s, Exec(before, s));
    SettleEffect(before, s, Exec(before, s));
  }
}
