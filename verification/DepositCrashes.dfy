/**
 * What becomes of a deposit whose step died between the ledger posting and the
 * row update: a credit retried, a credit whose transaction vanishes, a reversal
 * retried, and a reversal whose transaction comes back. Any steps that find
 * nothing to do on the row may run in between.
 */
module DepositCrashes {
  import opened Wrappers
  import opened Postings
  import opened Commands
  import opened Fees
  import opened Deposits
  import opened DepositRuns
  import opened DepositOnce
  import opened DepositMeanwhile
  import LedgerRuns

  // ------------------------------------------------------- A credit half done

  /** The row as it would stand had the update followed. */
  function Done(db: Db, id: nat, row: DepositRow): DepositRow {
    row.(status := Confirmed, posting := Find(db.log, Confirm(id)))
  }

  /** A deposit posted with one fee, and a fee row linked to it for another. */
  predicate Holds(db: Db, id: nat, row: DepositRow, first: int, fee: int) {
    && CreditOf(db, id).Some?
    && CreditOf(db, id).value.entries == EntriesOf(CreditDeposit(row.user, id, row.amount, first))
    && CreditOf(db, id).value.fee == fee
    && (CreditOf(db, id).value.hasFeeRow <==> fee > 0)
    && !Posted(db.log, Reverse(id))
    && 0 <= first < row.amount && 0 <= fee < row.amount
  }

  /** A fresh credit's fee row is there exactly when it charged a fee. */
  lemma CreditFeeRow(db: Db, c: Command, o: Outcome)
    requires Valid(db) && Meaning(db, c, o) && c.CreditDeposit? && !Posted(db.log, KeyOf(c)) && o.result.Ok?
    ensures HasFeeRow(o.db.fees, o.result.value) <==> c.fee > 0
  {
    assert !HasFeeRow(db.fees, |db.log|);
    if c.fee > 0 {
      assert o.db.fees[|db.fees|].posting == |db.log|;
    } else {
      assert o.db.fees == db.fees;
    }
  }

  /** A crediting step that died after the posting: the row is as it was, the money is not. */
  lemma HalfCredited(b: Book, id: nat, env: Env)
    requires Inv(b) && id < |b.deposits| && DiesCrediting(b.deposits[id], env)
    ensures var mid := Advance(b, id, env).0;
            var row := b.deposits[id];
            var first := DepositFee(env.rates, row.amount);
            && mid.deposits == b.deposits && row.posting.None?
            && Valid(mid.db)
            && Holds(mid.db, id, row, first, first)
            && RowInv(mid.db, id, Done(mid.db, id, row))
            && (forall j | 0 <= j < |b.deposits| && j != id :: RowInv(mid.db, j, b.deposits[j]))
            && !MoneyMatches(mid.db.log, id, row)
  {
    var row := b.deposits[id];
    var c := CreditCommand(row, id, env.rates);
    var o := Exec(b.db, c);
    AdvanceDies(b, id, env);
    CreditGoesThrough(b.db, row, id, env.rates);
    ExecMeaning(b.db, c);
    CreditedRow(b.db, id, row, c, o, row.confirmedAt);
    DepositCommandFresh(b.db, c, o);
    CreditFeeFound(b.db, c, o);
    CreditFeeRow(b.db, c, o);
    ExecFeesUnderKey(b.db, c);
    forall j | 0 <= j < |b.deposits| && j != id ensures RowInv(o.db, j, b.deposits[j]) {
      OtherKeyKeepsRow(b.db, c, o, j, b.deposits[j]);
    }
  }

  /** ... and still is after steps that find nothing to do on it. */
  lemma HalfCreditedStill(b: Book, id: nat, env: Env, meanwhile: seq<DepositStep>)
    requires Inv(b) && OneRowEach(b.deposits) && id < |b.deposits| && DiesCrediting(b.deposits[id], env)
    requires AllSpare(b.deposits[id], meanwhile, id)
    ensures var mid := Run(Advance(b, id, env).0, meanwhile);
            var row := b.deposits[id];
            var first := DepositFee(env.rates, row.amount);
            && Valid(mid.db) && OneRowEach(mid.deposits) && id < |mid.deposits|
            && SameRow(row, mid.deposits[id])
            && Holds(mid.db, id, row, first, first)
  {
    HalfCredited(b, id, env);
    RunSpares(Advance(b, id, env).0, id, meanwhile);
  }

  /** A retry that charges a fee where the credit charged none. */
  predicate StrayRetry(first: int, now: int) {
    first == 0 && now > 0
  }

  lemma CreditReplay(db: Db, c: Command, posting: nat)
    requires Valid(db) && c.CreditDeposit? && c.fee <= c.amount && Find(db.log, KeyOf(c)) == Some(posting)
    requires if c.amount >= 0 then c.fee >= 0 else c.fee == c.amount
    ensures var o := Exec(db, c);
            && Valid(o.db)
            && o.db.log == db.log
            && (o.result == Ok(posting) <==> c.fee < c.amount)
            && (o.result.Err? <==> c.fee == c.amount)
            && (o.result.Err? ==> o.db == db)
            && o.db.fees == if 0 < c.fee < c.amount && !HasFeeRow(db.fees, posting)
                            then db.fees + [FeeRow(c.user, OnDeposit, c.fee, posting)] else db.fees
  {
    ExecMeaning(db, c);
    LedgerRuns.ReplayFees(db, c);
  }

  /** A deposit due for crediting that the ledger has credited already. */
  ghost predicate Unfinished(b: Book, id: nat, first: int) {
    && Valid(b.db) && id < |b.deposits|
    && IsPending(b.deposits[id]) && b.deposits[id].posting.None?
    && Holds(b.db, id, b.deposits[id], first, first)
  }

  /** A reading that brings a pending row to crediting, and a process that lives. */
  predicate Deepened(row: DepositRow, env: Env) {
    env.reading.Depth? && env.reading.n >= row.required && !env.crashes
  }

  lemma AdvanceAtDepth(b: Book, id: nat, env: Env)
    requires id < |b.deposits| && IsPending(b.deposits[id]) && b.deposits[id].posting.None?
    requires Deepened(b.deposits[id], env)
    ensures var o := Exec(b.db, CreditCommand(b.deposits[id], id, env.rates));
            Advance(b, id, env) ==
            match o.result
            case Err(e) => (b, Threw(e))
            case Ok(p) =>
              (WithRow(b.(db := o.db), id,
                       b.deposits[id].(status := Confirmed, confirmedAt := env.now, posting := Some(p))), Finished)
  {
  }

  /** Crediting it again: no second posting, and a fee row only if it is a stray one. */
  lemma RetryPosted(b: Book, id: nat, env: Env, first: int)
    requires Unfinished(b, id, first) && Deepened(b.deposits[id], env)
    ensures var (after, ending) := Advance(b, id, env);
            var row := b.deposits[id];
            var now := DepositFee(env.rates, row.amount);
            && Valid(after.db) && after.db.log == b.db.log
            && (ending.Finished? <==> now < row.amount)
            && (!ending.Finished? ==> after == b)
            && (ending.Finished? ==>
                  && after.deposits == b.deposits[id := Done(b.db, id, row).(confirmedAt := env.now)]
                  && Holds(after.db, id, row, first, if StrayRetry(first, now) then now else first))
  {
    var row, p := b.deposits[id], Find(b.db.log, Confirm(id)).value;
    var c := CreditCommand(row, id, env.rates);
    DepositFeeAtMost(env.rates, row.amount);
    CreditReplay(b.db, c, p);
    AdvanceAtDepth(b, id, env);
    if !HasFeeRow(b.db.fees, p) {
      StrayRow(b.db.fees, FeeRow(c.user, OnDeposit, c.fee, p), p);
    }
  }

  lemma StrayRow(fees: seq<FeeRow>, added: FeeRow, posting: nat)
    requires !HasFeeRow(fees, posting) && added.posting == posting
    ensures HasFeeRow(fees + [added], posting) && FeeFor(fees + [added], posting) == added.amount
  {
    NoRowNoFee(fees, posting);
    assert (fees + [added])[|fees|].posting == posting;
  }

  /**
   * The next time it is read deep enough, the posting is found, none is added,
   * and the row is completed exactly when the fee then in force is below the
   * amount. The money is then right; the row is sound - what a later reversal
   * needs - exactly when the retry charges no fee that the credit did not.
   */
  lemma RetryAfterHalf(b: Book, id: nat, env: Env, meanwhile: seq<DepositStep>, env': Env)
    requires Inv(b) && OneRowEach(b.deposits) && id < |b.deposits| && DiesCrediting(b.deposits[id], env)
    requires AllSpare(b.deposits[id], meanwhile, id) && Deepened(b.deposits[id], env')
    ensures var mid := Run(Advance(b, id, env).0, meanwhile);
            && id < |mid.deposits|
            && var (after, ending) := Advance(mid, id, env');
            var row := b.deposits[id];
            var first, now := DepositFee(env.rates, row.amount), DepositFee(env'.rates, row.amount);
            && Valid(after.db) && after.db.log == mid.db.log
            && (ending.Finished? <==> now < row.amount)
            && (!ending.Finished? ==> after == mid)
            && (ending.Finished? ==>
                  && after.deposits == mid.deposits[id := Done(mid.db, id, row).(confirmedAt := env'.now)]
                  && Holds(after.db, id, row, first, if StrayRetry(first, now) then now else first)
                  && MoneyMatches(after.db.log, id, after.deposits[id])
                  && (RowInv(after.db, id, after.deposits[id]) <==> !StrayRetry(first, now)))
  {
    var row := b.deposits[id];
    var first, now := DepositFee(env.rates, row.amount), DepositFee(env'.rates, row.amount);
    HalfCreditedStill(b, id, env, meanwhile);
    HalfCredited(b, id, env);
    var mid := Run(Advance(b, id, env).0, meanwhile);
    RetryPosted(mid, id, env', first);
    if now < row.amount {
      var after := Advance(mid, id, env').0;
      SoundIff(after.db, id, after.deposits[id], first, if StrayRetry(first, now) then now else first);
    }
  }

  /** A confirmed row is sound exactly when the fee linked to its posting is the one that was posted. */
  lemma SoundIff(db: Db, id: nat, row: DepositRow, first: int, fee: int)
    requires row.status == Confirmed && Find(db.log, Confirm(id)) == row.posting && Holds(db, id, row, first, fee)
    ensures RowInv(db, id, row) <==> fee == first
    ensures MoneyMatches(db.log, id, row)
  {
    var c := CreditDeposit(row.user, id, row.amount, first);
    forall a ensures DepositNet(db.log, id, a) == NetOf(db.log, Confirm(id), a) == Delta(c, a) {
      EntriesOn(c, a);
    }
    EntriesOn(CreditDeposit(row.user, id, row.amount, fee), FeeRevenue);
  }

  /** A deposit credited with one fee and reversed with another, account by account. */
  lemma ReversalNet(db: Db, credit: Command, c: Command, o: Outcome, a: Account)
    requires Valid(db) && credit.CreditDeposit? && WellFormed(credit)
    requires c.ReverseDeposit? && c.deposit == credit.deposit && WellFormed(c) && !Posted(db.log, KeyOf(c))
    requires Posted(db.log, KeyOf(credit))
    requires db.log[Find(db.log, KeyOf(credit)).value].entries == EntriesOf(credit)
    requires Meaning(db, c, o)
    ensures o.result.Ok?
    ensures DepositNet(o.db.log, c.deposit, a) == Delta(credit, a) + Delta(c, a)
  {
    DepositCommandFresh(db, c, o);
    EntriesOn(credit, a);
  }

  lemma ReversalNets(db: Db, credit: Command, c: Command, o: Outcome)
    requires Valid(db) && credit.CreditDeposit? && WellFormed(credit)
    requires c.ReverseDeposit? && WellFormed(c)
    requires c.user == credit.user && c.deposit == credit.deposit && c.amount == credit.amount
    requires !Posted(db.log, KeyOf(c)) && Posted(db.log, KeyOf(credit))
    requires db.log[Find(db.log, KeyOf(credit)).value].entries == EntriesOf(credit)
    requires Meaning(db, c, o)
    ensures o.result.Ok?
    ensures forall a :: DepositNet(o.db.log, c.deposit, a) ==
                        if a == Available(c.user) then c.fee - credit.fee
                        else if a == FeeRevenue then credit.fee - c.fee
                        else 0
  {
    forall a ensures o.result.Ok? && DepositNet(o.db.log, c.deposit, a) == Delta(credit, a) + Delta(c, a) {
      ReversalNet(db, credit, c, o, a);
    }
    ReversalNet(db, credit, c, o, FeeRevenue);
  }

  /** What a reversal with the wrong fee leaves: revenue short of it, the user with it. */
  ghost predicate Leftover(log: Log, id: nat, user: string, lost: int) {
    forall a :: DepositNet(log, id, a) == if a == Available(user) then lost else if a == FeeRevenue then -lost else 0
  }

  lemma LeftoverMatches(log: Log, id: nat, row: DepositRow, lost: int)
    requires Leftover(log, id, row.user, lost) && row.status == Orphaned
    ensures MoneyMatches(log, id, row) <==> lost == 0
  {
    assert DepositNet(log, id, FeeRevenue) == -lost;
  }

  /** The watch on a confirmed deposit that is gone, given the fee it was credited with and the fee now linked to it. */
  lemma WatchTakesBack(b: Book, id: nat, first: int, fee: int)
    requires Valid(b.db) && id < |b.deposits| && b.deposits[id].status == Confirmed
    requires Find(b.db.log, Confirm(id)) == b.deposits[id].posting && Holds(b.db, id, b.deposits[id], first, fee)
    ensures var (after, ending) := Watch(b, id, Vanished, false);
            && ending.Finished?
            && after.deposits == b.deposits[id := b.deposits[id].(status := Orphaned)]
            && Leftover(after.db.log, id, b.deposits[id].user, fee - first)
  {
    var row := b.deposits[id];
    var c := ReverseDeposit(row.user, id, row.amount, fee);
    ExecMeaning(b.db, c);
    ReversalNets(b.db, CreditDeposit(row.user, id, row.amount, first), c, Exec(b.db, c));
    WatchPosts(b, id, c);
  }

  lemma WatchPosts(b: Book, id: nat, c: Command)
    requires id < |b.deposits| && c == ReverseCommand(b.db, b.deposits[id], id) && Exec(b.db, c).result.Ok?
    ensures Watch(b, id, Vanished, false) ==
            (WithRow(b.(db := Exec(b.db, c).db), id, b.deposits[id].(status := Orphaned)), Finished)
  {
  }

  /**
   * A re-org after such a retry, whenever it is noticed: the reversal leaves
   * nothing anywhere - unless the retry was stray; then revenue pays out a fee
   * it never received, and the user keeps it.
   */
  lemma ReversalAfterRetry(
      b: Book, id: nat, env: Env, meanwhile: seq<DepositStep>, env': Env, later: seq<DepositStep>)
    requires Inv(b) && OneRowEach(b.deposits) && id < |b.deposits| && DiesCrediting(b.deposits[id], env)
    requires AllSpare(b.deposits[id], meanwhile, id) && Deepened(b.deposits[id], env')
    requires DepositFee(env'.rates, b.deposits[id].amount) < b.deposits[id].amount
    requires AllSpare(b.deposits[id].(status := Confirmed), later, id)
    ensures var mid := Run(Advance(b, id, env).0, meanwhile);
            && id < |mid.deposits|
            && var gone := Run(Advance(mid, id, env').0, later);
            && id < |gone.deposits|
            && var (reversed, ending) := Watch(gone, id, Vanished, false);
            var row := b.deposits[id];
            var first, now := DepositFee(env.rates, row.amount), DepositFee(env'.rates, row.amount);
            var lost := if StrayRetry(first, now) then now else 0;
            && ending.Finished?
            && |reversed.deposits| == |gone.deposits| && reversed.deposits[id].status == Orphaned
            && Leftover(reversed.db.log, id, row.user, lost)
            && (MoneyMatches(reversed.db.log, id, reversed.deposits[id]) <==> !StrayRetry(first, now))
  {
    var row := b.deposits[id];
    var first, now := DepositFee(env.rates, row.amount), DepositFee(env'.rates, row.amount);
    var fee := if StrayRetry(first, now) then now else first;
    var after := Retried(b, id, env, meanwhile, env');
    RunSpares(after, id, later);
    var gone := Run(after, later);
    WatchTakesBack(gone, id, first, fee);
    var reversed := Watch(gone, id, Vanished, false).0;
    LeftoverMatches(reversed.db.log, id, reversed.deposits[id], fee - first);
  }

  /** The book after the retry, with its row completed. */
  lemma Retried(b: Book, id: nat, env: Env, meanwhile: seq<DepositStep>, env': Env) returns (after: Book)
    requires Inv(b) && OneRowEach(b.deposits) && id < |b.deposits| && DiesCrediting(b.deposits[id], env)
    requires AllSpare(b.deposits[id], meanwhile, id) && Deepened(b.deposits[id], env')
    requires DepositFee(env'.rates, b.deposits[id].amount) < b.deposits[id].amount
    ensures var mid := Run(Advance(b, id, env).0, meanwhile);
            id < |mid.deposits| && after == Advance(mid, id, env').0
    ensures Valid(after.db) && OneRowEach(after.deposits) && id < |after.deposits|
    ensures var row := b.deposits[id];
            var first, now := DepositFee(env.rates, row.amount), DepositFee(env'.rates, row.amount);
            && after.deposits[id].status == Confirmed
            && after.deposits[id].user == row.user && after.deposits[id].amount == row.amount
            && Find(after.db.log, Confirm(id)) == after.deposits[id].posting
            && Holds(after.db, id, row, first, if StrayRetry(first, now) then now else first)
  {
    var mid := Run(Advance(b, id, env).0, meanwhile);
    HalfCreditedStill(b, id, env, meanwhile);
    RetryAfterHalf(b, id, env, meanwhile, env');
    after := Advance(mid, id, env').0;
    AdvanceGrows(mid, id, env');
    GrownOneRowEach(mid, after);
  }

  /**
   * If instead the transaction vanishes and the grace period has passed, the
   * row is orphaned with the credit standing, and no later step reverses it.
   */
  lemma VanishAfterHalf(
      b: Book, id: nat, env: Env, meanwhile: seq<DepositStep>, env': Env, later: seq<DepositStep>)
    requires Inv(b) && OneRowEach(b.deposits) && id < |b.deposits| && DiesCrediting(b.deposits[id], env)
    requires AllSpare(b.deposits[id], meanwhile, id)
    requires env'.reading.Vanished? && env'.now - b.deposits[id].createdAt > GRACE_MILLIS
    ensures var mid := Run(Advance(b, id, env).0, meanwhile);
            && id < |mid.deposits|
            && var end := Run(Advance(mid, id, env').0, later);
            && id < |end.deposits|
            && end.deposits[id].status == Orphaned
            && DepositNet(end.db.log, id, Clearing) == -b.deposits[id].amount < 0
  {
    var row := b.deposits[id];
    var mid := Run(Advance(b, id, env).0, meanwhile);
    HalfCreditedStill(b, id, env, meanwhile);
    HalfCredited(b, id, env);
    HeldClearing(mid.db, id, row, DepositFee(env.rates, row.amount));
    OrphansAt(mid, id, env');
    AdvanceGrows(mid, id, env');
    GrownOneRowEach(mid, Advance(mid, id, env').0);
    RunSpares(Advance(mid, id, env').0, id, later);
  }

  /** What stands against clearing while a deposit is credited and not reversed. */
  lemma HeldClearing(db: Db, id: nat, row: DepositRow, first: int)
    requires Holds(db, id, row, first, first)
    ensures DepositNet(db.log, id, Clearing) == -row.amount
  {
    EntriesOn(CreditDeposit(row.user, id, row.amount, first), Clearing);
  }

  lemma OrphansAt(b: Book, id: nat, env: Env)
    requires id < |b.deposits| && IsPending(b.deposits[id])
    requires env.reading.Vanished? && env.now - b.deposits[id].createdAt > GRACE_MILLIS
    ensures Advance(b, id, env).0 == WithRow(b, id, b.deposits[id].(status := Orphaned))
  {
  }

  // ----------------------------------------------------- A reversal half done

  /** A reversal that died after the posting: the row still says CONFIRMED, and nothing is left of the money. */
  lemma HalfReversed(b: Book, id: nat)
    requires Inv(b) && id < |b.deposits| && b.deposits[id].status == Confirmed
    ensures var mid := Watch(b, id, Vanished, true).0;
            var row := b.deposits[id];
            && mid.deposits == b.deposits
            && Valid(mid.db)
            && mid.db.fees == b.db.fees
            && Posted(mid.db.log, Reverse(id))
            && Find(mid.db.log, Confirm(id)) == row.posting
            && (forall a :: DepositNet(mid.db.log, id, a) == 0)
            && !MoneyMatches(mid.db.log, id, row)
            && WellFormed(ReverseCommand(b.db, row, id))
  {
    var row := b.deposits[id];
    var c := ReverseCommand(b.db, row, id);
    ExecMeaning(b.db, c);
    ReversedRow(b.db, id, row, c, Exec(b.db, c));
    DepositCommandFresh(b.db, c, Exec(b.db, c));
  }

  lemma ReverseReplay(db: Db, c: Command)
    requires Valid(db) && c.ReverseDeposit? && WellFormed(c) && Posted(db.log, KeyOf(c))
    ensures Exec(db, c).result.Ok? && Exec(db, c).db.log == db.log
  {
    ExecMeaning(db, c);
  }

  /** The fee a reversal takes back is read off the posting, wherever it was before. */
  lemma SameReversal(db: Db, db': Db, id: nat, row: DepositRow)
    requires row.posting.Some? && Find(db.log, Confirm(id)) == row.posting && CreditOf(db', id) == CreditOf(db, id)
    ensures ReverseCommand(db', row, id) == ReverseCommand(db, row, id)
  {
  }

  /** ... and stays so over steps that do not read it as vanished. */
  lemma HalfReversedStill(b: Book, id: nat, meanwhile: seq<DepositStep>)
    requires Inv(b) && OneRowEach(b.deposits) && id < |b.deposits| && b.deposits[id].status == Confirmed
    requires AllSpare(b.deposits[id], meanwhile, id)
    ensures var later := Run(Watch(b, id, Vanished, true).0, meanwhile);
            && Valid(later.db) && id < |later.deposits|
            && later.deposits[id] == b.deposits[id]
            && Posted(later.db.log, Reverse(id))
            && ReverseCommand(later.db, b.deposits[id], id) == ReverseCommand(b.db, b.deposits[id], id)
            && (forall a :: DepositNet(later.db.log, id, a) == 0)
  {
    var row := b.deposits[id];
    var mid := Watch(b, id, Vanished, true).0;
    HalfReversed(b, id);
    RunSpares(mid, id, meanwhile);
    SameReversal(mid.db, Run(mid, meanwhile).db, id, row);
    assert ReverseCommand(mid.db, row, id) == ReverseCommand(b.db, row, id);
  }

  /** When the watch finds it gone again, it posts nothing more and the row is orphaned, with its money agreeing. */
  lemma RecheckAfterHalf(b: Book, id: nat, meanwhile: seq<DepositStep>)
    requires Inv(b) && OneRowEach(b.deposits) && id < |b.deposits| && b.deposits[id].status == Confirmed
    requires AllSpare(b.deposits[id], meanwhile, id)
    ensures var later := Run(Watch(b, id, Vanished, true).0, meanwhile);
            && id < |later.deposits|
            && var (after, ending) := Watch(later, id, Vanished, false);
            && ending.Finished?
            && after.db.log == later.db.log
            && after.deposits == later.deposits[id := b.deposits[id].(status := Orphaned)]
            && MoneyMatches(after.db.log, id, after.deposits[id])
  {
    var later := Run(Watch(b, id, Vanished, true).0, meanwhile);
    HalfReversed(b, id);
    HalfReversedStill(b, id, meanwhile);
    var c := ReverseCommand(b.db, b.deposits[id], id);
    ReverseReplay(later.db, c);
    WatchPosts(later, id, c);
  }

  /**
   * If instead the transaction is back when the watch looks again, the row
   * stays CONFIRMED with its money gone, whatever runs, until it vanishes anew.
   */
  lemma ReappearsAfterHalf(b: Book, id: nat, meanwhile: seq<DepositStep>)
    requires Inv(b) && OneRowEach(b.deposits) && id < |b.deposits| && b.deposits[id].status == Confirmed
    requires forall k | 0 <= k < |meanwhile| ::
               !(meanwhile[k].Recheck? && meanwhile[k].id == id && meanwhile[k].reading.Vanished?)
    ensures var later := Run(Watch(b, id, Vanished, true).0, meanwhile);
            && id < |later.deposits|
            && later.deposits[id].status == Confirmed
            && (forall a :: DepositNet(later.db.log, id, a) == 0)
            && !MoneyMatches(later.db.log, id, later.deposits[id])
  {
    HalfReversedStill(b, id, meanwhile);
    ConfirmedNet(b.db, id, b.deposits[id], Clearing);
  }
}
