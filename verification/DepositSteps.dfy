/**
 * One step of each deposit job in full: what it does to the row and to the
 * money, in terms of the settings and of what was credited before.
 */
module DepositSteps {
  import opened Wrappers
  import opened Postings
  import opened Commands
  import opened Fees
  import opened Deposits
  import opened DepositRuns
  import opened DepositOnce

  /** A transfer of ours not seen before becomes a detected deposit of its owner; one seen before is found. */
  lemma RecordLeaves(b: Book, t: Transfer, now: int)
    requires Record(b, t, now).1.Some?
    ensures (t.network, t.toAddress) in b.addresses
    ensures var (b', id) := Record(b, t, now);
            var owner := b.addresses[(t.network, t.toAddress)];
            if forall i | 0 <= i < |b.deposits| :: TransferOf(b.deposits[i]) != (t.network, t.txHash, t.logIndex) then
              && id == Some(|b.deposits|)
              && b' == b.(deposits := b.deposits + [DepositRow(
                   owner, t.amount, t.network, t.txHash, t.logIndex, Detected, b.config.confirmations, now, 0, None)])
            else
              && b' == b && id.value < |b.deposits|
              && TransferOf(b.deposits[id.value]) == (t.network, t.txHash, t.logIndex)
  {
    if RowFor(b.deposits, t).None? {
      forall i | 0 <= i < |b.deposits| ensures TransferOf(b.deposits[i]) != (t.network, t.txHash, t.logIndex) {
        assert !SameTransfer(b.deposits[i], t);
      }
    }
  }

  /** The deposit is confirmed at this moment by a posting of its own: net to the user, fee to revenue. */
  ghost predicate Credited(b: Book, id: nat, now: int, fee: int, b': Book)
    requires id < |b.deposits|
  {
    var row := b.deposits[id];
    var before, after := b.db.log, b'.db.log;
    && b'.deposits == b.deposits[id := row.(status := Confirmed, confirmedAt := now, posting := Some(|before|))]
    && Balance(after, Available(row.user)) == Balance(before, Available(row.user)) + row.amount - fee
    && Balance(after, FeeRevenue) == Balance(before, FeeRevenue) + fee
    && Balance(after, Clearing) == Balance(before, Clearing) - row.amount
    && b'.db.fees == b.db.fees + (if fee > 0 then [FeeRow(row.user, OnDeposit, fee, |before|)] else [])
  }

  /** The ledger's side of a credit: the money and the fee row. */
  ghost predicate Paid(db: Db, c: Command, db': Db)
    requires c.CreditDeposit?
  {
    && Balance(db'.log, Available(c.user)) == Balance(db.log, Available(c.user)) + c.amount - c.fee
    && Balance(db'.log, FeeRevenue) == Balance(db.log, FeeRevenue) + c.fee
    && Balance(db'.log, Clearing) == Balance(db.log, Clearing) - c.amount
    && db'.fees == db.fees + (if c.fee > 0 then [FeeRow(c.user, OnDeposit, c.fee, |db.log|)] else [])
  }

  lemma CreditPays(db: Db, c: Command)
    requires Valid(db) && c.CreditDeposit? && !Posted(db.log, Confirm(c.deposit)) && Exec(db, c).result.Ok?
    ensures Exec(db, c).result.value == |db.log| && Paid(db, c, Exec(db, c).db)
  {
    var o := Exec(db, c);
    ExecMeaning(db, c);
    Moves(db, c, o, Available(c.user));
    Moves(db, c, o, FeeRevenue);
    Moves(db, c, o, Clearing);
    FreshRecord(db, c);
    assert o.db.fees == db.fees + o.db.fees[|db.fees|..];
  }

  lemma CreditCredits(b: Book, id: nat, env: Env)
    requires Inv(b) && id < |b.deposits| && IsPending(b.deposits[id]) && !env.crashes
    requires DepositFee(env.rates, b.deposits[id].amount) < b.deposits[id].amount
    ensures var (b', ending) := CreditRow(b, id, env);
            ending.Finished? && Credited(b, id, env.now, DepositFee(env.rates, b.deposits[id].amount), b')
  {
    var row := b.deposits[id];
    var c := CreditCommand(row, id, env.rates);
    CreditGoesThrough(b.db, row, id, env.rates);
    CreditPays(b.db, c);
    CreditEnds(b, id, env, Exec(b.db, c));
  }

  /** The row's side of a credit that went through. */
  lemma CreditEnds(b: Book, id: nat, env: Env, o: Outcome)
    requires id < |b.deposits| && !env.crashes && o == Exec(b.db, CreditCommand(b.deposits[id], id, env.rates))
    requires b.deposits[id].status != Confirmed && b.deposits[id].posting.None? && o.result.Ok?
    ensures var row := b.deposits[id].(status := Confirmed, confirmedAt := env.now, posting := Some(o.result.value));
            CreditRow(b, id, env) == (b.(db := o.db, deposits := b.deposits[id := row]), Finished)
  {
  }

  /**
   * One look at a deposit. A pending one is left alone if the node does not
   * answer, orphaned if the node has not heard of it ten minutes after it was
   * first seen, confirming below its required depth, and credited at it - net
   * of the fee the settings make of it, unless that is all of it. A deposit in
   * any other state is left alone.
   */
  lemma AdvanceMeaning(b: Book, id: nat, env: Env, fee: int)
    requires Inv(b) && id < |b.deposits| && !env.crashes
    requires IsDepositFee(env.rates, b.deposits[id].amount, fee)
    ensures var row := b.deposits[id];
            var (b', ending) := Advance(b, id, env);
            if row.status != Detected && row.status != Confirming then b' == b && ending.Finished?
            else
              match env.reading
              case ReadFails => b' == b && ending.Finished?
              case Vanished =>
                && ending.Finished?
                && b' == (if env.now - row.createdAt > 600_000
                          then b.(deposits := b.deposits[id := row.(status := Orphaned)]) else b)
              case Depth(n) =>
                if n < row.required then
                  b' == b.(deposits := b.deposits[id := row.(status := Confirming)]) && ending.Finished?
                else if fee >= row.amount then b' == b && ending.Threw?
                else ending.Finished? && Credited(b, id, env.now, fee, b')
  {
    var row := b.deposits[id];
    DepositFeeIs(env.rates, row.amount, fee);
    DepositFeeAtMost(env.rates, row.amount);
    if IsPending(row) && env.reading.Depth? && env.reading.n >= row.required {
      CreditGoesThrough(b.db, row, id, env.rates);
      if fee < row.amount {
        CreditCredits(b, id, env);
      }
    }
  }

  /** The deposit is orphaned and its money taken back, the fee it was credited with out of revenue. */
  ghost predicate TakenBack(b: Book, id: nat, fee: int, b': Book)
    requires id < |b.deposits|
  {
    var row := b.deposits[id];
    var before, after := b.db.log, b'.db.log;
    && b'.deposits == b.deposits[id := row.(status := Orphaned)]
    && Balance(after, Available(row.user)) == Balance(before, Available(row.user)) - (row.amount - fee)
    && Balance(after, FeeRevenue) == Balance(before, FeeRevenue) - fee
    && Balance(after, Clearing) == Balance(before, Clearing) + row.amount
    && b'.db.fees == b.db.fees
  }

  /** The ledger's side of a reversal. */
  lemma ReversalTakes(db: Db, c: Command, o: Outcome)
    requires Meaning(db, c, o) && c.ReverseDeposit? && !Posted(db.log, Reverse(c.deposit)) && o.result.Ok?
    ensures Balance(o.db.log, Available(c.user)) == Balance(db.log, Available(c.user)) - (c.amount - c.fee)
    ensures Balance(o.db.log, FeeRevenue) == Balance(db.log, FeeRevenue) - c.fee
    ensures Balance(o.db.log, Clearing) == Balance(db.log, Clearing) + c.amount
    ensures o.db.fees == db.fees
  {
    Moves(db, c, o, Available(c.user));
    Moves(db, c, o, FeeRevenue);
    Moves(db, c, o, Clearing);
  }

  /** The fee a reversal takes back is the one the credit charged. */
  lemma ReversedFee(db: Db, id: nat, row: DepositRow)
    requires Valid(db) && RowInv(db, id, row) && row.status == Confirmed
    ensures var c := ReverseCommand(db, row, id);
            && Exec(db, c).result.Ok? && !Posted(db.log, Reverse(id)) && Meaning(db, c, Exec(db, c))
            && c.fee == NetOf(db.log, Confirm(id), FeeRevenue)
  {
    var c := ReverseCommand(db, row, id);
    ExecMeaning(db, c);
    ReversedRow(db, id, row, c, Exec(db, c));
    ConfirmedNet(db, id, row, FeeRevenue);
  }

  /** One second look at a credited deposit: reversed if the node has never heard of it, else left alone. */
  lemma RecheckMeaning(b: Book, id: nat, reading: Reading)
    requires Inv(b) && id < |b.deposits| && b.deposits[id].status == Confirmed
    ensures var fee := NetOf(b.db.log, Confirm(id), FeeRevenue);
            var (b', ending) := Watch(b, id, reading, false);
            ending.Finished? && if reading.Vanished? then TakenBack(b, id, fee, b') else b' == b
  {
    if reading.Vanished? {
      var c := ReverseCommand(b.db, b.deposits[id], id);
      ReversedFee(b.db, id, b.deposits[id]);
      ReversalTakes(b.db, c, Exec(b.db, c));
    }
  }
}
