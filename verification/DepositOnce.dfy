/**
 * Once only: whatever is observed, retried or cut short, a transfer has one
 * row, a row has at most one credit, and the credit waits for the required
 * depth. And every deposit on the books is one of ours.
 */
module DepositOnce {
  import opened Wrappers
  import opened Postings
  import opened Commands
  import opened Deposits
  import opened DepositRuns

  function TransferOf(row: DepositRow): (string, string, int) {
    (row.network, row.txHash, row.logIndex)
  }

  ghost predicate OneRowEach(rows: seq<DepositRow>) {
    forall i, j | 0 <= i < j < |rows| :: TransferOf(rows[i]) != TransferOf(rows[j])
  }

  /** Rows are never removed, and keep all but their progress. */
  ghost predicate Grown(b: Book, b': Book) {
    && b'.addresses == b.addresses && b'.config == b.config
    && |b.deposits| <= |b'.deposits|
    && b.db.log <= b'.db.log
    && forall i | 0 <= i < |b.deposits| ::
         && TransferOf(b'.deposits[i]) == TransferOf(b.deposits[i])
         && b'.deposits[i].user == b.deposits[i].user
         && b'.deposits[i].amount == b.deposits[i].amount
         && b'.deposits[i].required == b.deposits[i].required
  }

  lemma PostingGrows(b: Book, id: nat, c: Command, crashes: bool, row: DepositRow)
    requires Valid(b.db) && id < |b.deposits|
    requires TransferOf(row) == TransferOf(b.deposits[id]) && row.user == b.deposits[id].user
    requires row.amount == b.deposits[id].amount && row.required == b.deposits[id].required
    ensures var b' := AfterPosting(b, id, Exec(b.db, c), crashes, row).0;
            Grown(b, b') && Valid(b'.db) && |b'.deposits| == |b.deposits|
  {
    ExecMeaning(b.db, c);
  }

  /** What an advance does: nothing, one change of status, or one crediting step. */
  lemma AdvanceCases(b: Book, id: nat, env: Env)
    requires id < |b.deposits|
    ensures var row := b.deposits[id];
            || Advance(b, id, env).0 == b
            || Advance(b, id, env).0 == WithRow(b, id, row.(status := Orphaned))
            || Advance(b, id, env).0 == WithRow(b, id, row.(status := Confirming))
            || (&& IsPending(row) && env.reading.Depth? && env.reading.n >= row.required
                && Advance(b, id, env) == CreditRow(b, id, env))
  {
  }

  lemma CreditGrows(b: Book, id: nat, env: Env)
    requires Valid(b.db) && id < |b.deposits|
    ensures var b' := CreditRow(b, id, env).0;
            Grown(b, b') && Valid(b'.db) && |b'.deposits| == |b.deposits|
  {
    var row := b.deposits[id];
    var r := Exec(b.db, CreditCommand(row, id, env.rates)).result;
    PostingGrows(b, id, CreditCommand(row, id, env.rates), env.crashes,
                 row.(status := Confirmed, confirmedAt := env.now, posting := if r.Ok? then Some(r.value) else None));
  }

  lemma AdvanceGrows(b: Book, id: nat, env: Env)
    requires Valid(b.db) && id < |b.deposits|
    ensures var b' := Advance(b, id, env).0;
            Grown(b, b') && Valid(b'.db) && |b'.deposits| == |b.deposits|
  {
    AdvanceCases(b, id, env);
    CreditGrows(b, id, env);
  }

  lemma RecordGrows(b: Book, t: Transfer, now: int)
    requires Valid(b.db) && OneRowEach(b.deposits)
    ensures var (b', id) := Record(b, t, now);
            && Grown(b, b') && b'.db == b.db && OneRowEach(b'.deposits)
            && (id.Some? ==> id.value < |b'.deposits| && SameTransfer(b'.deposits[id.value], t))
  {
  }

  lemma GrownTwice(b: Book, b': Book, b'': Book)
    requires Grown(b, b') && Grown(b', b'')
    ensures Grown(b, b'')
  {
  }

  lemma GrownOneRowEach(b: Book, b': Book)
    requires Grown(b, b') && |b'.deposits| == |b.deposits| && OneRowEach(b.deposits)
    ensures OneRowEach(b'.deposits)
  {
  }

  lemma ObserveGrows(b: Book, t: Transfer, env: Env)
    requires Valid(b.db) && OneRowEach(b.deposits)
    ensures var b' := Observe(b, t, env).0;
            Grown(b, b') && Valid(b'.db) && OneRowEach(b'.deposits)
  {
    RecordGrows(b, t, env.now);
    var (recorded, id) := Record(b, t, env.now);
    if id.Some? {
      AdvanceGrows(recorded, id.value, env);
      var after := Advance(recorded, id.value, env).0;
      GrownTwice(b, recorded, after);
      GrownOneRowEach(recorded, after);
    }
  }

  lemma WatchGrows(b: Book, id: nat, reading: Reading, crashes: bool)
    requires Valid(b.db) && id < |b.deposits|
    ensures var b' := Watch(b, id, reading, crashes).0;
            Grown(b, b') && Valid(b'.db) && |b'.deposits| == |b.deposits|
  {
    var row := b.deposits[id];
    PostingGrows(b, id, ReverseCommand(b.db, row, id), crashes, row.(status := Orphaned));
  }

  lemma StepGrows(b: Book, step: DepositStep)
    requires Valid(b.db) && OneRowEach(b.deposits)
    ensures var b' := Next(b, step);
            Grown(b, b') && Valid(b'.db) && OneRowEach(b'.deposits)
  {
    var b' := Next(b, step);
    match step
    case Seen(t, env) => ObserveGrows(b, t, env);
    case Walk(id, env) =>
      if id < |b.deposits| { AdvanceGrows(b, id, env); GrownOneRowEach(b, b'); }
    case Recheck(id, reading, crashes) =>
      if id < |b.deposits| && b.deposits[id].status == Confirmed {
        WatchGrows(b, id, reading, crashes);
        GrownOneRowEach(b, b');
      }
    case Other(c) => if Elsewhere(c) { ExecMeaning(b.db, c); }
  }

  /** Over any run, crashes included: one row per transfer, one credit and one reversal per row at most. */
  lemma {:induction false} OnceOnly(b: Book, steps: seq<DepositStep>)
    requires Valid(b.db) && OneRowEach(b.deposits)
    ensures var b' := Run(b, steps);
            && Grown(b, b')
            && Valid(b'.db)
            && OneRowEach(b'.deposits)
            && forall i, j | 0 <= i < j < |b'.db.log| ::
                 !(b'.db.log[i].key == b'.db.log[j].key && (b'.db.log[i].key.Confirm? || b'.db.log[i].key.Reverse?))
    decreases |steps|
  {
    if steps == [] {
    } else {
      StepGrows(b, steps[0]);
      OnceOnly(Next(b, steps[0]), steps[1..]);
    }
  }

  lemma RecordedIsFound(b: Book, t: Transfer, now: int, id: nat)
    requires OneRowEach(b.deposits) && id < |b.deposits| && SameTransfer(b.deposits[id], t)
    requires OwnerOf(b, t).Some?
    ensures Record(b, t, now) == (b, Some(id))
  {
  }

  /** However often and by whichever path a transfer is seen again, it is the same deposit. */
  lemma SeenAgainSameDeposit(b: Book, t: Transfer, env: Env, meanwhile: seq<DepositStep>, env': Env)
    requires Valid(b.db) && OneRowEach(b.deposits)
    ensures var first := Observe(b, t, env);
            var later := Run(first.0, meanwhile);
            var again := Observe(later, t, env');
            again.1 == first.1 && |again.0.deposits| == |later.deposits|
  {
    RecordGrows(b, t, env.now);
    ObserveGrows(b, t, env);
    var first := Observe(b, t, env);
    OnceOnly(first.0, meanwhile);
    var later := Run(first.0, meanwhile);
    if first.1.Some? {
      AdvanceGrows(Record(b, t, env.now).0, first.1.value, env);
      RecordedIsFound(later, t, env'.now, first.1.value);
      AdvanceGrows(later, first.1.value, env');
    }
  }

  lemma KeyAppears(db: Db, c: Command, key: Key)
    requires Valid(db) && !Posted(db.log, key) && key != KeyOf(c)
    ensures !Posted(Exec(db, c).db.log, key)
  {
    ExecMeaning(db, c);
    FindAppend(db.log, PostingOf(c));
  }

  lemma AdvancePosts(b: Book, i: nat, env: Env, id: nat)
    requires Valid(b.db) && i < |b.deposits|
    requires !Posted(b.db.log, Confirm(id))
    ensures Posted(Advance(b, i, env).0.db.log, Confirm(id)) ==>
              && i == id && IsPending(b.deposits[i])
              && env.reading.Depth? && env.reading.n >= b.deposits[i].required
  {
    if i != id {
      KeyAppears(b.db, CreditCommand(b.deposits[i], i, env.rates), Confirm(id));
    }
    AdvanceEffect(b, i, env);
  }

  /** An advance that does not reach its required depth leaves the ledger alone. */
  lemma AdvanceEffect(b: Book, i: nat, env: Env)
    requires Valid(b.db) && i < |b.deposits|
    ensures var b' := Advance(b, i, env).0;
            || b'.db == b.db
            || (&& IsPending(b.deposits[i]) && env.reading.Depth? && env.reading.n >= b.deposits[i].required
                && b'.db == Exec(b.db, CreditCommand(b.deposits[i], i, env.rates)).db)
  {
  }

  lemma OthersPostNoCredit(b: Book, step: DepositStep, id: nat)
    requires Valid(b.db) && !Posted(b.db.log, Confirm(id)) && (step.Recheck? || step.Other?)
    ensures !Posted(Next(b, step).db.log, Confirm(id))
  {
    match step
    case Recheck(i, _, _) =>
      if i < |b.deposits| { KeyAppears(b.db, ReverseCommand(b.db, b.deposits[i], i), Confirm(id)); }
    case Other(c) => if Elsewhere(c) { KeyAppears(b.db, c, Confirm(id)); }
  }

  /** The credit posting appears only when a pending row was read at its required depth. */
  lemma CreditOnlyAtDepth(b: Book, step: DepositStep, id: nat)
    requires Valid(b.db)
    ensures !Posted(b.db.log, Confirm(id)) && Posted(Next(b, step).db.log, Confirm(id)) ==>
              && (step.Seen? || (step.Walk? && step.id == id))
              && step.env.reading.Depth?
              && var b0 := if step.Seen? then Record(b, step.transfer, step.env.now).0 else b;
                 && id < |b0.deposits|
                 && IsPending(b0.deposits[id])
                 && step.env.reading.n >= b0.deposits[id].required
  {
    if !Posted(b.db.log, Confirm(id)) {
      if step.Seen? {
        var (recorded, seen) := Record(b, step.transfer, step.env.now);
        assert recorded.db == b.db;
        if seen.Some? { AdvancePosts(recorded, seen.value, step.env, id); }
      } else if step.Walk? {
        if step.id < |b.deposits| { AdvancePosts(b, step.id, step.env, id); }
      } else {
        OthersPostNoCredit(b, step, id);
      }
    }
  }

  // --------------------------------------------------------- Whose deposits

  /** Sent to an address of ours on that network, to its owner's credit, large enough, at the configured depth. */
  ghost predicate Ours(b: Book, row: DepositRow) {
    && row.amount >= b.config.minAmount
    && row.required == b.config.confirmations
    && exists a: string :: (row.network, a) in b.addresses && b.addresses[(row.network, a)] == row.user
  }

  ghost predicate AllOurs(b: Book) {
    forall i | 0 <= i < |b.deposits| :: Ours(b, b.deposits[i])
  }

  lemma RecordOurs(b: Book, t: Transfer, now: int)
    requires AllOurs(b)
    ensures AllOurs(Record(b, t, now).0)
    ensures Record(b, t, now).1.Some? <==>
              && (b.config.contract.Some? ==> t.contract == b.config.contract.value)
              && (t.network, t.toAddress) in b.addresses
              && t.amount >= b.config.minAmount
  {
    var b' := Record(b, t, now).0;
    forall i | 0 <= i < |b'.deposits| ensures Ours(b', b'.deposits[i]) {
      if i == |b.deposits| {
        assert (t.network, t.toAddress) in b.addresses;
      } else {
        assert Ours(b, b.deposits[i]);
      }
    }
  }

  lemma GrownOurs(b: Book, b': Book)
    requires Grown(b, b') && |b'.deposits| == |b.deposits| && AllOurs(b)
    ensures AllOurs(b')
  {
    forall i | 0 <= i < |b'.deposits| ensures Ours(b', b'.deposits[i]) {
      assert Ours(b, b.deposits[i]);
    }
  }

  lemma StepKeepsOurs(b: Book, step: DepositStep)
    requires Valid(b.db) && OneRowEach(b.deposits) && AllOurs(b)
    ensures AllOurs(Next(b, step))
  {
    StepGrows(b, step);
    if step.Seen? {
      RecordOurs(b, step.transfer, step.env.now);
      RecordGrows(b, step.transfer, step.env.now);
      var (recorded, id) := Record(b, step.transfer, step.env.now);
      if id.Some? {
        AdvanceGrows(recorded, id.value, step.env);
        GrownOurs(recorded, Next(b, step));
      }
    } else {
      SameRows(b, step);
      GrownOurs(b, Next(b, step));
    }
  }

  lemma SameRows(b: Book, step: DepositStep)
    requires Valid(b.db) && !step.Seen?
    ensures |Next(b, step).deposits| == |b.deposits|
  {
  }

  /** Over any run every deposit on the books is one of ours, credited to whoever owns its address. */
  lemma {:induction false} EveryDepositIsOurs(b: Book, steps: seq<DepositStep>)
    requires Valid(b.db) && OneRowEach(b.deposits) && AllOurs(b)
    ensures AllOurs(Run(b, steps))
    decreases |steps|
  {
    if steps == [] {
    } else {
      StepGrows(b, steps[0]);
      StepKeepsOurs(b, steps[0]);
      EveryDepositIsOurs(Next(b, steps[0]), steps[1..]);
    }
  }
}
