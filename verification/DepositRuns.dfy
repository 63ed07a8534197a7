/**
 * What holds of deposits over every run of observations, confirmation walks
 * and re-org checks: one row per transfer, one credit per row, and money on the
 * ledger that agrees with the row's status unless a step died half way.
 */
module DepositRuns {
  import opened Wrappers
  import opened Postings
  import opened Commands
  import opened Fees
  import opened Deposits
  import LedgerRuns

  /** Commands of the other services never use the deposit keys. */
  predicate Elsewhere(c: Command) {
    !c.CreditDeposit? && !c.ReverseDeposit? && !KeyOf(c).Confirm? && !KeyOf(c).Reverse?
  }

  datatype DepositStep =
    | Seen(transfer: Transfer, env: Env)
    | Walk(id: nat, env: Env)
    | Recheck(id: nat, reading: Reading, crashes: bool)
    | Other(command: Command)

  function Step(b: Book, step: DepositStep): (Book, Ending) {
    match step
    case Seen(t, env) => (Observe(b, t, env).0, Observe(b, t, env).2)
    case Walk(id, env) => if id < |b.deposits| then Advance(b, id, env) else (b, Finished)
    case Recheck(id, reading, crashes) =>
      if id < |b.deposits| && b.deposits[id].status == Confirmed then Watch(b, id, reading, crashes) else (b, Finished)
    case Other(c) => if Elsewhere(c) then (b.(db := Exec(b.db, c).db), Finished) else (b, Finished)
  }

  function Next(b: Book, step: DepositStep): Book {
    Step(b, step).0
  }

  function Run(b: Book, steps: seq<DepositStep>): Book
    decreases |steps|
  {
    if steps == [] then b else Run(Next(b, steps[0]), steps[1..])
  }

  /** Everything else the ledger does, under keys of its own, runs between the jobs as it does alone. */
  lemma OthersRun(b: Book, c: Command)
    requires match c
             case CreditDeposit(_, _, _, _) => false
             case ReverseDeposit(_, _, _, _) => false
             case _ => !c.key.Confirm? && !c.key.Reverse?
    ensures Step(b, Other(c)) == (b.(db := Exec(b.db, c).db), Finished)
  {
  }

  // ------------------------------------------------------ The money of a row

  function NetOf(log: Log, key: Key, a: Account): int {
    match Find(log, key)
    case None => 0
    case Some(i) => NetOn(log[i].entries, a)
  }

  /** All that has ever been posted for a deposit, on one account. */
  function DepositNet(log: Log, id: nat, a: Account): int {
    NetOf(log, Confirm(id), a) + NetOf(log, Reverse(id), a)
  }

  /** CONFIRMED: net to the user, fee to revenue, gross out of clearing. Otherwise nothing. */
  ghost predicate MoneyMatches(log: Log, id: nat, row: DepositRow) {
    if row.status == Confirmed then
      var fee := NetOf(log, Confirm(id), FeeRevenue);
      && 0 <= fee < row.amount
      && DepositNet(log, id, Available(row.user)) == row.amount - fee
      && DepositNet(log, id, FeeRevenue) == fee
      && DepositNet(log, id, Clearing) == -row.amount
      && forall a :: a != Available(row.user) && a != FeeRevenue && a != Clearing ==> DepositNet(log, id, a) == 0
    else
      forall a :: DepositNet(log, id, a) == 0
  }

  ghost predicate AllMatch(b: Book) {
    forall id | 0 <= id < |b.deposits| :: MoneyMatches(b.db.log, id, b.deposits[id])
  }

  predicate Untouched(log: Log, id: nat) {
    !Posted(log, Confirm(id)) && !Posted(log, Reverse(id))
  }

  /** What makes the money match, step after step. */
  ghost predicate RowInv(db: Db, id: nat, row: DepositRow) {
    match row.status
    case Confirmed =>
      && row.posting.Some?
      && Find(db.log, Confirm(id)) == row.posting
      && !Posted(db.log, Reverse(id))
      && var fee := FeeFor(db.fees, row.posting.value);
      && 0 <= fee < row.amount
      && db.log[row.posting.value].entries == EntriesOf(CreditDeposit(row.user, id, row.amount, fee))
    case Orphaned => forall a :: DepositNet(db.log, id, a) == 0
    case _ => row.posting.None? && Untouched(db.log, id)
  }

  ghost predicate Inv(b: Book) {
    && Valid(b.db)
    && (forall id | 0 <= id < |b.deposits| :: RowInv(b.db, id, b.deposits[id]))
    && (forall id: nat | |b.deposits| <= id :: Untouched(b.db.log, id))
  }

  lemma ConfirmedNet(db: Db, id: nat, row: DepositRow, a: Account)
    requires RowInv(db, id, row) && row.status == Confirmed
    ensures var c := CreditDeposit(row.user, id, row.amount, FeeFor(db.fees, row.posting.value));
            WellFormed(c) && DepositNet(db.log, id, a) == NetOf(db.log, Confirm(id), a) == Delta(c, a)
  {
    EntriesOn(CreditDeposit(row.user, id, row.amount, FeeFor(db.fees, row.posting.value)), a);
  }

  lemma RowInvMatches(db: Db, id: nat, row: DepositRow)
    requires RowInv(db, id, row)
    ensures MoneyMatches(db.log, id, row)
  {
    if row.status == Confirmed {
      forall a ensures DepositNet(db.log, id, a) ==
                       Delta(CreditDeposit(row.user, id, row.amount, FeeFor(db.fees, row.posting.value)), a)
      {
        ConfirmedNet(db, id, row, a);
      }
      ConfirmedNet(db, id, row, FeeRevenue);
    }
  }

  // ------------------------------------------------------------- Fee linkage

  lemma {:induction false} NoRowNoFee(fees: seq<FeeRow>, posting: nat)
    requires !HasFeeRow(fees, posting)
    ensures FeeFor(fees, posting) == 0
    ensures forall row: FeeRow :: FeeFor(fees + [row], posting) == if row.posting == posting then row.amount else 0
  {
    if fees != [] {
      assert forall i | 0 <= i < |fees[1..]| :: fees[1..][i] == fees[i + 1];
      NoRowNoFee(fees[1..], posting);
      assert fees[0].posting != posting;
      assert forall row: FeeRow :: (fees + [row])[1..] == fees[1..] + [row];
    } else {
      assert forall row: FeeRow :: fees + [row] == [row];
      assert forall row: FeeRow :: [row][1..] == [];
    }
  }

  lemma {:induction false} FeeForKept(fees: seq<FeeRow>, row: FeeRow, posting: nat)
    requires row.posting != posting
    ensures FeeFor(fees + [row], posting) == FeeFor(fees, posting)
  {
    if fees != [] {
      assert (fees + [row])[1..] == fees[1..] + [row];
      FeeForKept(fees[1..], row, posting);
    } else {
      assert fees + [row] == [row] && [row][1..] == [];
    }
  }

  /** A command's fee row, fresh or stray, is linked to the posting under its own key. */
  ghost predicate FeesUnderKey(db: Db, c: Command, o: Outcome) {
    || o.db.fees == db.fees
    || exists row: FeeRow ::
         && o.db.fees == db.fees + [row]
         && Find(o.db.log, KeyOf(c)) == Some(row.posting)
  }

  lemma ExecFeesUnderKey(db: Db, c: Command)
    requires Valid(db)
    ensures FeesUnderKey(db, c, Exec(db, c))
  {
    ExecMeaning(db, c);
    var o := Exec(db, c);
    if Posted(db.log, KeyOf(c)) {
      LedgerRuns.ReplayFees(db, c);
    } else if o.result.Ok? {
      FindAppend(db.log, PostingOf(c));
      if FeeOf(c).Some? {
        assert o.db.fees == db.fees + [FeeRowsOf(c, o.result.value)[0]];
      } else {
        assert o.db.fees == db.fees;
      }
    }
  }

  /** A command under some other key leaves a deposit's postings and fee as they were. */
  lemma OtherKeyKeepsRow(db: Db, c: Command, o: Outcome, id: nat, row: DepositRow)
    requires Valid(db) && Meaning(db, c, o) && FeesUnderKey(db, c, o)
    requires KeyOf(c) != Confirm(id) && KeyOf(c) != Reverse(id)
    ensures forall a :: DepositNet(o.db.log, id, a) == DepositNet(db.log, id, a)
    ensures Untouched(o.db.log, id) == Untouched(db.log, id)
    ensures RowInv(db, id, row) ==> RowInv(o.db, id, row)
  {
    FindAppend(db.log, PostingOf(c));
    if o.db.fees != db.fees && row.posting.Some? && Find(o.db.log, Confirm(id)) == row.posting {
      var added: FeeRow :| o.db.fees == db.fees + [added] && Find(o.db.log, KeyOf(c)) == Some(added.posting);
      FeeForKept(db.fees, added, row.posting.value);
    }
  }

  // --------------------------------------------------------- Credit, reverse

  lemma DepositCommandFresh(db: Db, c: Command, o: Outcome)
    requires Meaning(db, c, o) && (c.CreditDeposit? || c.ReverseDeposit?)
    requires Untouched(db.log, c.deposit) || c.ReverseDeposit?
    requires !Posted(db.log, KeyOf(c)) && o.result.Ok?
    ensures WellFormed(c)
    ensures Find(o.db.log, KeyOf(c)) == Some(|db.log|)
    ensures o.db.log[|db.log|].entries == EntriesOf(c)
    ensures forall a :: NetOf(o.db.log, KeyOf(c), a) == Delta(c, a)
    ensures forall k :: k != KeyOf(c) ==> Find(o.db.log, k) == Find(db.log, k)
    ensures forall k, a :: k != KeyOf(c) ==> NetOf(o.db.log, k, a) == NetOf(db.log, k, a)
  {
    FindAppend(db.log, PostingOf(c));
    forall a ensures NetOn(EntriesOf(c), a) == Delta(c, a) { EntriesOn(c, a); }
  }

  /** The fee row that went in with a fresh credit is the one found from the posting. */
  lemma CreditFeeFound(db: Db, c: Command, o: Outcome)
    requires Valid(db) && Meaning(db, c, o) && c.CreditDeposit? && !Posted(db.log, KeyOf(c)) && o.result.Ok?
    ensures FeeFor(o.db.fees, o.result.value) == c.fee
  {
    assert !HasFeeRow(db.fees, |db.log|);
    NoRowNoFee(db.fees, |db.log|);
    if c.fee > 0 {
      assert o.db.fees == db.fees + [FeeRow(c.user, OnDeposit, c.fee, |db.log|)];
    } else {
      assert o.db.fees == db.fees;
    }
  }

  /** A pending row credited: its new state is right if the update followed, wrong if not. */
  lemma CreditedRow(db: Db, id: nat, row: DepositRow, c: Command, o: Outcome, now: int)
    requires Valid(db) && RowInv(db, id, row) && IsPending(row)
    requires c.CreditDeposit? && c.user == row.user && c.deposit == id && c.amount == row.amount
    requires Meaning(db, c, o) && o.result.Ok?
    ensures RowInv(o.db, id, row.(status := Confirmed, confirmedAt := now, posting := Some(o.result.value)))
    ensures !MoneyMatches(o.db.log, id, row)
    ensures Find(o.db.log, Confirm(id)).Some?
  {
    DepositCommandFresh(db, c, o);
    CreditFeeFound(db, c, o);
    assert DepositNet(o.db.log, id, Clearing) == -row.amount;
  }

  /** A confirmed row reversed, with the fee it was credited with: net zero on every account. */
  lemma ReversedRow(db: Db, id: nat, row: DepositRow, c: Command, o: Outcome)
    requires Valid(db) && RowInv(db, id, row) && row.status == Confirmed
    requires c == ReverseCommand(db, row, id)
    requires Meaning(db, c, o)
    ensures o.result.Ok?
    ensures RowInv(o.db, id, row.(status := Orphaned))
    ensures !MoneyMatches(o.db.log, id, row)
  {
    DepositCommandFresh(db, c, o);
    forall a ensures DepositNet(o.db.log, id, a) == 0 {
      ConfirmedNet(db, id, row, a);
    }
    assert DepositNet(o.db.log, id, Clearing) == 0;
  }

  /** A step that runs one deposit command, then updates that row or dies first. */
  lemma PostingStep(b: Book, id: nat, c: Command, o: Outcome, crashes: bool, row: DepositRow)
    requires Inv(b) && id < |b.deposits| && o == Exec(b.db, c)
    requires (c.CreditDeposit? || c.ReverseDeposit?) && c.deposit == id
    requires o.result.Ok? ==> RowInv(o.db, id, row)
    requires o.result.Ok? ==> !MoneyMatches(o.db.log, id, b.deposits[id])
    ensures var (b', ending) := AfterPosting(b, id, o, crashes, row);
            && (AllMatch(b') <==> !ending.Crashed?)
            && (!ending.Crashed? ==> Inv(b'))
  {
    ExecMeaning(b.db, c);
    ExecFeesUnderKey(b.db, c);
    forall j | 0 <= j < |b.deposits| && j != id ensures RowInv(o.db, j, b.deposits[j]) {
      OtherKeyKeepsRow(b.db, c, o, j, b.deposits[j]);
    }
    forall j: nat | |b.deposits| <= j ensures Untouched(o.db.log, j) {
      OtherKeyKeepsRow(b.db, c, o, j, row);
    }
    var (b', ending) := AfterPosting(b, id, o, crashes, row);
    if !ending.Crashed? {
      InvMatches(b');
    } else {
      assert b'.deposits[id] == b.deposits[id];
    }
  }

  lemma InvMatches(b: Book)
    requires Inv(b)
    ensures AllMatch(b)
  {
    forall id | 0 <= id < |b.deposits| ensures MoneyMatches(b.db.log, id, b.deposits[id]) {
      RowInvMatches(b.db, id, b.deposits[id]);
    }
  }

  lemma CreditStep(b: Book, id: nat, env: Env)
    requires Inv(b) && id < |b.deposits| && IsPending(b.deposits[id])
    ensures var (b', ending) := CreditRow(b, id, env);
            (AllMatch(b') <==> !ending.Crashed?) && (!ending.Crashed? ==> Inv(b'))
  {
    var row := b.deposits[id];
    var c := CreditCommand(row, id, env.rates);
    var o := Exec(b.db, c);
    ExecMeaning(b.db, c);
    if o.result.Ok? {
      CreditedRow(b.db, id, row, c, o, env.now);
      PostingStep(b, id, c, o, env.crashes,
                  row.(status := Confirmed, confirmedAt := env.now, posting := Some(o.result.value)));
    } else {
      InvMatches(b);
    }
  }

  lemma WatchStep(b: Book, id: nat, reading: Reading, crashes: bool)
    requires Inv(b) && id < |b.deposits| && b.deposits[id].status == Confirmed
    ensures var (b', ending) := Watch(b, id, reading, crashes);
            (AllMatch(b') <==> !ending.Crashed?) && (!ending.Crashed? ==> Inv(b'))
  {
    if reading.Vanished? {
      var row := b.deposits[id];
      var c := ReverseCommand(b.db, row, id);
      ExecMeaning(b.db, c);
      ReversedRow(b.db, id, row, c, Exec(b.db, c));
      PostingStep(b, id, c, Exec(b.db, c), crashes, row.(status := Orphaned));
    } else {
      InvMatches(b);
    }
  }

  /** A row update without a posting: only between states that hold no money. */
  lemma QuietUpdate(b: Book, id: nat, status: DepositStatus)
    requires Inv(b) && id < |b.deposits| && IsPending(b.deposits[id]) && status != Confirmed
    ensures Inv(WithRow(b, id, b.deposits[id].(status := status)))
  {
  }

  lemma AdvanceStep(b: Book, id: nat, env: Env)
    requires Inv(b) && id < |b.deposits|
    ensures var (b', ending) := Advance(b, id, env);
            (AllMatch(b') <==> !ending.Crashed?) && (!ending.Crashed? ==> Inv(b'))
  {
    InvMatches(b);
    var row := b.deposits[id];
    if IsPending(row) {
      match env.reading
      case ReadFails =>
      case Vanished =>
        QuietUpdate(b, id, Orphaned);
        InvMatches(WithRow(b, id, row.(status := Orphaned)));
      case Depth(n) =>
        if n < row.required {
          QuietUpdate(b, id, Confirming);
          InvMatches(WithRow(b, id, row.(status := Confirming)));
        } else {
          CreditStep(b, id, env);
        }
    }
  }

  lemma RecordStep(b: Book, t: Transfer, now: int)
    requires Inv(b)
    ensures Inv(Record(b, t, now).0)
    ensures Record(b, t, now).1.Some? ==> Record(b, t, now).1.value < |Record(b, t, now).0.deposits|
  {
  }

  lemma OtherStep(b: Book, c: Command)
    requires Inv(b) && Elsewhere(c)
    ensures Inv(b.(db := Exec(b.db, c).db))
  {
    var o := Exec(b.db, c);
    ExecMeaning(b.db, c);
    ExecFeesUnderKey(b.db, c);
    forall j | 0 <= j < |b.deposits| ensures RowInv(o.db, j, b.deposits[j]) {
      OtherKeyKeepsRow(b.db, c, o, j, b.deposits[j]);
    }
    forall j: nat | |b.deposits| <= j ensures Untouched(o.db.log, j) {
      OtherKeyKeepsRow(b.db, c, o, j, DepositRow("", 0, "", "", 0, Failed, 0, 0, 0, None));
    }
  }

  /**
   * From a matching book, a step leaves every deposit's money agreeing with
   * its status exactly when it does not die between posting and row update.
   */
  lemma DepositStepMatches(b: Book, step: DepositStep)
    requires Inv(b)
    ensures AllMatch(Next(b, step)) <==> !Dies(b, step)
    ensures !Dies(b, step) ==> Inv(Next(b, step))
  {
    DiesIff(b, step);
    InvMatches(b);
    match step
    case Seen(t, env) =>
      RecordStep(b, t, env.now);
      var (recorded, id) := Record(b, t, env.now);
      InvMatches(recorded);
      if id.Some? { AdvanceStep(recorded, id.value, env); }
    case Walk(id, env) => if id < |b.deposits| { AdvanceStep(b, id, env); }
    case Recheck(id, reading, crashes) =>
      if id < |b.deposits| && b.deposits[id].status == Confirmed { WatchStep(b, id, reading, crashes); }
    case Other(c) =>
      if Elsewhere(c) {
        OtherStep(b, c);
        InvMatches(b.(db := Exec(b.db, c).db));
      }
  }

  /** A crediting step whose posting goes through and whose process dies before the row update. */
  predicate DiesCrediting(row: DepositRow, env: Env) {
    && IsPending(row)
    && env.reading.Depth? && env.reading.n >= row.required
    && DepositFee(env.rates, row.amount) < row.amount
    && env.crashes
  }

  /** The steps that die between posting and row update, said of what goes into them. */
  predicate Dies(b: Book, step: DepositStep) {
    match step
    case Seen(t, env) =>
      (match RowFor(b.deposits, t)
       case Some(id) => OwnerOf(b, t).Some? && DiesCrediting(b.deposits[id], env)
       case None => OwnerOf(b, t).Some? && DiesCrediting(NewDeposit(b, t, OwnerOf(b, t).value, env.now), env))
    case Walk(id, env) => id < |b.deposits| && DiesCrediting(b.deposits[id], env)
    case Recheck(id, reading, crashes) =>
      id < |b.deposits| && b.deposits[id].status == Confirmed && reading.Vanished? && crashes
    case Other(_) => false
  }

  /** A fresh credit goes through exactly when its fee is below the amount. */
  lemma CreditGoesThrough(db: Db, row: DepositRow, id: nat, rates: Rates)
    requires Valid(db)
    ensures Exec(db, CreditCommand(row, id, rates)).result.Ok? <==> DepositFee(rates, row.amount) < row.amount
    ensures Exec(db, CreditCommand(row, id, rates)).result.Err? ==> Exec(db, CreditCommand(row, id, rates)).db == db
  {
    ExecMeaning(db, CreditCommand(row, id, rates));
    DepositFeeAtMost(rates, row.amount);
  }

  lemma AdvanceDies(b: Book, id: nat, env: Env)
    requires Inv(b) && id < |b.deposits|
    ensures Advance(b, id, env).1.Crashed? <==> DiesCrediting(b.deposits[id], env)
  {
    CreditGoesThrough(b.db, b.deposits[id], id, env.rates);
  }

  lemma WatchDies(b: Book, id: nat, reading: Reading, crashes: bool)
    requires Inv(b) && id < |b.deposits| && b.deposits[id].status == Confirmed
    ensures Watch(b, id, reading, crashes).1.Crashed? <==> reading.Vanished? && crashes
  {
    var c := ReverseCommand(b.db, b.deposits[id], id);
    ExecMeaning(b.db, c);
    ReversedRow(b.db, id, b.deposits[id], c, Exec(b.db, c));
  }

  lemma DiesIff(b: Book, step: DepositStep)
    requires Inv(b)
    ensures Step(b, step).1.Crashed? <==> Dies(b, step)
  {
    match step
    case Seen(t, env) =>
      RecordStep(b, t, env.now);
      var (recorded, id) := Record(b, t, env.now);
      if id.Some? { AdvanceDies(recorded, id.value, env); }
    case Walk(id, env) => if id < |b.deposits| { AdvanceDies(b, id, env); }
    case Recheck(id, reading, crashes) =>
      if id < |b.deposits| && b.deposits[id].status == Confirmed { WatchDies(b, id, reading, crashes); }
    case Other(_) =>
  }

  /** No step of a run dies when its turn comes. */
  predicate NoneDies(b: Book, steps: seq<DepositStep>)
    decreases |steps|
  {
    steps == [] || (!Dies(b, steps[0]) && NoneDies(Next(b, steps[0]), steps[1..]))
  }

  ghost predicate MatchesThroughout(b: Book, steps: seq<DepositStep>)
    decreases |steps|
  {
    AllMatch(b) && (steps == [] || MatchesThroughout(Next(b, steps[0]), steps[1..]))
  }

  /** Money agrees with the rows throughout exactly the runs in which no step dies half way, whatever the rates. */
  lemma {:induction false} MatchesThroughoutIffNoneDies(b: Book, steps: seq<DepositStep>)
    requires Inv(b)
    ensures MatchesThroughout(b, steps) <==> NoneDies(b, steps)
    decreases |steps|
  {
    InvMatches(b);
    if steps == [] {
    } else {
      DepositStepMatches(b, steps[0]);
      if !Dies(b, steps[0]) {
        MatchesThroughoutIffNoneDies(Next(b, steps[0]), steps[1..]);
      } else {
        assert !AllMatch(Next(b, steps[0]));
      }
    }
  }

  lemma EmptyBookMatches(addresses: map<(string, string), string>, config: Config)
    ensures Inv(Book(EMPTY_DB, [], addresses, config))
  {
  }

  /** From nothing: money and rows agree throughout exactly the runs in which no step dies half way. */
  lemma FromEmptyIffNoneDies(addresses: map<(string, string), string>, config: Config, steps: seq<DepositStep>)
    ensures var b := Book(EMPTY_DB, [], addresses, config);
            MatchesThroughout(b, steps) <==> NoneDies(b, steps)
  {
    EmptyBookMatches(addresses, config);
    MatchesThroughoutIffNoneDies(Book(EMPTY_DB, [], addresses, config), steps);
  }

  /** A step that dies: the first sighting of a transfer of ours, deep already, creditable, and the process gone. */
  lemma FirstSightDies(addresses: map<(string, string), string>, config: Config, t: Transfer, env: Env)
    requires config.contract.None? && t.amount >= config.minAmount && (t.network, t.toAddress) in addresses
    requires env.reading.Depth? && env.reading.n >= config.confirmations && env.crashes
    requires DepositFee(env.rates, t.amount) < t.amount
    ensures var b := Book(EMPTY_DB, [], addresses, config);
            Inv(b) && Dies(b, Seen(t, env)) && !AllMatch(Next(b, Seen(t, env)))
  {
    EmptyBookMatches(addresses, config);
    DepositStepMatches(Book(EMPTY_DB, [], addresses, config), Seen(t, env));
  }
}
