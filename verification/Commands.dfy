/**
 * What each ledger command means: the tables it reads and writes, how it is
 * planned from what it reads, and how a plan is committed.
 *
 * A command runs as one database transaction. Plan is the part that reads;
 * Commit is the part that inserts, where the unique indexes on idempotency keys
 * and on a fee row's ledger transaction have the last word.
 */
module Commands {
  import opened Wrappers
  import opened Postings

  datatype FeeKind = OnDeposit | OnCardSpend | OnPlan | OnIssuance

  datatype FeeRow = FeeRow(user: string, kind: FeeKind, amount: int, posting: nat)

  /** The accounts, the append-only log (a posting's id is its index), the fees. */
  datatype Db = Db(accounts: set<Account>, log: Log, fees: seq<FeeRow>)

  datatype Error =
    | Imbalance
    | InsufficientBalance(available: int, required: int)
    | BadDepositFee
    | FeeNotPositive
    | AmountZero
    | DuplicateKey

  datatype Command =
    | CreditDeposit(user: string, deposit: nat, amount: int, fee: int)
    | ReverseDeposit(user: string, deposit: nat, amount: int, fee: int)
    | ChargeFee(user: string, key: Key, amount: int, kind: FeeKind)
    | PlaceHold(user: string, key: Key, amount: int)
    | ReleaseHold(user: string, key: Key, amount: int)
    | SettleAuthorization(user: string, key: Key, held: int, settled: int, fee: int)
    | CreditRefund(user: string, key: Key, amount: int)
    | PostAdjustment(user: string, key: Key, amount: int)

  datatype Outcome = Outcome(db: Db, result: Result<nat, Error>)

  function KeyOf(c: Command): Key {
    match c
    case CreditDeposit(_, id, _, _) => Confirm(id)
    case ReverseDeposit(_, id, _, _) => Reverse(id)
    case _ => c.key
  }

  function KindOf(c: Command): PostingKind {
    match c
    case CreditDeposit(_, _, _, _) => DepositConfirmed
    case ReverseDeposit(_, _, _, _) => DepositReversed
    case ChargeFee(_, _, _, _) => FeeCharged
    case PlaceHold(_, _, _) => Authorization
    case ReleaseHold(_, _, _) => AuthorizationReversal
    case SettleAuthorization(_, _, _, _, _) => Settled
    case CreditRefund(_, _, _) => Refunded
    case PostAdjustment(_, _, _) => Adjusted
  }

  function CreditIfAny(a: Account, amount: int): seq<Entry> {
    if amount > 0 then [Entry(a, Credit, amount)] else []
  }

  /** What the hold does not cover is taken from available; the rest goes back. */
  function Remainder(u: string, remainder: int): seq<Entry> {
    if remainder < 0 then [Entry(Available(u), Debit, -remainder)]
    else CreditIfAny(Available(u), remainder)
  }

  /** The entry list each command builds, in the order it pushes them. */
  function EntriesOf(c: Command): seq<Entry> {
    match c
    case CreditDeposit(u, _, amount, fee) =>
      [Entry(Clearing, Debit, amount), Entry(Available(u), Credit, amount - fee)] +
      CreditIfAny(FeeRevenue, fee)
    case ReverseDeposit(u, _, amount, fee) =>
      [Entry(Available(u), Debit, amount - fee), Entry(Clearing, Credit, amount)] +
      (if fee > 0 then [Entry(FeeRevenue, Debit, fee)] else [])
    case ChargeFee(u, _, amount, _) =>
      [Entry(Available(u), Debit, amount), Entry(FeeRevenue, Credit, amount)]
    case PlaceHold(u, _, amount) =>
      [Entry(Available(u), Debit, amount), Entry(Held(u), Credit, amount)]
    case ReleaseHold(u, _, amount) =>
      [Entry(Held(u), Debit, amount), Entry(Available(u), Credit, amount)]
    case SettleAuthorization(u, _, held, settled, fee) =>
      [Entry(Held(u), Debit, held)] +
      CreditIfAny(CardSettlement, settled) +
      CreditIfAny(FeeRevenue, fee) +
      Remainder(u, held - settled - fee)
    case CreditRefund(u, _, amount) =>
      [Entry(CardSettlement, Debit, amount), Entry(Available(u), Credit, amount)]
    case PostAdjustment(u, _, amount) =>
      if amount > 0 then
        [Entry(Adjustment, Debit, amount), Entry(Available(u), Credit, amount)]
      else
        [Entry(Available(u), Debit, -amount), Entry(Adjustment, Credit, -amount)]
  }

  /** The accounts a command makes sure exist before it posts. */
  function AccountsOf(c: Command): set<Account> {
    match c
    case CreditDeposit(u, _, _, fee) => {Available(u), Clearing} + if fee > 0 then {FeeRevenue} else {}
    case ReverseDeposit(u, _, _, fee) => {Available(u), Clearing} + if fee > 0 then {FeeRevenue} else {}
    case ChargeFee(u, _, _, _) => {Available(u), FeeRevenue}
    case PlaceHold(u, _, _) => {Available(u), Held(u)}
    case ReleaseHold(u, _, _) => {Available(u), Held(u)}
    case SettleAuthorization(u, _, _, _, fee) =>
      {Available(u), Held(u), CardSettlement} + if fee > 0 then {FeeRevenue} else {}
    case CreditRefund(u, _, _) => {Available(u), CardSettlement}
    case PostAdjustment(u, _, _) => {Available(u), Adjustment}
  }

  function PostingOf(c: Command): Posting {
    Posting(KindOf(c), KeyOf(c), EntriesOf(c))
  }

  /** The fee row a command records with its posting. */
  function FeeOf(c: Command): Option<(FeeKind, int)> {
    match c
    case CreditDeposit(_, _, _, fee) => if fee > 0 then Some((OnDeposit, fee)) else None
    case SettleAuthorization(_, _, _, _, fee) => if fee > 0 then Some((OnCardSpend, fee)) else None
    case ChargeFee(_, _, amount, kind) => Some((kind, amount))
    case _ => None
  }

  /** Commands that look their key up before anything else and stop if it is there. */
  predicate LooksUpFirst(c: Command) {
    c.ChargeFee? || c.PlaceHold?
  }

  /** What a command needs available; commands that do not check need nothing. */
  function Required(c: Command): Option<int> {
    match c
    case ChargeFee(_, _, amount, _) => Some(amount)
    case PlaceHold(_, _, amount) => Some(amount)
    case PostAdjustment(_, _, amount) => if amount < 0 then Some(-amount) else None
    case _ => None
  }

  /** Arguments refused before the database is touched. */
  function Refusal(c: Command): Option<Error> {
    match c
    case CreditDeposit(_, _, amount, fee) => if fee < 0 || fee > amount then Some(BadDepositFee) else None
    case ChargeFee(_, _, amount, _) => if amount <= 0 then Some(FeeNotPositive) else None
    case PostAdjustment(_, _, amount) => if amount == 0 then Some(AmountZero) else None
    case _ => None
  }

  // ------------------------------------------------------- Plan and commit

  /** What a transaction decided from its reads. */
  datatype Plan =
    | Reject(error: Error)
    | Return(id: nat)     // the key was found first: nothing else happens
    | Deduplicate(id: nat) // post found the key: accounts and fee row still follow
    | Insert

  function PlanOf(db: Db, c: Command): Plan {
    var found := Find(db.log, KeyOf(c));
    if Refusal(c).Some? then Reject(Refusal(c).value)
    else if LooksUpFirst(c) && found.Some? then Return(found.value)
    else if Required(c).Some? && Balance(db.log, Available(c.user)) < Required(c).value then
      Reject(InsufficientBalance(Balance(db.log, Available(c.user)), Required(c).value))
    else if !Balanced(EntriesOf(c)) then Reject(Imbalance)
    else if found.Some? then Deduplicate(found.value)
    else Insert
  }

  predicate HasFeeRow(fees: seq<FeeRow>, posting: nat) {
    exists i | 0 <= i < |fees| :: fees[i].posting == posting
  }

  /** A unique-index violation rolls back; the key is then looked up afresh. */
  function ResolveDuplicate(db: Db, key: Key): Outcome {
    match Find(db.log, key)
    case Some(id) => Outcome(db, Ok(id))
    case None => Outcome(db, Err(DuplicateKey))
  }

  /** The fee row goes in with the posting, or the whole transaction rolls back. */
  function RecordFee(before: Db, db: Db, c: Command, id: nat): Outcome {
    match FeeOf(c)
    case None => Outcome(db, Ok(id))
    case Some((kind, amount)) =>
      if HasFeeRow(db.fees, id) then ResolveDuplicate(before, KeyOf(c))
      else Outcome(db.(fees := db.fees + [FeeRow(c.user, kind, amount, id)]), Ok(id))
  }

  /** Carry out a plan on the database as it is at commit. */
  function Commit(db: Db, c: Command, plan: Plan): Outcome {
    match plan
    case Reject(e) => Outcome(db, Err(e))
    case Return(id) => Outcome(db, Ok(id))
    case Deduplicate(id) =>
      RecordFee(db, db.(accounts := db.accounts + AccountsOf(c)), c, id)
    case Insert =>
      if Posted(db.log, KeyOf(c)) then ResolveDuplicate(db, KeyOf(c))
      else
        RecordFee(db, Db(db.accounts + AccountsOf(c), db.log + [PostingOf(c)], db.fees), c, |db.log|)
  }

  /** A command run alone: plan and commit on one state of the database. */
  function Exec(db: Db, c: Command): Outcome {
    Commit(db, c, PlanOf(db, c))
  }

  function Serial(db: Db, cs: seq<Command>): Db
    decreases |cs|
  {
    if cs == [] then db else Serial(Exec(db, cs[0]).db, cs[1..])
  }

  const EMPTY_DB := Db({}, [], [])

  ghost predicate FeesLinked(db: Db) {
    && (forall i | 0 <= i < |db.fees| :: db.fees[i].posting < |db.log|)
    && (forall i, j | 0 <= i < j < |db.fees| :: db.fees[i].posting != db.fees[j].posting)
  }

  /** The schema's constraints plus I1 and I3. */
  ghost predicate Valid(db: Db) {
    && UniqueKeys(db.log)
    && AllBalanced(db.log)
    && AccountsKnown(db.accounts, db.log)
    && FeesLinked(db)
  }

  // -------------------------------------------------------- What it all means

  /** What one accepted, not yet posted command does to the balance of an account. */
  function Delta(c: Command, a: Account): int {
    match c
    case CreditDeposit(u, _, amount, fee) =>
      if a == Available(u) then amount - fee else if a == FeeRevenue then fee else if a == Clearing then -amount else 0
    case ReverseDeposit(u, _, amount, fee) =>
      if a == Available(u) then fee - amount else if a == FeeRevenue then -fee else if a == Clearing then amount else 0
    case ChargeFee(u, _, amount, _) =>
      if a == Available(u) then -amount else if a == FeeRevenue then amount else 0
    case PlaceHold(u, _, amount) =>
      if a == Available(u) then -amount else if a == Held(u) then amount else 0
    case ReleaseHold(u, _, amount) =>
      if a == Held(u) then -amount else if a == Available(u) then amount else 0
    case SettleAuthorization(u, _, held, settled, fee) =>
      if a == Held(u) then -held
      else if a == Available(u) then held - settled - fee
      else if a == CardSettlement then settled
      else if a == FeeRevenue then fee
      else 0
    case CreditRefund(u, _, amount) =>
      if a == CardSettlement then -amount else if a == Available(u) then amount else 0
    case PostAdjustment(u, _, amount) =>
      if a == Adjustment then -amount else if a == Available(u) then amount else 0
  }

  /** The arguments for which the entry list of a command balances. */
  predicate WellFormed(c: Command) {
    match c
    case CreditDeposit(_, _, amount, fee) => 0 <= fee < amount
    case ReverseDeposit(_, _, amount, fee) => 0 <= fee < amount
    case SettleAuthorization(_, _, held, settled, fee) => held > 0 && settled >= 0 && fee >= 0
    case PostAdjustment(_, _, amount) => amount != 0
    case _ => c.amount > 0
  }

  lemma NetTriple(e: Entry, f: Entry, rest: seq<Entry>, a: Account)
    ensures Net([e, f] + rest) == Signed(e) + Signed(f) + Net(rest)
    ensures NetOn([e, f] + rest, a) == SignedOn(e, a) + SignedOn(f, a) + NetOn(rest, a)
  {
    NetConcat([e, f], rest);
    NetPair(e, f);
  }

  lemma NetCreditIfAny(owner: Account, amount: int, a: Account)
    ensures var es := CreditIfAny(owner, amount);
            && Net(es) == (if amount > 0 then amount else 0)
            && NetOn(es, a) == if amount > 0 && a == owner then amount else 0
  {
    NetSingle(Entry(owner, Credit, amount));
  }

  lemma NetRemainder(u: string, remainder: int, a: Account)
    ensures Net(Remainder(u, remainder)) == remainder
    ensures NetOn(Remainder(u, remainder), a) == if a == Available(u) then remainder else 0
  {
    NetSingle(Entry(Available(u), Debit, -remainder));
    NetCreditIfAny(Available(u), remainder, a);
  }

  lemma NetFour(es: seq<Entry>, fs: seq<Entry>, gs: seq<Entry>, hs: seq<Entry>, a: Account)
    ensures Net(es + fs + gs + hs) == Net(es) + Net(fs) + Net(gs) + Net(hs)
    ensures NetOn(es + fs + gs + hs, a) == NetOn(es, a) + NetOn(fs, a) + NetOn(gs, a) + NetOn(hs, a)
  {
    NetConcat(es, fs);
    NetConcat(es + fs, gs);
    NetConcat(es + fs + gs, hs);
  }

  /** The settlement list, branch by branch: its net and its effect. */
  lemma SettlementNets(u: string, key: Key, held: int, settled: int, fee: int, a: Account)
    ensures var es := EntriesOf(SettleAuthorization(u, key, held, settled, fee));
            && Net(es) == (if settled > 0 then 0 else -settled) + (if fee > 0 then 0 else -fee)
            && (settled >= 0 && fee >= 0 ==>
                  NetOn(es, a) == Delta(SettleAuthorization(u, key, held, settled, fee), a))
  {
    NetSingle(Entry(Held(u), Debit, held));
    NetCreditIfAny(CardSettlement, settled, a);
    NetCreditIfAny(FeeRevenue, fee, a);
    NetRemainder(u, held - settled - fee, a);
    NetFour([Entry(Held(u), Debit, held)], CreditIfAny(CardSettlement, settled),
            CreditIfAny(FeeRevenue, fee), Remainder(u, held - settled - fee), a);
  }

  lemma DepositNets(c: Command, a: Account)
    requires c.CreditDeposit? || c.ReverseDeposit?
    ensures Net(EntriesOf(c)) ==
            if c.fee > 0 then 0 else if c.CreditDeposit? then -c.fee else c.fee
    ensures c.fee >= 0 ==> NetOn(EntriesOf(c), a) == Delta(c, a)
  {
    var es := EntriesOf(c);
    NetSingle(Entry(FeeRevenue, Debit, c.fee));
    NetCreditIfAny(FeeRevenue, c.fee, a);
    NetTriple(es[0], es[1], es[2..], a);
    assert es == [es[0], es[1]] + es[2..];
  }

  /** Exactly the well-formed commands pass assertBalanced, and post their table. */
  lemma EntriesMeaning(c: Command)
    ensures Refusal(c).None? ==> (Balanced(EntriesOf(c)) <==> WellFormed(c))
    ensures WellFormed(c) ==> Refusal(c).None? && forall a :: NetOn(EntriesOf(c), a) == Delta(c, a)
  {
    forall a ensures WellFormed(c) ==> NetOn(EntriesOf(c), a) == Delta(c, a) {
      EntriesOn(c, a);
    }
    EntriesOn(c, FeeRevenue);
  }

  lemma EntriesOn(c: Command, a: Account)
    ensures Refusal(c).None? ==> (Balanced(EntriesOf(c)) <==> WellFormed(c))
    ensures WellFormed(c) ==> NetOn(EntriesOf(c), a) == Delta(c, a)
  {
    match c {
      case CreditDeposit(_, _, _, _) => DepositBalances(c, a);
      case ReverseDeposit(_, _, _, _) => DepositBalances(c, a);
      case SettleAuthorization(u, key, held, settled, fee) =>
        SettlementNets(u, key, held, settled, fee, a);
        assert EntriesOf(c)[0].amount == held;
      case _ => PairBalances(c, a);
    }
  }

  lemma DepositBalances(c: Command, a: Account)
    requires c.CreditDeposit? || c.ReverseDeposit?
    ensures Refusal(c).None? ==> (Balanced(EntriesOf(c)) <==> WellFormed(c))
    ensures WellFormed(c) ==> NetOn(EntriesOf(c), a) == Delta(c, a)
  {
    var es := EntriesOf(c);
    DepositNets(c, a);
    assert es[0].amount + es[1].amount == c.amount + c.amount - c.fee;
  }

  /** The commands that move one amount between two accounts. */
  lemma PairBalances(c: Command, a: Account)
    requires !c.CreditDeposit? && !c.ReverseDeposit? && !c.SettleAuthorization?
    ensures Refusal(c).None? ==> (Balanced(EntriesOf(c)) <==> WellFormed(c))
    ensures NetOn(EntriesOf(c), a) == Delta(c, a)
  {
    var es := EntriesOf(c);
    NetPair(es[0], es[1]);
    assert es == [es[0], es[1]];
    assert es[0].amount > 0 <==> WellFormed(c);
  }

  lemma AccountsCovered(c: Command)
    ensures forall j | 0 <= j < |EntriesOf(c)| :: EntriesOf(c)[j].account in AccountsOf(c)
  {
  }

  /** Success, said without the branches: what a caller can check beforehand. */
  predicate Succeeds(db: Db, c: Command) {
    if LooksUpFirst(c) && Posted(db.log, KeyOf(c)) then
      c.ChargeFee? ==> c.amount > 0
    else
      WellFormed(c) && (Required(c).Some? ==> Balance(db.log, Available(c.user)) >= Required(c).value)
  }

  lemma InsertKeepsValid(db: Db, c: Command)
    requires Valid(db) && Balanced(EntriesOf(c)) && !Posted(db.log, KeyOf(c))
    ensures Valid(Db(db.accounts + AccountsOf(c), db.log + [PostingOf(c)], db.fees))
  {
    AccountsCovered(c);
    var log := db.log + [PostingOf(c)];
    forall i, j | 0 <= i < |log| && 0 <= j < |log[i].entries|
      ensures log[i].entries[j].account in db.accounts + AccountsOf(c)
    {
      if i < |db.log| { assert db.log[i].entries[j].account in db.accounts; }
    }
  }

  lemma CommitInsert(db: Db, c: Command)
    requires Valid(db) && Balanced(EntriesOf(c)) && !Posted(db.log, KeyOf(c))
    ensures var Outcome(db', r) := Commit(db, c, Insert);
            && Valid(db')
            && r == Ok(|db.log|)
            && db'.log == db.log + [PostingOf(c)]
            && db'.fees == db.fees + FeeRowsOf(c, |db.log|)
  {
    InsertKeepsValid(db, c);
  }

  lemma CommitDuplicate(db: Db, c: Command, id: nat)
    requires Valid(db) && Find(db.log, KeyOf(c)) == Some(id)
    ensures var Outcome(db', r) := Commit(db, c, Deduplicate(id));
            Valid(db') && r == Ok(id) && db'.log == db.log
  {
    forall i, j | 0 <= i < |db.log| && 0 <= j < |db.log[i].entries|
      ensures db.log[i].entries[j].account in db.accounts + AccountsOf(c)
    {
      assert db.log[i].entries[j].account in db.accounts;
    }
  }

  /**
   * The contract of every money movement. It succeeds exactly when Succeeds
   * says so; a failure changes nothing; a posted key returns its original id
   * and leaves the log alone; otherwise one posting is appended, under the
   * command's key, and every account moves by its Delta and no other way.
   */
  ghost predicate Meaning(db: Db, c: Command, o: Outcome) {
    var Outcome(db', r) := o;
    && (r.Ok? <==> Succeeds(db, c))
    && (r.Err? ==> db' == db)
    && (r.Ok? && Posted(db.log, KeyOf(c)) ==> db'.log == db.log && Some(r.value) == Find(db.log, KeyOf(c)))
    && (r.Ok? && !Posted(db.log, KeyOf(c)) ==>
          && r.value == |db.log|
          && db'.log == db.log + [PostingOf(c)]
          && WellFormed(c)
          && db'.fees == db.fees + FeeRowsOf(c, r.value)
          && forall a :: Balance(db'.log, a) == Balance(db.log, a) + Delta(c, a))
  }

  function FeeRowsOf(c: Command, id: nat): seq<FeeRow> {
    match FeeOf(c)
    case None => []
    case Some((kind, amount)) => [FeeRow(c.user, kind, amount, id)]
  }

  lemma ExecMeaning(db: Db, c: Command)
    requires Valid(db)
    ensures Meaning(db, c, Exec(db, c))
    ensures Valid(Exec(db, c).db)
  {
    EntriesMeaning(c);
    match PlanOf(db, c) {
      case Reject(_) =>
      case Return(_) =>
      case Deduplicate(id) => CommitDuplicate(db, c, id);
      case Insert =>
        CommitInsert(db, c);
        BalanceAppend(db.log, PostingOf(c));
    }
  }

  /** A posting was made, as opposed to a refusal or a replay. */
  predicate Fresh(db: Db, c: Command, o: Outcome) {
    o.result.Ok? && !Posted(db.log, KeyOf(c))
  }

  /** The type and key a movement is on record under. */
  predicate OnRecordAs(c: Command, p: Posting) {
    match c
    case CreditDeposit(_, id, _, _) => p.kind == DepositConfirmed && p.key == Confirm(id)
    case ReverseDeposit(_, id, _, _) => p.kind == DepositReversed && p.key == Reverse(id)
    case ChargeFee(_, key, _, _) => p.kind == FeeCharged && p.key == key
    case PlaceHold(_, key, _) => p.kind == Authorization && p.key == key
    case ReleaseHold(_, key, _) => p.kind == AuthorizationReversal && p.key == key
    case SettleAuthorization(_, key, _, _, _) => p.kind == Settled && p.key == key
    case CreditRefund(_, key, _) => p.kind == Refunded && p.key == key
    case PostAdjustment(_, key, _) => p.kind == Adjusted && p.key == key
  }

  /** The fee rows that go in with a movement: one for a positive fee or a charge, none otherwise. */
  predicate FeesOnRecord(c: Command, id: nat, rows: seq<FeeRow>) {
    match c
    case CreditDeposit(u, _, _, fee) => rows == if fee > 0 then [FeeRow(u, OnDeposit, fee, id)] else []
    case SettleAuthorization(u, _, _, _, fee) => rows == if fee > 0 then [FeeRow(u, OnCardSpend, fee, id)] else []
    case ChargeFee(u, _, amount, kind) => rows == [FeeRow(u, kind, amount, id)]
    case _ => rows == []
  }

  /** A fresh movement leaves one posting of its own type, and its fee row linked to it. */
  lemma FreshRecord(db: Db, c: Command)
    requires Valid(db) && Fresh(db, c, Exec(db, c))
    ensures var db' := Exec(db, c).db;
            && |db'.log| == |db.log| + 1 && db.log <= db'.log
            && OnRecordAs(c, db'.log[|db.log|])
            && db.fees <= db'.fees
            && FeesOnRecord(c, |db.log|, db'.fees[|db.fees|..])
  {
    ExecMeaning(db, c);
    var db' := Exec(db, c).db;
    assert db'.fees[|db.fees|..] == FeeRowsOf(c, |db.log|);
  }

  /** The same contract for one account: what moved, and what had to be true first. */
  lemma Moves(db: Db, c: Command, o: Outcome, a: Account)
    requires Meaning(db, c, o)
    ensures Fresh(db, c, o) ==>
              && o.db.log == db.log + [PostingOf(c)]
              && WellFormed(c)
              && NetOn(EntriesOf(c), a) == Delta(c, a)
              && (Required(c).Some? ==> Balance(db.log, Available(c.user)) >= Required(c).value)
    ensures !Fresh(db, c, o) ==> o.db.log == db.log
    ensures Balance(o.db.log, a) == Balance(db.log, a) + if Fresh(db, c, o) then Delta(c, a) else 0
  {
    if Fresh(db, c, o) {
      EntriesOn(c, a);
    }
  }
}
