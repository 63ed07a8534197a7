/**
 * Other steps going on around a deposit: which ones find nothing to do on its
 * row, and that those leave the row, its postings and its fee row as they were.
 */
module DepositMeanwhile {
  import opened Wrappers
  import opened Postings
  import opened Commands
  import opened Deposits
  import opened DepositRuns
  import opened DepositOnce

  /** What the ledger holds of a deposit's credit: what was posted, and the fee row linked to it. */
  datatype PostedCredit = PostedCredit(posting: nat, entries: seq<Entry>, fee: int, hasFeeRow: bool)

  function CreditOf(db: Db, id: nat): Option<PostedCredit> {
    match Find(db.log, Confirm(id))
    case None => None
    case Some(p) => Some(PostedCredit(p, db.log[p].entries, FeeFor(db.fees, p), HasFeeRow(db.fees, p)))
  }

  /** The same of one deposit in two ledgers: its credit, its reversal, its money. */
  ghost predicate SameDeposit(db: Db, db': Db, id: nat) {
    && CreditOf(db', id) == CreditOf(db, id)
    && (Posted(db'.log, Reverse(id)) <==> Posted(db.log, Reverse(id)))
    && forall a :: DepositNet(db'.log, id, a) == DepositNet(db.log, id, a)
  }

  lemma FeeRowElsewhere(fees: seq<FeeRow>, added: FeeRow, posting: nat)
    requires added.posting != posting
    ensures HasFeeRow(fees + [added], posting) <==> HasFeeRow(fees, posting)
    ensures FeeFor(fees + [added], posting) == FeeFor(fees, posting)
  {
    FeeForKept(fees, added, posting);
    if HasFeeRow(fees, posting) {
      var i :| 0 <= i < |fees| && fees[i].posting == posting;
      assert (fees + [added])[i].posting == posting;
    }
  }

  /** A command under another key leaves a deposit as it was. */
  lemma OtherKeySpares(db: Db, c: Command, id: nat)
    requires Valid(db) && KeyOf(c) != Confirm(id) && KeyOf(c) != Reverse(id)
    ensures SameDeposit(db, Exec(db, c).db, id)
  {
    var o := Exec(db, c);
    ExecMeaning(db, c);
    ExecFeesUnderKey(db, c);
    OtherKeyKeepsRow(db, c, o, id, DepositRow("", 0, "", "", 0, Failed, 0, 0, 0, None));
    OtherKeyKeepsCredit(db, c, o, id);
  }

  lemma OtherKeyKeepsCredit(db: Db, c: Command, o: Outcome, id: nat)
    requires Valid(db) && Meaning(db, c, o) && FeesUnderKey(db, c, o)
    requires KeyOf(c) != Confirm(id) && KeyOf(c) != Reverse(id)
    ensures CreditOf(o.db, id) == CreditOf(db, id)
    ensures Posted(o.db.log, Reverse(id)) <==> Posted(db.log, Reverse(id))
  {
    FindAppend(db.log, PostingOf(c));
    if o.db.fees != db.fees && Posted(db.log, Confirm(id)) {
      var added: FeeRow :| o.db.fees == db.fees + [added] && Find(o.db.log, KeyOf(c)) == Some(added.posting);
      FeeRowElsewhere(db.fees, added, Find(db.log, Confirm(id)).value);
    }
  }

  // ------------------------------------------------------------------- Steps

  /** A reading on which a pending row is at most marked as confirming. */
  predicate NoNews(row: DepositRow, env: Env) {
    match env.reading
    case ReadFails => true
    case Vanished => env.now - row.createdAt <= GRACE_MILLIS
    case Depth(n) => n < row.required
  }

  /** A step that finds nothing to do on a row: it is about another one, or brings no news, or the row is past it. */
  predicate Spares(row: DepositRow, step: DepositStep, id: nat) {
    match row.status
    case Orphaned => true
    case Confirmed => !(step.Recheck? && step.id == id && step.reading.Vanished?)
    case Failed => true
    case _ =>
      match step
      case Seen(t, env) => SameTransfer(row, t) ==> NoNews(row, env)
      case Walk(i, env) => i == id ==> NoNews(row, env)
      case _ => true
  }

  /** The row as it was, but for a pending one being marked as confirming. */
  predicate SameRow(row: DepositRow, row': DepositRow) {
    row' == row || (IsPending(row) && row' == row.(status := Confirming))
  }

  lemma SparesOn(row: DepositRow, row': DepositRow, step: DepositStep, id: nat)
    requires SameRow(row, row') && Spares(row, step, id)
    ensures Spares(row', step, id)
  {
  }

  /** An advance of another row, or of this one without news. */
  lemma AdvanceSpares(b: Book, i: nat, env: Env, id: nat)
    requires Valid(b.db) && i < |b.deposits| && id < |b.deposits|
    requires i == id ==> !IsPending(b.deposits[id]) || NoNews(b.deposits[id], env)
    ensures var b' := Advance(b, i, env).0;
            && |b'.deposits| == |b.deposits|
            && SameRow(b.deposits[id], b'.deposits[id])
            && SameDeposit(b.db, b'.db, id)
  {
    AdvanceCases(b, i, env);
    AdvanceEffect(b, i, env);
    if i != id {
      OtherKeySpares(b.db, CreditCommand(b.deposits[i], i, env.rates), id);
    }
  }

  lemma WatchSpares(b: Book, i: nat, reading: Reading, crashes: bool, id: nat)
    requires Valid(b.db) && i < |b.deposits| && id < |b.deposits| && (i == id ==> !reading.Vanished?)
    ensures var b' := Watch(b, i, reading, crashes).0;
            && |b'.deposits| == |b.deposits|
            && b'.deposits[id] == b.deposits[id]
            && SameDeposit(b.db, b'.db, id)
  {
    if i != id {
      var c := ReverseCommand(b.db, b.deposits[i], i);
      ExecMeaning(b.db, c);
      OtherKeySpares(b.db, c, id);
    }
  }

  lemma SeenSpares(b: Book, t: Transfer, env: Env, id: nat)
    requires Valid(b.db) && OneRowEach(b.deposits) && id < |b.deposits|
    requires Spares(b.deposits[id], Seen(t, env), id)
    ensures var b' := Observe(b, t, env).0;
            && id < |b'.deposits|
            && SameRow(b.deposits[id], b'.deposits[id])
            && SameDeposit(b.db, b'.db, id)
  {
    RecordGrows(b, t, env.now);
    var (recorded, seen) := Record(b, t, env.now);
    assert recorded.deposits[id] == b.deposits[id];
    if seen.Some? {
      AdvanceSpares(recorded, seen.value, env, id);
    }
  }

  /** Such a step leaves the row and all that is posted for it. */
  lemma StepSpares(b: Book, id: nat, step: DepositStep)
    requires Valid(b.db) && OneRowEach(b.deposits) && id < |b.deposits| && Spares(b.deposits[id], step, id)
    ensures var b' := Next(b, step);
            && id < |b'.deposits|
            && SameRow(b.deposits[id], b'.deposits[id])
            && SameDeposit(b.db, b'.db, id)
  {
    match step
    case Seen(t, env) => SeenSpares(b, t, env, id);
    case Walk(i, env) => if i < |b.deposits| { AdvanceSpares(b, i, env, id); }
    case Recheck(i, reading, crashes) =>
      if i < |b.deposits| && b.deposits[i].status == Confirmed { WatchSpares(b, i, reading, crashes, id); }
    case Other(c) => if Elsewhere(c) { OtherKeySpares(b.db, c, id); }
  }

  /** A run of steps that all find nothing to do on a row. */
  predicate AllSpare(row: DepositRow, steps: seq<DepositStep>, id: nat) {
    forall k | 0 <= k < |steps| :: Spares(row, steps[k], id)
  }

  /** Over such a run the row and all that is posted for it stay. */
  lemma {:induction false} RunSpares(b: Book, id: nat, steps: seq<DepositStep>)
    requires Valid(b.db) && OneRowEach(b.deposits) && id < |b.deposits| && AllSpare(b.deposits[id], steps, id)
    ensures var b' := Run(b, steps);
            && Valid(b'.db) && OneRowEach(b'.deposits)
            && id < |b'.deposits|
            && SameRow(b.deposits[id], b'.deposits[id])
            && SameDeposit(b.db, b'.db, id)
    decreases |steps|
  {
    if steps == [] {
    } else {
      var b', tail := Next(b, steps[0]), steps[1..];
      StepGrows(b, steps[0]);
      StepSpares(b, id, steps[0]);
      forall k | 0 <= k < |tail| ensures Spares(b'.deposits[id], tail[k], id) {
        SparesOn(b.deposits[id], b'.deposits[id], steps[k + 1], id);
      }
      RunSpares(b', id, tail);
    }
  }
}
