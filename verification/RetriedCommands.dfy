/** The retry loop around one ledger command: at most one effect, or none. */
module RetriedCommands {
  import opened Wrappers
  import opened Commands
  import opened Retry

  datatype TxError = WriteConflict | Refused(error: Error)

  /** One attempt: aborted by the database, or the command on the store as it is. */
  function AttemptOf(c: Command, aborted: bool, db: Db): Attempt<Db, nat, TxError> {
    if aborted then Conflict(WriteConflict)
    else
      match Exec(db, c)
      case Outcome(after, Ok(id)) => Returned(after, id)
      case Outcome(_, Err(e)) => Failed(Refused(e))
  }

  function Operation(c: Command, conflicts: nat -> bool): (nat, Db) -> Attempt<Db, nat, TxError> {
    (k: nat, db: Db) => AttemptOf(c, conflicts(k), db)
  }

  lemma TriedIs(db: Db, c: Command, writers: (nat, Db) -> Db, conflicts: nat -> bool, k: nat)
    ensures Tried(db, Operation(c, conflicts), writers, k) == AttemptOf(c, conflicts(k), Others(db, writers, k + 1))
  {
  }

  /**
   * The command takes effect once, on the store the other writers have left by
   * its last attempt, or it leaves that store alone. A refusal is not retried;
   * only eight conflicts in a row exhaust it. All waits together stay within 548 ms.
   */
  method RunRetried(db: Db, c: Command, writers: (nat, Db) -> Db, conflicts: nat -> bool, jitter: nat -> real)
    returns (after: Db, result: Result<nat, TxError>, attempts: nat, waited: real)
    requires forall k :: 0.0 <= jitter(k) < 1.0
    ensures 1 <= attempts <= 8
    ensures forall k | 0 <= k < attempts - 1 :: conflicts(k)
    ensures var seen := Others(db, writers, attempts);
            var last := AttemptOf(c, conflicts(attempts - 1), seen);
            match result
            case Ok(id) => last == Returned(after, id)
            case Err(e) =>
              !last.Returned? && last.error == e && after == seen && (last.Conflict? ==> attempts == 8)
    ensures waited == Waits(jitter, attempts - 1) && 0.0 <= waited <= 548.0
  {
    var r;
    after, r, attempts, waited := WithSerializableRetry(db, Operation(c, conflicts), writers, jitter, 8);
    BudgetOfEight();
    BudgetGrows(attempts, 8);
    TriedIs(db, c, writers, conflicts, attempts - 1);
    forall k | 0 <= k < attempts - 1 ensures conflicts(k) {
      TriedIs(db, c, writers, conflicts, k);
      AbortedOnly(c, conflicts(k), Others(db, writers, k + 1));
    }
    result := if r.Ok? then Ok(r.value) else Err(r.error.value);
  }

  /** Only an abort counts as a conflict; an attempt that got through either returns or is refused. */
  lemma AbortedOnly(c: Command, aborted: bool, db: Db)
    ensures AttemptOf(c, aborted, db).Conflict? <==> aborted
    ensures AttemptOf(c, aborted, db).Returned? <==> !aborted && Exec(db, c).result.Ok?
  {
  }

  lemma {:induction false} BudgetGrows(fewer: nat, more: nat)
    requires fewer <= more
    ensures Budget(fewer) <= Budget(more)
    decreases more
  {
    if fewer < more { BudgetGrows(fewer, more - 1); }
  }
}
