/**
 * The deposit pipeline as it runs: recording, the confirmation walk, crediting,
 * the re-org watch and the reconciliation sweep, updating rows in place.
 */
module DepositService {
  import opened Wrappers
  import opened Commands
  import opened Fees
  import opened Deposits
  import opened DepositWalks
  import DepositPasses
  import DepositRuns
  import opened LedgerService

  class DepositDesk {
    const ledger: Ledger
    const addresses: map<(string, string), string>
    const config: Config
    var deposits: seq<DepositRow>

    constructor (ledger: Ledger, addresses: map<(string, string), string>, config: Config)
      requires ledger.Consistent()
      ensures this.ledger == ledger && Consistent()
      ensures State() == Book(ledger.Tables(), [], addresses, config)
    {
      this.ledger, this.addresses, this.config, deposits := ledger, addresses, config, [];
    }

    function State(): Book
      reads this, ledger
    {
      Book(ledger.Tables(), deposits, addresses, config)
    }

    ghost predicate Consistent()
      reads this, ledger
    {
      ledger.Consistent()
    }

    /** Insert the row, or find the one the unique key refused. */
    method RecordTransfer(t: Transfer, now: int) returns (id: Option<nat>)
      requires Consistent()
      modifies this`deposits
      ensures Consistent() && (State(), id) == Record(old(State()), t, now)
      ensures id.Some? ==> id.value < |deposits|
    {
      if config.contract.Some? && t.contract != config.contract.value {
        return None;
      }
      if (t.network, t.toAddress) !in addresses {
        return None;
      }
      if t.amount < config.minAmount {
        return None;
      }
      id := RowFor(deposits, t);
      if id.None? {
        id := Some(|deposits|);
        deposits := deposits + [NewDeposit(State(), t, addresses[(t.network, t.toAddress)], now)];
      }
    }

    /** Post the credit and mark the deposit confirmed, unless it throws or dies between. */
    method Credit(id: nat, env: Env) returns (ending: Ending)
      requires Consistent() && id < |deposits|
      modifies this`deposits, ledger
      ensures Consistent() && (State(), ending) == CreditRow(old(State()), id, env)
    {
      var row := deposits[id];
      if row.status == Confirmed || row.posting.Some? {
        return Finished;
      }
      var r := ledger.CreditDeposit(row.user, id, row.amount, DepositFee(env.rates, row.amount));
      FailureKeepsTables(old(State()).db, CreditCommand(row, id, env.rates));
      if r.Err? {
        return Threw(r.error);
      }
      if env.crashes {
        return Crashed;
      }
      deposits := deposits[id := row.(status := Confirmed, confirmedAt := env.now, posting := Some(r.value))];
      ending := Finished;
    }

    method AdvanceConfirmations(id: nat, env: Env) returns (ending: Ending)
      requires Consistent() && id < |deposits|
      modifies this`deposits, ledger
      ensures Consistent() && (State(), ending) == Advance(old(State()), id, env)
      ensures |deposits| == |old(deposits)|
    {
      var row := deposits[id];
      ending := Finished;
      if row.status == Confirmed || row.status == Failed || row.status == Orphaned {
        return;
      }
      match env.reading {
        case ReadFails =>
        case Vanished =>
          if env.now - row.createdAt > GRACE_MILLIS {
            deposits := deposits[id := row.(status := Orphaned)];
          }
        case Depth(n) =>
          if n < row.required {
            deposits := deposits[id := row.(status := Confirming)];
          } else {
            ending := Credit(id, env);
          }
      }
    }

    /** One observation, whichever path it came by. */
    method ObserveTransfer(t: Transfer, env: Env) returns (id: Option<nat>, ending: Ending)
      requires Consistent()
      modifies this`deposits, ledger
      ensures Consistent() && (State(), id, ending) == Observe(old(State()), t, env)
    {
      id := RecordTransfer(t, env.now);
      ending := Finished;
      if id.Some? {
        ending := AdvanceConfirmations(id.value, env);
      }
    }

    method WalkRow(id: nat, env: Env, credited: nat) returns (count: nat, ending: Ending)
      requires Consistent() && id < |deposits|
      modifies this`deposits, ledger
      ensures Consistent() && |deposits| == |old(deposits)|
      ensures Pass(State(), count, ending) == WalkOne(Pass(old(State()), credited, Finished), id, env)
    {
      count := credited;
      var before := deposits[id].status;
      ending := AdvanceConfirmations(id, env);
      var after := deposits[id].status;
      if ending.Finished? && before != Confirmed && after == Confirmed {
        count := count + 1;
      }
    }

    /** The confirmation walk over at most `take` pending rows. */
    method AdvanceAllPending(take: nat, envs: nat -> Env) returns (credited: nat, ending: Ending)
      requires Consistent()
      modifies this`deposits, ledger
      ensures Consistent()
      ensures Pass(State(), credited, ending) ==
              WalkAll(old(State()), PendingRows(old(deposits), take), envs)
      ensures exists steps :: State() == DepositRuns.Run(old(State()), steps)
    {
      var pending := PendingRows(deposits, take);
      ghost var start := State();
      ghost var steps := DepositPasses.WalkIsRun(start, pending, envs);
      credited, ending := 0, Finished;
      var k := 0;
      while k < |pending|
        invariant 0 <= k <= |pending| && Consistent() && |deposits| == |start.deposits|
        invariant ending.Finished?
        invariant Pass(State(), credited, Finished) == WalkAll(start, pending[..k], envs)
      {
        WalkAllNext(start, pending, envs, k);
        credited, ending := WalkRow(pending[k], envs(pending[k]), credited);
        k := k + 1;
        if !ending.Finished? {
          WalkStops(start, pending, envs, k);
          return;
        }
      }
      assert pending[..|pending|] == pending;
    }

    /** Check one credited deposit against the chain, and reverse it if it is gone. */
    method Recheck(id: nat, reading: Reading, crashes: bool) returns (ending: Ending)
      requires Consistent() && id < |deposits|
      modifies this`deposits, ledger
      ensures Consistent() && (State(), ending) == Watch(old(State()), id, reading, crashes)
      ensures |deposits| == |old(deposits)|
    {
      if !reading.Vanished? {
        return Finished;
      }
      var row := deposits[id];
      var fee := if row.posting.Some? then FeeFor(ledger.fees, row.posting.value) else 0;
      var r := ledger.ReverseDeposit(row.user, id, row.amount, fee);
      FailureKeepsTables(old(State()).db, ReverseCommand(old(State()).db, row, id));
      if r.Err? {
        return Threw(r.error);
      }
      if crashes {
        return Crashed;
      }
      deposits := deposits[id := row.(status := Orphaned)];
      ending := Finished;
    }

    method WatchRow(id: nat, reading: Reading, crashes: bool, reversed: nat) returns (count: nat, ending: Ending)
      requires Consistent() && id < |deposits|
      modifies this`deposits, ledger
      ensures Consistent() && |deposits| == |old(deposits)|
      ensures Pass(State(), count, ending) == WatchOne(Pass(old(State()), reversed, Finished), id, reading, crashes)
    {
      count := reversed;
      ending := Recheck(id, reading, crashes);
      if ending.Finished? && reading.Vanished? {
        count := count + 1;
      }
    }

    /** The loop of the re-org watch. */
    method WatchRows(credited: seq<nat>, readings: nat -> Reading, crashes: nat -> bool)
      returns (reversed: nat, ending: Ending)
      requires Consistent() && forall k | 0 <= k < |credited| :: credited[k] < |deposits|
      modifies this`deposits, ledger
      ensures Consistent()
      ensures Pass(State(), reversed, ending) == WatchAll(old(State()), credited, readings, crashes)
    {
      ghost var start := State();
      reversed, ending := 0, Finished;
      var k := 0;
      while k < |credited|
        invariant 0 <= k <= |credited| && Consistent() && |deposits| == |start.deposits|
        invariant ending.Finished?
        invariant Pass(State(), reversed, Finished) == WatchAll(start, credited[..k], readings, crashes)
      {
        WatchAllNext(start, credited, readings, crashes, k);
        reversed, ending := WatchRow(credited[k], readings(credited[k]), crashes(credited[k]), reversed);
        k := k + 1;
        if !ending.Finished? {
          WatchStops(start, credited, readings, crashes, k);
          return;
        }
      }
      assert credited[..|credited|] == credited;
    }

    /** The re-org watch over credited rows confirmed since a given time. */
    method WatchCreditedForReorg(since: int, take: nat, readings: nat -> Reading, crashes: nat -> bool)
      returns (reversed: nat, ending: Ending)
      requires Consistent()
      modifies this`deposits, ledger
      ensures Consistent()
      ensures Pass(State(), reversed, ending) ==
              WatchAll(old(State()), WatchedRows(old(deposits), since, take), readings, crashes)
      ensures exists steps :: State() == DepositRuns.Run(old(State()), steps)
    {
      ghost var steps := DepositPasses.SelectedWatchIsRun(State(), since, take, readings, crashes);
      var credited := WatchedRows(deposits, since, take);
      reversed, ending := WatchRows(credited, readings, crashes);
    }

    method ReconcileTransfer(t: Transfer, env: Env, recorded: nat) returns (count: nat, ending: Ending)
      requires Consistent()
      modifies this`deposits, ledger
      ensures Consistent()
      ensures Pass(State(), count, ending) == ObserveOne(Pass(old(State()), recorded, Finished), t, env)
    {
      count := recorded;
      var id;
      id, ending := ObserveTransfer(t, env);
      if ending.Finished? && id.Some? {
        count := count + 1;
      }
    }

    /** The sweep over the transfers the chain reports for one address, if a token is configured at all. */
    method ReconcileAddress(transfers: seq<Transfer>, envs: Transfer -> Env) returns (recorded: nat, ending: Ending)
      requires Consistent()
      modifies this`deposits, ledger
      ensures Consistent()
      ensures Pass(State(), recorded, ending) ==
              ReconcileAll(old(State()), if config.contract.Some? then transfers else [], envs)
      ensures exists steps :: State() == DepositRuns.Run(old(State()), steps)
    {
      ghost var start := State();
      ghost var steps := DepositPasses.ReconcileIsRun(start, if config.contract.Some? then transfers else [], envs);
      recorded, ending := 0, Finished;
      if config.contract.None? {
        return;
      }
      var k := 0;
      while k < |transfers|
        invariant 0 <= k <= |transfers| && Consistent()
        invariant ending.Finished?
        invariant Pass(State(), recorded, Finished) == ReconcileAll(start, transfers[..k], envs)
      {
        ReconcileAllNext(start, transfers, envs, k);
        recorded, ending := ReconcileTransfer(transfers[k], envs(transfers[k]), recorded);
        k := k + 1;
        if !ending.Finished? {
          ReconcileStops(start, transfers, envs, k);
          return;
        }
      }
      assert transfers[..|transfers|] == transfers;
    }
  }

  lemma WatchAllNext(b: Book, ids: seq<nat>, readings: nat -> Reading, crashes: nat -> bool, k: nat)
    requires k < |ids| && forall i | 0 <= i < |ids| :: ids[i] < |b.deposits|
    ensures WatchAll(b, ids[..k + 1], readings, crashes) ==
            WatchOne(WatchAll(b, ids[..k], readings, crashes), ids[k], readings(ids[k]), crashes(ids[k]))
  {
    assert ids[..k + 1][..k] == ids[..k];
  }

  lemma ReconcileAllNext(b: Book, transfers: seq<Transfer>, envs: Transfer -> Env, k: nat)
    requires k < |transfers|
    ensures ReconcileAll(b, transfers[..k + 1], envs) ==
            ObserveOne(ReconcileAll(b, transfers[..k], envs), transfers[k], envs(transfers[k]))
  {
    assert transfers[..k + 1][..k] == transfers[..k];
  }

  lemma FailureKeepsTables(db: Db, c: Command)
    requires Valid(db)
    ensures Exec(db, c).result.Err? ==> Exec(db, c).db == db
  {
    ExecMeaning(db, c);
  }

  /** A pass that has stopped stays as it is: the remaining rows are not visited. */
  lemma {:induction false} WatchStops(b: Book, ids: seq<nat>, readings: nat -> Reading, crashes: nat -> bool, k: nat)
    requires forall i | 0 <= i < |ids| :: ids[i] < |b.deposits|
    requires k <= |ids| && !WatchAll(b, ids[..k], readings, crashes).ending.Finished?
    ensures WatchAll(b, ids, readings, crashes) == WatchAll(b, ids[..k], readings, crashes)
  {
    if k < |ids| {
      assert ids[..|ids| - 1][..k] == ids[..k];
      WatchStops(b, ids[..|ids| - 1], readings, crashes, k);
    } else {
      assert ids[..k] == ids;
    }
  }

  lemma {:induction false} ReconcileStops(b: Book, transfers: seq<Transfer>, envs: Transfer -> Env, k: nat)
    requires k <= |transfers| && !ReconcileAll(b, transfers[..k], envs).ending.Finished?
    ensures ReconcileAll(b, transfers, envs) == ReconcileAll(b, transfers[..k], envs)
  {
    if k < |transfers| {
      assert transfers[..|transfers| - 1][..k] == transfers[..k];
      ReconcileStops(b, transfers[..|transfers| - 1], envs, k);
    } else {
      assert transfers[..k] == transfers;
    }
  }
}
