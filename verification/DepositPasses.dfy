/**
 * Each pass of the deposit jobs is a run: of walk steps, of rechecks, of
 * sightings. What is proved of runs therefore holds of the jobs.
 */
module DepositPasses {
  import opened Deposits
  import opened DepositRuns
  import opened DepositWalks
  import opened Selection

  lemma {:induction false} RunOneMore(b: Book, steps: seq<DepositStep>, step: DepositStep)
    ensures Run(b, steps + [step]) == Next(Run(b, steps), step)
    decreases |steps|
  {
    if steps == [] {
      assert [step][1..] == [] && [] + [step] == [step];
    } else {
      assert (steps + [step])[1..] == steps[1..] + [step];
      RunOneMore(Next(b, steps[0]), steps[1..], step);
    }
  }

  /** The steps of a walk over the first rows of a list. */
  predicate AreWalks(steps: seq<DepositStep>, ids: seq<nat>, envs: nat -> Env) {
    |steps| <= |ids| && forall k | 0 <= k < |steps| :: steps[k] == Walk(ids[k], envs(ids[k]))
  }

  lemma WalkOneIsStep(p: Pass, id: nat, env: Env)
    requires p.ending.Finished? && id < |p.book.deposits|
    ensures WalkOne(p, id, env).book == Next(p.book, Walk(id, env))
  {
  }

  /** A confirmation walk is a run of walk steps over its rows, up to the one that stops it. */
  lemma {:induction false} WalkIsRun(b: Book, ids: seq<nat>, envs: nat -> Env) returns (steps: seq<DepositStep>)
    requires forall i | 0 <= i < |ids| :: ids[i] < |b.deposits|
    ensures WalkAll(b, ids, envs).book == Run(b, steps) && AreWalks(steps, ids, envs)
    ensures WalkAll(b, ids, envs).ending.Finished? ==> |steps| == |ids|
  {
    if ids == [] {
      steps := [];
    } else {
      var n := |ids| - 1;
      var before := WalkAll(b, ids[..n], envs);
      steps := WalkIsRun(b, ids[..n], envs);
      if before.ending.Finished? {
        WalkOneIsStep(before, ids[n], envs(ids[n]));
        RunOneMore(b, steps, Walk(ids[n], envs(ids[n])));
        steps := steps + [Walk(ids[n], envs(ids[n]))];
      }
    }
  }

  /** The rows of a list, all confirmed. */
  predicate AllConfirmed(b: Book, ids: seq<nat>) {
    forall k | 0 <= k < |ids| :: ids[k] < |b.deposits| && b.deposits[ids[k]].status == Confirmed
  }

  /** A watch touches the rows it visits and no others. */
  lemma {:induction false} WatchLeaves(
      b: Book, ids: seq<nat>, readings: nat -> Reading, crashes: nat -> bool, id: nat)
    requires forall i | 0 <= i < |ids| :: ids[i] < |b.deposits|
    requires id < |b.deposits| && id !in ids
    ensures WatchAll(b, ids, readings, crashes).book.deposits[id] == b.deposits[id]
  {
    if ids == [] {
    } else {
      WatchLeaves(b, ids[..|ids| - 1], readings, crashes, id);
    }
  }

  /** The steps of a watch over the first rows of a list. */
  predicate AreRechecks(steps: seq<DepositStep>, ids: seq<nat>, readings: nat -> Reading, crashes: nat -> bool) {
    && |steps| <= |ids|
    && forall k | 0 <= k < |steps| :: steps[k] == DepositStep.Recheck(ids[k], readings(ids[k]), crashes(ids[k]))
  }

  lemma WatchOneIsStep(p: Pass, id: nat, reading: Reading, crashes: bool)
    requires p.ending.Finished? && id < |p.book.deposits| && p.book.deposits[id].status == Confirmed
    ensures WatchOne(p, id, reading, crashes).book == Next(p.book, DepositStep.Recheck(id, reading, crashes))
  {
  }

  /** A re-org watch is a run of rechecks over its rows, up to the one that stops it. */
  lemma {:induction false} WatchIsRun(b: Book, ids: seq<nat>, readings: nat -> Reading, crashes: nat -> bool)
    returns (steps: seq<DepositStep>)
    requires AllConfirmed(b, ids) && Distinct(ids)
    ensures WatchAll(b, ids, readings, crashes).book == Run(b, steps) && AreRechecks(steps, ids, readings, crashes)
    ensures WatchAll(b, ids, readings, crashes).ending.Finished? ==> |steps| == |ids|
  {
    if ids == [] {
      steps := [];
    } else {
      var n := |ids| - 1;
      var before := WatchAll(b, ids[..n], readings, crashes);
      steps := WatchIsRun(b, ids[..n], readings, crashes);
      if before.ending.Finished? {
        WatchLeaves(b, ids[..n], readings, crashes, ids[n]);
        WatchOneIsStep(before, ids[n], readings(ids[n]), crashes(ids[n]));
        var step := DepositStep.Recheck(ids[n], readings(ids[n]), crashes(ids[n]));
        RunOneMore(b, steps, step);
        steps := steps + [step];
      }
    }
  }

  /** The watch as the job runs it, over confirmed rows, each once. */
  lemma SelectedWatchIsRun(b: Book, since: int, take: nat, readings: nat -> Reading, crashes: nat -> bool)
    returns (steps: seq<DepositStep>)
    ensures var ids := WatchedRows(b.deposits, since, take);
            WatchAll(b, ids, readings, crashes).book == Run(b, steps)
  {
    var ids := WatchedRows(b.deposits, since, take);
    WatchedRowsAre(b.deposits, since, take);
    steps := WatchIsRun(b, ids, readings, crashes);
  }

  /** The steps of a sweep over the first transfers of a list. */
  predicate AreSightings(steps: seq<DepositStep>, transfers: seq<Transfer>, envs: Transfer -> Env) {
    |steps| <= |transfers| && forall k | 0 <= k < |steps| :: steps[k] == Seen(transfers[k], envs(transfers[k]))
  }

  lemma ObserveOneIsStep(p: Pass, t: Transfer, env: Env)
    requires p.ending.Finished?
    ensures ObserveOne(p, t, env).book == Next(p.book, Seen(t, env))
  {
  }

  /** A reconciliation sweep is a run of sightings, up to the one that stops it. */
  lemma {:induction false} ReconcileIsRun(b: Book, transfers: seq<Transfer>, envs: Transfer -> Env)
    returns (steps: seq<DepositStep>)
    ensures ReconcileAll(b, transfers, envs).book == Run(b, steps) && AreSightings(steps, transfers, envs)
    ensures ReconcileAll(b, transfers, envs).ending.Finished? ==> |steps| == |transfers|
  {
    if transfers == [] {
      steps := [];
    } else {
      var n := |transfers| - 1;
      var t := transfers[n];
      var before := ReconcileAll(b, transfers[..n], envs);
      steps := ReconcileIsRun(b, transfers[..n], envs);
      if before.ending.Finished? {
        ObserveOneIsStep(before, t, envs(t));
        RunOneMore(b, steps, Seen(t, envs(t)));
        steps := steps + [Seen(t, envs(t))];
      }
    }
  }
}
