/**
 * Many clients at once. Each command is a transaction that reads a snapshot and
 * commits later; in between, anyone else may commit. Holds, fee charges and
 * adjustments run SERIALIZABLE: they commit only if what they read still
 * stands, otherwise they abort and are retried, eight attempts in all. The
 * other commands run at the default level and rely on the unique key alone.
 */
module Interleaving {
  import opened Wrappers
  import opened Postings
  import opened Commands
  import LedgerRuns

  const MAX_ATTEMPTS: nat := 8

  datatype Phase = Waiting | Reading(snapshot: Db)

  datatype Session = Session(command: Command, attempt: nat, phase: Phase)

  datatype World = World(db: Db, sessions: map<nat, Session>)

  datatype Step =
    | Submit(client: nat, command: Command)
    | Read(client: nat)
    | Commit(client: nat)
    | Abort(client: nat) // the database may abort any transaction, conflict or not

  predicate Serializable(c: Command) {
    c.PlaceHold? || c.ChargeFee? || c.PostAdjustment?
  }

  /** What the decision was based on: the key's presence and the balance, if checked. */
  predicate ReadsUnchanged(snapshot: Db, now: Db, c: Command) {
    && Find(snapshot.log, KeyOf(c)) == Find(now.log, KeyOf(c))
    && (Required(c).Some? ==> Balance(snapshot.log, Available(c.user)) == Balance(now.log, Available(c.user)))
  }

  /** A transaction that found a reason to refuse throws, and there is nothing to commit. */
  predicate Refuses(s: Session) {
    s.phase.Reading? && PlanOf(s.phase.snapshot, s.command).Reject?
  }

  predicate CanCommit(w: World, client: nat) {
    && client in w.sessions
    && w.sessions[client].phase.Reading?
    && (Serializable(w.sessions[client].command) && !Refuses(w.sessions[client]) ==>
          ReadsUnchanged(w.sessions[client].phase.snapshot, w.db, w.sessions[client].command))
  }

  /** Give up the attempt: wait for another one if this command retries and has any left. */
  function AfterAbort(w: World, client: nat): World
    requires client in w.sessions
  {
    var s := w.sessions[client];
    if Serializable(s.command) && s.attempt + 1 < MAX_ATTEMPTS then
      w.(sessions := w.sessions[client := Session(s.command, s.attempt + 1, Waiting)])
    else
      w.(sessions := w.sessions - {client})
  }

  function Next(w: World, step: Step): World {
    match step
    case Submit(client, command) =>
      if client in w.sessions then w
      else w.(sessions := w.sessions[client := Session(command, 0, Waiting)])
    case Read(client) =>
      if client in w.sessions && w.sessions[client].phase.Waiting? then
        w.(sessions := w.sessions[client := w.sessions[client].(phase := Reading(w.db))])
      else w
    case Commit(client) =>
      if CanCommit(w, client) then
        var s := w.sessions[client];
        World(Commands.Commit(w.db, s.command, PlanOf(s.phase.snapshot, s.command)).db, w.sessions - {client})
      else if client in w.sessions && w.sessions[client].phase.Reading? then AfterAbort(w, client)
      else w
    case Abort(client) =>
      if client in w.sessions then AfterAbort(w, client) else w
  }

  function Run(w: World, steps: seq<Step>): World
    decreases |steps|
  {
    if steps == [] then w else Run(Next(w, steps[0]), steps[1..])
  }

  /** A commit that lost the race for its key is rolled back and reports the winner. */
  predicate LostRace(db: Db, s: Session) {
    && s.phase.Reading?
    && PlanOf(s.phase.snapshot, s.command).Insert?
    && Posted(db.log, KeyOf(s.command))
  }

  /** An end that changes nothing: refused on what was read, or the race lost. */
  predicate InVain(db: Db, s: Session) {
    Refuses(s) || LostRace(db, s)
  }

  /** The commands that committed, in commit order. */
  function Committed(w: World, steps: seq<Step>): seq<Command>
    decreases |steps|
  {
    if steps == [] then []
    else
      var rest := Committed(Next(w, steps[0]), steps[1..]);
      if steps[0].Commit? && CanCommit(w, steps[0].client) && !InVain(w.db, w.sessions[steps[0].client])
      then [w.sessions[steps[0].client].command] + rest
      else rest
  }

  /** Every open transaction read some earlier state of this very ledger. */
  ghost predicate Sound(w: World) {
    && Valid(w.db)
    && (forall c | c in w.sessions :: w.sessions[c].attempt < MAX_ATTEMPTS)
    && (forall c | c in w.sessions && w.sessions[c].phase.Reading? ::
          w.sessions[c].phase.snapshot.log <= w.db.log)
  }

  /** A commit on reads that still stand is the command run alone, there and then; one in vain changes nothing. */
  lemma CommitIsExec(w: World, client: nat)
    requires Sound(w) && CanCommit(w, client)
    ensures var s := w.sessions[client];
            var o := Commands.Commit(w.db, s.command, PlanOf(s.phase.snapshot, s.command));
            && (InVain(w.db, s) ==> o.db == w.db)
            && (!InVain(w.db, s) ==> o == Exec(w.db, s.command))
            && (ReadsUnchanged(s.phase.snapshot, w.db, s.command) ==> o == Exec(w.db, s.command))
  {
    var s := w.sessions[client];
    var snapshot := s.phase.snapshot;
    if Posted(snapshot.log, KeyOf(s.command)) {
      FindPrefix(snapshot.log, w.db.log, KeyOf(s.command));
    }
  }

  /** A commit that may not go through ends like an abort. */
  lemma StaleCommitAborts(w: World, client: nat)
    requires client in w.sessions && w.sessions[client].phase.Reading? && !CanCommit(w, client)
    ensures Next(w, Commit(client)) == Next(w, Abort(client))
  {
  }

  function Aborts(client: nat, n: nat): seq<Step> {
    if n == 0 then [] else Aborts(client, n - 1) + [Abort(client)]
  }

  lemma {:induction false} RunOneMore(w: World, steps: seq<Step>, step: Step)
    ensures Run(w, steps + [step]) == Next(Run(w, steps), step)
    decreases |steps|
  {
    if steps == [] {
      assert [step][1..] == [] && [] + [step] == [step];
    } else {
      assert (steps + [step])[1..] == steps[1..] + [step];
      RunOneMore(Next(w, steps[0]), steps[1..], step);
    }
  }

  /** A submitted hold, charge or adjustment outlives seven aborts and not the eighth; any other command not one. */
  lemma {:induction false} EightAttempts(w: World, client: nat, c: Command, n: nat)
    requires client !in w.sessions
    ensures var after := Run(w, [Submit(client, c)] + Aborts(client, n));
            && after.db == w.db && after.sessions - {client} == w.sessions
            && (client in after.sessions <==> n < if c.PlaceHold? || c.ChargeFee? || c.PostAdjustment? then 8 else 1)
            && (client in after.sessions ==> after.sessions[client] == Session(c, n, Waiting))
  {
    if n == 0 {
      assert [Submit(client, c)] + [] == [] + [Submit(client, c)];
      RunOneMore(w, [], Submit(client, c));
    } else {
      var before := [Submit(client, c)] + Aborts(client, n - 1);
      assert [Submit(client, c)] + Aborts(client, n) == before + [Abort(client)];
      EightAttempts(w, client, c, n - 1);
      RunOneMore(w, before, Abort(client));
    }
  }

  /** Submitted, read and committed with nobody in between, a command does what it does alone. */
  lemma AloneIsExec(w: World, client: nat, c: Command)
    requires Sound(w) && client !in w.sessions
    ensures Run(w, [Submit(client, c), Read(client), Commit(client)]) == World(Exec(w.db, c).db, w.sessions)
  {
    var submitted := Next(w, Submit(client, c));
    var reading := Next(submitted, Read(client));
    assert reading.sessions[client] == Session(c, 0, Reading(w.db));
    CommitIsExec(reading, client);
    assert reading.sessions - {client} == w.sessions;
    assert Run(reading, [Commit(client)]) == Next(reading, Commit(client)) by {
      RunOneMore(reading, [], Commit(client));
      assert [] + [Commit(client)] == [Commit(client)];
    }
    assert [Submit(client, c), Read(client), Commit(client)][1..] == [Read(client), Commit(client)];
    assert [Read(client), Commit(client)][1..] == [Commit(client)];
  }

  /** What was read still stands: the posting found under the key, or none, and a user's available balance. */
  predicate StillStands(snapshot: Db, now: Db, key: Key, balanceOf: Option<string>) {
    && Find(snapshot.log, key) == Find(now.log, key)
    && (balanceOf.Some? ==>
          Balance(snapshot.log, Available(balanceOf.value)) == Balance(now.log, Available(balanceOf.value)))
  }

  /**
   * Which open transactions may commit: a hold or charge if key and balance
   * still stand, a debit likewise, a credit adjustment if the key does, and any
   * other movement always - as does one that was refused on what it read.
   */
  lemma CommitsIff(w: World, client: nat)
    requires client in w.sessions && w.sessions[client].phase.Reading?
    ensures var s := w.sessions[client];
            var snapshot := s.phase.snapshot;
            CanCommit(w, client) <==>
              Refuses(s) ||
              match s.command
              case PlaceHold(u, key, _) => StillStands(snapshot, w.db, key, Some(u))
              case ChargeFee(u, key, _, _) => StillStands(snapshot, w.db, key, Some(u))
              case PostAdjustment(u, key, amount) =>
                StillStands(snapshot, w.db, key, if amount < 0 then Some(u) else None)
              case _ => true
  {
  }

  lemma NextKeepsSound(w: World, step: Step)
    requires Sound(w)
    ensures Sound(Next(w, step)) && w.db.log <= Next(w, step).db.log
  {
    if step.Commit? && CanCommit(w, step.client) {
      CommitIsExec(w, step.client);
      ExecMeaning(w.db, w.sessions[step.client].command);
    }
  }

  /**
   * Every interleaving, aborts and retries included, leaves exactly the
   * database that its committed commands leave when run one after another.
   */
  lemma {:induction false} EveryInterleavingIsSerial(w: World, steps: seq<Step>)
    requires Sound(w)
    ensures Sound(Run(w, steps))
    ensures Run(w, steps).db == Serial(w.db, Committed(w, steps))
    decreases |steps|
  {
    if steps == [] {
    } else {
      var w' := Next(w, steps[0]);
      NextKeepsSound(w, steps[0]);
      EveryInterleavingIsSerial(w', steps[1..]);
      if steps[0].Commit? && CanCommit(w, steps[0].client) {
        CommitIsExec(w, steps[0].client);
        var s := w.sessions[steps[0].client];
        if !InVain(w.db, s) {
          var rest := Committed(w', steps[1..]);
          assert ([s.command] + rest)[1..] == rest;
        }
      }
    }
  }

  /** Every command in flight or still to be submitted satisfies a property. */
  ghost predicate Only(w: World, steps: seq<Step>, p: Command -> bool) {
    && (forall c | c in w.sessions :: p(w.sessions[c].command))
    && (forall i | 0 <= i < |steps| && steps[i].Submit? :: p(steps[i].command))
  }

  lemma {:induction false} OnlyTheseCommit(w: World, steps: seq<Step>, p: Command -> bool)
    requires Only(w, steps, p)
    ensures forall i | 0 <= i < |Committed(w, steps)| :: p(Committed(w, steps)[i])
    decreases |steps|
  {
    if steps == [] {
    } else {
      var w', tail := Next(w, steps[0]), steps[1..];
      assert forall i | 0 <= i < |tail| :: tail[i] == steps[i + 1];
      OnlyTheseCommit(w', tail, p);
    }
  }

  /** I5 under concurrency: available plus what over-captures and reversals took is never negative. */
  lemma NoInterleavingOverdraws(w: World, steps: seq<Step>, u: string)
    requires Sound(w) && LedgerRuns.Solvent(w.db, u)
    ensures LedgerRuns.Solvent(Run(w, steps).db, u)
  {
    EveryInterleavingIsSerial(w, steps);
    LedgerRuns.RunsStaySolvent(w.db, Committed(w, steps), u);
  }

  /** ... and with no over-capture and no reversal submitted, available itself is not. */
  lemma NoGuardedInterleavingOverdraws(w: World, steps: seq<Step>, u: string)
    requires Sound(w) && Balance(w.db.log, Available(u)) >= 0
    requires Only(w, steps, c => LedgerRuns.Guarded(c))
    ensures Balance(Run(w, steps).db.log, Available(u)) >= 0
  {
    EveryInterleavingIsSerial(w, steps);
    OnlyTheseCommit(w, steps, c => LedgerRuns.Guarded(c));
    LedgerRuns.GuardedRunsNeverOverdraw(w.db, Committed(w, steps), u);
  }

  /** I5 at every state of an interleaving. */
  ghost predicate CoveredThroughout(w: World, steps: seq<Step>, u: string)
    decreases |steps|
  {
    Balance(w.db.log, Available(u)) >= 0 && (steps == [] || CoveredThroughout(Next(w, steps[0]), steps[1..], u))
  }

  /** I5 holds throughout exactly the interleavings whose committed commands never overdraw. */
  lemma {:induction false} CoveredIffNeverOverdraws(w: World, steps: seq<Step>, u: string)
    requires Sound(w) && Balance(w.db.log, Available(u)) >= 0
    ensures CoveredThroughout(w, steps, u) <==> LedgerRuns.NeverOverdraws(w.db, Committed(w, steps), u)
    decreases |steps|
  {
    if steps == [] {
    } else {
      var w' := Next(w, steps[0]);
      NextKeepsSound(w, steps[0]);
      if steps[0].Commit? && CanCommit(w, steps[0].client) && !InVain(w.db, w.sessions[steps[0].client]) {
        var c := w.sessions[steps[0].client].command;
        CommitIsExec(w, steps[0].client);
        LedgerRuns.OverdrawIff(w.db, c, u);
        var rest := Committed(w', steps[1..]);
        assert ([c] + rest)[1..] == rest;
        if LedgerRuns.Overdraws(w.db, c, u) {
          assert !CoveredThroughout(w', steps[1..], u);
        } else {
          CoveredIffNeverOverdraws(w', steps[1..], u);
        }
      } else {
        NothingCommitted(w, steps[0]);
        CoveredIffNeverOverdraws(w', steps[1..], u);
      }
    }
  }

  lemma NothingCommitted(w: World, step: Step)
    requires Sound(w)
    requires !(step.Commit? && CanCommit(w, step.client) && !InVain(w.db, w.sessions[step.client]))
    ensures Next(w, step).db == w.db
  {
    if step.Commit? && CanCommit(w, step.client) {
      CommitIsExec(w, step.client);
    }
  }

  /** Any number of cards racing on one pool: the approved holds fit in it. */
  lemma RacingHoldsFitThePool(w: World, steps: seq<Step>, u: string)
    requires Sound(w) && Balance(w.db.log, Available(u)) >= 0
    requires Only(w, steps, c => LedgerRuns.OnlySpends(c))
    ensures var after := Run(w, steps).db;
            && Balance(after.log, Available(u)) >= 0
            && LedgerRuns.HoldsApproved(w.db, Committed(w, steps), u) <=
               Balance(w.db.log, Available(u)) - Balance(after.log, Available(u))
            && LedgerRuns.HoldsApproved(w.db, Committed(w, steps), u) ==
               LedgerRuns.HoldsPlaced(after.log, u) - LedgerRuns.HoldsPlaced(w.db.log, u)
  {
    EveryInterleavingIsSerial(w, steps);
    OnlyTheseCommit(w, steps, c => LedgerRuns.OnlySpends(c));
    LedgerRuns.HoldsFitThePool(w.db, Committed(w, steps), u);
  }

  /**
   * The validation is what does it: two holds that each fit the pool but not
   * together, planned on one snapshot, would overdraw it if the second were
   * committed anyway - and it never can be.
   */
  lemma UnvalidatedCommitOverdraws(db: Db, a: Command, b: Command)
    requires Valid(db) && a.PlaceHold? && b.PlaceHold? && a.user == b.user && a.key != b.key
    requires a.amount > 0 && b.amount > 0 && !Posted(db.log, a.key) && !Posted(db.log, b.key)
    requires a.amount <= Balance(db.log, Available(a.user)) && b.amount <= Balance(db.log, Available(a.user))
    requires a.amount + b.amount > Balance(db.log, Available(a.user))
    ensures var afterA := Exec(db, a).db;
            && !ReadsUnchanged(db, afterA, b)
            && Balance(Commands.Commit(afterA, b, PlanOf(db, b)).db.log, Available(a.user)) < 0
  {
    ExecMeaning(db, a);
    var o := Exec(db, a);
    Moves(db, a, o, Available(a.user));
    FindAppend(db.log, PostingOf(a));
    EntriesOn(b, Available(a.user));
    CommitInsert(o.db, b);
    BalanceAppend(o.db.log, PostingOf(b));
  }
}
