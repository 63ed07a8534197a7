/**
 * Monthly plan billing: one charge per user and month, no debt, and a
 * downgrade only after the account has failed for the dunning period.
 */
module Billing {
  import opened Wrappers
  import opened Postings
  import opened Commands
  import opened Selection

  datatype Tier = Starter | Team | Business

  datatype Subscriber = Subscriber(user: string, tier: Tier, closed: bool, dunningSince: Option<int>)

  datatype Office = Office(db: Db, users: seq<Subscriber>)

  /** The moment and settings of a pass; ledger calls of unlucky users give up on conflicts. */
  datatype PassEnv = PassEnv(
    now: int, period: string, teamPrice: int, businessPrice: int, dunningDays: int, unlucky: set<string>)

  datatype Billed = Skipped | Charged | Retried | Downgraded | Threw

  const DAY_MILLIS := 86_400_000

  function PriceFor(tier: Tier, env: PassEnv): int {
    match tier
    case Team => env.teamPrice
    case Business => env.businessPrice
    case Starter => 0
  }

  /** Whole days between two moments, rounded down. */
  function DaysBetween(since: int, now: int): int {
    (now - since) / DAY_MILLIS
  }

  predicate Due(s: Subscriber) {
    s.tier != Starter && !s.closed
  }

  function PlanCharge(s: Subscriber, env: PassEnv): Command {
    ChargeFee(s.user, Monthly(s.user, env.period), PriceFor(s.tier, env), OnPlan)
  }

  /** What a charge the balance cannot cover leads to. */
  function Unpaid(s: Subscriber, env: PassEnv): (Subscriber, Billed) {
    var since := if s.dunningSince.Some? then s.dunningSince.value else env.now;
    if DaysBetween(since, env.now) >= env.dunningDays then
      (s.(tier := Starter, dunningSince := None), Downgraded)
    else
      (s.(dunningSince := Some(since)), Retried)
  }

  /** The account and what was done, given how its charge came out. */
  function AfterCharge(s: Subscriber, env: PassEnv, o: Outcome): (Subscriber, Billed) {
    match o.result
    case Ok(_) => (s.(dunningSince := None), Charged)
    case Err(InsufficientBalance(_, _)) => Unpaid(s, env)
    case Err(_) => (s, Threw)
  }

  /** One account of a pass. */
  function BillOne(o: Office, i: nat, env: PassEnv): (Office, Billed)
    requires i < |o.users|
  {
    var s := o.users[i];
    if PriceFor(s.tier, env) <= 0 || Posted(o.db.log, Monthly(s.user, env.period)) then (o, Skipped)
    else if s.user in env.unlucky then (o, Threw)
    else
      var outcome := Exec(o.db, PlanCharge(s, env));
      var (after, billed) := AfterCharge(s, env, outcome);
      (Office(outcome.db, o.users[i := after]), billed)
  }

  function SetTier(o: Office, i: nat, tier: Tier): Office
    requires i < |o.users|
  {
    o.(users := o.users[i := o.users[i].(tier := tier, dunningSince := None)])
  }

  // ----------------------------------------------------------------- Passes

  datatype Tally = Tally(charged: nat, retried: nat, downgraded: nat)

  /** A pass so far; an error other than an empty balance ends it. */
  datatype Progress = Progress(office: Office, tally: Tally, threw: bool)

  function Tallied(t: Tally, billed: Billed): Tally {
    match billed
    case Charged => t.(charged := t.charged + 1)
    case Retried => t.(retried := t.retried + 1)
    case Downgraded => t.(downgraded := t.downgraded + 1)
    case _ => t
  }

  function PassOne(p: Progress, i: nat, env: PassEnv): Progress
    requires i < |p.office.users|
  {
    if p.threw then p
    else
      var (after, billed) := BillOne(p.office, i, env);
      Progress(after, Tallied(p.tally, billed), billed == Threw)
  }

  function PassAll(o: Office, ids: seq<nat>, env: PassEnv): (p: Progress)
    requires forall k | 0 <= k < |ids| :: ids[k] < |o.users|
    ensures |p.office.users| == |o.users|
  {
    if ids == [] then Progress(o, Tally(0, 0, 0), false)
    else PassOne(PassAll(o, ids[..|ids| - 1], env), ids[|ids| - 1], env)
  }

  /** Whom a pass is about. */
  function DueUsers(users: seq<Subscriber>, take: nat): (ids: seq<nat>)
    ensures forall k | 0 <= k < |ids| :: ids[k] < |users|
  {
    Selected(users, Due, take)
  }

  /** A pass takes the accounts on a paid plan that are not closed, each once, in order, up to its limit. */
  lemma DueUsersAre(users: seq<Subscriber>, take: nat)
    ensures var ids := DueUsers(users, take);
            && |ids| <= take && Increasing(ids)
            && (forall k | 0 <= k < |ids| ::
                  !users[ids[k]].closed && (users[ids[k]].tier == Team || users[ids[k]].tier == Business))
            && forall i: nat |
                 i < |users| && !users[i].closed && (users[i].tier == Team || users[i].tier == Business) ::
                 InOrBehind(ids, take, i)
  {
    FirstOfThem(users, Due, take);
  }

  // ------------------------------------------------------------------- Runs

  datatype BillingStep =
    | Bill(i: nat, env: PassEnv)
    | ChangePlan(i: nat, tier: Tier)
    | Other(command: Command)

  function BilledBy(o: Office, step: BillingStep): Billed {
    if step.Bill? && step.i < |o.users| then BillOne(o, step.i, step.env).1 else Skipped
  }

  function Next(o: Office, step: BillingStep): Office {
    match step
    case Bill(i, env) => if i < |o.users| then BillOne(o, i, env).0 else o
    case ChangePlan(i, tier) => if i < |o.users| then SetTier(o, i, tier) else o
    case Other(c) => if KeyOf(c).Monthly? then o else o.(db := Exec(o.db, c).db)
  }

  /** Any movement that is no plan charge runs between the passes as it does alone. */
  lemma OthersRun(o: Office, c: Command)
    requires c.CreditDeposit? || c.ReverseDeposit? || !c.key.Monthly?
    ensures Next(o, Other(c)) == o.(db := Exec(o.db, c).db)
  {
  }

  function Run(o: Office, steps: seq<BillingStep>): Office {
    if steps == [] then o else Next(Run(o, steps[..|steps| - 1]), steps[|steps| - 1])
  }

  ghost predicate NoStarterDunning(users: seq<Subscriber>) {
    forall i | 0 <= i < |users| :: users[i].tier == Starter ==> users[i].dunningSince.None?
  }

  /** The account's charge was tried and the balance did not cover it. */
  predicate Failed(o: Office, i: nat, env: PassEnv)
    requires i < |o.users|
  {
    var s := o.users[i];
    var price := if s.tier == Team then env.teamPrice else if s.tier == Business then env.businessPrice else 0;
    && 0 < price
    && !Posted(o.db.log, Monthly(s.user, env.period))
    && s.user !in env.unlucky
    && Balance(o.db.log, Available(s.user)) < price
  }

  /** The account after a charge that failed: a dunning date, or STARTER once so many whole days have passed. */
  predicate Dunned(s: Subscriber, env: PassEnv, after: Subscriber, billed: Billed) {
    var since := if s.dunningSince.Some? then s.dunningSince.value else env.now;
    if env.now - since >= env.dunningDays * 86_400_000 then
      billed == Downgraded && after == s.(tier := Starter, dunningSince := None)
    else
      billed == Retried && after == s.(dunningSince := Some(since))
  }

  lemma PriceOfPlan(tier: Tier, env: PassEnv)
    ensures PriceFor(tier, env) ==
            if tier == Team then env.teamPrice else if tier == Business then env.businessPrice else 0
  {
  }

  lemma UnpaidIsDunned(s: Subscriber, env: PassEnv)
    ensures Dunned(s, env, Unpaid(s, env).0, Unpaid(s, env).1)
  {
  }

  /** One billing of one account, in full. */
  lemma BillMeaning(o: Office, i: nat, env: PassEnv)
    requires Valid(o.db) && i < |o.users|
    ensures var s := o.users[i];
            var (o', billed) := BillOne(o, i, env);
            var price := if s.tier == Team then env.teamPrice else if s.tier == Business then env.businessPrice else 0;
            && Valid(o'.db)
            && (billed == Charged <==>
                  && 0 < price <= Balance(o.db.log, Available(s.user))
                  && !Posted(o.db.log, Monthly(s.user, env.period))
                  && s.user !in env.unlucky)
            && (billed == Charged ==>
                  && o'.users[i] == s.(dunningSince := None)
                  && Posted(o'.db.log, Monthly(s.user, env.period))
                  && Balance(o'.db.log, Available(s.user)) == Balance(o.db.log, Available(s.user)) - price
                  && Balance(o'.db.log, FeeRevenue) == Balance(o.db.log, FeeRevenue) + price)
            && (billed != Charged ==> o'.db == o.db)
            && (billed == Retried || billed == Downgraded <==> Failed(o, i, env))
            && (Failed(o, i, env) ==> Dunned(s, env, o'.users[i], billed))
            && (billed == Skipped || billed == Threw ==> o' == o)
            && |o'.users| == |o.users|
            && (forall j | 0 <= j < |o.users| && j != i :: o'.users[j] == o.users[j])
            && (forall u :: Balance(o.db.log, Available(u)) >= 0 ==> Balance(o'.db.log, Available(u)) >= 0)
  {
    var s := o.users[i];
    PriceOfPlan(s.tier, env);
    UnpaidIsDunned(s, env);
    if PriceFor(s.tier, env) > 0 && !Posted(o.db.log, Monthly(s.user, env.period)) && s.user !in env.unlucky {
      ChargeMeaning(o.db, PlanCharge(s, env), Exec(o.db, PlanCharge(s, env)));
    }
  }

  /** A positive charge on a fresh key: taken in full, or refused for want of balance. */
  ghost predicate ChargedInFull(db: Db, c: Command, o: Outcome)
    requires c.ChargeFee?
  {
    && Valid(o.db)
    && (o.result.Ok? <==> c.amount <= Balance(db.log, Available(c.user)))
    && (o.result.Ok? ==>
          && Posted(o.db.log, c.key)
          && Balance(o.db.log, Available(c.user)) == Balance(db.log, Available(c.user)) - c.amount
          && Balance(o.db.log, FeeRevenue) == Balance(db.log, FeeRevenue) + c.amount)
    && (o.result.Err? ==> o.result.error.InsufficientBalance? && o.db == db)
    && (forall u :: Balance(db.log, Available(u)) >= 0 ==> Balance(o.db.log, Available(u)) >= 0)
  }

  lemma ChargeMeaning(db: Db, c: Command, o: Outcome)
    requires Valid(db) && c.ChargeFee? && c.amount > 0 && !Posted(db.log, c.key) && o == Exec(db, c)
    ensures ChargedInFull(db, c, o)
  {
    ExecMeaning(db, c);
    ShortBalance(db, c);
    Moves(db, c, o, Available(c.user));
    Moves(db, c, o, FeeRevenue);
    if o.result.Ok? {
      FindAppend(db.log, PostingOf(c));
    }
    forall u | Balance(db.log, Available(u)) >= 0 ensures Balance(o.db.log, Available(u)) >= 0 {
      Moves(db, c, o, Available(u));
    }
  }

  lemma ShortBalance(db: Db, c: Command)
    requires Valid(db) && c.ChargeFee? && !Posted(db.log, c.key) && c.amount > 0
    ensures Exec(db, c).result.Err? ==> Exec(db, c).result.error.InsufficientBalance?
  {
    EntriesMeaning(c);
  }

  lemma StepKeepsOffice(o: Office, step: BillingStep)
    requires Valid(o.db) && NoStarterDunning(o.users)
    ensures Valid(Next(o, step).db) && NoStarterDunning(Next(o, step).users)
    ensures |Next(o, step).users| == |o.users|
  {
    match step
    case Bill(i, env) => if i < |o.users| { BillMeaning(o, i, env); }
    case ChangePlan(_, _) =>
    case Other(c) => ExecMeaning(o.db, c);
  }

  /**
   * Over any run of passes, plan changes and other money movements: at most
   * one posting per user and month, and no STARTER account carries a dunning date.
   */
  lemma {:induction false} ChargedOncePerMonth(o: Office, steps: seq<BillingStep>, user: string, period: string)
    requires Valid(o.db) && NoStarterDunning(o.users)
    ensures var o' := Run(o, steps);
            && Valid(o'.db) && NoStarterDunning(o'.users) && |o'.users| == |o.users|
            && forall i, j | 0 <= i < j < |o'.db.log| ::
                 !(o'.db.log[i].key == Monthly(user, period) && o'.db.log[j].key == Monthly(user, period))
  {
    if steps == [] {
    } else {
      ChargedOncePerMonth(o, steps[..|steps| - 1], user, period);
      StepKeepsOffice(Run(o, steps[..|steps| - 1]), steps[|steps| - 1]);
    }
  }

  /** No pass takes anyone's available balance below zero. */
  lemma {:induction false} PassesNeverOverdraw(o: Office, ids: seq<nat>, env: PassEnv, user: string)
    requires Valid(o.db) && Balance(o.db.log, Available(user)) >= 0
    requires forall k | 0 <= k < |ids| :: ids[k] < |o.users|
    ensures var p := PassAll(o, ids, env);
            Valid(p.office.db) && Balance(p.office.db.log, Available(user)) >= 0
  {
    if ids == [] {
    } else {
      var before := PassAll(o, ids[..|ids| - 1], env);
      PassesNeverOverdraw(o, ids[..|ids| - 1], env, user);
      BillMeaning(before.office, ids[|ids| - 1], env);
    }
  }

  lemma PassOneIsStep(p: Progress, i: nat, env: PassEnv)
    requires !p.threw && i < |p.office.users|
    ensures PassOne(p, i, env).office == Next(p.office, Bill(i, env))
  {
  }

  lemma RunOneMore(o: Office, steps: seq<BillingStep>, step: BillingStep)
    ensures Run(o, steps + [step]) == Next(Run(o, steps), step)
  {
    assert (steps + [step])[..|steps|] == steps;
  }

  /** A pass is a run of billings of its accounts, up to the one that throws. */
  lemma {:induction false} PassIsRun(o: Office, ids: seq<nat>, env: PassEnv) returns (steps: seq<BillingStep>)
    requires forall k | 0 <= k < |ids| :: ids[k] < |o.users|
    ensures PassAll(o, ids, env).office == Run(o, steps)
    ensures |steps| <= |ids| && forall k | 0 <= k < |steps| :: steps[k] == Bill(ids[k], env)
    ensures !PassAll(o, ids, env).threw ==> |steps| == |ids|
  {
    if ids == [] {
      steps := [];
    } else {
      var n := |ids| - 1;
      var before := PassAll(o, ids[..n], env);
      steps := PassIsRun(o, ids[..n], env);
      if !before.threw {
        PassOneIsStep(before, ids[n], env);
        RunOneMore(o, steps, Bill(ids[n], env));
        steps := steps + [Bill(ids[n], env)];
      }
    }
  }

  // ---------------------------------------------------------------- Dunning

  /** An account loses its plan to billing exactly when its charge fails with the dunning period over. */
  lemma DowngradedIff(o: Office, i: nat, env: PassEnv)
    requires Valid(o.db) && i < |o.users|
    ensures var s := o.users[i];
            BillOne(o, i, env).1 == Downgraded <==>
              && Failed(o, i, env)
              && var since := if s.dunningSince.Some? then s.dunningSince.value else env.now;
                 env.now - since >= env.dunningDays * 86_400_000
  {
    BillMeaning(o, i, env);
  }

  /**
   * A change of plan starts dunning afresh: whatever the account owed, its next
   * failed charge is put on record and downgrades it only if there is no
   * dunning period at all.
   */
  lemma PlanChangeStartsAfresh(o: Office, i: nat, tier: Tier, env: PassEnv)
    requires Valid(o.db) && i < |o.users|
    ensures var changed := SetTier(o, i, tier);
            var (after, billed) := BillOne(changed, i, env);
            && changed.db == o.db
            && (billed == Downgraded <==> Failed(changed, i, env) && env.dunningDays <= 0)
            && (billed == Retried <==> Failed(changed, i, env) && env.dunningDays > 0)
            && (billed == Retried ==> after.users[i].tier == tier && after.users[i].dunningSince == Some(env.now))
  {
    BillMeaning(SetTier(o, i, tier), i, env);
    DowngradedIff(SetTier(o, i, tier), i, env);
  }

  /** The step at which an account's charge first failed and was put on record. */
  predicate FirstFailure(o: Office, steps: seq<BillingStep>, k: nat, i: nat, at: int)
    requires k < |steps|
  {
    var before := Run(o, steps[..k]);
    && steps[k].Bill? && steps[k].i == i && steps[k].env.now == at
    && i < |before.users| && before.users[i].dunningSince.None?
    && Failed(before, i, steps[k].env)
    && BilledBy(before, steps[k]) == Retried
  }

  lemma StepDunning(o: Office, step: BillingStep, i: nat, at: int)
    requires Valid(o.db) && i < |o.users| && i < |Next(o, step).users|
    requires Next(o, step).users[i].dunningSince == Some(at)
    ensures o.users[i].dunningSince == Some(at) ||
            (o.users[i].dunningSince.None? && step.Bill? && step.i == i && step.env.now == at &&
             Failed(o, i, step.env) && BilledBy(o, step) == Retried)
  {
    if step.Bill? && step.i < |o.users| {
      BillMeaning(o, step.i, step.env);
    }
  }

  /** A dunning date on record is the moment of an earlier failed charge of that account. */
  lemma {:induction false} DunningHasAFirstFailure(o: Office, steps: seq<BillingStep>, i: nat, at: int)
    requires Valid(o.db) && NoStarterDunning(o.users) && i < |o.users| && o.users[i].dunningSince.None?
    requires i < |Run(o, steps).users| && Run(o, steps).users[i].dunningSince == Some(at)
    ensures exists k :: 0 <= k < |steps| && FirstFailure(o, steps, k, i, at)
  {
    if steps == [] {
    } else {
      var n := |steps| - 1;
      var before := Run(o, steps[..n]);
      ChargedOncePerMonth(o, steps[..n], "", "");
      StepDunning(before, steps[n], i, at);
      if before.users[i].dunningSince == Some(at) {
        DunningHasAFirstFailure(o, steps[..n], i, at);
        var k :| 0 <= k < n && FirstFailure(o, steps[..n], k, i, at);
        assert steps[..n][..k] == steps[..k];
        assert FirstFailure(o, steps, k, i, at);
      } else {
        assert FirstFailure(o, steps, n, i, at);
      }
    }
  }

  /**
   * Starting with no dunning dates, nobody is downgraded by billing until
   * dunningDays whole days after a charge of theirs first failed - which is the
   * very charge only when there is no dunning period.
   */
  lemma NoEarlyDowngrade(o: Office, steps: seq<BillingStep>, i: nat, env: PassEnv)
    requires Valid(o.db) && NoStarterDunning(o.users) && i < |o.users| && o.users[i].dunningSince.None?
    requires BilledBy(Run(o, steps), Bill(i, env)) == Downgraded
    ensures || (exists k :: 0 <= k < |steps| && steps[k].Bill? &&
                  FirstFailure(o, steps, k, i, steps[k].env.now) &&
                  env.now - steps[k].env.now >= env.dunningDays * 86_400_000)
            || (env.dunningDays <= 0 && i < |Run(o, steps).users| && Run(o, steps).users[i].dunningSince.None?)
  {
    ChargedOncePerMonth(o, steps, "", "");
    var now := Run(o, steps);
    DowngradedIff(now, i, env);
    if now.users[i].dunningSince.Some? {
      var at := now.users[i].dunningSince.value;
      DunningHasAFirstFailure(o, steps, i, at);
      var k :| 0 <= k < |steps| && FirstFailure(o, steps, k, i, at);
    }
  }
}
