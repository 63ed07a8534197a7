/** The billing pass as it runs: charge, clear or set the dunning date, downgrade. */
module BillingService {
  import opened Wrappers
  import opened Postings
  import opened Commands
  import opened Billing
  import opened LedgerService

  class BillingDesk {
    const ledger: Ledger
    var users: seq<Subscriber>

    constructor (ledger: Ledger, users: seq<Subscriber>)
      requires ledger.Consistent()
      ensures this.ledger == ledger && Consistent() && State() == Office(ledger.Tables(), users)
    {
      this.ledger, this.users := ledger, users;
    }

    function State(): Office
      reads this, ledger
    {
      Office(ledger.Tables(), users)
    }

    ghost predicate Consistent()
      reads this, ledger
    {
      ledger.Consistent()
    }

    /** One account of the pass. */
    method BillAccount(i: nat, env: PassEnv) returns (billed: Billed)
      requires Consistent() && i < |users|
      modifies this`users, ledger
      ensures Consistent() && |users| == |old(users)|
      ensures (State(), billed) == BillOne(old(State()), i, env)
    {
      var s := users[i];
      var price := PriceFor(s.tier, env);
      if price <= 0 {
        return Skipped;
      }
      var key := Monthly(s.user, env.period);
      if key in ledger.ids {
        return Skipped;
      }
      if s.user in env.unlucky {
        return Threw;
      }
      var r := ledger.ChargeFee(s.user, key, price, OnPlan);
      match r {
        case Ok(_) =>
          users := users[i := s.(dunningSince := None)];
          billed := Charged;
        case Err(InsufficientBalance(_, _)) =>
          var since := if s.dunningSince.Some? then s.dunningSince.value else env.now;
          var daysFailing := (env.now - since) / DAY_MILLIS;
          if daysFailing >= env.dunningDays {
            users := users[i := s.(tier := Starter, dunningSince := None)];
            billed := Downgraded;
          } else {
            users := users[i := s.(dunningSince := Some(since))];
            billed := Retried;
          }
        case Err(_) =>
          billed := Threw;
      }
      assert users == old(users)[i := users[i]];
    }

    /** One account of the pass, counted. */
    method BillNext(i: nat, env: PassEnv, before: Tally) returns (tally: Tally, threw: bool)
      requires Consistent() && i < |users|
      modifies this`users, ledger
      ensures Consistent() && |users| == |old(users)|
      ensures Progress(State(), tally, threw) == PassOne(Progress(old(State()), before, false), i, env)
    {
      tally := before;
      var billed := BillAccount(i, env);
      match billed {
        case Charged => tally := tally.(charged := tally.charged + 1);
        case Retried => tally := tally.(retried := tally.retried + 1);
        case Downgraded => tally := tally.(downgraded := tally.downgraded + 1);
        case _ =>
      }
      threw := billed == Threw;
    }

    /** The loop of the pass. */
    method ChargeAccounts(accounts: seq<nat>, env: PassEnv) returns (tally: Tally, threw: bool)
      requires Consistent() && forall k | 0 <= k < |accounts| :: accounts[k] < |users|
      modifies this`users, ledger
      ensures Consistent()
      ensures Progress(State(), tally, threw) == PassAll(old(State()), accounts, env)
    {
      ghost var start := State();
      tally, threw := Tally(0, 0, 0), false;
      var k := 0;
      while k < |accounts|
        invariant 0 <= k <= |accounts| && Consistent() && |users| == |start.users|
        invariant !threw
        invariant Progress(State(), tally, false) == PassAll(start, accounts[..k], env)
      {
        PassAllNext(start, accounts, env, k);
        tally, threw := BillNext(accounts[k], env, tally);
        k := k + 1;
        if threw {
          PassStops(start, accounts, env, k);
          return;
        }
      }
      assert accounts[..|accounts|] == accounts;
    }

    /** The daily pass over at most `take` paying, open accounts. */
    method ChargeDuePlans(env: PassEnv, take: nat) returns (considered: nat, tally: Tally, threw: bool)
      requires Consistent()
      modifies this`users, ledger
      ensures Consistent()
      ensures Progress(State(), tally, threw) == PassAll(old(State()), DueUsers(old(users), take), env)
      ensures considered == |DueUsers(old(users), take)|
      ensures exists steps :: State() == Run(old(State()), steps)
    {
      var accounts := DueUsers(users, take);
      ghost var steps := PassIsRun(State(), accounts, env);
      considered := |accounts|;
      tally, threw := ChargeAccounts(accounts, env);
    }

    /** Move an account to another plan; nothing is charged and dunning starts afresh. */
    method SetPlan(i: nat, tier: Tier)
      requires Consistent() && i < |users|
      modifies this`users
      ensures Consistent() && ledger.Tables() == old(ledger.Tables())
      ensures |users| == |old(users)| && users[i] == old(users[i]).(tier := tier, dunningSince := None)
      ensures forall j | 0 <= j < |users| && j != i :: users[j] == old(users)[j]
      ensures NoStarterDunning(old(users)) ==> NoStarterDunning(users)
      ensures State() == SetTier(old(State()), i, tier)
    {
      users := users[i := users[i].(tier := tier, dunningSince := None)];
    }
  }

  lemma PassAllNext(o: Office, ids: seq<nat>, env: PassEnv, k: nat)
    requires k < |ids| && forall i | 0 <= i < |ids| :: ids[i] < |o.users|
    ensures PassAll(o, ids[..k + 1], env) == PassOne(PassAll(o, ids[..k], env), ids[k], env)
  {
    assert ids[..k + 1][..k] == ids[..k];
  }

  /** A pass that threw leaves the remaining accounts for the next one. */
  lemma {:induction false} PassStops(o: Office, ids: seq<nat>, env: PassEnv, k: nat)
    requires forall i | 0 <= i < |ids| :: ids[i] < |o.users|
    requires k <= |ids| && PassAll(o, ids[..k], env).threw
    ensures PassAll(o, ids, env) == PassAll(o, ids[..k], env)
  {
    if k < |ids| {
      assert ids[..|ids| - 1][..k] == ids[..k];
      PassStops(o, ids[..|ids| - 1], env, k);
    } else {
      assert ids[..k] == ids;
    }
  }
}
