/**
 * The double-entry book: accounts, signed entries, balanced postings and the
 * append-only log of them. No balance is ever stored; each is a fold of the log.
 */
module Postings {
  import opened Wrappers

  /** One account per (kind, user); the last four belong to the system. */
  datatype Account =
    | Available(user: string)
    | Held(user: string)
    | Clearing
    | CardSettlement
    | FeeRevenue
    | Adjustment

  datatype Direction = Debit | Credit

  /** Amounts are meant to be positive; the direction carries the sign. */
  datatype Entry = Entry(account: Account, direction: Direction, amount: int)

  datatype PostingKind =
    | DepositConfirmed
    | DepositReversed
    | Authorization
    | AuthorizationReversal
    | Settled
    | Refunded
    | FeeCharged
    | Adjusted

  /** Idempotency keys, one constructor per template the services use. */
  datatype Key =
    | Auth(token: string)
    | Settle(token: string)
    | Release(token: string)
    | StaleRelease(token: string)
    | Confirm(deposit: nat)
    | Reverse(deposit: nat)
    | Monthly(user: string, period: string)
    | Named(name: string)

  datatype Posting = Posting(kind: PostingKind, key: Key, entries: seq<Entry>)

  type Log = seq<Posting>

  // ---------------------------------------------------------------- Entries

  function Signed(e: Entry): int {
    if e.direction.Credit? then e.amount else -e.amount
  }

  function SignedOn(e: Entry, a: Account): int {
    if e.account == a then Signed(e) else 0
  }

  /** Credits minus debits over a list of entries, whatever their account. */
  function Net(es: seq<Entry>): int {
    if es == [] then 0 else Net(es[..|es| - 1]) + Signed(es[|es| - 1])
  }

  /** Credits minus debits that touch one account. */
  function NetOn(es: seq<Entry>, a: Account): int {
    if es == [] then 0 else NetOn(es[..|es| - 1], a) + SignedOn(es[|es| - 1], a)
  }

  /** I1 and I3: two entries or more, every amount positive, summing to zero. */
  predicate Balanced(es: seq<Entry>) {
    && |es| >= 2
    && (forall i | 0 <= i < |es| :: es[i].amount > 0)
    && Net(es) == 0
  }

  lemma {:induction false} NetConcat(es: seq<Entry>, fs: seq<Entry>)
    ensures Net(es + fs) == Net(es) + Net(fs)
    ensures forall a :: NetOn(es + fs, a) == NetOn(es, a) + NetOn(fs, a)
  {
    if fs == [] {
      assert es + fs == es;
    } else {
      var init := fs[..|fs| - 1];
      assert (es + fs)[..|es + fs| - 1] == es + init;
      NetConcat(es, init);
    }
  }

  lemma NetSingle(e: Entry)
    ensures Net([e]) == Signed(e)
    ensures forall a :: NetOn([e], a) == SignedOn(e, a)
  {
    assert [e][..0] == [];
  }

  lemma NetPair(e: Entry, f: Entry)
    ensures Net([e, f]) == Signed(e) + Signed(f)
    ensures forall a :: NetOn([e, f], a) == SignedOn(e, a) + SignedOn(f, a)
  {
    assert [e, f] == [e] + [f];
    NetConcat([e], [f]);
    NetSingle(e);
    NetSingle(f);
  }

  // ------------------------------------------------------------------- Log

  /** The balance of an account: the fold of every posting, oldest first. */
  function Balance(log: Log, a: Account): int {
    if log == [] then 0
    else Balance(log[..|log| - 1], a) + NetOn(log[|log| - 1].entries, a)
  }

  lemma BalanceAppend(log: Log, p: Posting)
    ensures forall a :: Balance(log + [p], a) == Balance(log, a) + NetOn(p.entries, a)
  {
    assert (log + [p])[..|log|] == log;
  }

  /** The id a key was posted under, if it was. */
  function Find(log: Log, key: Key): (r: Option<nat>)
    ensures r.Some? ==> r.value < |log| && log[r.value].key == key
    ensures r.None? ==> forall i | 0 <= i < |log| :: log[i].key != key
  {
    if log == [] then None
    else
      var init := log[..|log| - 1];
      var r := Find(init, key);
      assert r.Some? ==> log[r.value] == init[r.value];
      assert r.None? ==> forall i | 0 <= i < |log| - 1 :: log[i] == init[i];
      if r.Some? then r
      else if log[|log| - 1].key == key then Some(|log| - 1)
      else None
  }

  predicate Posted(log: Log, key: Key) {
    Find(log, key).Some?
  }

  lemma FindAppend(log: Log, p: Posting)
    ensures forall k :: Find(log + [p], k) ==
                        if Find(log, k).Some? then Find(log, k)
                        else if k == p.key then Some(|log|)
                        else None
  {
    assert (log + [p])[..|log|] == log;
  }

  lemma {:induction false} FindPrefix(log: Log, longer: Log, key: Key)
    requires log <= longer && Posted(log, key)
    ensures Find(longer, key) == Find(log, key)
    decreases |longer|
  {
    if log != longer {
      var init := longer[..|longer| - 1];
      assert log <= init;
      FindPrefix(log, init, key);
      assert longer == init + [longer[|longer| - 1]];
      FindAppend(init, longer[|longer| - 1]);
    } 
  }

  ghost predicate UniqueKeys(log: Log) {
    forall i, j | 0 <= i < j < |log| :: log[i].key != log[j].key
  }

  ghost predicate AllBalanced(log: Log) {
    forall i | 0 <= i < |log| :: Balanced(log[i].entries)
  }

  ghost predicate AccountsKnown(accounts: set<Account>, log: Log) {
    forall i, j | 0 <= i < |log| && 0 <= j < |log[i].entries| :: log[i].entries[j].account in accounts
  }

  // --------------------------------------------------------- Reading order

  function AllEntries(log: Log): seq<Entry> {
    if log == [] then [] else AllEntries(log[..|log| - 1]) + log[|log| - 1].entries
  }

  lemma {:induction false} BalanceIsNetOfEntries(log: Log, a: Account)
    ensures Balance(log, a) == NetOn(AllEntries(log), a)
  {
    if log == [] {
    } else {
      BalanceIsNetOfEntries(log[..|log| - 1], a);
      NetConcat(AllEntries(log[..|log| - 1]), log[|log| - 1].entries);
    }
  }

  lemma NetOnWithout(es: seq<Entry>, j: nat, a: Account)
    requires j < |es|
    ensures NetOn(es, a) == NetOn(es[..j] + es[j + 1..], a) + SignedOn(es[j], a)
    ensures multiset(es[..j] + es[j + 1..]) == multiset(es) - multiset{es[j]}
  {
    var before, after := es[..j], es[j + 1..];
    assert es == (before + [es[j]]) + after;
    NetConcat(before + [es[j]], after);
    NetConcat(before, [es[j]]);
    NetConcat(before, after);
    NetSingle(es[j]);
  }

  lemma {:induction false} NetOnAnyOrder(es: seq<Entry>, fs: seq<Entry>, a: Account)
    requires multiset(es) == multiset(fs)
    ensures NetOn(es, a) == NetOn(fs, a)
    decreases |es|
  {
    if es == [] {
      assert |multiset(es)| == |es| && |multiset(fs)| == |fs|;
    } else {
      assert es[0] in multiset(fs);
      var j :| 0 <= j < |fs| && fs[j] == es[0];
      NetOnWithout(es, 0, a);
      NetOnWithout(fs, j, a);
      NetOnAnyOrder(es[..0] + es[1..], fs[..j] + fs[j + 1..], a);
    }
  }

  /** However the database hands the entries back, their fold is the balance. */
  lemma BalanceAnyOrder(log: Log, fetched: seq<Entry>, a: Account)
    requires multiset(fetched) == multiset(AllEntries(log))
    ensures NetOn(fetched, a) == Balance(log, a)
  {
    BalanceIsNetOfEntries(log, a);
    NetOnAnyOrder(fetched, AllEntries(log), a);
  }

  // -------------------------------------------- Grouping by direction (SQL)

  function SumDirected(es: seq<Entry>, a: Account, d: Direction): int {
    if es == [] then 0
    else
      var e := es[|es| - 1];
      SumDirected(es[..|es| - 1], a, d) + if e.account == a && e.direction == d then e.amount else 0
  }

  predicate Touched(es: seq<Entry>, a: Account, d: Direction) {
    exists i | 0 <= i < |es| :: es[i].account == a && es[i].direction == d
  }

  /** What GROUP BY direction returns: one row per direction that occurs. */
  function GroupByDirection(es: seq<Entry>, a: Account): seq<(Direction, int)> {
    (if Touched(es, a, Debit) then [(Debit, SumDirected(es, a, Debit))] else []) +
    (if Touched(es, a, Credit) then [(Credit, SumDirected(es, a, Credit))] else [])
  }

  lemma {:induction false} GroupedIsFolded(es: seq<Entry>, a: Account)
    ensures NetOn(es, a) == SumDirected(es, a, Credit) - SumDirected(es, a, Debit)
    ensures forall d :: !Touched(es, a, d) ==> SumDirected(es, a, d) == 0
  {
    if es == [] {
    } else {
      var init := es[..|es| - 1];
      GroupedIsFolded(init, a);
      assert forall i | 0 <= i < |init| :: init[i] == es[i];
    }
  }

  // ------------------------------------------------------ Sum over accounts

  ghost function Pick(accounts: set<Account>): Account
    requires accounts != {}
  {
    var a :| a in accounts; a
  }

  ghost function SumBalances(accounts: set<Account>, log: Log): int {
    if accounts == {} then 0
    else Balance(log, Pick(accounts)) + SumBalances(accounts - {Pick(accounts)}, log)
  }

  ghost function SumNets(accounts: set<Account>, es: seq<Entry>): int {
    if accounts == {} then 0
    else NetOn(es, Pick(accounts)) + SumNets(accounts - {Pick(accounts)}, es)
  }

  lemma {:induction false} SumNetsLast(accounts: set<Account>, es: seq<Entry>)
    requires es != []
    ensures var e := es[|es| - 1];
            SumNets(accounts, es) ==
            SumNets(accounts, es[..|es| - 1]) + if e.account in accounts then Signed(e) else 0
  {
    if accounts == {} {
    } else {
      SumNetsLast(accounts - {Pick(accounts)}, es);
    }
  }

  lemma {:induction false} SumNetsEmpty(accounts: set<Account>)
    ensures SumNets(accounts, []) == 0
  {
    if accounts == {} {
    } else {
      SumNetsEmpty(accounts - {Pick(accounts)});
    }
  }

  lemma {:induction false} SumNetsIsNet(accounts: set<Account>, es: seq<Entry>)
    requires forall j | 0 <= j < |es| :: es[j].account in accounts
    ensures SumNets(accounts, es) == Net(es)
  {
    if es == [] {
      SumNetsEmpty(accounts);
    } else {
      SumNetsLast(accounts, es);
      SumNetsIsNet(accounts, es[..|es| - 1]);
    }
  }

  lemma {:induction false} SumBalancesLast(accounts: set<Account>, log: Log)
    requires log != []
    ensures SumBalances(accounts, log) ==
            SumBalances(accounts, log[..|log| - 1]) + SumNets(accounts, log[|log| - 1].entries)
  {
    if accounts == {} {
    } else {
      SumBalancesLast(accounts - {Pick(accounts)}, log);
    }
  }

  lemma {:induction false} SumBalancesEmpty(accounts: set<Account>)
    ensures SumBalances(accounts, []) == 0
  {
    if accounts == {} {
    } else {
      SumBalancesEmpty(accounts - {Pick(accounts)});
    }
  }

  /** Money is neither made nor lost: all the balances of a balanced log cancel. */
  lemma {:induction false} BalancesCancel(accounts: set<Account>, log: Log)
    requires AccountsKnown(accounts, log) && AllBalanced(log)
    ensures SumBalances(accounts, log) == 0
  {
    if log == [] {
      SumBalancesEmpty(accounts);
    } else {
      var init, last := log[..|log| - 1], log[|log| - 1];
      assert forall i | 0 <= i < |init| :: init[i] == log[i];
      BalancesCancel(accounts, init);
      SumBalancesLast(accounts, log);
      SumNetsIsNet(accounts, last.entries);
    }
  }
}
