/**
 * The ledger service: four tables, updated in place by one method per money
 * movement. Each method is proved to leave exactly the tables, and return
 * exactly the result, that Commands.Exec gives for its command.
 */
module LedgerService {
  import opened Wrappers
  import opened Postings
  import opened Commands

  /** A copy of the tables, restored when a transaction rolls back. */
  datatype Saved = Saved(accounts: set<Account>, log: Log, ids: map<Key, nat>, fees: seq<FeeRow>)

  class Ledger {
    var accounts: set<Account>
    var log: Log
    var ids: map<Key, nat> // the unique index on idempotency keys
    var fees: seq<FeeRow>

    constructor ()
      ensures Consistent() && Tables() == EMPTY_DB
    {
      accounts, log, ids, fees := {}, [], map[], [];
    }

    function Tables(): Db
      reads this
    {
      Db(accounts, log, fees)
    }

    ghost predicate Consistent()
      reads this
    {
      Valid(Tables()) && Indexed(ids, log)
    }

    method Begin() returns (saved: Saved)
      ensures saved == Saved(accounts, log, ids, fees)
    {
      saved := Saved(accounts, log, ids, fees);
    }

    method RollBack(saved: Saved)
      requires Valid(Db(saved.accounts, saved.log, saved.fees)) && Indexed(saved.ids, saved.log)
      modifies this
      ensures Consistent() && Tables() == Db(saved.accounts, saved.log, saved.fees)
    {
      accounts, log, ids, fees := saved.accounts, saved.log, saved.ids, saved.fees;
    }

    method EnsureAccount(a: Account)
      requires Consistent()
      modifies this`accounts
      ensures Consistent() && accounts == old(accounts) + {a}
    {
      AccountsKnownMore(accounts, accounts + {a}, log);
      if a !in accounts {
        accounts := accounts + {a};
      }
      assert accounts == old(accounts) + {a};
    }

    /** I1 and I3, checked entry by entry. */
    static method AssertBalanced(entries: seq<Entry>) returns (ok: bool)
      ensures ok == Balanced(entries)
    {
      if |entries| < 2 {
        return false;
      }
      var net := 0;
      for i := 0 to |entries|
        invariant net == Net(entries[..i])
        invariant forall j | 0 <= j < i :: entries[j].amount > 0
      {
        if entries[i].amount <= 0 {
          return false;
        }
        assert entries[..i + 1][..i] == entries[..i];
        net := net + if entries[i].direction.Credit? then entries[i].amount else -entries[i].amount;
      }
      assert entries[..|entries|] == entries;
      ok := net == 0;
    }

    /** Post a balanced set of entries; a key already there returns its original id. */
    method Post(p: Posting) returns (r: Result<nat, Error>)
      requires Consistent()
      requires forall j | 0 <= j < |p.entries| :: p.entries[j].account in accounts
      modifies this`log, this`ids
      ensures Consistent()
      ensures if !Balanced(p.entries) then r == Err(Imbalance) && log == old(log)
              else if Posted(old(log), p.key) then r == Ok(Find(old(log), p.key).value) && log == old(log)
              else r == Ok(|old(log)|) && log == old(log) + [p]
    {
      var ok := AssertBalanced(p.entries);
      if !ok {
        return Err(Imbalance);
      }
      if p.key in ids {
        return Ok(ids[p.key]);
      }
      AppendKeepsTables(Tables(), p);
      FindAppend(log, p);
      r := Ok(|log|);
      ids := ids[p.key := |log|];
      log := log + [p];
    }

    /** Balance of one account: credits minus debits, from the grouped sums. */
    method GetAccountBalance(a: Account) returns (balance: int)
      ensures balance == Balance(log, a)
    {
      var entries := AllEntries(log);
      var rows := GroupByDirection(entries, a);
      GroupsAddUp(entries, a);
      BalanceIsNetOfEntries(log, a);
      balance := 0;
      var i := 0;
      while i < |rows|
        invariant 0 <= i <= |rows|
        invariant balance + SignedRows(rows[i..]) == Balance(log, a)
      {
        assert rows[i..][0] == rows[i] && rows[i..][1..] == rows[i + 1..];
        var (direction, sum) := rows[i];
        balance := balance + if direction.Credit? then sum else -sum;
        i := i + 1;
      }
    }

    /** Insert a fee row; the unique index allows one per ledger transaction. */
    method CreateFee(user: string, kind: FeeKind, amount: int, posting: nat) returns (ok: bool)
      requires Consistent() && posting < |log|
      modifies this`fees
      ensures Consistent()
      ensures ok == !HasFeeRow(old(fees), posting)
      ensures fees == if ok then old(fees) + [FeeRow(user, kind, amount, posting)] else old(fees)
    {
      if HasFeeRow(fees, posting) {
        return false;
      }
      fees := fees + [FeeRow(user, kind, amount, posting)];
      ok := true;
    }

    /** On a clean connection, the winner of a lost race - or the error again. */
    method ResolveDuplicate(key: Key) returns (r: Result<nat, Error>)
      requires Consistent()
      ensures Outcome(Tables(), r) == Commands.ResolveDuplicate(Tables(), key)
    {
      if key in ids {
        r := Ok(ids[key]);
      } else {
        r := Err(DuplicateKey);
      }
    }

    /** Post the entries, then the fee row with them, or neither. */
    method PostWithFee(saved: Saved, ghost c: Command, p: Posting, user: string, fee: Option<(FeeKind, int)>)
      returns (r: Result<nat, Error>)
      requires Consistent() && Valid(Db(saved.accounts, saved.log, saved.fees)) && Indexed(saved.ids, saved.log)
      requires log == saved.log && fees == saved.fees && accounts == saved.accounts + AccountsOf(c)
      requires p == PostingOf(c) && user == c.user && fee == FeeOf(c) && Refusal(c).None?
      requires LooksUpFirst(c) ==> !Posted(log, KeyOf(c))
      requires Required(c).Some? ==> Balance(log, Available(c.user)) >= Required(c).value
      modifies this
      ensures Consistent()
      ensures Outcome(Tables(), r) == Exec(Db(saved.accounts, saved.log, saved.fees), c)
    {
      ghost var before := Db(saved.accounts, saved.log, saved.fees);
      AccountsCovered(c);
      ExecPastChecks(before, c);
      r := Post(p);
      if r.Err? {
        RollBack(saved);
      } else {
        r := RecordFee(saved, c, p.key, user, fee, r.value);
      }
    }

    /** The fee row, inside the transaction that posted under the given id. */
    method RecordFee(saved: Saved, ghost c: Command, key: Key, user: string, fee: Option<(FeeKind, int)>, id: nat)
      returns (r: Result<nat, Error>)
      requires Consistent() && id < |log|
      requires key == KeyOf(c) && user == c.user && fee == FeeOf(c)
      requires Valid(Db(saved.accounts, saved.log, saved.fees)) && Indexed(saved.ids, saved.log)
      modifies this
      ensures Consistent()
      ensures Outcome(Tables(), r) ==
              Commands.RecordFee(Db(saved.accounts, saved.log, saved.fees), old(Tables()), c, id)
    {
      r := Ok(id);
      if fee.Some? {
        var ok := CreateFee(user, fee.value.0, fee.value.1, id);
        if !ok {
          RollBack(saved);
          r := ResolveDuplicate(key);
        }
      }
    }

    method CreditDeposit(user: string, deposit: nat, amount: int, fee: int) returns (r: Result<nat, Error>)
      requires Consistent()
      modifies this
      ensures Consistent()
      ensures Outcome(Tables(), r) == Exec(old(Tables()), Command.CreditDeposit(user, deposit, amount, fee))
    {
      var saved := Begin();
      EnsureAccount(Available(user));
      EnsureAccount(Clearing);
      if fee < 0 || fee > amount {
        RollBack(saved);
        return Err(BadDepositFee);
      }
      var entries := [
        Entry(Clearing, Debit, amount),
        Entry(Available(user), Credit, amount - fee)
      ];
      if fee > 0 {
        EnsureAccount(FeeRevenue);
        entries := entries + [Entry(FeeRevenue, Credit, fee)];
      }
      var posting := Posting(DepositConfirmed, Confirm(deposit), entries);
      r := PostWithFee(saved, Command.CreditDeposit(user, deposit, amount, fee), posting, user,
                       if fee > 0 then Some((OnDeposit, fee)) else None);
    }

    method ReverseDeposit(user: string, deposit: nat, amount: int, fee: int) returns (r: Result<nat, Error>)
      requires Consistent()
      modifies this
      ensures Consistent()
      ensures Outcome(Tables(), r) == Exec(old(Tables()), Command.ReverseDeposit(user, deposit, amount, fee))
    {
      var saved := Begin();
      EnsureAccount(Available(user));
      EnsureAccount(Clearing);
      var entries := [
        Entry(Available(user), Debit, amount - fee),
        Entry(Clearing, Credit, amount)
      ];
      if fee > 0 {
        EnsureAccount(FeeRevenue);
        entries := entries + [Entry(FeeRevenue, Debit, fee)];
      }
      var posting := Posting(DepositReversed, Reverse(deposit), entries);
      r := PostWithFee(saved, Command.ReverseDeposit(user, deposit, amount, fee), posting, user, None);
    }

    method ChargeFee(user: string, key: Key, amount: int, kind: FeeKind) returns (r: Result<nat, Error>)
      requires Consistent()
      modifies this
      ensures Consistent()
      ensures Outcome(Tables(), r) == Exec(old(Tables()), Command.ChargeFee(user, key, amount, kind))
    {
      if amount <= 0 {
        return Err(FeeNotPositive);
      }
      var saved := Begin();
      if key in ids {
        return Ok(ids[key]);
      }
      EnsureAccount(Available(user));
      EnsureAccount(FeeRevenue);
      var available := GetAccountBalance(Available(user));
      if available < amount {
        RollBack(saved);
        return Err(InsufficientBalance(available, amount));
      }
      var entries := [
        Entry(Available(user), Debit, amount),
        Entry(FeeRevenue, Credit, amount)
      ];
      var posting := Posting(FeeCharged, key, entries);
      r := PostWithFee(saved, Command.ChargeFee(user, key, amount, kind), posting, user, Some((kind, amount)));
    }

    /** Available to held, if it fits; also reports what is left. */
    method PlaceHold(user: string, key: Key, amount: int) returns (r: Result<nat, Error>, availableAfter: int)
      requires Consistent()
      modifies this
      ensures Consistent()
      ensures Outcome(Tables(), r) == Exec(old(Tables()), Command.PlaceHold(user, key, amount))
      ensures r.Ok? ==> availableAfter == Balance(log, Available(user))
    {
      var saved := Begin();
      ghost var before := Tables();
      if key in ids {
        availableAfter := GetAccountBalance(Available(user));
        return Ok(ids[key]), availableAfter;
      }
      EnsureAccount(Available(user));
      EnsureAccount(Held(user));
      var available := GetAccountBalance(Available(user));
      if available < amount {
        RollBack(saved);
        return Err(InsufficientBalance(available, amount)), available;
      }
      var entries := [
        Entry(Available(user), Debit, amount),
        Entry(Held(user), Credit, amount)
      ];
      var posting := Posting(Authorization, key, entries);
      r := PostWithFee(saved, Command.PlaceHold(user, key, amount), posting, user, None);
      availableAfter := available - amount;
      HoldLeaves(before, Command.PlaceHold(user, key, amount), Outcome(Tables(), r));
    }

    method ReleaseHold(user: string, key: Key, amount: int) returns (r: Result<nat, Error>)
      requires Consistent()
      modifies this
      ensures Consistent()
      ensures Outcome(Tables(), r) == Exec(old(Tables()), Command.ReleaseHold(user, key, amount))
    {
      var saved := Begin();
      EnsureAccount(Available(user));
      EnsureAccount(Held(user));
      var entries := [
        Entry(Held(user), Debit, amount),
        Entry(Available(user), Credit, amount)
      ];
      var posting := Posting(AuthorizationReversal, key, entries);
      r := PostWithFee(saved, Command.ReleaseHold(user, key, amount), posting, user, None);
    }

    /** Held to settlement; the difference goes back, or is taken from available. */
    method SettleAuthorization(user: string, key: Key, held: int, settled: int, fee: int)
      returns (r: Result<nat, Error>)
      requires Consistent()
      modifies this
      ensures Consistent()
      ensures Outcome(Tables(), r) == Exec(old(Tables()), Command.SettleAuthorization(user, key, held, settled, fee))
    {
      var saved := Begin();
      EnsureAccount(Available(user));
      EnsureAccount(Held(user));
      EnsureAccount(CardSettlement);
      if fee > 0 {
        EnsureAccount(FeeRevenue);
      }
      var entries := SettlementEntries(user, held, settled, fee);
      var posting := Posting(Settled, key, entries);
      r := PostWithFee(saved, Command.SettleAuthorization(user, key, held, settled, fee), posting, user,
                       if fee > 0 then Some((OnCardSpend, fee)) else None);
    }

    /** Whatever the hold does not cover is taken from available, the excess goes back. */
    static method SettlementEntries(user: string, held: int, settled: int, fee: int) returns (entries: seq<Entry>)
      ensures forall key :: entries == EntriesOf(Command.SettleAuthorization(user, key, held, settled, fee))
    {
      entries := [Entry(Held(user), Debit, held)];
      if settled > 0 {
        entries := entries + [Entry(CardSettlement, Credit, settled)];
      }
      if fee > 0 {
        entries := entries + [Entry(FeeRevenue, Credit, fee)];
      }
      var remainder := held - settled - fee;
      if remainder < 0 {
        entries := entries + [Entry(Available(user), Debit, -remainder)];
      } else if remainder > 0 {
        entries := entries + [Entry(Available(user), Credit, remainder)];
      }
    }

    method CreditRefund(user: string, key: Key, amount: int) returns (r: Result<nat, Error>)
      requires Consistent()
      modifies this
      ensures Consistent()
      ensures Outcome(Tables(), r) == Exec(old(Tables()), Command.CreditRefund(user, key, amount))
    {
      var saved := Begin();
      EnsureAccount(Available(user));
      EnsureAccount(CardSettlement);
      var entries := [
        Entry(CardSettlement, Debit, amount),
        Entry(Available(user), Credit, amount)
      ];
      var posting := Posting(Refunded, key, entries);
      r := PostWithFee(saved, Command.CreditRefund(user, key, amount), posting, user, None);
    }

    /** The balance check of a debit comes before post looks for the key. */
    method PostAdjustment(user: string, key: Key, amount: int) returns (r: Result<nat, Error>)
      requires Consistent()
      modifies this
      ensures Consistent()
      ensures Outcome(Tables(), r) == Exec(old(Tables()), Command.PostAdjustment(user, key, amount))
    {
      if amount == 0 {
        return Err(AmountZero);
      }
      var magnitude := if amount < 0 then -amount else amount;
      var saved := Begin();
      EnsureAccount(Available(user));
      EnsureAccount(Adjustment);
      if amount < 0 {
        var available := GetAccountBalance(Available(user));
        if available < magnitude {
          RollBack(saved);
          return Err(InsufficientBalance(available, magnitude));
        }
      }
      var entries :=
        if amount > 0 then [
          Entry(Adjustment, Debit, magnitude),
          Entry(Available(user), Credit, magnitude)
        ] else [
          Entry(Available(user), Debit, magnitude),
          Entry(Adjustment, Credit, magnitude)
        ];
      var posting := Posting(Adjusted, key, entries);
      r := PostWithFee(saved, Command.PostAdjustment(user, key, amount), posting, user, None);
    }

    /**
     * The reconciliation check, on whatever is in the tables: exactly the
     * postings that do not net to zero and exactly the user accounts below zero.
     * On a consistent ledger the first list is empty.
     */
    method VerifyIntegrity() returns (ok: bool, checked: nat, unbalanced: seq<nat>, negative: set<Account>)
      ensures checked == |log|
      ensures forall i :: i in unbalanced <==> 0 <= i < |log| && Net(log[i].entries) != 0
      ensures forall a :: a in negative <==>
                a in accounts && (a.Available? || a.Held?) && Balance(log, a) < 0
      ensures ok <==> unbalanced == [] && negative == {}
      ensures Consistent() ==> unbalanced == []
    {
      unbalanced := [];
      for i := 0 to |log|
        invariant forall k :: k in unbalanced <==> 0 <= k < i && Net(log[k].entries) != 0
      {
        if Net(log[i].entries) != 0 {
          unbalanced := unbalanced + [i];
        }
      }
      negative := set a | a in accounts && (a.Available? || a.Held?) && Balance(log, a) < 0;
      checked := |log|;
      ok := |unbalanced| == 0 && negative == {};
      assert unbalanced != [] ==> unbalanced[0] in unbalanced;
    }
  }

  ghost predicate Indexed(ids: map<Key, nat>, log: Log) {
    forall k :: Find(log, k) == if k in ids then Some(ids[k]) else None
  }

  function SignedRows(rows: seq<(Direction, int)>): int {
    if rows == [] then 0
    else (if rows[0].0.Credit? then rows[0].1 else -rows[0].1) + SignedRows(rows[1..])
  }

  lemma GroupsAddUp(es: seq<Entry>, a: Account)
    ensures SignedRows(GroupByDirection(es, a)) == NetOn(es, a)
  {
    GroupedIsFolded(es, a);
    var debits, credits := (Debit, SumDirected(es, a, Debit)), (Credit, SumDirected(es, a, Credit));
    SignedRowsOf(debits, [credits]);
    SignedRowsOf(debits, []);
    SignedRowsOf(credits, []);
    assert [debits] + [] == [debits] && [] + [credits] == [credits] && [credits] + [] == [credits];
  }

  lemma SignedRowsOf(row: (Direction, int), rest: seq<(Direction, int)>)
    ensures SignedRows([row] + rest) == (if row.0.Credit? then row.1 else -row.1) + SignedRows(rest)
  {
    assert ([row] + rest)[1..] == rest;
  }

  lemma HoldLeaves(db: Db, c: Command, o: Outcome)
    requires Valid(db) && c.PlaceHold? && !Posted(db.log, c.key) && o == Exec(db, c)
    ensures o.result.Ok? ==> Balance(o.db.log, Available(c.user)) == Balance(db.log, Available(c.user)) - c.amount
  {
    ExecMeaning(db, c);
    Moves(db, c, o, Available(c.user));
  }

  /** Past the checks, a command posts and then records its fee. */
  lemma ExecPastChecks(db: Db, c: Command)
    requires Refusal(c).None? && (LooksUpFirst(c) ==> !Posted(db.log, KeyOf(c)))
    requires Required(c).Some? ==> Balance(db.log, Available(c.user)) >= Required(c).value
    ensures Exec(db, c) ==
            var accounts := db.accounts + AccountsOf(c);
            if !Balanced(EntriesOf(c)) then Outcome(db, Err(Imbalance))
            else if Posted(db.log, KeyOf(c)) then
              Commands.RecordFee(db, db.(accounts := accounts), c, Find(db.log, KeyOf(c)).value)
            else
              Commands.RecordFee(db, Db(accounts, db.log + [PostingOf(c)], db.fees), c, |db.log|)
  {
  }

  lemma AccountsKnownMore(accounts: set<Account>, more: set<Account>, log: Log)
    requires AccountsKnown(accounts, log) && accounts <= more
    ensures AccountsKnown(more, log)
  {
    forall i, j | 0 <= i < |log| && 0 <= j < |log[i].entries| ensures log[i].entries[j].account in more {
      assert log[i].entries[j].account in accounts;
    }
  }

  lemma AppendKeepsTables(db: Db, p: Posting)
    requires Valid(db) && Balanced(p.entries) && !Posted(db.log, p.key)
    requires forall j | 0 <= j < |p.entries| :: p.entries[j].account in db.accounts
    ensures Valid(db.(log := db.log + [p]))
  {
    var log := db.log + [p];
    forall i, j | 0 <= i < |log| && 0 <= j < |log[i].entries| ensures log[i].entries[j].account in db.accounts {
      if i < |db.log| { assert db.log[i].entries[j].account in db.accounts; }
    }
  }
}
