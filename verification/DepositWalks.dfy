/**
 * The confirmation walk: which deposits it credits, which one it stops at, and
 * which ones wait behind that one for good.
 */
module DepositWalks {
  import opened Postings
  import opened Commands
  import opened Fees
  import opened Deposits
  import opened DepositRuns
  import opened Selection
  import opened DepositOnce

  /** Read at its required depth, or deeper. */
  predicate Deep(row: DepositRow, env: Env) {
    env.reading.Depth? && env.reading.n >= row.required
  }

  /** The fee in force takes the whole deposit: the ledger will not post the credit. */
  predicate AllFee(row: DepositRow, env: Env) {
    DepositFee(env.rates, row.amount) == row.amount
  }

  /** A pending deposit the walk does not get past. */
  predicate Blocks(row: DepositRow, env: Env) {
    Deep(row, env) && (AllFee(row, env) || env.crashes)
  }

  // --------------------------------------------------------------- One credit

  /** A pending deposit read at depth is credited exactly when its fee is below it, and throws when it is all fee. */
  lemma CreditedIff(b: Book, id: nat, env: Env)
    requires Inv(b) && id < |b.deposits| && IsPending(b.deposits[id]) && Deep(b.deposits[id], env) && !env.crashes
    ensures var row := b.deposits[id];
            var (after, ending) := Advance(b, id, env);
            && (after.deposits[id].status == Confirmed <==> DepositFee(env.rates, row.amount) < row.amount)
            && (ending.Threw? <==> AllFee(row, env))
            && (ending.Threw? ==> after == b)
  {
    DepositFeeAtMost(env.rates, b.deposits[id].amount);
    CreditGoesThrough(b.db, b.deposits[id], id, env.rates);
  }

  /** Not deep: no posting, and no confirmation. */
  lemma NotDeepYet(b: Book, id: nat, env: Env)
    requires id < |b.deposits| && IsPending(b.deposits[id]) && !Deep(b.deposits[id], env)
    ensures var (after, ending) := Advance(b, id, env);
            ending.Finished? && |after.deposits| == |b.deposits| && after.deposits[id].status != Confirmed
  {
  }

  lemma DeepEnough(b: Book, id: nat, env: Env)
    requires Inv(b) && id < |b.deposits| && IsPending(b.deposits[id]) && Deep(b.deposits[id], env)
    ensures var (after, ending) := Advance(b, id, env);
            && (ending.Finished? <==> !Blocks(b.deposits[id], env))
            && |after.deposits| == |b.deposits|
            && (ending.Finished? ==> after.deposits[id].status == Confirmed)
            && (!ending.Finished? ==> after.deposits == b.deposits)
  {
    DepositFeeAtMost(env.rates, b.deposits[id].amount);
    CreditGoesThrough(b.db, b.deposits[id], id, env.rates);
  }

  /** Whatever is read: the step finishes exactly when the deposit does not block, and confirms exactly at depth. */
  lemma AdvanceFinishes(b: Book, id: nat, env: Env)
    requires Inv(b) && id < |b.deposits| && IsPending(b.deposits[id])
    ensures var row := b.deposits[id];
            var (after, ending) := Advance(b, id, env);
            && (ending.Finished? <==> !Blocks(row, env))
            && |after.deposits| == |b.deposits|
            && (ending.Finished? ==> Inv(after) && (after.deposits[id].status == Confirmed <==> Deep(row, env)))
            && (!ending.Finished? ==> after.deposits == b.deposits)
  {
    AdvanceStep(b, id, env);
    if Deep(b.deposits[id], env) {
      DeepEnough(b, id, env);
    } else {
      NotDeepYet(b, id, env);
    }
  }

  /** An advance touches its own row at most. */
  lemma OwnRowOnly(b: Book, i: nat, env: Env)
    requires i < |b.deposits|
    ensures |Advance(b, i, env).0.deposits| == |b.deposits|
    ensures forall j | 0 <= j < |b.deposits| && j != i :: Advance(b, i, env).0.deposits[j] == b.deposits[j]
  {
    AdvanceCases(b, i, env);
  }

  // ----------------------------------------------------------------- One walk

  ghost predicate Pending(b: Book, ids: seq<nat>) {
    forall k | 0 <= k < |ids| :: ids[k] < |b.deposits| && IsPending(b.deposits[ids[k]])
  }

  lemma WalkAllNext(b: Book, ids: seq<nat>, envs: nat -> Env, k: nat)
    requires k < |ids| && forall i | 0 <= i < |ids| :: ids[i] < |b.deposits|
    ensures WalkAll(b, ids[..k + 1], envs) == WalkOne(WalkAll(b, ids[..k], envs), ids[k], envs(ids[k]))
  {
    assert ids[..k + 1][..k] == ids[..k];
  }

  /** A pass that has stopped stays as it is: the remaining rows are not visited. */
  lemma {:induction false} WalkStops(b: Book, ids: seq<nat>, envs: nat -> Env, k: nat)
    requires forall i | 0 <= i < |ids| :: ids[i] < |b.deposits|
    requires k <= |ids| && !WalkAll(b, ids[..k], envs).ending.Finished?
    ensures WalkAll(b, ids, envs) == WalkAll(b, ids[..k], envs)
  {
    if k < |ids| {
      assert ids[..|ids| - 1][..k] == ids[..k];
      WalkStops(b, ids[..|ids| - 1], envs, k);
    } else {
      assert ids[..k] == ids;
    }
  }

  /** No deposit among the first k blocks. */
  predicate Clear(b: Book, ids: seq<nat>, envs: nat -> Env, k: nat)
    requires k <= |ids| && forall i | 0 <= i < |ids| :: ids[i] < |b.deposits|
  {
    forall j | 0 <= j < k :: !Blocks(b.deposits[ids[j]], envs(ids[j]))
  }

  /** A walk touches the rows it visits and no others. */
  lemma {:induction false} WalkLeaves(b: Book, ids: seq<nat>, envs: nat -> Env, id: nat)
    requires forall i | 0 <= i < |ids| :: ids[i] < |b.deposits|
    requires id < |b.deposits| && id !in ids
    ensures WalkAll(b, ids, envs).book.deposits[id] == b.deposits[id]
  {
    if ids == [] {
    } else {
      var n := |ids| - 1;
      WalkLeaves(b, ids[..n], envs, id);
      var before := WalkAll(b, ids[..n], envs);
      OwnRowOnly(before.book, ids[n], envs(ids[n]));
    }
  }

  /** One more row of a walk leaves the others. */
  lemma WalkOneLeaves(p: Pass, i: nat, env: Env, id: nat)
    requires i < |p.book.deposits| && id < |p.book.deposits| && i != id
    ensures WalkOne(p, i, env).book.deposits[id] == p.book.deposits[id]
  {
    OwnRowOnly(p.book, i, env);
  }

  /** Later rows do not undo what the first k got. */
  lemma {:induction false} WalkOn(b: Book, ids: seq<nat>, envs: nat -> Env, k: nat, id: nat)
    requires forall i | 0 <= i < |ids| :: ids[i] < |b.deposits|
    requires k <= |ids| && id < |b.deposits| && id !in ids[k..]
    ensures WalkAll(b, ids, envs).book.deposits[id] == WalkAll(b, ids[..k], envs).book.deposits[id]
  {
    var n := |ids| - 1;
    if k == |ids| {
      assert ids[..k] == ids;
    } else {
      assert ids[..n][..k] == ids[..k];
      assert ids[k..] == ids[..n][k..] + [ids[n]];
      WalkOn(b, ids[..n], envs, k, id);
      WalkOneLeaves(WalkAll(b, ids[..n], envs), ids[n], envs(ids[n]), id);
    }
  }

  /** One row of a walk that has got this far. */
  lemma WalkOneReaches(p: Pass, id: nat, env: Env)
    requires p.ending.Finished? && Inv(p.book) && id < |p.book.deposits| && IsPending(p.book.deposits[id])
    ensures var row, after := p.book.deposits[id], WalkOne(p, id, env);
            && (after.ending.Finished? <==> !Blocks(row, env))
            && (after.ending.Finished? ==> Inv(after.book))
            && |after.book.deposits| == |p.book.deposits|
            && (after.book.deposits[id].status == Confirmed <==> Deep(row, env) && !Blocks(row, env))
  {
    AdvanceFinishes(p.book, id, env);
    OwnRowOnly(p.book, id, env);
  }

  /** The row the walk is about to visit is as it was. */
  lemma NotYetVisited(b: Book, ids: seq<nat>, envs: nat -> Env, k: nat)
    requires Pending(b, ids) && Distinct(ids) && k < |ids|
    ensures WalkAll(b, ids[..k], envs).book.deposits[ids[k]] == b.deposits[ids[k]]
    ensures WalkAll(b, ids[..k + 1], envs) == WalkOne(WalkAll(b, ids[..k], envs), ids[k], envs(ids[k]))
  {
    WalkLeaves(b, ids[..k], envs, ids[k]);
    WalkAllNext(b, ids, envs, k);
  }

  /** The walk gets past its first k rows exactly when none of them blocks. */
  lemma {:induction false} WalkReaches(b: Book, ids: seq<nat>, envs: nat -> Env, k: nat)
    requires Inv(b) && Pending(b, ids) && Distinct(ids) && k <= |ids|
    ensures var p := WalkAll(b, ids[..k], envs);
            && (p.ending.Finished? <==> Clear(b, ids, envs, k))
            && (p.ending.Finished? ==> Inv(p.book))
  {
    if k == 0 {
    } else {
      var before := WalkAll(b, ids[..k - 1], envs);
      WalkReaches(b, ids, envs, k - 1);
      NotYetVisited(b, ids, envs, k - 1);
      ClearNext(b, ids, envs, k - 1);
      if before.ending.Finished? {
        WalkOneReaches(before, ids[k - 1], envs(ids[k - 1]));
      }
    }
  }

  lemma ClearNext(b: Book, ids: seq<nat>, envs: nat -> Env, k: nat)
    requires k < |ids| && forall i | 0 <= i < |ids| :: ids[i] < |b.deposits|
    ensures Clear(b, ids, envs, k + 1) <==> Clear(b, ids, envs, k) && !Blocks(b.deposits[ids[k]], envs(ids[k]))
  {
  }

  lemma Visited(p: Pass, id: nat, env: Env)
    requires (p.ending.Finished? ==> Inv(p.book)) && id < |p.book.deposits| && IsPending(p.book.deposits[id])
    ensures WalkOne(p, id, env).book.deposits[id].status == Confirmed <==>
              p.ending.Finished? && Deep(p.book.deposits[id], env) && !Blocks(p.book.deposits[id], env)
  {
    if p.ending.Finished? {
      WalkOneReaches(p, id, env);
    }
  }

  /** A walk confirms a row exactly when it reads it deep enough and neither it nor any row before it blocks. */
  lemma WalkCredits(b: Book, ids: seq<nat>, envs: nat -> Env, k: nat)
    requires Inv(b) && Pending(b, ids) && Distinct(ids) && k < |ids|
    ensures WalkAll(b, ids, envs).book.deposits[ids[k]].status == Confirmed <==>
              Deep(b.deposits[ids[k]], envs(ids[k])) && Clear(b, ids, envs, k + 1)
  {
    WalkReaches(b, ids, envs, k);
    NotYetVisited(b, ids, envs, k);
    ClearNext(b, ids, envs, k);
    Visited(WalkAll(b, ids[..k], envs), ids[k], envs(ids[k]));
    WalkOn(b, ids, envs, k + 1, ids[k]);
  }

  // --------------------------------------------------------------- Many walks

  /** One walk after another, each over what is pending by then. */
  function Walks(b: Book, take: nat, walks: seq<nat -> Env>): Book {
    if walks == [] then b
    else
      var before := Walks(b, take, walks[..|walks| - 1]);
      WalkAll(before, PendingRows(before.deposits, take), walks[|walks| - 1]).book
  }

  /** What the walk selects is distinct pending rows, oldest first. */
  lemma SelectedFits(b: Book, take: nat)
    ensures var ids := PendingRows(b.deposits, take); Pending(b, ids) && Distinct(ids)
  {
    PendingRowsAre(b.deposits, take);
  }

  /** The walk as the job runs it: a row is confirmed exactly when it is reached, read at depth and creditable. */
  lemma PendingWalkCredits(b: Book, take: nat, envs: nat -> Env, k: nat)
    requires Inv(b) && k < |PendingRows(b.deposits, take)|
    ensures var ids := PendingRows(b.deposits, take);
            WalkAll(b, ids, envs).book.deposits[ids[k]].status == Confirmed <==>
              Deep(b.deposits[ids[k]], envs(ids[k])) && Clear(b, ids, envs, k + 1)
  {
    SelectedFits(b, take);
    WalkCredits(b, PendingRows(b.deposits, take), envs, k);
  }

  /** A deposit that throws whatever else is going on: pending, uncredited, deep, and all fee. */
  predicate Stuck(b: Book, s: nat, env: Env) {
    && s < |b.deposits| && IsPending(b.deposits[s]) && b.deposits[s].posting.None?
    && Deep(b.deposits[s], env) && AllFee(b.deposits[s], env)
  }

  lemma StuckThrows(b: Book, s: nat, env: Env)
    requires Valid(b.db) && Stuck(b, s, env)
    ensures Advance(b, s, env).1.Threw? && Advance(b, s, env).0 == b
  {
    CreditGoesThrough(b.db, b.deposits[s], s, env.rates);
  }

  /** From a given row on, nothing has changed: not the rows, and not what is posted for them. */
  ghost predicate SameFrom(b: Book, b': Book, s: nat) {
    && Valid(b'.db)
    && |b'.deposits| == |b.deposits|
    && (forall k: nat | s <= k < |b.deposits| :: b'.deposits[k] == b.deposits[k])
    && (forall k: nat | s <= k :: Posted(b'.db.log, Confirm(k)) <==> Posted(b.db.log, Confirm(k)))
  }

  /** Advancing an earlier row changes nothing from here on. */
  lemma EarlierRow(b: Book, i: nat, env: Env, s: nat)
    requires Valid(b.db) && i < s && i < |b.deposits|
    ensures SameFrom(b, Advance(b, i, env).0, s)
  {
    AdvanceGrows(b, i, env);
    OwnRowOnly(b, i, env);
    forall k: nat | s <= k ensures Posted(Advance(b, i, env).0.db.log, Confirm(k)) <==> Posted(b.db.log, Confirm(k)) {
      if Posted(b.db.log, Confirm(k)) {
        FindPrefix(b.db.log, Advance(b, i, env).0.db.log, Confirm(k));
      } else {
        AdvancePosts(b, i, env, k);
      }
    }
  }

  lemma SameFromOn(b: Book, b': Book, b'': Book, s: nat)
    requires SameFrom(b, b', s) && SameFrom(b', b'', s)
    ensures SameFrom(b, b'', s)
  {
  }

  /** One row of a walk that has not reached the stuck row yet. */
  lemma StuckStep(p: Pass, id: nat, env: Env, s: nat, stuck: Env)
    requires p.ending.Finished? && Valid(p.book.db) && id <= s && Stuck(p.book, s, stuck) && (id == s ==> env == stuck)
    ensures var after := WalkOne(p, id, env);
            SameFrom(p.book, after.book, s) && (after.ending.Finished? ==> id < s)
  {
    if id < s {
      EarlierRow(p.book, id, env, s);
    } else {
      StuckThrows(p.book, s, env);
    }
  }

  /** Every visited row stands before a given one. */
  predicate AllBefore(ids: seq<nat>, s: nat) {
    forall i | 0 <= i < |ids| :: ids[i] < s
  }

  /** Nothing after a given row is visited before it. */
  predicate InTurn(ids: seq<nat>, s: nat) {
    forall i | 0 <= i < |ids| && s < ids[i] :: s in ids[..i]
  }

  lemma InTurnPrefix(ids: seq<nat>, s: nat, n: nat)
    requires InTurn(ids, s) && n <= |ids|
    ensures InTurn(ids[..n], s)
  {
    forall i | 0 <= i < n && s < ids[..n][i] ensures s in ids[..n][..i] {
      assert ids[..n][..i] == ids[..i];
    }
  }

  lemma NotPast(ids: seq<nat>, s: nat)
    requires ids != [] && InTurn(ids, s) && AllBefore(ids[..|ids| - 1], s)
    ensures ids[|ids| - 1] <= s
    ensures ids[|ids| - 1] < s ==> AllBefore(ids, s)
  {
    var n := |ids| - 1;
    assert s !in ids[..n];
    assert ids == ids[..n] + [ids[n]];
  }

  /** One row of a walk, whether or not it has stopped. */
  lemma StuckNext(b: Book, p: Pass, id: nat, env: Env, s: nat, stuck: Env)
    requires SameFrom(b, p.book, s) && Stuck(b, s, stuck) && id < |b.deposits|
    requires (p.ending.Finished? ==> id <= s) && (id == s ==> env == stuck)
    ensures SameFrom(b, WalkOne(p, id, env).book, s)
    ensures WalkOne(p, id, env).ending.Finished? ==> p.ending.Finished? && id < s
  {
    if p.ending.Finished? {
      StuckStep(p, id, env, s, stuck);
      SameFromOn(b, p.book, WalkOne(p, id, env).book, s);
    }
  }

  /** One walk stops at the stuck row or before it. */
  lemma {:induction false} WalkStuck(b: Book, ids: seq<nat>, envs: nat -> Env, s: nat)
    requires Valid(b.db) && Stuck(b, s, envs(s)) && InTurn(ids, s)
    requires forall i | 0 <= i < |ids| :: ids[i] < |b.deposits|
    ensures var p := WalkAll(b, ids, envs);
            SameFrom(b, p.book, s) && (p.ending.Finished? ==> AllBefore(ids, s))
  {
    if ids == [] {
    } else {
      var n := |ids| - 1;
      InTurnPrefix(ids, s, n);
      WalkStuck(b, ids[..n], envs, s);
      var before := WalkAll(b, ids[..n], envs);
      if before.ending.Finished? { NotPast(ids, s); }
      StuckNext(b, before, ids[n], envs(ids[n]), s, envs(s));
    }
  }

  /**
   * While a deposit is all fee at the rates in force, however many walks run:
   * it is not credited, and neither is any pending deposit that comes after it.
   */
  lemma {:induction false} StarvedBehind(b: Book, take: nat, walks: seq<nat -> Env>, s: nat)
    requires Valid(b.db) && s < |b.deposits|
    requires forall w | 0 <= w < |walks| :: Stuck(b, s, walks[w](s))
    ensures SameFrom(b, Walks(b, take, walks), s)
  {
    if walks == [] {
    } else {
      var n := |walks| - 1;
      var before := Walks(b, take, walks[..n]);
      StarvedBehind(b, take, walks[..n], s);
      StarvedOnce(before, take, walks[n], s);
      SameFromOn(b, before, Walks(b, take, walks), s);
    }
  }

  lemma StarvedOnce(b: Book, take: nat, envs: nat -> Env, s: nat)
    requires Valid(b.db) && Stuck(b, s, envs(s))
    ensures SameFrom(b, WalkAll(b, PendingRows(b.deposits, take), envs).book, s)
  {
    var ids := PendingRows(b.deposits, take);
    forall i | 0 <= i < |ids| && s < ids[i] ensures s in ids[..i] {
      SelectedBefore(b.deposits, IsPending, take, i, s);
    }
    WalkStuck(b, ids, envs, s);
  }

  /** A deposit that gets stuck: seen for the first time, no larger than the minimum fee, and deep by the next walk. */
  lemma SmallDepositSticks(addresses: map<(string, string), string>, config: Config, t: Transfer, env: Env, env': Env)
    requires config.contract.None? && t.amount >= config.minAmount && (t.network, t.toAddress) in addresses
    requires env.reading.ReadFails?
    requires env'.reading.Depth? && env'.reading.n >= config.confirmations
    requires 0 < t.amount <= env'.rates.depositMin && env'.rates.depositMax <= 0
    ensures var b := Next(Book(EMPTY_DB, [], addresses, config), Seen(t, env));
            Valid(b.db) && Stuck(b, 0, env')
  {
    MinimumTakesAll(env'.rates, t.amount);
    EmptyBookMatches(addresses, config);
  }
}
