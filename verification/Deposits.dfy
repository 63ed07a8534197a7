/**
 * Deposits: a transfer is recorded once however it is observed, credited once
 * it is deep enough, and reversed if it leaves the chain afterwards. Each job
 * step is atomic; what the chain answers, and a crash between the ledger
 * posting and the row update, are inputs.
 */
module Deposits {
  import opened Wrappers
  import opened Commands
  import opened Fees
  import opened Selection

  datatype DepositStatus = Detected | Confirming | Confirmed | Failed | Orphaned

  /** A row's id is its index. */
  datatype DepositRow = DepositRow(
    user: string, amount: int, network: string, txHash: string, logIndex: int, status: DepositStatus,
    required: nat, createdAt: int, confirmedAt: int, posting: Option<nat>)

  datatype Transfer = Transfer(
    network: string, contract: string, toAddress: string, txHash: string, logIndex: int, amount: int)

  datatype Config = Config(contract: Option<string>, minAmount: int, confirmations: nat)

  datatype Book = Book(
    db: Db, deposits: seq<DepositRow>, addresses: map<(string, string), string>, config: Config)

  /** What the node says about a transaction: nothing, "never heard of it", or its depth. */
  datatype Reading = ReadFails | Vanished | Depth(n: int)

  datatype Env = Env(now: int, reading: Reading, rates: Rates, crashes: bool)

  /** A step ends normally, throws, or dies between the posting and the row update. */
  datatype Ending = Finished | Threw(error: Error) | Crashed

  const GRACE_MILLIS := 600_000

  function CreditCommand(row: DepositRow, id: nat, rates: Rates): Command {
    CreditDeposit(row.user, id, row.amount, DepositFee(rates, row.amount))
  }

  /** The amount of the fee row linked to a posting, if there is one. */
  function FeeFor(fees: seq<FeeRow>, posting: nat): int {
    if fees == [] then 0
    else if fees[0].posting == posting then fees[0].amount
    else FeeFor(fees[1..], posting)
  }

  function ReverseCommand(db: Db, row: DepositRow, id: nat): Command {
    ReverseDeposit(row.user, id, row.amount, if row.posting.Some? then FeeFor(db.fees, row.posting.value) else 0)
  }

  function WithRow(b: Book, id: nat, row: DepositRow): Book
    requires id < |b.deposits|
  {
    b.(deposits := b.deposits[id := row])
  }

  /** What follows the ledger call of a step: the row update, unless it threw or died. */
  function AfterPosting(b: Book, id: nat, outcome: Outcome, crashes: bool, row: DepositRow): (Book, Ending)
    requires id < |b.deposits|
  {
    match outcome.result
    case Err(e) => (b, Threw(e))
    case Ok(_) =>
      if crashes then (b.(db := outcome.db), Crashed)
      else (WithRow(b.(db := outcome.db), id, row), Finished)
  }

  /** Post the credit and mark the deposit confirmed. */
  function CreditRow(b: Book, id: nat, env: Env): (Book, Ending)
    requires id < |b.deposits|
  {
    var row := b.deposits[id];
    if row.status == Confirmed || row.posting.Some? then (b, Finished)
    else
      var o := Exec(b.db, CreditCommand(row, id, env.rates));
      AfterPosting(b, id, o, env.crashes,
                   row.(status := Confirmed, confirmedAt := env.now,
                        posting := if o.result.Ok? then Some(o.result.value) else None))
  }

  /** Advance the confirmation count; credit at the required depth. */
  function Advance(b: Book, id: nat, env: Env): (Book, Ending)
    requires id < |b.deposits|
  {
    var row := b.deposits[id];
    if row.status == Confirmed || row.status == Failed || row.status == Orphaned then (b, Finished)
    else
      match env.reading
      case ReadFails => (b, Finished)
      case Vanished =>
        if env.now - row.createdAt > GRACE_MILLIS then (WithRow(b, id, row.(status := Orphaned)), Finished)
        else (b, Finished)
      case Depth(n) =>
        if n < row.required then (WithRow(b, id, row.(status := Confirming)), Finished)
        else CreditRow(b, id, env)
  }

  predicate SameTransfer(row: DepositRow, t: Transfer) {
    row.network == t.network && row.txHash == t.txHash && row.logIndex == t.logIndex
  }

  function RowFor(rows: seq<DepositRow>, t: Transfer): (r: Option<nat>)
    ensures r.Some? ==> r.value < |rows| && SameTransfer(rows[r.value], t)
    ensures r.None? ==> forall i | 0 <= i < |rows| :: !SameTransfer(rows[i], t)
  {
    if rows == [] then None
    else
      var n := |rows| - 1;
      var r := RowFor(rows[..n], t);
      assert r.None? ==> forall i | 0 <= i < n :: rows[i] == rows[..n][i];
      if r.Some? then r
      else if SameTransfer(rows[n], t) then Some(n)
      else None
  }

  /** Ours, of the right token, and large enough; the owner if so. */
  function OwnerOf(b: Book, t: Transfer): Option<string> {
    if b.config.contract.Some? && t.contract != b.config.contract.value then None
    else if (t.network, t.toAddress) !in b.addresses then None
    else if t.amount < b.config.minAmount then None
    else Some(b.addresses[(t.network, t.toAddress)])
  }

  function NewDeposit(b: Book, t: Transfer, user: string, now: int): DepositRow {
    DepositRow(user, t.amount, t.network, t.txHash, t.logIndex, Detected, b.config.confirmations, now, 0, None)
  }

  /** Insert the row or find the one the unique key refused; the row's id. */
  function Record(b: Book, t: Transfer, now: int): (Book, Option<nat>) {
    var owner := OwnerOf(b, t);
    if owner.None? then (b, None)
    else
      match RowFor(b.deposits, t)
      case Some(id) => (b, Some(id))
      case None =>
        (b.(deposits := b.deposits + [NewDeposit(b, t, owner.value, now)]), Some(|b.deposits|))
  }

  /** One observation of a transfer, by webhook or sweep; advances it at once. */
  function Observe(b: Book, t: Transfer, env: Env): (Book, Option<nat>, Ending) {
    var (recorded, id) := Record(b, t, env.now);
    if id.None? || id.value >= |recorded.deposits| then (recorded, id, Finished)
    else
      var (after, ending) := Advance(recorded, id.value, env);
      (after, id, ending)
  }

  /** One credited deposit, checked against the chain again. */
  function Watch(b: Book, id: nat, reading: Reading, crashes: bool): (Book, Ending)
    requires id < |b.deposits|
  {
    if !reading.Vanished? then (b, Finished)
    else
      var row := b.deposits[id];
      AfterPosting(b, id, Exec(b.db, ReverseCommand(b.db, row, id)), crashes, row.(status := Orphaned))
  }

  // ------------------------------------------------------------------ Passes

  /** A pass over many rows so far; an error or a crash ends it. */
  datatype Pass = Pass(book: Book, count: nat, ending: Ending)

  predicate IsPending(row: DepositRow) {
    row.status == Detected || row.status == Confirming
  }

  predicate IsWatched(row: DepositRow, since: int) {
    row.status == Confirmed && row.confirmedAt >= since
  }

  /** What the confirmation walk is about. */
  function PendingRows(rows: seq<DepositRow>, take: nat): (ids: seq<nat>)
    ensures forall k | 0 <= k < |ids| :: ids[k] < |rows|
  {
    Selected(rows, IsPending, take)
  }

  /** What the re-org watch is about. */
  function WatchedRows(rows: seq<DepositRow>, since: int, take: nat): (ids: seq<nat>)
    ensures forall k | 0 <= k < |ids| :: ids[k] < |rows|
  {
    Selected(rows, row => IsWatched(row, since), take)
  }

  /** The walk takes the deposits detected or confirming, each once, in order, up to its limit. */
  lemma PendingRowsAre(rows: seq<DepositRow>, take: nat)
    ensures var ids := PendingRows(rows, take);
            && |ids| <= take && Increasing(ids)
            && (forall k | 0 <= k < |ids| ::
                  rows[ids[k]].status == Detected || rows[ids[k]].status == Confirming)
            && forall i: nat | i < |rows| && (rows[i].status == Detected || rows[i].status == Confirming) ::
                 InOrBehind(ids, take, i)
  {
    FirstOfThem(rows, IsPending, take);
  }

  /** The watch takes the deposits confirmed at or after its window opens, each once, in order, up to its limit. */
  lemma WatchedRowsAre(rows: seq<DepositRow>, since: int, take: nat)
    ensures var ids := WatchedRows(rows, since, take);
            && |ids| <= take && Increasing(ids)
            && (forall k | 0 <= k < |ids| ::
                  rows[ids[k]].status == Confirmed && rows[ids[k]].confirmedAt >= since)
            && forall i: nat | i < |rows| && rows[i].status == Confirmed && rows[i].confirmedAt >= since ::
                 InOrBehind(ids, take, i)
  {
    FirstOfThem(rows, row => IsWatched(row, since), take);
  }

  /** One row of the confirmation walk; counts a row it took to CONFIRMED. */
  function WalkOne(p: Pass, id: nat, env: Env): Pass
    requires id < |p.book.deposits|
  {
    if !p.ending.Finished? then p
    else
      var (after, ending) := Advance(p.book, id, env);
      var before, now := p.book.deposits[id].status, after.deposits[id].status;
      var newly := ending.Finished? && before != Confirmed && now == Confirmed;
      Pass(after, if newly then p.count + 1 else p.count, ending)
  }

  function WalkAll(b: Book, ids: seq<nat>, envs: nat -> Env): (p: Pass)
    requires forall k | 0 <= k < |ids| :: ids[k] < |b.deposits|
    ensures |p.book.deposits| == |b.deposits|
  {
    if ids == [] then Pass(b, 0, Finished)
    else WalkOne(WalkAll(b, ids[..|ids| - 1], envs), ids[|ids| - 1], envs(ids[|ids| - 1]))
  }

  /** One row of the re-org watch; counts a reversal. */
  function WatchOne(p: Pass, id: nat, reading: Reading, crashes: bool): Pass
    requires id < |p.book.deposits|
  {
    if !p.ending.Finished? then p
    else
      var (after, ending) := Watch(p.book, id, reading, crashes);
      Pass(after, if ending.Finished? && reading.Vanished? then p.count + 1 else p.count, ending)
  }

  function WatchAll(b: Book, ids: seq<nat>, readings: nat -> Reading, crashes: nat -> bool): (p: Pass)
    requires forall k | 0 <= k < |ids| :: ids[k] < |b.deposits|
    ensures |p.book.deposits| == |b.deposits|
  {
    if ids == [] then Pass(b, 0, Finished)
    else
      var id := ids[|ids| - 1];
      WatchOne(WatchAll(b, ids[..|ids| - 1], readings, crashes), id, readings(id), crashes(id))
  }

  /** One transfer of the reconciliation sweep; counts it if it has a row. */
  function ObserveOne(p: Pass, t: Transfer, env: Env): Pass {
    if !p.ending.Finished? then p
    else
      var (after, id, ending) := Observe(p.book, t, env);
      Pass(after, if ending.Finished? && id.Some? then p.count + 1 else p.count, ending)
  }

  function ReconcileAll(b: Book, transfers: seq<Transfer>, envs: Transfer -> Env): Pass {
    if transfers == [] then Pass(b, 0, Finished)
    else
      var t := transfers[|transfers| - 1];
      ObserveOne(ReconcileAll(b, transfers[..|transfers| - 1], envs), t, envs(t))
  }
}
