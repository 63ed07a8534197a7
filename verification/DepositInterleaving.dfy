/**
 * The deposit jobs with nothing atomic but a single database call: any number
 * of observers, walkers and watchers, each between two of its calls, each able
 * to die there, and rows updated on what may be stale. Status claims do not
 * survive this; the once-only credit does.
 */
module DepositInterleaving {
  import opened Wrappers
  import opened Postings
  import opened Commands
  import opened Fees
  import opened Deposits
  import DepositOnce

  /** Where a job is, and what it has read so far. */
  datatype Task =
    | Observing(transfer: Transfer)                   // about to insert or find the row
    | Advancing(id: nat)                              // about to read the row
    | Asking(id: nat, row: DepositRow)                // about to ask the chain
    | Orphaning(id: nat)                              // about to mark the row orphaned
    | Confirming(id: nat)                             // about to mark the row confirming
    | Crediting(id: nat, depth: int)                  // about to read the row once more
    | Posting(id: nat, row: DepositRow, depth: int)   // about to call the ledger
    | Completing(id: nat, posting: nat)               // about to mark the row confirmed
    | Watching(id: nat)                               // about to read a credited row
    | Rechecking(id: nat, row: DepositRow)            // about to ask the chain again
    | Reversing(id: nat, row: DepositRow)             // about to call the ledger

  datatype World = World(book: Book, tasks: map<nat, Task>)

  datatype Step =
    | Start(actor: nat, task: Task)
    | Go(actor: nat, now: int, reading: Reading, rates: Rates)
    | Die(actor: nat)
    | Other(command: Command)

  /** What a job can begin with. */
  predicate Starts(task: Task) {
    task.Observing? || task.Advancing? || task.Watching?
  }

  function Became(w: World, actor: nat, book: Book, next: Option<Task>): World {
    World(book, match next case None => w.tasks - {actor} case Some(t) => w.tasks[actor := t])
  }

  function Marked(b: Book, id: nat, status: DepositStatus): Book
    requires id < |b.deposits|
  {
    WithRow(b, id, b.deposits[id].(status := status))
  }

  /** What to do about a reading of a pending row. */
  function Judge(id: nat, row: DepositRow, now: int, reading: Reading): Option<Task> {
    match reading
    case ReadFails => None
    case Vanished => if now - row.createdAt > GRACE_MILLIS then Some(Orphaning(id)) else None
    case Depth(n) => if n < row.required then Some(Task.Confirming(id)) else Some(Crediting(id, n))
  }

  /** One call of one job. */
  function OneCall(b: Book, task: Task, now: int, reading: Reading, rates: Rates): (Book, Option<Task>) {
    match task
    case Observing(t) =>
      var (recorded, id) := Record(b, t, now);
      (recorded, match id case None => None case Some(i) => Some(Advancing(i)))
    case Advancing(id) =>
      (b, if id < |b.deposits| && IsPending(b.deposits[id]) then Some(Asking(id, b.deposits[id])) else None)
    case Asking(id, row) => (b, Judge(id, row, now, reading))
    case Orphaning(id) => (if id < |b.deposits| then Marked(b, id, Orphaned) else b, None)
    case Confirming(id) => (if id < |b.deposits| then Marked(b, id, DepositStatus.Confirming) else b, None)
    case Crediting(id, depth) =>
      (b, if id < |b.deposits| && b.deposits[id].status != Confirmed && b.deposits[id].posting.None?
          then Some(Task.Posting(id, b.deposits[id], depth)) else None)
    case Posting(id, row, _) =>
      var o := Exec(b.db, CreditCommand(row, id, rates));
      (b.(db := o.db), if o.result.Ok? then Some(Completing(id, o.result.value)) else None)
    case Completing(id, posting) =>
      (if id < |b.deposits|
       then WithRow(b, id, b.deposits[id].(status := Confirmed, confirmedAt := now, posting := Some(posting)))
       else b, None)
    case Watching(id) =>
      (b, if id < |b.deposits| && b.deposits[id].status == Confirmed
          then Some(Rechecking(id, b.deposits[id])) else None)
    case Rechecking(id, row) => (b, if reading.Vanished? then Some(Reversing(id, row)) else None)
    case Reversing(id, row) =>
      var o := Exec(b.db, ReverseCommand(b.db, row, id));
      (b.(db := o.db), if o.result.Ok? then Some(Orphaning(id)) else None)
  }

  /** Commands of the other services. */
  predicate Elsewhere(c: Command) {
    !c.CreditDeposit? && !c.ReverseDeposit? && !KeyOf(c).Confirm? && !KeyOf(c).Reverse?
  }

  function Next(w: World, step: Step): World {
    match step
    case Start(actor, task) =>
      if actor in w.tasks || !Starts(task) then w else w.(tasks := w.tasks[actor := task])
    case Go(actor, now, reading, rates) =>
      if actor in w.tasks then
        var (book, next) := OneCall(w.book, w.tasks[actor], now, reading, rates);
        Became(w, actor, book, next)
      else w
    case Die(actor) => w.(tasks := w.tasks - {actor})
    case Other(c) => if Elsewhere(c) then w.(book := w.book.(db := Exec(w.book.db, c).db)) else w
  }

  function Run(w: World, steps: seq<Step>): World {
    if steps == [] then w else Next(Run(w, steps[..|steps| - 1]), steps[|steps| - 1])
  }

  // ------------------------------------------------------ One job by itself

  /** The book after so many calls of one job with nobody in between, and where the job is by then. */
  function Alone(b: Book, task: Option<Task>, env: Env, calls: nat): (Book, Option<Task>)
    decreases calls
  {
    if calls == 0 || task.None? then (b, task)
    else
      var (after, next) := OneCall(b, task.value, env.now, env.reading, env.rates);
      Alone(after, next, env, calls - 1)
  }

  /** The book so many calls of a job lead to, and nothing left to do - or, if it dies, one call less. */
  predicate GetsTo(b: Book, task: Task, env: Env, calls: nat, book: Book)
    requires calls > 0
  {
    var reached := Alone(b, Some(task), env, if env.crashes then calls - 1 else calls);
    reached.0 == book && (reached.1.Some? ==> env.crashes)
  }

  lemma CreditAlone(b: Book, id: nat, depth: int, env: Env)
    requires Valid(b.db) && id < |b.deposits|
    ensures GetsTo(b, Crediting(id, depth), env, 3, CreditRow(b, id, env).0)
  {
    var row := b.deposits[id];
    if row.status != Confirmed && row.posting.None? {
      PostAlone(b, id, depth, env);
      assert Alone(b, Some(Crediting(id, depth)), env, 2) == Alone(b, Some(Task.Posting(id, row, depth)), env, 1);
      assert Alone(b, Some(Crediting(id, depth)), env, 3) == Alone(b, Some(Task.Posting(id, row, depth)), env, 2);
    } else {
      assert Alone(b, None, env, 2) == (b, None) == Alone(b, None, env, 1);
    }
  }

  lemma PostAlone(b: Book, id: nat, depth: int, env: Env)
    requires Valid(b.db) && id < |b.deposits|
    requires b.deposits[id].status != Confirmed && b.deposits[id].posting.None?
    ensures GetsTo(b, Task.Posting(id, b.deposits[id], depth), env, 2, CreditRow(b, id, env).0)
  {
    var c := CreditCommand(b.deposits[id], id, env.rates);
    var o := Exec(b.db, c);
    ExecMeaning(b.db, c);
    var next := if o.result.Ok? then Some(Completing(id, o.result.value)) else None;
    assert Alone(b, Some(Task.Posting(id, b.deposits[id], depth)), env, 1) == (b.(db := o.db), next);
    assert Alone(b, Some(Task.Posting(id, b.deposits[id], depth)), env, 2) == Alone(b.(db := o.db), next, env, 1);
  }

  lemma AskAlone(b: Book, id: nat, env: Env)
    requires Valid(b.db) && id < |b.deposits| && IsPending(b.deposits[id])
    ensures GetsTo(b, Asking(id, b.deposits[id]), env, 4, Advance(b, id, env).0)
  {
    var row := b.deposits[id];
    match env.reading
    case ReadFails =>
    case Vanished =>
      if env.now - row.createdAt > GRACE_MILLIS {
        MarkAlone(b, Orphaning(id), id, env);
      }
    case Depth(n) =>
      if n >= row.required {
        CreditAlone(b, id, n, env);
      } else {
        MarkAlone(b, Task.Confirming(id), id, env);
      }
  }

  /** A change of status alone: one call, and done. */
  lemma MarkAlone(b: Book, task: Task, id: nat, env: Env)
    requires id < |b.deposits| && (task == Orphaning(id) || task == Task.Confirming(id))
    ensures var after := Marked(b, id, if task.Orphaning? then Orphaned else DepositStatus.Confirming);
            Alone(b, Some(task), env, 2) == (after, None) == Alone(b, Some(task), env, 3)
  {
    var after := Marked(b, id, if task.Orphaning? then Orphaned else DepositStatus.Confirming);
    assert Alone(after, None, env, 1) == (after, None) == Alone(after, None, env, 2);
  }

  /** An advance, call by call with nobody in between, leaves the book the whole advance leaves. */
  lemma AdvanceAlone(b: Book, id: nat, env: Env)
    requires Valid(b.db) && id < |b.deposits|
    ensures GetsTo(b, Advancing(id), env, 5, Advance(b, id, env).0)
  {
    if IsPending(b.deposits[id]) {
      AskAlone(b, id, env);
    } else {
      assert Alone(b, None, env, 4) == (b, None) == Alone(b, None, env, 3);
    }
  }

  /** So does an observation ... */
  lemma ObserveAlone(b: Book, t: Transfer, env: Env)
    requires Sound(b)
    ensures GetsTo(b, Observing(t), env, 6, Observe(b, t, env).0)
  {
    DepositOnce.RecordGrows(b, t, env.now);
    var (recorded, id) := Record(b, t, env.now);
    if id.Some? {
      AdvanceAlone(recorded, id.value, env);
    } else {
      assert Alone(recorded, None, env, 5) == (recorded, None) == Alone(recorded, None, env, 4);
    }
  }

  /** ... and a recheck of a credited deposit; any other is left alone. */
  lemma WatchAlone(b: Book, id: nat, env: Env)
    requires Valid(b.db) && id < |b.deposits|
    ensures GetsTo(b, Watching(id), env, 4,
                   if b.deposits[id].status == Confirmed then Watch(b, id, env.reading, env.crashes).0 else b)
  {
    var row := b.deposits[id];
    if row.status != Confirmed {
      assert Alone(b, None, env, 3) == (b, None) == Alone(b, None, env, 2);
    } else if !env.reading.Vanished? {
      assert Alone(b, Some(Rechecking(id, row)), env, 3) == (b, None) == Alone(b, Some(Rechecking(id, row)), env, 2);
    } else {
      ReverseAlone(b, id, env);
      assert Alone(b, Some(Rechecking(id, row)), env, 3) == Alone(b, Some(Reversing(id, row)), env, 2);
      assert Alone(b, Some(Rechecking(id, row)), env, 2) == Alone(b, Some(Reversing(id, row)), env, 1);
    }
  }

  lemma ReverseAlone(b: Book, id: nat, env: Env)
    requires Valid(b.db) && id < |b.deposits| && env.reading.Vanished?
    ensures GetsTo(b, Reversing(id, b.deposits[id]), env, 2, Watch(b, id, env.reading, env.crashes).0)
  {
    var c := ReverseCommand(b.db, b.deposits[id], id);
    var o := Exec(b.db, c);
    ExecMeaning(b.db, c);
    var next := if o.result.Ok? then Some(Orphaning(id)) else None;
    assert Alone(b, Some(Reversing(id, b.deposits[id])), env, 1) == (b.(db := o.db), next);
    assert Alone(b, Some(Reversing(id, b.deposits[id])), env, 2) == Alone(b.(db := o.db), next, env, 1);
  }

  /** So many calls of one actor. */
  function CallsOf(actor: nat, env: Env, calls: nat): seq<Step> {
    seq(calls, _ => Go(actor, env.now, env.reading, env.rates))
  }

  lemma {:induction false} RunFirst(w: World, step: Step, rest: seq<Step>)
    ensures Run(w, [step] + rest) == Run(Next(w, step), rest)
  {
    if rest == [] {
      assert [step] + [] == [step] && [step][..0] == [];
    } else {
      var n := |rest| - 1;
      assert ([step] + rest)[..|[step] + rest| - 1] == [step] + rest[..n];
      RunFirst(w, step, rest[..n]);
    }
  }

  /** In a run, the calls of one actor with nobody in between do to the book what they do alone. */
  lemma {:induction false} CallsAlone(w: World, actor: nat, env: Env, calls: nat)
    requires actor in w.tasks
    ensures var (book, next) := Alone(w.book, Some(w.tasks[actor]), env, calls);
            Run(w, CallsOf(actor, env, calls)) == Became(w, actor, book, next)
    decreases calls
  {
    if calls == 0 {
      assert w.tasks[actor := w.tasks[actor]] == w.tasks;
    } else {
      var go := Go(actor, env.now, env.reading, env.rates);
      var w' := Next(w, go);
      assert CallsOf(actor, env, calls) == [go] + CallsOf(actor, env, calls - 1);
      RunFirst(w, go, CallsOf(actor, env, calls - 1));
      if actor in w'.tasks {
        CallsAlone(w', actor, env, calls - 1);
      } else {
        GoneStaysGone(w', actor, env, calls - 1);
      }
    }
  }

  lemma {:induction false} GoneStaysGone(w: World, actor: nat, env: Env, calls: nat)
    requires actor !in w.tasks
    ensures Run(w, CallsOf(actor, env, calls)) == w
    decreases calls
  {
    if calls == 0 {
    } else {
      assert CallsOf(actor, env, calls)[..calls - 1] == CallsOf(actor, env, calls - 1);
      GoneStaysGone(w, actor, env, calls - 1);
    }
  }

  /** The book the whole step of a job leaves, as the runs of whole steps have it. */
  function WholeStep(b: Book, job: Task, env: Env): Book
    requires Starts(job)
  {
    if job.Observing? then Observe(b, job.transfer, env).0
    else if job.id >= |b.deposits| then b
    else if job.Advancing? then Advance(b, job.id, env).0
    else if b.deposits[job.id].status == Confirmed then Watch(b, job.id, env.reading, env.crashes).0
    else b
  }

  /** The calls a job makes at most. */
  function CallsAtMost(job: Task): nat
    requires Starts(job)
  {
    if job.Observing? then 6 else if job.Advancing? then 5 else 4
  }

  lemma JobAlone(b: Book, job: Task, env: Env)
    requires Sound(b) && Starts(job)
    ensures GetsTo(b, job, env, CallsAtMost(job), WholeStep(b, job, env))
  {
    if job.Observing? {
      ObserveAlone(b, job.transfer, env);
    } else if job.id >= |b.deposits| {
      assert Alone(b, None, env, 4) == Alone(b, None, env, 3) == Alone(b, None, env, 2) == (b, None);
    } else if job.Advancing? {
      AdvanceAlone(b, job.id, env);
    } else {
      WatchAlone(b, job.id, env);
    }
  }

  /**
   * Interleaving is all there is to it: a job that starts and makes its calls
   * with nobody in between leaves the book of the whole step, and is gone. The
   * step that crashes is the job that dies before the last of them.
   */
  lemma JobsAloneAreSteps(w: World, actor: nat, job: Task, env: Env)
    requires Sound(w.book) && actor !in w.tasks && Starts(job)
    ensures var calls := if env.crashes then CallsAtMost(job) - 1 else CallsAtMost(job);
            var after := Run(w, [Start(actor, job)] + CallsOf(actor, env, calls));
            && after.book == WholeStep(w.book, job, env)
            && (!env.crashes ==> after.tasks == w.tasks)
            && Next(after, Die(actor)) == World(after.book, w.tasks)
  {
    var calls := if env.crashes then CallsAtMost(job) - 1 else CallsAtMost(job);
    var started := Next(w, Start(actor, job));
    RunFirst(w, Start(actor, job), CallsOf(actor, env, calls));
    CallsAlone(started, actor, env, calls);
    JobAlone(w.book, job, env);
    assert started.tasks - {actor} == w.tasks;
    var after := Run(w, [Start(actor, job)] + CallsOf(actor, env, calls));
    assert after.tasks - {actor} == w.tasks;
  }

  /** Everything else the ledger does runs between the calls as it does alone. */
  lemma OthersRun(w: World, c: Command)
    requires match c
             case CreditDeposit(_, _, _, _) => false
             case ReverseDeposit(_, _, _, _) => false
             case _ => !c.key.Confirm? && !c.key.Reverse?
    ensures Next(w, Other(c)) == World(w.book.(db := Exec(w.book.db, c).db), w.tasks)
  {
  }

  // ---------------------------------------------------------------- Once only

  ghost predicate Sound(b: Book) {
    Valid(b.db) && DepositOnce.OneRowEach(b.deposits)
  }

  lemma CallKeepsSound(b: Book, task: Task, now: int, reading: Reading, rates: Rates)
    requires Sound(b)
    ensures var b' := OneCall(b, task, now, reading, rates).0;
            Sound(b') && DepositOnce.Grown(b, b')
  {
    match task
    case Observing(t) => DepositOnce.RecordGrows(b, t, now);
    case Posting(id, row, _) => ExecMeaning(b.db, CreditCommand(row, id, rates));
    case Reversing(id, row) => ExecMeaning(b.db, ReverseCommand(b.db, row, id));
    case _ =>
  }

  lemma StepKeepsSound(w: World, step: Step)
    requires Sound(w.book)
    ensures Sound(Next(w, step).book) && DepositOnce.Grown(w.book, Next(w, step).book)
  {
    match step
    case Go(actor, now, reading, rates) =>
      if actor in w.tasks { CallKeepsSound(w.book, w.tasks[actor], now, reading, rates); }
    case Other(c) => ExecMeaning(w.book.db, c);
    case _ =>
  }

  /** However the jobs interleave and wherever they die: one row per transfer, one credit and one reversal at most. */
  lemma {:induction false} OnceOnly(w: World, steps: seq<Step>)
    requires Sound(w.book)
    ensures var b := Run(w, steps).book;
            && Sound(b) && DepositOnce.Grown(w.book, b)
            && forall i, j | 0 <= i < j < |b.db.log| ::
                 !(b.db.log[i].key == b.db.log[j].key && (b.db.log[i].key.Confirm? || b.db.log[i].key.Reverse?))
  {
    if steps == [] {
    } else {
      var n := |steps| - 1;
      OnceOnly(w, steps[..n]);
      StepKeepsSound(Run(w, steps[..n]), steps[n]);
      DepositOnce.GrownTwice(w.book, Run(w, steps[..n]).book, Run(w, steps).book);
    }
  }

  // -------------------------------------------------------------- Only at depth

  /** A job that is past the depth check of a deposit. */
  predicate PastDepth(task: Task, id: nat) {
    (task.Crediting? || task.Posting?) && task.id == id
  }

  /** The step at which a job read a pending row of this deposit as deep as the row required. */
  predicate ReadDeep(w: World, steps: seq<Step>, k: nat, id: nat)
    requires k < |steps|
  {
    var before := Run(w, steps[..k]);
    && steps[k].Go? && steps[k].actor in before.tasks
    && before.tasks[steps[k].actor].Asking? && before.tasks[steps[k].actor].id == id
    && steps[k].reading.Depth?
    && steps[k].reading.n >= before.tasks[steps[k].actor].row.required
  }

  ghost predicate WasReadDeep(w: World, steps: seq<Step>, id: nat) {
    exists k :: 0 <= k < |steps| && ReadDeep(w, steps, k, id)
  }

  lemma ReadDeepStays(w: World, steps: seq<Step>, step: Step, id: nat)
    requires WasReadDeep(w, steps, id)
    ensures WasReadDeep(w, steps + [step], id)
  {
    var k :| 0 <= k < |steps| && ReadDeep(w, steps, k, id);
    assert (steps + [step])[..k] == steps[..k];
    assert ReadDeep(w, steps + [step], k, id);
  }

  /** A call is past the depth check afterwards only if it was before, or just passed it. */
  lemma CallPasses(b: Book, task: Task, now: int, reading: Reading, rates: Rates, id: nat)
    requires var next := OneCall(b, task, now, reading, rates).1; next.Some? && PastDepth(next.value, id)
    ensures PastDepth(task, id) ||
            (task.Asking? && task.id == id && reading.Depth? && reading.n >= task.row.required)
  {
  }

  /** A call posts a credit only past the depth check. */
  lemma CallPosts(b: Book, task: Task, now: int, reading: Reading, rates: Rates, id: nat)
    requires Valid(b.db) && !Posted(b.db.log, Confirm(id))
    requires Posted(OneCall(b, task, now, reading, rates).0.db.log, Confirm(id))
    ensures PastDepth(task, id)
  {
    match task
    case Posting(i, row, _) =>
      if i != id { DepositOnce.KeyAppears(b.db, CreditCommand(row, i, rates), Confirm(id)); }
    case Reversing(i, row) => DepositOnce.KeyAppears(b.db, ReverseCommand(b.db, row, i), Confirm(id));
    case _ =>
  }

  /** Every job past the depth check, and every posted credit, goes back to a reading at depth. */
  ghost predicate Justified(w: World, steps: seq<Step>, id: nat) {
    && ((exists actor :: actor in Run(w, steps).tasks && PastDepth(Run(w, steps).tasks[actor], id)) ==>
          WasReadDeep(w, steps, id))
    && (Posted(Run(w, steps).book.db.log, Confirm(id)) ==> WasReadDeep(w, steps, id))
  }

  lemma StepPasses(w: World, step: Step, actor: nat, id: nat)
    requires actor in Next(w, step).tasks && PastDepth(Next(w, step).tasks[actor], id)
    ensures (actor in w.tasks && PastDepth(w.tasks[actor], id)) ||
            (&& step.Go? && step.actor in w.tasks
             && w.tasks[step.actor].Asking? && w.tasks[step.actor].id == id
             && step.reading.Depth? && step.reading.n >= w.tasks[step.actor].row.required)
  {
    if step.Go? && step.actor == actor && actor in w.tasks {
      CallPasses(w.book, w.tasks[actor], step.now, step.reading, step.rates, id);
    }
  }

  lemma StepPosts(w: World, step: Step, id: nat)
    requires Valid(w.book.db) && !Posted(w.book.db.log, Confirm(id))
    requires Posted(Next(w, step).book.db.log, Confirm(id))
    ensures step.Go? && step.actor in w.tasks && PastDepth(w.tasks[step.actor], id)
  {
    match step
    case Go(actor, now, reading, rates) =>
      if actor in w.tasks { CallPosts(w.book, w.tasks[actor], now, reading, rates, id); }
    case Other(c) => if Elsewhere(c) { DepositOnce.KeyAppears(w.book.db, c, Confirm(id)); }
    case _ =>
  }

  lemma StepJustified(w: World, steps: seq<Step>, step: Step, id: nat)
    requires Sound(Run(w, steps).book) && Justified(w, steps, id)
    ensures Justified(w, steps + [step], id)
  {
    var before := Run(w, steps);
    assert (steps + [step])[..|steps|] == steps;
    assert Run(w, steps + [step]) == Next(before, step);
    if WasReadDeep(w, steps, id) {
      ReadDeepStays(w, steps, step, id);
    } else {
      forall actor | actor in Next(before, step).tasks && PastDepth(Next(before, step).tasks[actor], id)
        ensures ReadDeep(w, steps + [step], |steps|, id)
      {
        StepPasses(before, step, actor, id);
      }
      if Posted(Next(before, step).book.db.log, Confirm(id)) {
        StepPosts(before, step, id);
      }
    }
  }

  /** Over any interleaving from no jobs at all, a credit is posted only for a deposit read as deep as required. */
  lemma {:induction false} CreditOnlyAtDepth(w: World, steps: seq<Step>, id: nat)
    requires Sound(w.book) && w.tasks == map[] && !Posted(w.book.db.log, Confirm(id))
    ensures Justified(w, steps, id)
  {
    if steps == [] {
    } else {
      var n := |steps| - 1;
      OnceOnly(w, steps[..n]);
      CreditOnlyAtDepth(w, steps[..n], id);
      StepJustified(w, steps[..n], steps[n], id);
      assert steps[..n] + [steps[n]] == steps;
    }
  }
}
