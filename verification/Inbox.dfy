/**
 * The webhook inbox: one row per delivery, processed until it succeeds or has
 * failed five times. What the handler does is an input; a crash leaves the row
 * half way.
 */
module Inbox {
  import opened Selection

  datatype Status = Received | Processing | Processed | Failed | DeadLetter

  datatype Handling = Succeeds | Fails | Dies

  const MAX_FAILURES := 5

  /** What happens to one stored event. */
  datatype InboxStep = Process(handling: Handling) | RetryFailed(handling: Handling) | Replay(handling: Handling)

  datatype Event = Event(status: Status, retryCount: nat)

  function Handle(e: Event, handling: Handling): Event {
    match handling
    case Succeeds => e.(status := Processed)
    case Dies => e.(status := Processing)
    case Fails =>
      Event(if e.retryCount + 1 >= MAX_FAILURES then DeadLetter else Failed, e.retryCount + 1)
  }

  /** A processed event is left alone; anything else is handled. */
  predicate Handles(e: Event, step: InboxStep) {
    match step
    case Process(_) => e.status != Processed
    case RetryFailed(_) => Retryable(e)
    case Replay(_) => true
  }

  function Next(e: Event, step: InboxStep): Event {
    if Handles(e, step) then Handle(e, step.handling) else e
  }

  function Run(e: Event, steps: seq<InboxStep>): Event {
    if steps == [] then e else Next(Run(e, steps[..|steps| - 1]), steps[|steps| - 1])
  }

  /** How often the handler ran, and how it ended, over a run. */
  function Times(e: Event, steps: seq<InboxStep>, handling: Handling): nat {
    if steps == [] then 0
    else
      var n := |steps| - 1;
      Times(e, steps[..n], handling) +
      if Handles(Run(e, steps[..n]), steps[n]) && steps[n].handling == handling then 1 else 0
  }

  /** Failed, and with attempts left. */
  predicate Retryable(e: Event) {
    e.status == Failed && e.retryCount < MAX_FAILURES
  }

  /** What the retry job is about. */
  function Due(events: seq<Event>, limit: nat): (due: seq<nat>)
    ensures |due| <= limit
    ensures forall k | 0 <= k < |due| :: due[k] < |events|
  {
    Selected(events, Retryable, limit)
  }

  /** The job takes the events failed fewer than five times, each once, oldest first, up to its limit. */
  lemma DueIsOldest(events: seq<Event>, limit: nat)
    ensures var due := Due(events, limit);
            && Increasing(due)
            && (forall k | 0 <= k < |due| :: events[due[k]].status == Failed && events[due[k]].retryCount < 5)
            && forall i: nat | i < |events| && events[i].status == Failed && events[i].retryCount < 5 ::
                 InOrBehind(due, limit, i)
  {
    FirstOfThem(events, Retryable, limit);
  }

  /** The stored events, oldest first, updated in place; one per provider event id. */
  class EventStore {
    var keys: seq<string>
    var events: seq<Event>

    constructor ()
      ensures Valid() && events == []
    {
      keys, events := [], [];
    }

    ghost predicate Valid()
      reads this
    {
      |keys| == |events| && forall i, j | 0 <= i < j < |keys| :: keys[i] != keys[j]
    }

    /** A delivery is stored once; the unique index refuses it from then on. */
    method Receive(key: string) returns (accepted: bool)
      requires Valid()
      modifies this
      ensures Valid()
      ensures accepted <==> key !in old(keys)
      ensures if accepted then keys == old(keys) + [key] && events == old(events) + [Event(Received, 0)]
              else keys == old(keys) && events == old(events)
    {
      accepted := key !in keys;
      if accepted {
        keys, events := keys + [key], events + [Event(Received, 0)];
      }
    }

    method Process(i: nat, handling: Handling)
      requires i < |events|
      modifies this`events
      ensures events == old(events)[i := Next(old(events)[i], InboxStep.Process(handling))]
    {
      if events[i].status == Processed {
        return;
      }
      events := events[i := events[i].(status := Processing)];
      match handling {
        case Dies =>
        case Succeeds =>
          events := events[i := events[i].(status := Processed)];
        case Fails =>
          var retryCount := events[i].retryCount + 1;
          var status := if retryCount >= MAX_FAILURES then DeadLetter else Failed;
          events := events[i := Event(status, retryCount)];
      }
    }

    /** The retry job: the oldest failures, each handled once; nothing else is touched. */
    method RetryFailed(limit: nat, handlings: nat -> Handling) returns (retried: nat)
      modifies this`events
      ensures retried == |Due(old(events), limit)| && |events| == |old(events)|
      ensures forall i: nat | i < |events| ::
                events[i] == if i in Due(old(events), limit)
                             then Next(old(events)[i], InboxStep.RetryFailed(handlings(i)))
                             else old(events)[i]
    {
      var failed := Due(events, limit);
      DueIsOldest(events, limit);
      var k := 0;
      while k < |failed|
        invariant 0 <= k <= |failed| && |events| == |old(events)|
        invariant forall i: nat | i < |events| ::
                    events[i] == if i in failed[..k]
                                 then Next(old(events)[i], InboxStep.RetryFailed(handlings(i)))
                                 else old(events)[i]
      {
        assert failed[k] !in failed[..k];
        Process(failed[k], handlings(failed[k]));
        assert failed[..k + 1] == failed[..k] + [failed[k]];
        k := k + 1;
      }
      assert failed[..|failed|] == failed;
      retried := |failed|;
    }

    method Replay(i: nat, handling: Handling)
      requires i < |events|
      modifies this`events
      ensures events == old(events)[i := Next(old(events)[i], InboxStep.Replay(handling))]
    {
      events := events[i := events[i].(status := Received)];
      Process(i, handling);
    }
  }

  /** The first delivery is processed once; after that only the retry job runs. */
  predicate Automatic(steps: seq<InboxStep>) {
    |steps| > 0 && steps[0].Process? && forall i | 0 < i < |steps| :: steps[i].RetryFailed?
  }

  /**
   * Left to itself, an event is handled successfully at most once and fails at
   * most five times; it is dead-lettered exactly at the fifth failure, and a
   * crash ends its handling for good.
   */
  lemma {:induction false} AutomaticHandling(steps: seq<InboxStep>)
    requires Automatic(steps)
    ensures var e := Event(Received, 0);
            var last := Run(e, steps);
            && Times(e, steps, Succeeds) == (if last.status == Processed then 1 else 0)
            && Times(e, steps, Dies) == (if last.status == Processing then 1 else 0)
            && Times(e, steps, Fails) == last.retryCount <= 5
            && (last.status == DeadLetter <==> last.retryCount == 5)
            && last.status != Received
            && (last.status == Failed ==> 1 <= last.retryCount)
  {
    var e := Event(Received, 0);
    var n := |steps| - 1;
    if n == 0 {
      assert steps[..0] == [];
    } else {
      assert Automatic(steps[..n]);
      AutomaticHandling(steps[..n]);
    }
  }

  /** Handled again by any path but an operator's replay, an event succeeds once, and then it is left alone. */
  lemma {:induction false} SucceedsOnce(e: Event, steps: seq<InboxStep>)
    requires forall i | 0 <= i < |steps| :: !steps[i].Replay?
    ensures Times(e, steps, Succeeds) == if e.status != Processed && Run(e, steps).status == Processed then 1 else 0
    ensures e.status == Processed ==> Run(e, steps) == e && forall h :: Times(e, steps, h) == 0
  {
    if steps == [] {
    } else {
      SucceedsOnce(e, steps[..|steps| - 1]);
    }
  }

  /** Of the steps that may follow a crash, only the retry job runs by itself - and it never picks the event up. */
  lemma {:induction false} CrashIsNotRetried(e: Event, steps: seq<InboxStep>)
    requires e.status == Processing && forall i | 0 <= i < |steps| :: steps[i].RetryFailed?
    ensures Run(e, steps) == e
  {
    if steps == [] {
    } else {
      CrashIsNotRetried(e, steps[..|steps| - 1]);
    }
  }
}
