/**
 A map over items with a bounded number of calls in flight, whose results are yielded as they finish.

 One task per item competes for the permits of a semaphore; a consumer takes finished tasks in the order in
 which they finished. When the consumer is through, meets an exception or closes early, what is unfinished is
 cancelled and gathered. Steps of tasks and of the consumer interleave in every possible order.
 */
module BoundedMap {
  import opened Base

  /** What a call returns, or `None` if it raises an exception. */
  type Call<!T, R> = T -> Option<R>

  datatype Task<R> = Waiting | Running | Returned(value: R) | Raised | Cancelled

  datatype Reason = Exhausted | Failure | EarlyClose

  /** Before and after the clean-up: results are consumed; unfinished tasks are cancelled and gathered. */
  datatype Phase = Consuming | Gathering(why: Reason) | Closed(why: Reason)

  /** `order` lists the finished tasks as they finished, and the consumer has yielded the first `taken`. */
  datatype State<R> = State(permits: nat, tasks: seq<Task<R>>, order: seq<nat>, taken: nat, phase: Phase)

  function Limit(concurrency: int): nat { if concurrency < 1 then 1 else concurrency }

  predicate Finished<R>(t: Task<R>) { !t.Waiting? && !t.Running? }

  ghost predicate Initial<T, R>(s: State<R>, items: seq<T>, concurrency: int) {
    && s.permits == Limit(concurrency) && s.order == [] && s.taken == 0 && s.phase == Consuming
    && |s.tasks| == |items| && forall k :: 0 <= k < |s.tasks| ==> s.tasks[k] == Waiting
  }

  // ---------------------------------------------------------------- steps

  /** A task enters the semaphore and starts its call. */
  ghost predicate Acquire<R>(s: State<R>, s': State<R>, k: nat) {
    && s.phase == Consuming && k < |s.tasks| && s.tasks[k] == Waiting && s.permits > 0
    && s' == s.(permits := s.permits - 1, tasks := s.tasks[k := Running])
  }

  /** A call ends, and its task leaves the semaphore. A cancelled call may end in any way. */
  ghost predicate End<T, R>(fn: Call<T, R>, items: seq<T>, s: State<R>, s': State<R>, k: nat, t: Task<R>) {
    && !s.phase.Closed? && k < |s.tasks| && k < |items| && s.tasks[k] == Running && Finished(t)
    && (s.phase == Consuming ==> t == Outcome(fn, items[k]))
    && s' == s.(permits := s.permits + 1, tasks := s.tasks[k := t], order := s.order + [k])
  }

  function Outcome<T, R>(fn: Call<T, R>, item: T): Task<R> {
    match fn(item)
    case Some(value) => Returned(value)
    case None => Raised
  }

  /** A task that is cancelled before it got a permit. */
  ghost predicate Drop<R>(s: State<R>, s': State<R>, k: nat) {
    && s.phase.Gathering? && k < |s.tasks| && s.tasks[k] == Waiting
    && s' == s.(tasks := s.tasks[k := Cancelled], order := s.order + [k])
  }

  /** The consumer takes the next finished task: it yields a result, or goes on to the clean-up. */
  ghost predicate Take<R>(s: State<R>, s': State<R>) {
    && s.phase == Consuming && s.taken < |s.order| && s.order[s.taken] < |s.tasks|
    && s' == if s.tasks[s.order[s.taken]].Returned? then s.(taken := s.taken + 1) else s.(phase := Gathering(Failure))
  }

  ghost predicate Exhaust<R>(s: State<R>, s': State<R>) {
    s.phase == Consuming && s.taken == |s.tasks| && s' == s.(phase := Gathering(Exhausted))
  }

  ghost predicate Close<R>(s: State<R>, s': State<R>) {
    s.phase == Consuming && s' == s.(phase := Gathering(EarlyClose))
  }

  ghost predicate Gathered<R>(s: State<R>, s': State<R>) {
    && s.phase.Gathering? && (forall k :: 0 <= k < |s.tasks| ==> Finished(s.tasks[k]))
    && s' == s.(phase := Closed(s.phase.why))
  }

  /** A step that is not the consumer's decision to close early. */
  ghost predicate Advance<T(!new), R(!new)>(fn: Call<T, R>, items: seq<T>, s: State<R>, s': State<R>) {
    || (exists k: nat :: Acquire(s, s', k))
    || (exists k: nat, t: Task<R> :: End(fn, items, s, s', k, t))
    || (exists k: nat :: Drop(s, s', k))
    || Take(s, s') || Exhaust(s, s') || Gathered(s, s')
  }

  ghost predicate Step<T(!new), R(!new)>(fn: Call<T, R>, items: seq<T>, s: State<R>, s': State<R>) {
    Advance(fn, items, s, s') || Close(s, s')
  }

  ghost predicate Schedule<T(!new), R(!new)>(fn: Call<T, R>, items: seq<T>, concurrency: int, trace: seq<State<R>>) {
    && trace != [] && Initial(trace[0], items, concurrency)
    && forall i :: 0 <= i < |trace| - 1 ==> Step(fn, items, trace[i], trace[i + 1])
  }

  // ---------------------------------------------------------------- counting tasks

  /** How many tasks hold a permit. */
  function InFlight<R>(tasks: seq<Task<R>>): nat {
    if tasks == [] then 0 else InFlight(tasks[..|tasks| - 1]) + (if tasks[|tasks| - 1].Running? then 1 else 0)
  }

  /** How many tasks have finished. */
  function Ended<R>(tasks: seq<Task<R>>): nat {
    if tasks == [] then 0 else Ended(tasks[..|tasks| - 1]) + (if Finished(tasks[|tasks| - 1]) then 1 else 0)
  }

  function One(b: bool): nat { if b then 1 else 0 }

  lemma {:induction false} CountsAfterUpdate<R>(tasks: seq<Task<R>>, k: nat, t: Task<R>)
    requires k < |tasks|
    ensures InFlight(tasks[k := t]) + One(tasks[k].Running?) == InFlight(tasks) + One(t.Running?)
    ensures Ended(tasks[k := t]) + One(Finished(tasks[k])) == Ended(tasks) + One(Finished(t))
  {
    var n := |tasks| - 1;
    var updated := tasks[k := t];
    if k == n {
      assert updated[..n] == tasks[..n];
    } else {
      assert updated[..n] == tasks[..n][k := t];
      CountsAfterUpdate(tasks[..n], k, t);
    }
  }

  lemma {:induction false} CountsBound<R>(tasks: seq<Task<R>>)
    ensures InFlight(tasks) + Ended(tasks) <= |tasks|
    ensures Ended(tasks) == |tasks| <==> forall k :: 0 <= k < |tasks| ==> Finished(tasks[k])
    ensures InFlight(tasks) == 0 <==> forall k :: 0 <= k < |tasks| ==> !tasks[k].Running?
  {
    if tasks != [] {
      var n := |tasks| - 1;
      CountsBound(tasks[..n]);
      assert tasks == tasks[..n] + [tasks[n]];
    }
  }

  lemma {:induction false} NoneYet<R>(tasks: seq<Task<R>>)
    requires forall k :: 0 <= k < |tasks| ==> tasks[k] == Waiting
    ensures InFlight(tasks) == 0 && Ended(tasks) == 0
  {
    if tasks != [] {
      NoneYet(tasks[..|tasks| - 1]);
    }
  }

  // ---------------------------------------------------------------- the invariant

  ghost predicate Listed<R>(s: State<R>) {
    && |s.order| == Ended(s.tasks)
    && (forall i :: 0 <= i < |s.order| ==> s.order[i] < |s.tasks| && Finished(s.tasks[s.order[i]]))
    && (forall i, j :: 0 <= i < j < |s.order| ==> s.order[i] != s.order[j])
    && (forall k :: 0 <= k < |s.tasks| && Finished(s.tasks[k]) ==> k in s.order)
  }

  /** What was yielded are results of calls, each for its item. */
  ghost predicate Yielded<T, R>(fn: Call<T, R>, items: seq<T>, s: State<R>) {
    && s.taken <= |s.order|
    && forall i :: 0 <= i < s.taken && s.order[i] < |items| && s.order[i] < |s.tasks| ==>
         s.tasks[s.order[i]].Returned? && s.tasks[s.order[i]] == Outcome(fn, items[s.order[i]])
  }

  ghost predicate Invariant<T, R>(fn: Call<T, R>, items: seq<T>, concurrency: int, s: State<R>) {
    && |s.tasks| == |items|
    && s.permits + InFlight(s.tasks) == Limit(concurrency)
    && Listed(s) && Yielded(fn, items, s)
    && (s.phase == Consuming ==> forall k :: 0 <= k < |items| && Finished(s.tasks[k]) ==>
        s.tasks[k] == Outcome(fn, items[k]))
    && (!s.phase.Consuming? && s.phase.why == Exhausted ==> s.taken == |items|)
    && (!s.phase.Consuming? && s.phase.why == Failure ==> exists k :: 0 <= k < |items| && fn(items[k]) == None)
    && (s.phase.Closed? ==> forall k :: 0 <= k < |s.tasks| ==> Finished(s.tasks[k]))
  }

  lemma EndListed<R>(s: State<R>, s': State<R>, k: nat, t: Task<R>)
    requires Listed(s) && k < |s.tasks| && !Finished(s.tasks[k]) && Finished(t)
    requires s'.tasks == s.tasks[k := t] && s'.order == s.order + [k]
    ensures Listed(s')
  {
    CountsAfterUpdate(s.tasks, k, t);
    assert k in [k];
  }

  lemma AcquireKeeps<T(!new), R(!new)>(fn: Call<T, R>, items: seq<T>, concurrency: int, s: State<R>, s': State<R>,
                                       k: nat)
    requires Invariant(fn, items, concurrency, s) && Acquire(s, s', k)
    ensures Invariant(fn, items, concurrency, s')
  {
    CountsAfterUpdate(s.tasks, k, Running);
  }

  lemma EndKeeps<T(!new), R(!new)>(fn: Call<T, R>, items: seq<T>, concurrency: int, s: State<R>, s': State<R>,
                                   k: nat, t: Task<R>)
    requires Invariant(fn, items, concurrency, s) && End(fn, items, s, s', k, t)
    ensures Invariant(fn, items, concurrency, s')
  {
    CountsAfterUpdate(s.tasks, k, t);
    EndListed(s, s', k, t);
    hide Listed, InFlight, Ended, Outcome;
  }

  lemma DropKeeps<T(!new), R(!new)>(fn: Call<T, R>, items: seq<T>, concurrency: int, s: State<R>, s': State<R>, k: nat)
    requires Invariant(fn, items, concurrency, s) && Drop(s, s', k)
    ensures Invariant(fn, items, concurrency, s')
  {
    CountsAfterUpdate(s.tasks, k, Cancelled);
    EndListed(s, s', k, Cancelled);
    hide Listed, InFlight, Ended, Outcome;
  }

  lemma ConsumerKeeps<T(!new), R(!new)>(fn: Call<T, R>, items: seq<T>, concurrency: int, s: State<R>, s': State<R>)
    requires Invariant(fn, items, concurrency, s)
    requires Exhaust(s, s') || Gathered(s, s') || Close(s, s')
    ensures Invariant(fn, items, concurrency, s')
  {
    hide Outcome, InFlight, Ended;
  }

  lemma TakeKeeps<T(!new), R(!new)>(fn: Call<T, R>, items: seq<T>, concurrency: int, s: State<R>, s': State<R>)
    requires Invariant(fn, items, concurrency, s) && Take(s, s')
    ensures Invariant(fn, items, concurrency, s')
  {
    hide InFlight, Ended;
    var k := s.order[s.taken];
    assert s.tasks[k] == Outcome(fn, items[k]);
  }

  /** Every step keeps the invariant. */
  lemma StepKeepsInvariant<T(!new), R(!new)>(fn: Call<T, R>, items: seq<T>, concurrency: int, s: State<R>, s': State<R>)
    requires Invariant(fn, items, concurrency, s) && Step(fn, items, s, s')
    ensures Invariant(fn, items, concurrency, s')
  {
    hide Invariant, Acquire, End, Drop, Take, Exhaust, Close, Gathered;
    if k: nat :| Acquire(s, s', k) {
      AcquireKeeps(fn, items, concurrency, s, s', k);
    } else if k: nat, t: Task<R> :| End(fn, items, s, s', k, t) {
      EndKeeps(fn, items, concurrency, s, s', k, t);
    } else if k: nat :| Drop(s, s', k) {
      DropKeeps(fn, items, concurrency, s, s', k);
    } else if Take(s, s') {
      TakeKeeps(fn, items, concurrency, s, s');
    } else {
      ConsumerKeeps(fn, items, concurrency, s, s');
    }
  }

  lemma {:induction false} InvariantHolds<T(!new), R(!new)>(fn: Call<T, R>, items: seq<T>, concurrency: int,
      trace: seq<State<R>>, i: nat)
    requires Schedule(fn, items, concurrency, trace) && i < |trace|
    ensures Invariant(fn, items, concurrency, trace[i])
  {
    hide Step;
    if i == 0 {
      NoneYet(trace[0].tasks);
    } else {
      hide Invariant;
      InvariantHolds(fn, items, concurrency, trace, i - 1);
      assert Step(fn, items, trace[i - 1], trace[i - 1 + 1]);
      StepKeepsInvariant(fn, items, concurrency, trace[i - 1], trace[i]);
    }
  }

  // ---------------------------------------------------------------- results

  /** In every state of every schedule at most the limit of calls is in flight. */
  lemma NeverOverLimit<T(!new), R(!new)>(fn: Call<T, R>, items: seq<T>, concurrency: int, trace: seq<State<R>>, i: nat)
    requires Schedule(fn, items, concurrency, trace) && i < |trace|
    ensures InFlight(trace[i].tasks) + trace[i].permits == Limit(concurrency)
    ensures InFlight(trace[i].tasks) <= if concurrency <= 1 then 1 else concurrency
  {
    InvariantHolds(fn, items, concurrency, trace, i);
  }

  /** After the end, however it came, nothing runs and all permits are back. */
  lemma ClosedIsClean<T(!new), R(!new)>(fn: Call<T, R>, items: seq<T>, concurrency: int, trace: seq<State<R>>, i: nat)
    requires Schedule(fn, items, concurrency, trace) && i < |trace| && trace[i].phase.Closed?
    ensures trace[i].permits == Limit(concurrency)
    ensures forall k :: 0 <= k < |trace[i].tasks| ==> Finished(trace[i].tasks[k])
    ensures trace[i].phase.why == Failure ==> exists k :: 0 <= k < |items| && fn(items[k]) == None
  {
    InvariantHolds(fn, items, concurrency, trace, i);
    CountsBound(trace[i].tasks);
  }

  /** The results yielded so far. */
  function Results<R>(s: State<R>): seq<Task<R>>
    requires s.taken <= |s.order| && forall i :: 0 <= i < |s.order| ==> s.order[i] < |s.tasks|
  {
    seq(s.taken, i requires 0 <= i < s.taken => s.tasks[s.order[i]])
  }

  /**
   * Full consumption: every item's call has returned, and its result was yielded at exactly one position.
   */
  lemma EachExactlyOnce<T(!new), R(!new)>(fn: Call<T, R>, items: seq<T>, concurrency: int, trace: seq<State<R>>,
                                          i: nat, k: nat)
    requires Schedule(fn, items, concurrency, trace) && i < |trace| && k < |items|
    requires !trace[i].phase.Consuming? && trace[i].phase.why == Exhausted
    ensures var s := trace[i];
            && s.taken == |s.order| == |items| && (forall j :: 0 <= j < |s.order| ==> s.order[j] < |s.tasks|)
            && (exists j :: 0 <= j < s.taken && s.order[j] == k)
            && (forall j, j' :: 0 <= j < s.taken && 0 <= j' < s.taken && s.order[j] == k && s.order[j'] == k ==>
                j == j')
            && (forall j :: 0 <= j < s.taken && s.order[j] == k ==>
                  fn(items[k]).Some? && Results(s)[j] == Returned(fn(items[k]).value))
  {
    var s := trace[i];
    InvariantHolds(fn, items, concurrency, trace, i);
    CountsBound(s.tasks);
    assert k in s.order;
  }

  /** Whatever was yielded before an exception or an early close are results of different items. */
  lemma YieldsAreResults<T(!new), R(!new)>(fn: Call<T, R>, items: seq<T>, concurrency: int, trace: seq<State<R>>,
                                           i: nat, j: nat)
    requires Schedule(fn, items, concurrency, trace) && i < |trace| && j < trace[i].taken
    ensures var s := trace[i];
            && s.taken <= |s.order| && (forall l :: 0 <= l < |s.order| ==> s.order[l] < |s.tasks| == |items|)
            && fn(items[s.order[j]]).Some? && Results(s)[j] == Returned(fn(items[s.order[j]]).value)
            && (forall l :: 0 <= l < s.taken && s.order[l] == s.order[j] ==> l == j)
  {
    InvariantHolds(fn, items, concurrency, trace, i);
  }

  // ---------------------------------------------------------------- progress

  /** No deadlock: until everything is closed, some step other than an early close is possible. */
  lemma NeverStuck<T(!new), R(!new)>(fn: Call<T, R>, items: seq<T>, concurrency: int, trace: seq<State<R>>, i: nat)
    requires Schedule(fn, items, concurrency, trace) && i < |trace| && !trace[i].phase.Closed?
    ensures exists s' :: Advance(fn, items, trace[i], s')
  {
    hide Listed, Outcome;
    var s := trace[i];
    InvariantHolds(fn, items, concurrency, trace, i);
    CountsBound(s.tasks);
    if k :| 0 <= k < |s.tasks| && s.tasks[k] == Running {
      var t := Outcome(fn, items[k]);
      OutcomeFinished(fn, items[k]);
      var s' := s.(permits := s.permits + 1, tasks := s.tasks[k := t], order := s.order + [k]);
      assert End(fn, items, s, s', k, t);
      assert Advance(fn, items, s, s');
    } else if k :| 0 <= k < |s.tasks| && s.tasks[k] == Waiting {
      if s.phase == Consuming {
        var s' := s.(permits := s.permits - 1, tasks := s.tasks[k := Running]);
        assert Acquire(s, s', k);
        assert Advance(fn, items, s, s');
      } else {
        var s' := s.(tasks := s.tasks[k := Cancelled], order := s.order + [k]);
        assert Drop(s, s', k);
        assert Advance(fn, items, s, s');
      }
    } else {
      EverythingFinished(fn, items, s);
    }
  }

  lemma OutcomeFinished<T(!new), R(!new)>(fn: Call<T, R>, item: T)
    ensures Finished(Outcome(fn, item))
  {
  }

  lemma EverythingFinished<T(!new), R(!new)>(fn: Call<T, R>, items: seq<T>, s: State<R>)
    requires !s.phase.Closed? && Listed(s) && s.taken <= |s.order|
    requires forall k :: 0 <= k < |s.tasks| ==> Finished(s.tasks[k])
    ensures exists s' :: Advance(fn, items, s, s')
  {
    CountsBound(s.tasks);
    if s.phase.Gathering? {
      assert Advance(fn, items, s, s.(phase := Closed(s.phase.why)));
    } else if s.taken == |s.tasks| {
      assert Advance(fn, items, s, s.(phase := Gathering(Exhausted)));
    } else if s.tasks[s.order[s.taken]].Returned? {
      assert Advance(fn, items, s, s.(taken := s.taken + 1));
    } else {
      assert Advance(fn, items, s, s.(phase := Gathering(Failure)));
    }
  }

  /** How many steps can still come. */
  function Rank<R>(s: State<R>): int {
    (2 * |s.tasks| - InFlight(s.tasks) - 2 * Ended(s.tasks)) + (|s.tasks| - s.taken)
    + (match s.phase case Consuming => 2 case Gathering(_) => 1 case Closed(_) => 0)
  }

  lemma StepLowersRank<T(!new), R(!new)>(fn: Call<T, R>, items: seq<T>, s: State<R>, s': State<R>)
    requires Step(fn, items, s, s')
    ensures Rank(s') < Rank(s)
  {
    if k: nat :| Acquire(s, s', k) {
      CountsAfterUpdate(s.tasks, k, Running);
    } else if k: nat, t: Task<R> :| End(fn, items, s, s', k, t) {
      CountsAfterUpdate(s.tasks, k, t);
    } else if k: nat :| Drop(s, s', k) {
      CountsAfterUpdate(s.tasks, k, Cancelled);
    }
  }

  lemma {:induction false} RankAfter<T(!new), R(!new)>(fn: Call<T, R>, items: seq<T>, concurrency: int,
                                                       trace: seq<State<R>>, i: nat)
    requires Schedule(fn, items, concurrency, trace) && i < |trace|
    ensures Rank(trace[i]) <= 3 * |items| + 2 - i
  {
    hide Step, Rank;
    if i == 0 {
      NoneYet(trace[0].tasks);
      FirstRank(trace[0]);
    } else {
      RankAfter(fn, items, concurrency, trace, i - 1);
      assert Step(fn, items, trace[i - 1], trace[i - 1 + 1]);
      StepLowersRank(fn, items, trace[i - 1], trace[i]);
    }
  }

  lemma FirstRank<R>(s: State<R>)
    ensures Rank(s) <= 3 * |s.tasks| + 2
  {
  }

  /** Every schedule comes to its end: it has at most three steps per item and two more. */
  lemma SchedulesEnd<T(!new), R(!new)>(fn: Call<T, R>, items: seq<T>, concurrency: int, trace: seq<State<R>>)
    requires Schedule(fn, items, concurrency, trace)
    ensures |trace| <= 3 * |items| + 3
  {
    var last := |trace| - 1;
    RankAfter(fn, items, concurrency, trace, last);
    InvariantHolds(fn, items, concurrency, trace, last);
    CountsBound(trace[last].tasks);
  }

  /** The consumer may close at any time while it consumes, and closing cancels whatever has not finished. */
  lemma MayClose<T(!new), R(!new)>(fn: Call<T, R>, items: seq<T>, s: State<R>)
    requires s.phase == Consuming
    ensures exists s' :: Step(fn, items, s, s') && s'.phase == Gathering(EarlyClose) && s'.tasks == s.tasks
  {
    var s' := s.(phase := Gathering(EarlyClose));
    assert Step(fn, items, s, s');
  }

  /** With one permit the limit is one; a permit more admits one call more. */
  lemma LimitIs(concurrency: int)
    ensures Limit(concurrency) == if concurrency <= 1 then 1 else concurrency
  {
  }

  /** Once the clean-up has begun no further call is started. */
  lemma NoNewCalls<T(!new), R(!new)>(fn: Call<T, R>, items: seq<T>, s: State<R>, s': State<R>, k: nat)
    requires Step(fn, items, s, s') && s.phase != Consuming && k < |s.tasks| == |s'.tasks| && s'.tasks[k] == Running
    ensures s.tasks[k] == Running
  {
  }
}
