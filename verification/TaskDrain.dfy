/**
 The load test of sessions: worker pools that empty a queue, background tasks that the servers start, and
 the drains that poll those tasks against a deadline.

 Answers of the servers, clock readings and the order in which workers get their turn come from an
 environment that may choose anything. Workers take turns only where the program waits for a request.
 */
module TaskDrain {
  import opened Base

  /** A lapse of time, in seconds. */
  type Duration = r: real | 0.0 <= r

  /** What a request returned: whether it succeeded, the background task it started, the status it reported. */
  datatype Answer = Answer(success: bool, taskId: string, status: Option<string>)

  /**
   * At each tick: how much time passes, what a server answers, whose turn it is, and for a worker of a timed
   * scenario which request it chooses next or whether it fails before it makes one.
   */
  datatype Environment = Environment(lapse: nat -> Duration, answer: nat -> Answer, turn: nat -> nat,
                                     choice: nat -> Request, breaks: nat -> bool)

  datatype Config = Config(timeout: Duration, interval: Duration, resourceWorkers: nat, sessionWorkers: nat,
                           commitWorkers: nat)

  function AtLeast(least: int, value: int): int { if value < least then least else value }

  function NoLess(least: real, value: real): real { if value < least then least else value }

  /** The clamps that the command line's values go through. */
  function Clamped(timeout: real, interval: real, resources: int, sessions: int, commits: int): Config {
    Config(NoLess(0.0, timeout), NoLess(0.1, interval), AtLeast(1, resources), AtLeast(1, sessions), AtLeast(1,
        commits))
  }

  /** What the pending entry and the final event of a task have in common. */
  datatype Identity = Identity(adapter: string, taskId: string, taskType: string, origin: string, resource: string)

  datatype PendingTask = PendingTask(id: Identity, started: real)

  datatype TaskEvent = TaskEvent(id: Identity, completion: string, status: string, duration: real)

  /** A request that a worker makes. If it `registers`, the background task that the server starts is followed. */
  datatype Request = Request(adapter: string, scenario: string, operation: string, subject: string, registers: bool)

  /** What a background task is called after the operation that started it. */
  function TaskType(operation: string): string { if operation == "commit_session" then "session_commit" else operation }

  /** Commits start tasks of their own kind; other tasks are called as the operation is. */
  lemma TaskTypesAre(operation: string)
    ensures TaskType("commit_session") == "session_commit" && TaskType("add_resource") == "add_resource"
    ensures operation != "commit_session" ==> TaskType(operation) == operation
  {
    assert |"commit_session"| != |"add_resource"|;
  }

  datatype Worker = Idle | Busy(request: Request) | Returned

  // ---------------------------------------------------------------- counting

  ghost function PendingBag(tasks: seq<PendingTask>): multiset<Identity> {
    if tasks == [] then multiset{} else PendingBag(tasks[..|tasks| - 1]) + multiset{tasks[|tasks| - 1].id}
  }

  ghost function EventBag(events: seq<TaskEvent>): multiset<Identity> {
    if events == [] then multiset{} else EventBag(events[..|events| - 1]) + multiset{events[|events| - 1].id}
  }

  lemma PendingBagOfAppend(tasks: seq<PendingTask>, t: PendingTask)
    ensures PendingBag(tasks + [t]) == PendingBag(tasks) + multiset{t.id}
  {
    assert (tasks + [t])[..|tasks|] == tasks;
  }

  lemma EventBagOfAppend(events: seq<TaskEvent>, e: TaskEvent)
    ensures EventBag(events + [e]) == EventBag(events) + multiset{e.id}
  {
    assert (events + [e])[..|events|] == events;
  }

  /** The requests that busy workers are waiting for. */
  ghost function InFlight(workers: seq<Worker>): multiset<Request> {
    if workers == [] then multiset{} else InFlight(workers[..|workers| - 1]) + Load(workers[|workers| - 1])
  }

  ghost function Load(w: Worker): multiset<Request> { if w.Busy? then multiset{w.request} else multiset{} }

  lemma {:induction false} InFlightUpdate(workers: seq<Worker>, k: nat, w: Worker)
    requires k < |workers|
    ensures InFlight(workers[k := w]) + Load(workers[k]) == InFlight(workers) + Load(w)
  {
    hide Load;
    var n := |workers| - 1;
    var updated := workers[k := w];
    if k == n {
      assert updated[..n] == workers[..n];
    } else {
      assert updated[..n] == workers[..n][k := w];
      InFlightUpdate(workers[..n], k, w);
      AddToBoth(InFlight(updated[..n]), Load(workers[k]), InFlight(workers[..n]), Load(w), Load(workers[n]));
    }
  }

  lemma AddToBoth<T>(a: multiset<T>, x: multiset<T>, b: multiset<T>, y: multiset<T>, c: multiset<T>)
    requires a + x == b + y
    ensures (a + c) + x == (b + c) + y
  {
    assert (a + c) + x == (a + x) + c;
  }

  lemma {:induction false} NobodyBusy(workers: seq<Worker>)
    requires forall k :: 0 <= k < |workers| ==> !workers[k].Busy?
    ensures InFlight(workers) == multiset{}
  {
    if workers != [] {
      NobodyBusy(workers[..|workers| - 1]);
    }
  }

  /** The workers that have not returned. */
  function Live(workers: seq<Worker>): (r: seq<nat>)
    ensures forall i :: 0 <= i < |r| ==> r[i] < |workers| && !workers[r[i]].Returned?
    ensures forall k :: 0 <= k < |workers| && !workers[k].Returned? ==> k in r
  {
    if workers == [] then []
    else
      var n := |workers| - 1;
      var rest := Live(workers[..n]);
      assert forall k :: 0 <= k < n ==> workers[..n][k] == workers[k];
      if workers[n].Returned? then rest else rest + [n]
  }

  lemma {:induction false} AllLive(workers: seq<Worker>)
    requires forall k :: 0 <= k < |workers| ==> !workers[k].Returned?
    ensures |Live(workers)| == |workers|
  {
    if workers != [] {
      AllLive(workers[..|workers| - 1]);
    }
  }

  lemma LiveSplit(workers: seq<Worker>)
    requires workers != []
    ensures var n := |workers| - 1; |Live(workers)| == |Live(workers[..n])| + (if workers[n].Returned? then 0 else 1)
  {
  }

  lemma {:induction false} LiveUpdate(workers: seq<Worker>, k: nat, w: Worker)
    requires k < |workers| && !workers[k].Returned?
    ensures |Live(workers[k := w])| == |Live(workers)| - (if w.Returned? then 1 else 0)
  {
    hide Live;
    var n := |workers| - 1;
    var updated := workers[k := w];
    LiveSplit(workers);
    LiveSplit(updated);
    if k == n {
      assert updated[..n] == workers[..n];
    } else {
      assert updated[..n] == workers[..n][k := w];
      LiveUpdate(workers[..n], k, w);
    }
  }

  // ---------------------------------------------------------------- deadlines

  /** The time that this many sleeps take at least. */
  function Slept(rounds: nat, interval: real): real { rounds as real * interval }

  /** A drain makes at most this many rounds. */
  function RoundLimit(timeout: Duration, interval: Duration): (n: nat)
    requires 0.0 < interval
  {
    (timeout / interval).Floor + 1
  }

  /** The limit is the quotient of the two, rounded down, and one more. */
  lemma RoundLimitIs(timeout: Duration, interval: Duration)
    requires 0.0 < interval
    ensures var n := RoundLimit(timeout, interval);
            n >= 1 && Slept(n - 1, interval) <= timeout < Slept(n, interval)
  {
    FloorBounds(timeout, interval);
    var n := (timeout / interval).Floor;
    assert (n + 1) as real == n as real + 1.0;
  }

  lemma FloorBounds(t: real, c: real)
    requires 0.0 < c
    ensures var n := (t / c).Floor; n as real * c <= t < (n as real + 1.0) * c
  {
    var q := t / c;
    var n := q.Floor;
    assert q * c == t;
    var next := n as real + 1.0;
    assert n as real <= q < next;
    AtMostByFactor(n as real, q, c);
    LessByFactor(q, next, c);
    assert t < next * c;
  }

  lemma AtMostByFactor(a: real, b: real, c: real)
    requires 0.0 < c && a <= b
    ensures a * c <= b * c
  {
  }

  lemma LessByFactor(a: real, b: real, c: real)
    requires 0.0 < c && a < b
    ensures a * c < b * c
  {
  }

  /** A round that starts before the deadline, after `rounds` sleeps, starts within the bound. */
  lemma RoundsAreBounded(rounds: nat, interval: real, timeout: real)
    requires 0.0 < interval && 0.0 <= timeout && Slept(rounds, interval) < timeout
    ensures rounds < RoundLimit(timeout, interval)
  {
    var q := timeout / interval;
    assert q * interval == timeout;
    LessByProduct(rounds as real, q, interval);
    FloorIsGreatest(rounds, q);
  }

  lemma LessByProduct(a: real, b: real, c: real)
    requires 0.0 < c && a * c < b * c
    ensures a < b
  {
  }

  lemma FloorIsGreatest(n: nat, q: real)
    requires n as real <= q
    ensures n <= q.Floor
  {
    assert q < (q.Floor + 1) as real;
  }

  lemma OneMoreRound(rounds: nat, interval: real)
    ensures Slept(rounds + 1, interval) == Slept(rounds, interval) + interval
    ensures Slept(0, interval) == 0.0
  {
  }

  // ---------------------------------------------------------------- the runner

  /** A status with which a task has ended. */
  predicate Final(status: Option<string>) { status == Some("completed") || status == Some("failed") }

  /** The event of a task that a server reported ended, or that a drain entitled to do so has given up. */
  predicate Settled(config: Config, e: TaskEvent) {
    || Final(Some(e.status))
    || (e.status == "incomplete" && (config.timeout == 0.0 || e.completion == "final_drain"))
  }

  /** The outcome of polling: tasks that stay, tasks that ended with their status, and the tick reached. */
  datatype Polled = Polled(kept: seq<PendingTask>, ended: seq<(Identity, string)>, tick: nat)

  /** Poll the pending tasks one after the other, each one of a known adapter exactly once. */
  function Poll(env: Environment, adapters: set<string>, tasks: seq<PendingTask>, tick: nat): Polled {
    if tasks == [] then Polled([], [], tick)
    else
      var p, t := Poll(env, adapters, tasks[..|tasks| - 1], tick), tasks[|tasks| - 1];
      if t.id.adapter !in adapters then Polled(p.kept + [t], p.ended, p.tick)
      else
        var a := env.answer(p.tick);
        if a.success && Final(a.status) then Polled(p.kept, p.ended + [(t.id, a.status.value)], p.tick + 2)
        else Polled(p.kept + [t], p.ended, p.tick + 1)
  }

  /** The identities and statuses of events. */
  function Outcomes(events: seq<TaskEvent>): seq<(Identity, string)> {
    seq(|events|, i requires 0 <= i < |events| => (events[i].id, events[i].status))
  }

  /** What is reported of tasks that are given up. */
  function Incomplete(tasks: seq<PendingTask>): seq<(Identity, string)> {
    seq(|tasks|, i requires 0 <= i < |tasks| => (tasks[i].id, "incomplete"))
  }

  /** The tasks after a number of rounds, each followed by a sleep, if tasks are left, and a look at the clock. */
  function AfterRounds(env: Environment, adapters: set<string>, tasks: seq<PendingTask>, tick: nat, n: nat): Polled {
    if n == 0 then Polled(tasks, [], tick)
    else
      var p := AfterRounds(env, adapters, tasks, tick, n - 1);
      var q := Poll(env, adapters, p.kept, p.tick);
      Polled(q.kept, p.ended + q.ended, q.tick + if q.kept == [] then 1 else 2)
  }

  /** A task of a known adapter that stays after a round was polled in it, and no end was reported. */
  lemma {:induction false} KeptHasNoEnd(env: Environment, adapters: set<string>, tasks: seq<PendingTask>, tick: nat,
                                        t: PendingTask)
    requires t in Poll(env, adapters, tasks, tick).kept && t.id.adapter in adapters
    ensures exists u :: tick <= u < Poll(env, adapters, tasks, tick).tick
                        && !(env.answer(u).success && env.answer(u).status in {Some("completed"), Some("failed")})
  {
    var n := |tasks| - 1;
    if tasks != [] {
      var p := Poll(env, adapters, tasks[..n], tick);
      PollGoesOn(env, adapters, tasks[..n], tick);
      if t in p.kept {
        KeptHasNoEnd(env, adapters, tasks[..n], tick, t);
        var u :| tick <= u < p.tick
                 && !(env.answer(u).success && env.answer(u).status in {Some("completed"), Some("failed")});
        assert u < Poll(env, adapters, tasks, tick).tick;
      } else {
        assert t == tasks[n];
        assert p.tick < Poll(env, adapters, tasks, tick).tick;
        assert !(env.answer(p.tick).success && Final(env.answer(p.tick).status));
      }
    }
  }

  lemma {:induction false} PollGoesOn(env: Environment, adapters: set<string>, tasks: seq<PendingTask>, tick: nat)
    ensures tick <= Poll(env, adapters, tasks, tick).tick
  {
    if tasks != [] {
      PollGoesOn(env, adapters, tasks[..|tasks| - 1], tick);
    }
  }

  /** Servers that report an end whenever they are asked. */
  ghost predicate Prompt(env: Environment) {
    forall n :: env.answer(n).success && env.answer(n).status in {Some("completed"), Some("failed")}
  }

  predicate AllKnown(adapters: set<string>, tasks: seq<PendingTask>) {
    forall k :: 0 <= k < |tasks| ==> tasks[k].id.adapter in adapters
  }

  lemma IsEmpty(tasks: seq<PendingTask>)
    ensures (forall t :: t !in tasks) ==> tasks == []
  {
    if tasks != [] {
      assert tasks[0] in tasks;
    }
  }

  /** With such servers nothing of known adapters is left after a round. */
  lemma PromptRounds(env: Environment, adapters: set<string>, tasks: seq<PendingTask>, tick: nat, n: nat)
    requires Prompt(env) && AllKnown(adapters, tasks) && n >= 1
    ensures AfterRounds(env, adapters, tasks, tick, n).kept == []
  {
    hide Poll;
    var p := AfterRounds(env, adapters, tasks, tick, n - 1);
    if n > 1 {
      PromptRounds(env, adapters, tasks, tick, n - 1);
    }
    AllEnd(env, adapters, p.kept, p.tick);
    var q := Poll(env, adapters, p.kept, p.tick);
    IsEmpty(q.kept);
  }

  /** Such servers, with a clock that never jumps over the whole time of a drain. */
  ghost predicate Swift(env: Environment, timeout: Duration) {
    Prompt(env) && forall t :: env.lapse(t) < timeout
  }

  /** Every request of a workload, and every choice of a timed worker, is for a known adapter. */
  ghost predicate KnownWork(env: Environment, adapters: set<string>, load: Workload) {
    && load.adapter in adapters && (forall t :: env.choice(t).adapter in adapters)
    && KnownRequests(adapters, load.resources) && KnownRequests(adapters, load.messages)
    && KnownRequests(adapters, load.commits)
  }

  ghost predicate AllKnownWork(env: Environment, adapters: set<string>, loads: seq<Workload>) {
    forall k :: 0 <= k < |loads| ==> KnownWork(env, adapters, loads[k])
  }

  predicate KnownRequests(adapters: set<string>, requests: seq<Request>) {
    forall k :: 0 <= k < |requests| ==> requests[k].adapter in adapters
  }

  predicate KnownWorkers(adapters: set<string>, workers: seq<Worker>) {
    forall k :: 0 <= k < |workers| && workers[k].Busy? ==> workers[k].request.adapter in adapters
  }

  /** When every server reports an end, only tasks of unknown adapters stay, in their order. */
  lemma {:induction false} AllEnd(env: Environment, adapters: set<string>, tasks: seq<PendingTask>, tick: nat)
    requires Prompt(env)
    ensures forall t :: t in Poll(env, adapters, tasks, tick).kept <==> t in tasks && t.id.adapter !in adapters
  {
    if tasks != [] {
      var n := |tasks| - 1;
      AllEnd(env, adapters, tasks[..n], tick);
      assert tasks == tasks[..n] + [tasks[n]];
    }
  }

  lemma PollOneMore(env: Environment, adapters: set<string>, tasks: seq<PendingTask>, tick: nat, k: nat)
    requires k < |tasks|
    ensures var p, p' := Poll(env, adapters, tasks[..k], tick), Poll(env, adapters, tasks[..k + 1], tick);
            p' == if tasks[k].id.adapter !in adapters then Polled(p.kept + [tasks[k]], p.ended, p.tick)
                  else
                    var a := env.answer(p.tick);
                    if a.success && Final(a.status) then Polled(p.kept, p.ended + [(tasks[k].id, a.status.value)],
                        p.tick + 2)
                    else Polled(p.kept + [tasks[k]], p.ended, p.tick + 1)
  {
    assert tasks[..k + 1][..k] == tasks[..k];
  }

  /** A timed scenario: its workers, none if it is skipped, and the turns they take before the stop event is set. */
  datatype Timed = Timed(size: nat, turns: nat)

  /** How many requests its workers begin, if none of them breaks. */
  function Begun(t: Timed): nat { if t.size == 0 then 0 else t.turns }

  /** What the phases of one adapter have to do. */
  datatype Workload = Workload(adapter: string, warmup: Timed, resources: seq<Request>, messages: seq<Request>,
                               retrieval: Timed, commits: seq<Request>, mixed: Timed)

  /** The request that closes the upload of resources. */
  function WaitProcessed(adapter: string): Request { Request(adapter, "add_resources", "wait_processed", "", false) }

  /** The requests that a workload asks for; those of timed scenarios are up to the workers. */
  ghost function Asked(load: Workload): multiset<Request> {
    multiset(load.resources) + multiset{WaitProcessed(load.adapter)} + multiset(load.messages) + multiset(load.commits)
  }

  lemma AskedIs(load: Workload, before: multiset<Request>, after: multiset<Request>)
    requires after == before + multiset(load.resources) + multiset{WaitProcessed(load.adapter)}
             + multiset(load.messages)
                      + multiset(load.commits)
    ensures after == before + Asked(load)
  {
  }

  class Runner {
    const env: Environment
    const config: Config
    var adapters: set<string>
    var tick: nat
    var now: real
    var requests: seq<Request>            // requests completed by workers
    var pending: seq<PendingTask>
    var events: seq<TaskEvent>
    ghost var registered: multiset<Identity>  // every task ever registered
    ghost var polls: nat                      // rounds of polling so far
    ghost var asked: multiset<Request>        // requests that workers took from a queue, or that stand alone
    ghost var timed: multiset<Request>        // requests that workers of timed scenarios have begun

    /** No task is lost and none is counted twice. */
    ghost predicate Conserved()
      reads this
    {
      registered == EventBag(events) + PendingBag(pending)
    }

    /** Every request that was begun has completed exactly once. */
    ghost predicate AllDone()
      reads this
    {
      multiset(requests) == asked + timed
    }

    /** What was begun is completed or in flight. */
    ghost predicate Balanced(workers: seq<Worker>)
      reads this
    {
      multiset(requests) + InFlight(workers) == asked + timed
    }

    /** Every task that is pending can be asked for, and every task that is not has ended. */
    ghost predicate Smooth()
      reads this
    {
      AllKnown(adapters, pending) && forall k :: 0 <= k < |events| ==> Final(Some(events[k].status))
    }

    /** Between phases: tasks are conserved, and only a final drain or a drain without time has given up on one. */
    ghost predicate Ready()
      reads this
    {
      && Conserved() && AllDone() && 0.0 < config.interval
      && 1 <= config.resourceWorkers && 1 <= config.sessionWorkers && 1 <= config.commitWorkers
      && (forall k :: 0 <= k < |events| ==>
            Final(Some(events[k].status)) || (events[k].status == "incomplete" && config.timeout == 0.0))
    }

    constructor (env: Environment, config: Config)
      ensures this.env == env && this.config == config
      ensures pending == [] && events == [] && requests == [] && registered == multiset{} && adapters == {}
      ensures asked == multiset{} && timed == multiset{} && polls == 0 && Conserved() && AllDone()
    {
      this.env := env;
      this.config := config;
      adapters, tick, now, requests, pending, events := {}, 0, 0.0, [], [], [];
      registered, asked, timed, polls := multiset{}, multiset{}, multiset{}, 0;
    }

    /** Read the clock. It never goes back. */
    method Clock() returns (t: real)
      modifies this`tick, this`now
      ensures t == now == old(now) + env.lapse(old(tick)) && tick == old(tick) + 1
    {
      now := now + env.lapse(tick);
      tick := tick + 1;
      t := now;
    }

    /** Sleep at least the given time. */
    method Sleep(seconds: Duration)
      modifies this`tick, this`now
      ensures old(now) + seconds <= now && tick == old(tick) + 1
    {
      now := now + seconds + env.lapse(tick);
      tick := tick + 1;
    }

    /** Wait for the answer of a server. */
    method Ask() returns (a: Answer)
      modifies this`tick, this`now
      ensures now == old(now) + env.lapse(old(tick)) && tick == old(tick) + 1 && a == env.answer(old(tick))
    {
      a := env.answer(tick);
      now := now + env.lapse(tick);
      tick := tick + 1;
    }

    /** Follow the background task that a successful request names, if it names one. */
    method RegisterTaskIfPresent(r: Request, a: Answer)
      requires Conserved()
      modifies this`tick, this`now, this`pending, this`registered
      ensures Conserved()
      ensures var id := Identity(r.adapter, a.taskId, TaskType(r.operation), r.scenario, r.subject);
              && registered == old(registered) + (if a.success && a.taskId != "" then multiset{id} else multiset{})
              && old(pending) <= pending
      ensures r.adapter in adapters && AllKnown(adapters, old(pending)) ==> AllKnown(adapters, pending)
    {
      hide PendingBag, EventBag;
      if !a.success || a.taskId == "" {
        return;
      }
      var started := Clock();
      var t := PendingTask(Identity(r.adapter, a.taskId, TaskType(r.operation), r.scenario, r.subject), started);
      PendingBagOfAppend(pending, t);
      AddLast(EventBag(events), PendingBag(pending), t.id);
      pending := pending + [t];
      registered := registered + multiset{t.id};
    }

    /** Record every pending task as incomplete. */
    method FinalizeIncompleteTasks(scenario: string)
      requires Conserved()
      modifies this`tick, this`now, this`pending, this`events
      ensures Conserved() && pending == [] && EventBag(events) == registered
      ensures old(events) <= events && |events| == |old(events)| + |old(pending)| && old(now) <= now
      ensures Outcomes(events) == Outcomes(old(events)) + Incomplete(old(pending))
      ensures forall k :: |old(events)| <= k < |events| ==>
                events[k].status == "incomplete" && events[k].completion == scenario
    {
      hide EventBag, PendingBag;
      var k := 0;
      NoTask(pending);
      while k < |pending|
        invariant k <= |pending| && pending == old(pending)
        invariant EventBag(events) == EventBag(old(events)) + PendingBag(pending[..k])
        invariant old(events) <= events && |events| == |old(events)| + k && old(now) <= now
        invariant Outcomes(events) == Outcomes(old(events)) + Incomplete(pending[..k])
        invariant forall j :: |old(events)| <= j < |events| ==>
                    events[j].status == "incomplete" && events[j].completion == scenario
      {
        var t := pending[k];
        var ended := Clock();
        var e := TaskEvent(t.id, scenario, "incomplete", ended - t.started);
        EventBagOfAppend(events, e);
        OutcomesOfAppend(events, e);
        OneMoreTask(pending, k);
        OneMoreIncomplete(pending, k);
        events := events + [e];
        k := k + 1;
      }
      assert pending[..k] == pending;
      pending := [];
      NoTask(pending);
    }

    /**
     * One round: poll every pending task once. A task leaves exactly when a server reports it completed or failed.
     */
    method PollRound(scenario: string)
      requires Conserved()
      modifies this`tick, this`now, this`pending, this`events, this`polls
      ensures Conserved() && old(now) <= now && polls == old(polls) + 1
      ensures var p := Poll(env, adapters, old(pending), old(tick));
              pending == p.kept && Outcomes(events) == Outcomes(old(events)) + p.ended && tick == p.tick
      ensures old(events) <= events
      ensures forall k :: |old(events)| <= k < |events| ==>
                Final(Some(events[k].status)) && events[k].completion == scenario
    {
      hide EventBag, PendingBag, Poll, Outcomes;
      NothingPolled(env, adapters, pending, tick, events);
      var remaining: seq<PendingTask> := [];
      var k := 0;
      NoTask(pending);
      NoTask(remaining);
      while k < |pending|
        invariant k <= |pending| && pending == old(pending) && old(now) <= now && polls == old(polls)
        invariant EventBag(events) + PendingBag(remaining) == EventBag(old(events)) + PendingBag(pending[..k])
        invariant var p := Poll(env, adapters, pending[..k], old(tick));
                  remaining == p.kept && Outcomes(events) == Outcomes(old(events)) + p.ended && tick == p.tick
        invariant old(events) <= events
        invariant forall j :: |old(events)| <= j < |events| ==>
                    Final(Some(events[j].status)) && events[j].completion == scenario
      {
        var t := pending[k];
        PollOneMore(env, adapters, pending, old(tick), k);
        OneMoreTask(pending, k);
        PendingBagOfAppend(remaining, t);
        ghost var (was, left, before, done) := (EventBag(events), PendingBag(remaining), EventBag(old(events)),
            PendingBag(pending[..k]));
        MoveOne(was, left, before, done, t.id);
        if t.id.adapter !in adapters {
          remaining := remaining + [t];
        } else {
          var a := Ask();
          if a.success && Final(a.status) {
            var ended := Clock();
            var e := TaskEvent(t.id, scenario, a.status.value, ended - t.started);
            EventBagOfAppend(events, e);
            OutcomesOfAppend(events, e);
            events := events + [e];
          } else {
            remaining := remaining + [t];
          }
        }
        k := k + 1;
      }
      assert pending[..k] == pending;
      pending := remaining;
      polls := polls + 1;
    }

    /** Poll until nothing is pending or the time is over. What becomes of the tasks is what the rounds make of them. */
    method PollUntil(scenario: string, timeout: Duration) returns (rounds: nat)
      requires Conserved() && 0.0 < config.interval && pending != [] && timeout > 0.0
      modifies this`tick, this`now, this`pending, this`events, this`polls
      ensures Conserved() && old(events) <= events
      ensures rounds <= RoundLimit(timeout, config.interval) && polls == old(polls) + rounds
      ensures env.lapse(old(tick) + 1) < timeout ==> rounds >= 1
      ensures pending != [] ==> old(now) + timeout <= now
      ensures var s := AfterRounds(env, adapters, old(pending), old(tick) + 2, rounds);
              pending == s.kept && Outcomes(events) == Outcomes(old(events)) + s.ended
      ensures forall k :: |old(events)| <= k < |events| ==>
                Final(Some(events[k].status)) && events[k].completion == scenario
    {
      hide EventBag, PendingBag, Slept, RoundLimit, Outcomes, Poll, AfterRounds, Final;
      rounds := 0;
      OneMoreRound(0, config.interval);
      var start := Clock();
      var deadline := start + timeout;
      var t := Clock();
      NoRounds(env, adapters, pending, tick, events);
      while pending != [] && t < deadline
        invariant Conserved() && old(events) <= events && t <= now && polls == old(polls) + rounds
        invariant var s := AfterRounds(env, adapters, old(pending), old(tick) + 2, rounds);
                  pending == s.kept && tick == s.tick && Outcomes(events) == Outcomes(old(events)) + s.ended
        invariant pending != [] ==> start + Slept(rounds, config.interval) <= t
        invariant rounds <= RoundLimit(timeout, config.interval)
        invariant rounds == 0 ==> t == start + env.lapse(old(tick) + 1)
        invariant forall k :: |old(events)| <= k < |events| ==>
                    Final(Some(events[k].status)) && events[k].completion == scenario
        decreases RoundLimit(timeout, config.interval) - rounds
      {
        RoundsAreBounded(rounds, config.interval, timeout);
        OneMoreRound(rounds, config.interval);
        NextRound(env, adapters, old(pending), old(tick) + 2, rounds);
        PollRound(scenario);
        if pending != [] {
          Sleep(config.interval);
        }
        rounds := rounds + 1;
        t := Clock();
      }
    }

    /**
     * Poll what is pending, in time. Only the final drain, or one that has no time at all, gives up on what is left.
     * What becomes of each task is what the rounds make of it, and there is a round if anything is pending and the
     * time is not over at once.
     */
    method DrainTasks(scenario: string, timeout: Duration) returns (rounds: nat)
      requires Conserved() && 0.0 < config.interval
      modifies this`tick, this`now, this`pending, this`events, this`polls
      ensures Conserved() && old(events) <= events
      ensures rounds <= RoundLimit(timeout, config.interval) && polls == old(polls) + rounds
      ensures old(pending) == [] || timeout == 0.0 ==>
                rounds == 0 && pending == [] && Outcomes(events) == Outcomes(old(events)) + Incomplete(old(pending))
      ensures old(pending) != [] && timeout > 0.0 ==>
                var s := AfterRounds(env, adapters, old(pending), old(tick) + 2, rounds);
                && (env.lapse(old(tick) + 1) < timeout ==> rounds >= 1)
                && (s.kept != [] ==> old(now) + timeout <= now)
                && (if scenario == "final_drain"
                    then pending == [] && Outcomes(events) == Outcomes(old(events)) + s.ended + Incomplete(s.kept)
                    else pending == s.kept && Outcomes(events) == Outcomes(old(events)) + s.ended)
      ensures forall k :: |old(events)| <= k < |events| ==>
                && events[k].completion == scenario
                && (|| Final(Some(events[k].status))
                    || (events[k].status == "incomplete" && (scenario == "final_drain" || timeout == 0.0)))
      ensures scenario == "final_drain" || timeout == 0.0 ==> pending == [] && EventBag(events) == registered
      ensures Prompt(env) && AllKnown(adapters, old(pending)) && env.lapse(old(tick) + 1) < timeout ==>
                pending == [] && forall k :: |old(events)| <= k < |events| ==> Final(Some(events[k].status))
    {
      hide EventBag, PendingBag, RoundLimit, Outcomes, Incomplete, AfterRounds, Final, Prompt;
      rounds := 0;
      if pending == [] || timeout <= 0.0 {
        FinalizeIncompleteTasks(scenario);
        return;
      }
      rounds := PollUntil(scenario, timeout);
      if rounds >= 1 && Prompt(env) && AllKnown(adapters, old(pending)) {
        PromptRounds(env, adapters, old(pending), old(tick) + 2, rounds);
      }
      if scenario == "final_drain" {
        FinalizeIncompleteTasks(scenario);
      }
    }

    /** A worker's request completes. */
    method Complete(r: Request)
      requires Conserved()
      modifies this`tick, this`now, this`requests, this`pending, this`registered
      ensures Conserved() && requests == old(requests) + [r] && old(pending) <= pending
      ensures var a := env.answer(old(tick));
              var id := Identity(r.adapter, a.taskId, TaskType(r.operation), r.scenario, r.subject);
              registered == old(registered)
                            + (if r.registers && a.success && a.taskId != "" then multiset{id} else multiset{})
      ensures r.adapter in adapters && AllKnown(adapters, old(pending)) ==> AllKnown(adapters, pending)
    {
      hide EventBag, PendingBag;
      var a := Ask();
      requests := requests + [r];
      if r.registers {
        RegisterTaskIfPresent(r, a);
      }
    }

    /** A request that stands alone. */
    method Make(r: Request)
      requires Conserved() && AllDone()
      modifies this`tick, this`now, this`requests, this`pending, this`registered, this`asked
      ensures Conserved() && AllDone() && old(pending) <= pending && old(requests) <= requests
      ensures asked == old(asked) + multiset{r}
      ensures r.adapter in adapters && AllKnown(adapters, old(pending)) ==> AllKnown(adapters, pending)
    {
      hide EventBag, PendingBag;
      ghost var was := requests;
      asked := asked + multiset{r};
      Complete(r);
      BagOfAppend(was, r);
    }

    /** A worker's turn: it completes the request it waited for and goes on to another, or returns. */
    method Turn(workers: seq<Worker>, k: nat, w: Worker, isTimed: bool) returns (after: seq<Worker>)
      requires Conserved() && Balanced(workers) && k < |workers|
      modifies this`tick, this`now, this`requests, this`pending, this`registered, this`asked, this`timed
      ensures Conserved() && Balanced(after) && after == workers[k := w]
      ensures old(pending) <= pending && old(requests) <= requests
      ensures asked == (if isTimed then old(asked) else old(asked) + Load(w))
      ensures timed == (if isTimed then old(timed) + Load(w) else old(timed))
      ensures AllKnown(adapters, old(pending)) && KnownWorkers(adapters, workers) ==> AllKnown(adapters, pending)
    {
      hide EventBag, PendingBag, InFlight, Load;
      after := workers[k := w];
      InFlightUpdate(workers, k, w);
      if isTimed {
        Shift(multiset(requests), InFlight(workers), InFlight(after), Load(workers[k]), Load(w), timed, asked);
        timed := timed + Load(w);
      } else {
        Shift(multiset(requests), InFlight(workers), InFlight(after), Load(workers[k]), Load(w), asked, timed);
        asked := asked + Load(w);
      }
      ghost var was := requests;
      if workers[k].Busy? {
        Complete(workers[k].request);
      }
      Completes(was, requests, workers[k]);
    }

    /**
     * A pool of workers empties a queue. A worker, when it has its turn, completes the request it waited for
     * and takes the next one; it returns when the queue is empty. Whoever's turn it is, every request of the
     * queue is made exactly once.
     */
    method RunQueue(queued: seq<Request>, size: nat)
      requires Conserved() && AllDone() && 1 <= size
      modifies this`tick, this`now, this`requests, this`pending, this`registered, this`asked, this`timed
      ensures Conserved() && AllDone() && old(pending) <= pending && old(requests) <= requests
      ensures asked == old(asked) + multiset(queued) && timed == old(timed)
      ensures AllKnown(adapters, old(pending)) && KnownRequests(adapters, queued) ==> AllKnown(adapters, pending)
    {
      hide EventBag, PendingBag, InFlight, Load, Conserved, Balanced, AllKnown, KnownRequests, KnownWorkers;
      var queue := queued;
      var workers := seq(size, _ => Idle);
      Begins(workers);
      NobodyKnown(adapters, workers);
      while Live(workers) != []
        invariant Conserved() && Balanced(workers) && old(pending) <= pending && old(requests) <= requests
        invariant asked + multiset(queue) == old(asked) + multiset(queued) && timed == old(timed)
        invariant |workers| == size
        invariant forall k :: 0 <= k < |workers| && workers[k].Returned? ==> queue == []
        invariant AllKnown(adapters, old(pending)) && KnownRequests(adapters, queued) ==>
                    AllKnown(adapters, pending) && KnownRequests(adapters, queue) && KnownWorkers(adapters, workers)
        decreases |queue| + |Live(workers)|
      {
        var k := Live(workers)[env.turn(tick) % |Live(workers)|];
        var w := if queue == [] then Returned else Busy(queue[0]);
        var rest := if queue == [] then [] else queue[1..];
        LiveUpdate(workers, k, w);
        TakesOne(queue, rest, w);
        KnownTaken(adapters, queue, rest, workers, k, w);
        Regroup(asked, Load(w), multiset(rest));
        workers := Turn(workers, k, w, false);
        queue := rest;
      }
      assert workers[0].Returned? && multiset(queue) == multiset{};
      Ends(workers);
    }

    /**
     * The workers of a timed scenario choose requests until the stop event is set, after which each of them still
     * completes the one it waits for. A worker may break before it makes a request. Every request that was begun
     * completes exactly once.
     */
    method RunTimed(t: Timed)
      requires Conserved() && AllDone()
      modifies this`tick, this`now, this`requests, this`pending, this`registered, this`asked, this`timed
      ensures Conserved() && AllDone() && old(pending) <= pending && old(requests) <= requests
      ensures asked == old(asked) && old(timed) <= timed && |timed| <= |old(timed)| + t.turns
      ensures (forall n :: !env.breaks(n)) ==> |timed| == |old(timed)| + Begun(t)
      ensures (forall n :: env.breaks(n)) ==> timed == old(timed)
      ensures AllKnown(adapters, old(pending)) && (forall t :: env.choice(t).adapter in adapters) ==>
                AllKnown(adapters, pending)
    {
      hide EventBag, PendingBag, InFlight, Load, Conserved, Balanced, AllKnown, KnownWorkers;
      var left: nat := t.turns;
      var workers := seq(t.size, _ => Idle);
      AllLive(workers);
      Begins(workers);
      NobodyKnown(adapters, workers);
      while Live(workers) != []
        invariant Conserved() && Balanced(workers) && old(pending) <= pending && old(requests) <= requests
        invariant asked == old(asked) && old(timed) <= timed && |timed| + left <= |old(timed)| + t.turns
        invariant (forall n :: !env.breaks(n)) ==>
                    |timed| + left == |old(timed)| + t.turns && (left > 0 ==> |Live(workers)| == t.size)
        invariant |workers| == t.size && (t.size == 0 ==> left == t.turns)
        invariant (forall n :: env.breaks(n)) ==> timed == old(timed)
        invariant AllKnown(adapters, old(pending)) && (forall t :: env.choice(t).adapter in adapters) ==>
                    AllKnown(adapters, pending) && KnownWorkers(adapters, workers)
        decreases left + |Live(workers)|
      {
        var k := Live(workers)[env.turn(tick) % |Live(workers)|];
        var w := if left == 0 || env.breaks(tick) then Returned else Busy(env.choice(tick));
        LiveUpdate(workers, k, w);
        LoadSize(w);
        KnownUpdate(adapters, workers, k, w);
        workers := Turn(workers, k, w, true);
        left := if left == 0 then 0 else left - 1;
      }
      Ends(workers);
    }

    /** At the beginning and at the end of a pool nothing is in flight. */
    lemma Begins(workers: seq<Worker>)
      requires AllDone() && forall k :: 0 <= k < |workers| ==> !workers[k].Busy?
      ensures Balanced(workers)
    {
      NobodyBusy(workers);
    }

    lemma Ends(workers: seq<Worker>)
      requires Balanced(workers) && Live(workers) == []
      ensures AllDone()
    {
      NobodyBusy(workers);
    }

    /** The drain after a phase. */
    method DrainPhase(adapter: string, phase: string)
      requires Ready()
      modifies this`tick, this`now, this`pending, this`events, this`polls
      ensures Ready() && old(events) <= events
      ensures polls <= old(polls) + RoundLimit(config.timeout, config.interval)
      ensures config.timeout == 0.0 ==> pending == []
      ensures Swift(env, config.timeout) && old(Smooth()) ==> Smooth() && pending == []
    {
      hide EventBag, PendingBag, Outcomes, Incomplete, AfterRounds, Prompt;
      NotFinal(adapter, phase);
      var rounds := DrainTasks(adapter + ":" + phase, config.timeout);
    }

    /** Warm-up, upload of resources, and its drain. */
    method ResourcePhases(load: Workload)
      requires Ready()
      modifies this`tick, this`now, this`requests, this`pending, this`events, this`registered, this`asked, this`timed,
        this`polls
      ensures Ready() && old(events) <= events && polls <= old(polls) + RoundLimit(config.timeout, config.interval)
      ensures asked == old(asked) + multiset(load.resources) + multiset{WaitProcessed(load.adapter)}
      ensures (forall n :: !env.breaks(n)) ==> |timed| == |old(timed)| + Begun(load.warmup)
      ensures Swift(env, config.timeout) && KnownWork(env, adapters, load) && old(Smooth()) ==>
                Smooth() && pending == []
    {
      hide EventBag, PendingBag, Final, RoundLimit, Conserved;
      RunTimed(load.warmup);
      RunQueue(load.resources, config.resourceWorkers);
      Make(WaitProcessed(load.adapter));
      DrainPhase(load.adapter, "resource_drain");
    }

    /** Messages, retrieval, commits, and their drain. */
    method SessionPhases(load: Workload)
      requires Ready()
      modifies this`tick, this`now, this`requests, this`pending, this`events, this`registered, this`asked, this`timed,
        this`polls
      ensures Ready() && old(events) <= events && polls <= old(polls) + RoundLimit(config.timeout, config.interval)
      ensures asked == old(asked) + multiset(load.messages) + multiset(load.commits)
      ensures (forall n :: !env.breaks(n)) ==> |timed| == |old(timed)| + Begun(load.retrieval)
      ensures Swift(env, config.timeout) && KnownWork(env, adapters, load) && old(Smooth()) ==>
                Smooth() && pending == []
    {
      hide EventBag, PendingBag, Final, RoundLimit, Conserved;
      RunQueue(load.messages, config.sessionWorkers);
      RunTimed(load.retrieval);
      RunQueue(load.commits, config.commitWorkers);
      DrainPhase(load.adapter, "commit_drain");
    }

    /** The phases of one adapter, each followed to its end before the next begins. */
    method RunAdapter(load: Workload)
      requires Ready()
      modifies this`tick, this`now, this`requests, this`pending, this`events, this`registered, this`asked, this`timed,
        this`polls
      ensures Ready() && old(events) <= events
      ensures polls <= old(polls) + 3 * RoundLimit(config.timeout, config.interval)
      ensures asked == old(asked) + Asked(load)
      ensures (forall n :: !env.breaks(n)) ==>
                |timed| == |old(timed)| + Begun(load.warmup) + Begun(load.retrieval) + Begun(load.mixed)
      ensures config.timeout == 0.0 ==> pending == []
      ensures Swift(env, config.timeout) && KnownWork(env, adapters, load) && old(Smooth()) ==>
                Smooth() && pending == []
    {
      hide EventBag, PendingBag, Final, RoundLimit, Asked, Conserved;
      ResourcePhases(load);
      SessionPhases(load);
      RunTimed(load.mixed);
      DrainPhase(load.adapter, "mixed_drain");
      AskedIs(load, old(asked), asked);
    }

    /** The drain at the end of the run, if anything is pending. */
    method FinalDrain()
      requires Ready()
      modifies this`tick, this`now, this`pending, this`events, this`polls
      ensures pending == [] && EventBag(events) == registered && old(events) <= events
      ensures polls <= old(polls) + RoundLimit(config.timeout, config.interval)
      ensures forall k :: 0 <= k < |events| ==> Settled(config, events[k])
      ensures Swift(env, config.timeout) && old(Smooth()) ==> Smooth()
    {
      hide EventBag, PendingBag, Final, RoundLimit, Outcomes, Incomplete, AfterRounds, Prompt;
      if pending != [] {
        var rounds := DrainTasks("final_drain", config.timeout);
      } else {
        NothingPending(pending, registered, events);
      }
    }

    /** All adapters, one after the other. */
    method RunAdapters(loads: seq<Workload>)
      requires Ready() && asked == multiset{}
      modifies this`tick, this`now, this`requests, this`pending, this`events, this`registered, this`asked, this`timed,
        this`polls
      ensures Ready() && old(events) <= events
      ensures asked == AllAsked(loads)
      ensures polls <= old(polls) + 3 * |loads| * RoundLimit(config.timeout, config.interval)
      ensures Swift(env, config.timeout) && old(Smooth()) && AllKnownWork(env, adapters, loads) ==> Smooth()
    {
      hide EventBag, PendingBag, Final, RoundLimit, Asked, AllAsked;
      ghost var bound := RoundLimit(config.timeout, config.interval);
      var n := 0;
      NothingAsked(loads);
      while n < |loads|
        invariant n <= |loads| && Ready() && old(events) <= events
        invariant asked == AllAsked(loads[..n])
        invariant polls <= old(polls) + 3 * n * bound
        invariant Swift(env, config.timeout) && old(Smooth()) && AllKnownWork(env, adapters, loads) ==> Smooth()
      {
        RunAdapter(loads[n]);
        MoreAsked(loads, n);
        MoreRounds(n, bound);
        n := n + 1;
      }
      assert loads[..n] == loads;
    }

    /**
     * A whole run that hits no fatal error. In the end nothing is pending, every task ever registered has exactly
     * one event, every request of the workloads was made exactly once, every request that a timed worker began has
     * completed exactly once, and the number of poll rounds is bounded.
     * A task is given up as incomplete only by a final drain that had its full time, or if drains have no time.
     */
    method Run(loads: seq<Workload>)
      requires Ready() && asked == multiset{}
      modifies this
      ensures pending == [] && EventBag(events) == registered
      ensures asked == AllAsked(loads) && multiset(requests) == asked + timed
      ensures polls <= old(polls) + (3 * |loads| + 1) * RoundLimit(config.timeout, config.interval)
      ensures old(events) <= events
      ensures forall k :: 0 <= k < |events| ==>
                || events[k].status == "completed" || events[k].status == "failed"
                || (events[k].status == "incomplete"
                    && (config.timeout == 0.0 || events[k].completion == "final_drain"))
      ensures adapters == set k | 0 <= k < |loads| :: loads[k].adapter
      ensures Swift(env, config.timeout) && AllKnownWork(env, adapters, loads)
              && old(pending) == [] && old(events) == [] ==>
                forall k :: 0 <= k < |events| ==> events[k].status == "completed" || events[k].status == "failed"
    {
      hide EventBag, PendingBag, AllAsked, RoundLimit, Swift, AllKnownWork;
      adapters := set k | 0 <= k < |loads| :: loads[k].adapter;
      RunAdapters(loads);
      FinalDrain();
      LastRounds(|loads|, RoundLimit(config.timeout, config.interval));
    }
  }

  /** The drain of a phase is never taken for the final one. */
  lemma NotFinal(adapter: string, phase: string)
    ensures adapter + ":" + phase != "final_drain"
  {
    assert (adapter + ":" + phase)[|adapter|] == ':';
  }

  ghost function AllAsked(loads: seq<Workload>): multiset<Request> {
    if loads == [] then multiset{} else AllAsked(loads[..|loads| - 1]) + Asked(loads[|loads| - 1])
  }

  lemma NothingAsked(loads: seq<Workload>)
    ensures AllAsked(loads[..0]) == multiset{}
  {
  }

  lemma MoreAsked(loads: seq<Workload>, n: nat)
    requires n < |loads|
    ensures AllAsked(loads[..n + 1]) == AllAsked(loads[..n]) + Asked(loads[n])
  {
    assert loads[..n + 1][..n] == loads[..n];
  }

  lemma MoreRounds(n: nat, bound: int)
    ensures 3 * (n + 1) * bound == 3 * n * bound + 3 * bound
  {
  }

  lemma LastRounds(n: nat, bound: int)
    ensures (3 * n + 1) * bound == 3 * n * bound + bound
  {
  }

  lemma NothingPending(pending: seq<PendingTask>, registered: multiset<Identity>, events: seq<TaskEvent>)
    requires pending == [] && registered == EventBag(events) + PendingBag(pending)
    ensures EventBag(events) == registered
  {
  }

  /** Whatever the command line says, a runner with the clamped values is ready. */
  method Started(env: Environment, timeout: real, interval: real, resources: int, sessions: int, commits: int)
    returns (r: Runner)
    ensures fresh(r) && r.Ready() && r.asked == multiset{} && r.requests == [] && r.pending == []
            && r.registered == multiset{}
    ensures r.config.timeout >= 0.0 && r.config.interval >= 0.1 && r.env == env
    ensures (timeout >= 0.0 ==> r.config.timeout == timeout) && (timeout < 0.0 ==> r.config.timeout == 0.0)
    ensures (interval >= 0.1 ==> r.config.interval == interval) && (interval < 0.1 ==> r.config.interval == 0.1)
    ensures r.config.resourceWorkers >= 1 && (resources >= 1 ==> r.config.resourceWorkers == resources)
    ensures r.config.sessionWorkers >= 1 && (sessions >= 1 ==> r.config.sessionWorkers == sessions)
    ensures r.config.commitWorkers >= 1 && (commits >= 1 ==> r.config.commitWorkers == commits)
  {
    r := new Runner(env, Clamped(timeout, interval, resources, sessions, commits));
  }

  lemma OneMoreIncomplete(tasks: seq<PendingTask>, k: nat)
    requires k < |tasks|
    ensures Incomplete(tasks[..k + 1]) == Incomplete(tasks[..k]) + [(tasks[k].id, "incomplete")]
  {
  }

  lemma NoRounds(env: Environment, adapters: set<string>, tasks: seq<PendingTask>, tick: nat, events: seq<TaskEvent>)
    ensures AfterRounds(env, adapters, tasks, tick, 0) == Polled(tasks, [], tick)
    ensures Outcomes(events) + [] == Outcomes(events)
  {
  }

  lemma NextRound(env: Environment, adapters: set<string>, tasks: seq<PendingTask>, tick: nat, n: nat)
    ensures var p, r := AfterRounds(env, adapters, tasks, tick, n), AfterRounds(env, adapters, tasks, tick, n + 1);
            var q := Poll(env, adapters, p.kept, p.tick);
            r == Polled(q.kept, p.ended + q.ended, q.tick + if q.kept == [] then 1 else 2)
  {
  }

  lemma NothingPolled(env: Environment, adapters: set<string>, tasks: seq<PendingTask>, tick: nat,
                      events: seq<TaskEvent>)
    ensures Poll(env, adapters, tasks[..0], tick) == Polled([], [], tick)
  {
  }

  lemma OutcomesOfAppend(events: seq<TaskEvent>, e: TaskEvent)
    ensures Outcomes(events + [e]) == Outcomes(events) + [(e.id, e.status)]
  {
  }

  lemma NobodyKnown(adapters: set<string>, workers: seq<Worker>)
    requires forall k :: 0 <= k < |workers| ==> !workers[k].Busy?
    ensures KnownWorkers(adapters, workers)
  {
  }

  lemma KnownUpdate(adapters: set<string>, workers: seq<Worker>, k: nat, w: Worker)
    requires k < |workers|
    ensures KnownWorkers(adapters, workers) && (w.Busy? ==> w.request.adapter in adapters) ==>
              KnownWorkers(adapters, workers[k := w])
  {
  }

  lemma KnownTaken(adapters: set<string>, queue: seq<Request>, rest: seq<Request>, workers: seq<Worker>, k: nat,
                   w: Worker)
    requires k < |workers|
    requires if queue == [] then rest == [] && w == Returned else rest == queue[1..] && w == Busy(queue[0])
    ensures KnownRequests(adapters, queue) && KnownWorkers(adapters, workers) ==>
              KnownRequests(adapters, rest) && KnownWorkers(adapters, workers[k := w])
  {
  }

  lemma BagOfAppend<T>(s: seq<T>, t: T)
    ensures multiset(s + [t]) == multiset(s) + multiset{t}
  {
  }

  lemma LoadSize(w: Worker)
    ensures |Load(w)| == if w.Busy? then 1 else 0
  {
  }

  /** A worker's turn completes the request it waited for. */
  lemma Completes(was: seq<Request>, requests: seq<Request>, worker: Worker)
    requires requests == was + (if worker.Busy? then [worker.request] else [])
    ensures multiset(requests) == multiset(was) + Load(worker)
  {
  }

  lemma TakesOne(queue: seq<Request>, rest: seq<Request>, w: Worker)
    requires if queue == [] then rest == [] && w == Returned else rest == queue[1..] && w == Busy(queue[0])
    ensures multiset(queue) == Load(w) + multiset(rest)
  {
    if queue != [] {
      assert queue == [queue[0]] + rest;
    }
  }

  /** What is begun and what is completed in one turn keep the balance. */
  lemma Shift<T>(r: multiset<T>, f: multiset<T>, f': multiset<T>, x: multiset<T>, y: multiset<T>, a: multiset<T>,
                 b: multiset<T>)
    requires f' + x == f + y && (r + f == a + b || r + f == b + a)
    ensures (r + x) + f' == (a + y) + b && (r + x) + f' == b + (a + y)
  {
    assert (r + x) + f' == r + (f' + x);
    assert r + (f + y) == (r + f) + y;
    assert (a + b) + y == (a + y) + b;
  }

  lemma Regroup<T>(a: multiset<T>, b: multiset<T>, c: multiset<T>)
    ensures (a + b) + c == a + (b + c)
  {
  }

  lemma AddLast<T>(a: multiset<T>, b: multiset<T>, t: T)
    ensures (a + b) + multiset{t} == a + (b + multiset{t})
  {
  }

  lemma MoveOne<T>(a: multiset<T>, x: multiset<T>, b: multiset<T>, y: multiset<T>, t: T)
    requires a + x == b + y
    ensures (a + multiset{t}) + x == b + (y + multiset{t})
    ensures a + (x + multiset{t}) == b + (y + multiset{t})
  {
    assert a + (x + multiset{t}) == (a + x) + multiset{t};
    assert (a + multiset{t}) + x == (a + x) + multiset{t};
  }

  lemma NoTask(tasks: seq<PendingTask>)
    ensures PendingBag(tasks[..0]) == multiset{}
    ensures tasks == [] ==> PendingBag(tasks) == multiset{}
  {
  }

  lemma OneMoreTask(tasks: seq<PendingTask>, k: nat)
    requires k < |tasks|
    ensures PendingBag(tasks[..k + 1]) == PendingBag(tasks[..k]) + multiset{tasks[k].id}
  {
    assert tasks[..k + 1] == tasks[..k] + [tasks[k]];
    PendingBagOfAppend(tasks[..k], tasks[k]);
  }
}
