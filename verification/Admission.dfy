/** The bounded queue in front of the conversion slots: `App::acquire` and `App::load` as a state
    machine whose steps are the atomic operations of all concurrent requests. */
module Admission {

  type Task = nat

  /** Where a request is.
      Arrived: about to try for a permit.         Missed: found none.
      Over: has counted itself and found the queue full, about to uncount itself.
      Admitted: has counted itself and may wait.  Queued: waits in the semaphore.
      Granted: was given a permit, not yet resumed.
      Cancelled: dropped while waiting, about to uncount itself.
      Holding: runs its job.                      Served, Refused, Dropped: gone. */
  datatype Stage =
    Arrived | Missed | Over | Admitted | Queued | Granted | Cancelled | Holding | Served | Refused | Dropped

  const HELD: set<Stage> := {Granted, Holding}
  const WAITING: set<Stage> := {Admitted, Queued, Granted, Cancelled}
  const COUNTED: set<Stage> := {Over, Admitted, Queued, Granted, Cancelled}
  const GONE: set<Stage> := {Served, Refused, Dropped}

  datatype Config = Config(concurrency: nat, queueLimit: nat)

  /** `permits` are the free ones of the semaphore, `queue` its waiters in order of arrival. The
      counter is an integer here, so that an underflow would be seen. */
  datatype State = State(permits: int, waiting: int, queue: seq<Task>, stage: map<Task, Stage>)

  datatype Event =
    | Arrive(task: Task)
    | TryAcquire(task: Task)   // try_acquire_owned
    | Count(task: Task)        // fetch_add and the comparison with the limit
    | Reject(task: Task)       // fetch_sub of a rejected request
    | Await(task: Task)        // first poll of acquire_owned
    | Resume(task: Task)       // acquire_owned returns, the guard uncounts the request
    | Cancel(task: Task)       // the request is dropped while it waits
    | Leave(task: Task)        // the guard of a cancelled request uncounts it
    | Finish(task: Task)       // the permit is dropped

  function Start(cfg: Config): State {
    State(cfg.concurrency, 0, [], map[])
  }

  predicate At(s: State, t: Task, stage: Stage) {
    t in s.stage && s.stage[t] == stage
  }

  predicate Enabled(s: State, e: Event) {
    match e
    case Arrive(t) => t !in s.stage
    case TryAcquire(t) => At(s, t, Arrived)
    case Count(t) => At(s, t, Missed)
    case Reject(t) => At(s, t, Over)
    case Await(t) => At(s, t, Admitted)
    case Resume(t) => At(s, t, Granted)
    case Cancel(t) => At(s, t, Queued) || At(s, t, Granted)
    case Leave(t) => At(s, t, Cancelled)
    case Finish(t) => At(s, t, Holding)
  }

  function Moved(s: State, t: Task, stage: Stage): State {
    s.(stage := s.stage[t := stage])
  }

  /** A permit that comes back goes to the first waiter, if there is one. */
  function Released(s: State): State {
    if s.queue == [] then s.(permits := s.permits + 1)
    else Moved(s.(queue := s.queue[1..]), s.queue[0], Granted)
  }

  function Without(q: seq<Task>, t: Task): seq<Task> {
    if q == [] then [] else if q[0] == t then q[1..] else [q[0]] + Without(q[1..], t)
  }

  function Next(cfg: Config, s: State, e: Event): State
    requires Enabled(s, e)
  {
    match e
    case Arrive(t) => Moved(s, t, Arrived)
    case TryAcquire(t) =>
      if s.permits > 0 then Moved(s.(permits := s.permits - 1), t, Holding) else Moved(s, t, Missed)
    case Count(t) =>
      Moved(s.(waiting := s.waiting + 1), t, if s.waiting >= cfg.queueLimit then Over else Admitted)
    case Reject(t) => Moved(s.(waiting := s.waiting - 1), t, Refused)
    case Await(t) =>
      if s.permits > 0 then Moved(s.(permits := s.permits - 1), t, Granted)
      else Moved(s.(queue := s.queue + [t]), t, Queued)
    case Resume(t) => Moved(s.(waiting := s.waiting - 1), t, Holding)
    case Cancel(t) =>
      if s.stage[t] == Queued then Moved(s.(queue := Without(s.queue, t)), t, Cancelled)
      else Released(Moved(s, t, Cancelled))
    case Leave(t) => Moved(s.(waiting := s.waiting - 1), t, Dropped)
    case Finish(t) => Released(Moved(s, t, Served))
  }

  /** A run: any interleaving of the steps of any number of requests. */
  ghost predicate Run(cfg: Config, states: seq<State>, events: seq<Event>) {
    && |states| == |events| + 1
    && states[0] == Start(cfg)
    && forall i | 0 <= i < |events| :: Enabled(states[i], events[i]) && states[i + 1] == Next(cfg, states[i], events[i])
  }

  // ----- the invariant -----

  function Members(stage: map<Task, Stage>, kinds: set<Stage>): set<Task> {
    set t | t in stage && stage[t] in kinds
  }

  ghost predicate Distinct(q: seq<Task>) {
    forall a, b | 0 <= a < b < |q| :: q[a] != q[b]
  }

  ghost predicate Invariant(cfg: Config, s: State) {
    && 0 <= s.permits
    && s.permits + |Members(s.stage, HELD)| == cfg.concurrency
    && s.waiting == |Members(s.stage, COUNTED)|
    && |Members(s.stage, WAITING)| <= cfg.queueLimit
    && Distinct(s.queue)
    && (forall t: Task :: t in s.queue <==> At(s, t, Queued))
    && (s.permits > 0 ==> s.queue == [])
  }

  function One(b: bool): nat {
    if b then 1 else 0
  }

  /** How moving one task changes the size of a group. */
  lemma CountMoved(stage: map<Task, Stage>, t: Task, to: Stage, kinds: set<Stage>)
    ensures |Members(stage[t := to], kinds)| ==
            |Members(stage, kinds)| - One(t in stage && stage[t] in kinds) + One(to in kinds)
  {
    var others := Members(stage, kinds) - {t};
    assert Members(stage, kinds) == if t in stage && stage[t] in kinds then others + {t} else others;
    assert Members(stage[t := to], kinds) == if to in kinds then others + {t} else others;
  }

  lemma AllMoved(stage: map<Task, Stage>, t: Task, to: Stage)
    ensures |Members(stage[t := to], HELD)| ==
            |Members(stage, HELD)| - One(t in stage && stage[t] in HELD) + One(to in HELD)
    ensures |Members(stage[t := to], COUNTED)| ==
            |Members(stage, COUNTED)| - One(t in stage && stage[t] in COUNTED) + One(to in COUNTED)
    ensures |Members(stage[t := to], WAITING)| ==
            |Members(stage, WAITING)| - One(t in stage && stage[t] in WAITING) + One(to in WAITING)
  {
    CountMoved(stage, t, to, HELD);
    CountMoved(stage, t, to, COUNTED);
    CountMoved(stage, t, to, WAITING);
  }

  lemma TailHas(q: seq<Task>, u: Task)
    requires Distinct(q) && q != []
    ensures Distinct(q[1..]) && (u in q[1..] <==> u in q && u != q[0])
  {
    if u in q && u != q[0] {
      var i :| 0 <= i < |q| && q[i] == u;
      assert q[1..][i - 1] == u;
    }
    if u in q[1..] {
      var i :| 0 <= i < |q| - 1 && q[1..][i] == u;
      assert q[0] != q[i + 1];
    }
  }

  lemma {:induction false} WithoutHas(q: seq<Task>, t: Task, u: Task)
    requires Distinct(q)
    ensures u in Without(q, t) <==> u in q && u != t
  {
    if q != [] {
      TailHas(q, u);
      if q[0] != t {
        WithoutHas(q[1..], t, u);
      }
    }
  }

  lemma {:induction false} WithoutDistinct(q: seq<Task>, t: Task)
    requires Distinct(q)
    ensures Distinct(Without(q, t))
  {
    if q != [] && q[0] != t {
      TailHas(q, q[0]);
      WithoutDistinct(q[1..], t);
      WithoutHas(q[1..], t, q[0]);
    }
  }

  lemma WaitingCounted(stage: map<Task, Stage>)
    ensures |Members(stage, COUNTED)| == |Members(stage, WAITING)| + |Members(stage, {Over})|
  {
    assert Members(stage, COUNTED) == Members(stage, WAITING) + Members(stage, {Over});
    assert Members(stage, WAITING) !! Members(stage, {Over});
  }

  /** A returned permit: the invariant holds again after it held but for one missing permit. */
  lemma ReleasedKeeps(cfg: Config, s: State)
    requires 0 <= s.permits && s.permits + |Members(s.stage, HELD)| + 1 == cfg.concurrency
    requires Invariant(cfg.(concurrency := s.permits + |Members(s.stage, HELD)|), s)
    ensures Invariant(cfg, Released(s))
  {
    if s.queue != [] {
      assert At(s, s.queue[0], Queued);
      AllMoved(s.stage, s.queue[0], Granted);
      forall u: Task
        ensures u in s.queue[1..] <==> u in s.queue && u != s.queue[0]
      {
        TailHas(s.queue, u);
      }
      TailHas(s.queue, 0);
    }
  }

  predicate Is(s: State, t: Task, kinds: set<Stage>) {
    t in s.stage && s.stage[t] in kinds
  }

  /** A task moves between stages outside the queue and the counters follow it. */
  lemma MovedKeeps(cfg: Config, s: State, permits: int, waiting: int, t: Task, to: Stage)
    requires Invariant(cfg, s) && !At(s, t, Queued) && to != Queued
    requires permits == s.permits || s.permits > 0
    requires permits == s.permits + One(Is(s, t, HELD)) - One(to in HELD)
    requires waiting == s.waiting - One(Is(s, t, COUNTED)) + One(to in COUNTED)
    requires to in WAITING && !Is(s, t, WAITING) ==> |Members(s.stage, WAITING)| < cfg.queueLimit
    ensures Invariant(cfg, State(permits, waiting, s.queue, s.stage[t := to]))
  {
    hide Members, HELD, COUNTED, WAITING;
    AllMoved(s.stage, t, to);
  }

  lemma CountKeeps(cfg: Config, s: State, t: Task)
    requires Invariant(cfg, s) && At(s, t, Missed)
    ensures Invariant(cfg, Next(cfg, s, Count(t)))
  {
    hide Members;
    WaitingCounted(s.stage);
    MovedKeeps(cfg, s, s.permits, s.waiting + 1, t, if s.waiting >= cfg.queueLimit then Over else Admitted);
  }

  lemma AwaitKeeps(cfg: Config, s: State, t: Task)
    requires Invariant(cfg, s) && At(s, t, Admitted) && s.permits <= 0
    ensures Invariant(cfg, Next(cfg, s, Await(t)))
  {
    hide Members;
    AllMoved(s.stage, t, Queued);
    assert t !in s.queue;
    assert forall u: Task :: u in s.queue + [t] <==> u in s.queue || u == t;
  }

  lemma CancelKeeps(cfg: Config, s: State, t: Task)
    requires Invariant(cfg, s) && At(s, t, Queued)
    ensures Invariant(cfg, Next(cfg, s, Cancel(t)))
  {
    hide Members;
    AllMoved(s.stage, t, Cancelled);
    WithoutDistinct(s.queue, t);
    forall u: Task {
      WithoutHas(s.queue, t, u);
    }
  }

  lemma GiveBackKeeps(cfg: Config, s: State, t: Task, to: Stage)
    requires Invariant(cfg, s) && ((At(s, t, Granted) && to == Cancelled) || (At(s, t, Holding) && to == Served))
    ensures Invariant(cfg, Released(Moved(s, t, to)))
  {
    hide Members;
    AllMoved(s.stage, t, to);
    ReleasedKeeps(cfg, Moved(s, t, to));
  }

  lemma StepKeeps(cfg: Config, s: State, e: Event)
    requires Invariant(cfg, s) && Enabled(s, e)
    ensures Invariant(cfg, Next(cfg, s, e))
  {
    hide Members, Released, Without, Invariant;
    match e
    case Arrive(t) => MovedKeeps(cfg, s, s.permits, s.waiting, t, Arrived);
    case TryAcquire(t) =>
      if s.permits > 0 {
        MovedKeeps(cfg, s, s.permits - 1, s.waiting, t, Holding);
      } else {
        MovedKeeps(cfg, s, s.permits, s.waiting, t, Missed);
      }
    case Count(t) => CountKeeps(cfg, s, t);
    case Reject(t) => MovedKeeps(cfg, s, s.permits, s.waiting - 1, t, Refused);
    case Await(t) =>
      if s.permits > 0 {
        MovedKeeps(cfg, s, s.permits - 1, s.waiting, t, Granted);
      } else {
        AwaitKeeps(cfg, s, t);
      }
    case Resume(t) => MovedKeeps(cfg, s, s.permits, s.waiting - 1, t, Holding);
    case Cancel(t) =>
      if s.stage[t] == Queued {
        CancelKeeps(cfg, s, t);
      } else {
        GiveBackKeeps(cfg, s, t, Cancelled);
      }
    case Leave(t) => MovedKeeps(cfg, s, s.permits, s.waiting - 1, t, Dropped);
    case Finish(t) => GiveBackKeeps(cfg, s, t, Served);
  }

  /** The invariant holds in every state of every run. */
  lemma {:induction false} AlwaysInvariant(cfg: Config, states: seq<State>, events: seq<Event>, i: nat)
    requires Run(cfg, states, events) && i < |states|
    ensures Invariant(cfg, states[i])
  {
    if i > 0 {
      AlwaysInvariant(cfg, states, events, i - 1);
      StepKeeps(cfg, states[i - 1], events[i - 1]);
    }
  }

  // ----- what the invariant gives -----

  /** `load`: the pair (active, queued). */
  function Load(cfg: Config, s: State): (int, int) {
    (cfg.concurrency - s.permits, s.waiting)
  }

  /** The reported load never underflows: it is the number of permits given out and the number of
      requests between their increment and their decrement. */
  lemma LoadIsExact(cfg: Config, states: seq<State>, events: seq<Event>, i: nat)
    requires Run(cfg, states, events) && i < |states|
    ensures Load(cfg, states[i]) == (|Members(states[i].stage, HELD)|, |Members(states[i].stage, COUNTED)|)
    ensures 0 <= Load(cfg, states[i]).0 <= cfg.concurrency
    ensures |Members(states[i].stage, WAITING)| <= cfg.queueLimit
  {
    AlwaysInvariant(cfg, states, events, i);
  }

  /** When every request has gone, nothing has leaked. */
  lemma QuietIsInitial(cfg: Config, states: seq<State>, events: seq<Event>, i: nat)
    requires Run(cfg, states, events) && i < |states|
    requires forall t | t in states[i].stage :: states[i].stage[t] in GONE
    ensures states[i].permits == cfg.concurrency && states[i].waiting == 0 && states[i].queue == []
  {
    AlwaysInvariant(cfg, states, events, i);
    var s := states[i];
    assert Members(s.stage, HELD) == {} && Members(s.stage, COUNTED) == {};
    assert s.queue == [] || At(s, s.queue[0], Queued);
  }

  /** A request is turned away exactly when the admitted waiters and the requests that are just
      being turned away fill the limit. */
  lemma TurnedAwayIff(cfg: Config, states: seq<State>, events: seq<Event>, i: nat)
    requires Run(cfg, states, events) && i < |events| && events[i].Count?
    ensures At(states[i + 1], events[i].task, Over) <==>
            |Members(states[i].stage, WAITING)| + |Members(states[i].stage, {Over})| >= cfg.queueLimit
  {
    AlwaysInvariant(cfg, states, events, i);
    WaitingCounted(states[i].stage);
  }

  /** No lost wake-up: while a request is queued every permit is given out. */
  lemma QueuedMeansBusy(cfg: Config, states: seq<State>, events: seq<Event>, i: nat)
    requires Run(cfg, states, events) && i < |states| && states[i].queue != []
    ensures |Members(states[i].stage, HELD)| == cfg.concurrency
  {
    AlwaysInvariant(cfg, states, events, i);
  }

  /** No deadlock: as long as some request has not gone, some request can take a step. */
  lemma SomeStepEnabled(cfg: Config, states: seq<State>, events: seq<Event>, i: nat, t: Task)
    returns (e: Event)
    requires cfg.concurrency > 0
    requires Run(cfg, states, events) && i < |states| && t in states[i].stage && states[i].stage[t] !in GONE
    ensures Enabled(states[i], e) && !e.Arrive? && !e.Cancel?
  {
    AlwaysInvariant(cfg, states, events, i);
    var s := states[i];
    match s.stage[t]
    case Arrived => e := TryAcquire(t);
    case Missed => e := Count(t);
    case Over => e := Reject(t);
    case Admitted => e := Await(t);
    case Granted => e := Resume(t);
    case Cancelled => e := Leave(t);
    case Holding => e := Finish(t);
    case Queued =>
      assert t in s.queue;
      assert Members(s.stage, HELD) != {};
      var u :| u in Members(s.stage, HELD);
      e := if s.stage[u] == Granted then Resume(u) else Finish(u);
  }

  // ----- every request ends -----

  /** The most steps a request can still take. */
  function Rank(stage: Stage): nat {
    match stage
    case Arrived => 6
    case Missed => 5
    case Admitted => 4
    case Queued => 3
    case Granted => 2
    case Over => 1
    case Cancelled => 1
    case Holding => 1
    case _ => 0
  }

  function AtLeast(k: nat): set<Stage> {
    set st | st in {Arrived, Missed, Over, Admitted, Queued, Granted, Cancelled, Holding} && Rank(st) >= k
  }

  function Remaining(stage: map<Task, Stage>): nat {
    |Members(stage, AtLeast(1))| + |Members(stage, AtLeast(2))| + |Members(stage, AtLeast(3))| +
    |Members(stage, AtLeast(4))| + |Members(stage, AtLeast(5))| + |Members(stage, AtLeast(6))|
  }

  lemma RemainingMoved(stage: map<Task, Stage>, t: Task, to: Stage)
    ensures Remaining(stage[t := to]) == Remaining(stage) - (if t in stage then Rank(stage[t]) else 0) + Rank(to)
  {
    CountMoved(stage, t, to, AtLeast(1));
    CountMoved(stage, t, to, AtLeast(2));
    CountMoved(stage, t, to, AtLeast(3));
    CountMoved(stage, t, to, AtLeast(4));
    CountMoved(stage, t, to, AtLeast(5));
    CountMoved(stage, t, to, AtLeast(6));
    hide Members;
  }

  lemma StepCosts(cfg: Config, s: State, e: Event)
    requires Invariant(cfg, s) && Enabled(s, e)
    ensures Remaining(Next(cfg, s, e).stage) + 1 <= Remaining(s.stage) + (if e.Arrive? then 7 else 0)
  {
    hide Remaining, Members;
    var t := e.task;
    var to := Next(cfg, s, e).stage[t];
    RemainingMoved(s.stage, t, to);
    if (e.Finish? || (e.Cancel? && s.stage[t] == Granted)) && s.queue != [] {
      assert At(s, s.queue[0], Queued);
      RemainingMoved(s.stage[t := to], s.queue[0], Granted);
    }
  }

  function Arrivals(events: seq<Event>): nat {
    if events == [] then 0 else Arrivals(events[..|events| - 1]) + One(events[|events| - 1].Arrive?)
  }

  /** Every run is finite in the number of requests: each takes at most seven steps, its arrival
      included, whatever the others do. */
  lemma {:induction false} RunsAreShort(cfg: Config, states: seq<State>, events: seq<Event>)
    requires Run(cfg, states, events)
    ensures |events| + Remaining(states[|events|].stage) <= 7 * Arrivals(events)
    decreases |events|
  {
    hide Invariant, Enabled, Next;
    if events == [] {
      assert forall k: set<Stage> :: Members(map[], k) == {};
    } else {
      var n := |events| - 1;
      RunsAreShort(cfg, states[..n + 1], events[..n]);
      AlwaysInvariant(cfg, states, events, n);
      hide Remaining, Start;
      StepCosts(cfg, states[n], events[n]);
    }
  }

  // ----- a request can be turned away although nobody waits -----

  /** A run together with its last state. */
  ghost predicate RunTo(cfg: Config, states: seq<State>, events: seq<Event>, s: State) {
    Run(cfg, states, events) && states[|events|] == s
  }

  lemma Played(cfg: Config, states: seq<State>, events: seq<Event>, s: State, e: Event)
    returns (longer: seq<State>, script: seq<Event>)
    requires RunTo(cfg, states, events, s) && Enabled(s, e)
    ensures RunTo(cfg, longer, script, Next(cfg, s, e))
    ensures |script| == |events| + 1 == |longer| - 1 && script[|events|] == e && longer[|events|] == s
  {
    hide Enabled, Next, Start;
    longer, script := states + [Next(cfg, s, e)], events + [e];
  }

  /** One slot, one place in the queue. Request 1 waits, request 2 is about to be turned away when
      request 1 gets the slot; request 3 then still sees request 2 in the counter and is turned
      away, although nobody waits. */
  lemma TurnedAwayThoughNobodyWaits() returns (states: seq<State>, events: seq<Event>)
    ensures var cfg, n := Config(1, 1), |events| - 1;
            && Run(cfg, states, events) && n >= 0
            && events[n] == Count(3) && At(states[n + 1], 3, Over)
            && Members(states[n].stage, WAITING) == {}
  {
    hide RunTo, Run, Next;
    var cfg := Config(1, 1);
    var s;
    states, events, s := SlotTaken();
    states, events := Played(cfg, states, events, s, Arrive(3));
    var stage := s.stage;
    Moves(cfg, stage);
    s := s.(stage := stage[3 := Arrived]);
    states, events := Played(cfg, states, events, s, TryAcquire(3));
    s := s.(stage := stage[3 := Missed]);
    states, events := Played(cfg, states, events, s, Count(3));
    LastOf(cfg, states, events, Next(cfg, s, Count(3)));
  }

  /** Request 3 arrives, finds no slot and counts itself, while one other request is counted. */
  lemma Moves(cfg: Config, stage: map<Task, Stage>)
    requires cfg.queueLimit == 1 && 3 !in stage
    ensures var s := State(0, 1, [], stage);
            && Next(cfg, s, Arrive(3)) == s.(stage := stage[3 := Arrived])
            && Next(cfg, s.(stage := stage[3 := Arrived]), TryAcquire(3)) == s.(stage := stage[3 := Missed])
            && At(Next(cfg, s.(stage := stage[3 := Missed]), Count(3)), 3, Over)
  {
    assert stage[3 := Arrived][3 := Missed] == stage[3 := Missed];
  }

  lemma SlotHandedOver(cfg: Config, s: State)
    requires s == State(0, 2, [1], map[0 := Holding, 1 := Queued, 2 := Over])
    ensures Next(cfg, s, Finish(0)) == State(0, 2, [], map[0 := Served, 1 := Granted, 2 := Over])
  {
    assert s.queue[1..] == [];
    assert s.stage[0 := Served][1 := Granted] == map[0 := Served, 1 := Granted, 2 := Over];
  }

  lemma SlotTaken() returns (states: seq<State>, events: seq<Event>, s: State)
    ensures RunTo(Config(1, 1), states, events, s)
    ensures s == State(0, 1, [], map[0 := Served, 1 := Holding, 2 := Over])
  {
    hide RunTo, Run, Next;
    var cfg := Config(1, 1);
    states, events, s := FullQueue();
    states, events := Played(cfg, states, events, s, Await(1));
    SlotAwaited(cfg, s);
    s := State(0, 2, [1], map[0 := Holding, 1 := Queued, 2 := Over]);
    states, events := Played(cfg, states, events, s, Finish(0));
    SlotHandedOver(cfg, s);
    s := State(0, 2, [], map[0 := Served, 1 := Granted, 2 := Over]);
    states, events := Played(cfg, states, events, s, Resume(1));
    SlotResumed(cfg, s);
    s := State(0, 1, [], map[0 := Served, 1 := Holding, 2 := Over]);
  }

  lemma SlotAwaited(cfg: Config, s: State)
    requires s == State(0, 2, [], map[0 := Holding, 1 := Admitted, 2 := Over])
    ensures Next(cfg, s, Await(1)) == State(0, 2, [1], map[0 := Holding, 1 := Queued, 2 := Over])
  {
    assert s.queue + [1] == [1];
    assert s.stage[1 := Queued] == map[0 := Holding, 1 := Queued, 2 := Over];
  }

  lemma SlotResumed(cfg: Config, s: State)
    requires s == State(0, 2, [], map[0 := Served, 1 := Granted, 2 := Over])
    ensures Next(cfg, s, Resume(1)) == State(0, 1, [], map[0 := Served, 1 := Holding, 2 := Over])
  {
    assert s.stage[1 := Holding] == map[0 := Served, 1 := Holding, 2 := Over];
  }

  lemma LastOf(cfg: Config, states: seq<State>, events: seq<Event>, s: State)
    requires RunTo(cfg, states, events, s)
    ensures Run(cfg, states, events) && states[|events|] == s
  {
  }

  lemma FullQueue() returns (states: seq<State>, events: seq<Event>, s: State)
    ensures RunTo(Config(1, 1), states, events, s)
    ensures s == State(0, 2, [], map[0 := Holding, 1 := Admitted, 2 := Over])
  {
    hide RunTo, Run;
    var cfg := Config(1, 1);
    states, events, s := OneWaits();
    states, events := Played(cfg, states, events, s, Arrive(2));
    s := s.(stage := s.stage[2 := Arrived]);
    states, events := Played(cfg, states, events, s, TryAcquire(2));
    s := s.(stage := s.stage[2 := Missed]);
    states, events := Played(cfg, states, events, s, Count(2));
    s := State(0, 2, [], s.stage[2 := Over]);
  }

  lemma OneWaits() returns (states: seq<State>, events: seq<Event>, s: State)
    ensures RunTo(Config(1, 1), states, events, s)
    ensures s == State(0, 1, [], map[0 := Holding, 1 := Admitted])
  {
    var cfg := Config(1, 1);
    s, states, events := Start(cfg), [Start(cfg)], [];
    assert RunTo(cfg, states, events, s);
    hide RunTo, Run;
    states, events := Played(cfg, states, events, s, Arrive(0));
    s := s.(stage := map[0 := Arrived]);
    states, events := Played(cfg, states, events, s, TryAcquire(0));
    s := State(0, 0, [], s.stage[0 := Holding]);
    states, events := Played(cfg, states, events, s, Arrive(1));
    s := s.(stage := s.stage[1 := Arrived]);
    states, events := Played(cfg, states, events, s, TryAcquire(1));
    s := s.(stage := s.stage[1 := Missed]);
    states, events := Played(cfg, states, events, s, Count(1));
    s := State(0, 1, [], s.stage[1 := Admitted]);
  }

  /** The steps that a request can take next: one for every stage but those of a request that is gone
      and of one that waits for its turn; a waiting one can be dropped, before and after its turn. */
  lemma StepsOf(s: State, e: Event)
    requires Enabled(s, e)
    ensures e.task !in s.stage <==> e.Arrive?
    ensures !e.Arrive? ==>
              match s.stage[e.task]
              case Arrived => e.TryAcquire?
              case Missed => e.Count?
              case Over => e.Reject?
              case Admitted => e.Await?
              case Queued => e.Cancel?
              case Granted => e.Resume? || e.Cancel?
              case Cancelled => e.Leave?
              case Holding => e.Finish?
              case _ => false
  {
  }

  lemma StepsThere(s: State, t: Task)
    ensures t !in s.stage ==> Enabled(s, Arrive(t))
    ensures t in s.stage ==>
              match s.stage[t]
              case Arrived => Enabled(s, TryAcquire(t))
              case Missed => Enabled(s, Count(t))
              case Over => Enabled(s, Reject(t))
              case Admitted => Enabled(s, Await(t))
              case Queued => Enabled(s, Cancel(t))
              case Granted => Enabled(s, Resume(t)) && Enabled(s, Cancel(t))
              case Cancelled => Enabled(s, Leave(t))
              case Holding => Enabled(s, Finish(t))
              case _ => true
  {
  }

  // ----- first come, first served -----

  /** `t` waits in front of `u`. */
  ghost predicate Ahead(s: State, t: Task, u: Task) {
    exists a, b | 0 <= a < b < |s.queue| :: s.queue[a] == t && s.queue[b] == u
  }

  /** `u` has given up. */
  ghost predicate GaveUp(s: State, u: Task) {
    At(s, u, Cancelled) || At(s, u, Dropped)
  }

  lemma {:induction false} WithoutOrder(q: seq<Task>, x: Task, a: nat, b: nat) returns (i: nat, j: nat)
    requires a < b < |q| && q[a] != x && q[b] != x
    ensures i < j < |Without(q, x)| && Without(q, x)[i] == q[a] && Without(q, x)[j] == q[b]
    decreases |q|
  {
    if q[0] == x {
      i, j := a - 1, b - 1;
    } else if a == 0 {
      j := WithoutPlace(q[1..], x, b - 1);
      i, j := 0, j + 1;
    } else {
      i, j := WithoutOrder(q[1..], x, a - 1, b - 1);
      i, j := i + 1, j + 1;
    }
  }

  lemma {:induction false} WithoutPlace(q: seq<Task>, x: Task, b: nat) returns (j: nat)
    requires b < |q| && q[b] != x
    ensures j < |Without(q, x)| && Without(q, x)[j] == q[b]
    decreases |q|
  {
    if q[0] == x {
      j := b - 1;
    } else if b == 0 {
      j := 0;
    } else {
      j := WithoutPlace(q[1..], x, b - 1);
      j := j + 1;
    }
  }

  lemma StepKeepsOrder(cfg: Config, s: State, e: Event, t: Task, u: Task)
    requires Invariant(cfg, s) && Enabled(s, e) && (Ahead(s, t, u) || GaveUp(s, u)) && t != u
    requires At(Next(cfg, s, e), t, Queued)
    ensures Ahead(Next(cfg, s, e), t, u) || GaveUp(Next(cfg, s, e), u)
  {
    var s' := Next(cfg, s, e);
    assert s.queue != [] ==> s.queue[0] in s.queue && At(s, s.queue[0], Queued);
    if !GaveUp(s, u) {
      var a, b :| 0 <= a < b < |s.queue| && s.queue[a] == t && s.queue[b] == u;
      if e.Cancel? && At(s, e.task, Queued) {
        if e.task != u {
          assert e.task != t;
          var i, j := WithoutOrder(s.queue, e.task, a, b);
          assert s'.queue[i] == t && s'.queue[j] == u;
        }
      } else if e.Cancel? || e.Finish? {
        assert s.queue[0] != t;
        assert s'.queue[a - 1] == t && s'.queue[b - 1] == u;
      } else {
        assert s'.queue[a] == t && s'.queue[b] == u;
      }
    }
  }

  /** No overtaking: while a request waits, one behind it in the queue stays behind it or gives up,
      in every run. */
  lemma {:induction false} NoOvertaking(cfg: Config, states: seq<State>, events: seq<Event>, i: nat, j: nat, t: Task,
      u: Task)
    requires Run(cfg, states, events) && i <= j < |states| && Ahead(states[i], t, u)
    requires forall k | i <= k <= j :: At(states[k], t, Queued)
    ensures Ahead(states[j], t, u) || GaveUp(states[j], u)
    decreases j - i
  {
    hide Next, Invariant, Ahead, GaveUp;
    AlwaysInvariant(cfg, states, events, i);
    DifferentTasks(cfg, states[i], t, u);
    if i < j {
      NoOvertaking(cfg, states, events, i, j - 1, t, u);
      AlwaysInvariant(cfg, states, events, j - 1);
      assert Enabled(states[j - 1], events[j - 1]) && states[j - 1 + 1] == Next(cfg, states[j - 1], events[j - 1]);
      StepKeepsOrder(cfg, states[j - 1], events[j - 1], t, u);
    }
  }

  lemma DifferentTasks(cfg: Config, s: State, t: Task, u: Task)
    requires Invariant(cfg, s) && Ahead(s, t, u)
    ensures t != u
  {
  }
}
