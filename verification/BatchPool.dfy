/** The batch runner: workers that claim inputs from one atomic counter, and the exit status. */
module BatchPool {

  /** For every input: whether it has a destination, and the status its conversion ends with. */
  datatype World = World(n: nat, hasTarget: nat -> bool, status: nat -> int)

  /** The code recorded for an input. */
  function CodeOf(w: World, i: nat): (c: int)
    ensures 0 <= c <= 3
  {
    if !w.hasTarget(i) then 2 else if 0 <= w.status(i) <= 3 then w.status(i) else 2
  }

  datatype Worker = Idle | Busy(index: nat) | Returned

  /** The shared memory and the place of every worker. */
  datatype State = State(next: nat, codes: seq<int>, workers: seq<Worker>)

  /** `Claim` is the atomic `next++` with the bound check, `Record` the write of the code. */
  datatype Event = Claim(worker: nat) | Record(worker: nat)

  function Start(w: World, jobs: nat): State {
    State(0, seq(w.n, _ => 0), seq(jobs, _ => Idle))
  }

  predicate Enabled(s: State, e: Event) {
    e.worker < |s.workers| && if e.Claim? then s.workers[e.worker].Idle? else s.workers[e.worker].Busy?
  }

  function Next(w: World, s: State, e: Event): State
    requires Enabled(s, e)
  {
    match e
    case Claim(k) =>
      State(s.next + 1, s.codes, s.workers[k := if s.next >= w.n then Returned else Busy(s.next)])
    case Record(k) =>
      var i := s.workers[k].index;
      s.(codes := if i < |s.codes| then s.codes[i := CodeOf(w, i)] else s.codes, workers := s.workers[k := Idle])
  }

  /** A run: any interleaving of the steps of `jobs` workers. */
  ghost predicate Run(w: World, jobs: nat, states: seq<State>, events: seq<Event>) {
    && |states| == |events| + 1
    && states[0] == Start(w, jobs)
    && forall i | 0 <= i < |events| :: Enabled(states[i], events[i]) && states[i + 1] == Next(w, states[i], events[i])
  }

  // ----- the invariant -----

  function Min(a: nat, b: nat): nat {
    if a <= b then a else b
  }

  function BusyCount(workers: seq<Worker>): nat {
    if workers == [] then 0
    else BusyCount(workers[..|workers| - 1]) + if workers[|workers| - 1].Busy? then 1 else 0
  }

  function ReturnedCount(workers: seq<Worker>): (c: nat)
    ensures c <= |workers|
  {
    if workers == [] then 0
    else ReturnedCount(workers[..|workers| - 1]) + if workers[|workers| - 1].Returned? then 1 else 0
  }

  /** No two workers are on the same input. */
  ghost predicate Exclusive(s: State) {
    forall a, b | 0 <= a < b < |s.workers| && s.workers[a].Busy? && s.workers[b].Busy? ::
      s.workers[a].index != s.workers[b].index
  }

  ghost predicate InHand(s: State, i: nat) {
    exists k | 0 <= k < |s.workers| :: s.workers[k] == Busy(i)
  }

  ghost predicate Invariant(w: World, jobs: nat, s: State) {
    && |s.codes| == w.n && |s.workers| == jobs
    && Exclusive(s)
    && (forall k | 0 <= k < jobs && s.workers[k].Busy? :: s.workers[k].index < Min(s.next, w.n))
    && (forall i | 0 <= i < w.n ::
          s.codes[i] == CodeOf(w, i) || (s.codes[i] == 0 && (i >= s.next || InHand(s, i))))
    && s.next == Min(s.next, w.n) + ReturnedCount(s.workers)
  }

  lemma {:induction false} CountsMoved(workers: seq<Worker>, k: nat, to: Worker)
    requires k < |workers|
    ensures ReturnedCount(workers[k := to]) ==
            ReturnedCount(workers) - (if workers[k].Returned? then 1 else 0) + (if to.Returned? then 1 else 0)
    ensures BusyCount(workers[k := to]) ==
            BusyCount(workers) - (if workers[k].Busy? then 1 else 0) + (if to.Busy? then 1 else 0)
  {
    var n := |workers| - 1;
    if k < n {
      CountsMoved(workers[..n], k, to);
      assert workers[k := to][..n] == workers[..n][k := to];
    } else {
      assert workers[k := to][..n] == workers[..n];
    }
  }

  lemma ClaimKeeps(w: World, jobs: nat, s: State, k: nat)
    requires Invariant(w, jobs, s) && Enabled(s, Claim(k))
    ensures Invariant(w, jobs, Next(w, s, Claim(k)))
  {
    hide ReturnedCount, CodeOf;
    var t := Next(w, s, Claim(k));
    CountsMoved(s.workers, k, t.workers[k]);
    forall i | 0 <= i < w.n
      ensures t.codes[i] == CodeOf(w, i) || (t.codes[i] == 0 && (i >= t.next || InHand(t, i)))
    {
      if i == s.next {
        assert t.workers[k] == Busy(i);
      } else if InHand(s, i) {
        var m :| 0 <= m < |s.workers| && s.workers[m] == Busy(i);
        assert t.workers[m] == Busy(i);
      }
    }
  }

  lemma RecordKeeps(w: World, jobs: nat, s: State, k: nat)
    requires Invariant(w, jobs, s) && Enabled(s, Record(k))
    ensures Invariant(w, jobs, Next(w, s, Record(k)))
  {
    hide ReturnedCount, CodeOf;
    var t, done := Next(w, s, Record(k)), s.workers[k].index;
    CountsMoved(s.workers, k, Idle);
    forall i | 0 <= i < w.n
      ensures t.codes[i] == CodeOf(w, i) || (t.codes[i] == 0 && (i >= t.next || InHand(t, i)))
    {
      if i != done && InHand(s, i) {
        var m :| 0 <= m < |s.workers| && s.workers[m] == Busy(i);
        assert t.workers[m] == Busy(i);
      }
    }
  }

  lemma {:induction false} AlwaysInvariant(w: World, jobs: nat, states: seq<State>, events: seq<Event>, i: nat)
    requires Run(w, jobs, states, events) && i < |states|
    ensures Invariant(w, jobs, states[i])
  {
    if i == 0 {
      NoneBusy(seq(jobs, _ => Idle));
    } else {
      AlwaysInvariant(w, jobs, states, events, i - 1);
      match events[i - 1]
      case Claim(k) => ClaimKeeps(w, jobs, states[i - 1], k);
      case Record(k) => RecordKeeps(w, jobs, states[i - 1], k);
    }
  }

  lemma {:induction false} NoneBusy(workers: seq<Worker>)
    requires forall k | 0 <= k < |workers| :: workers[k].Idle?
    ensures ReturnedCount(workers) == 0 && BusyCount(workers) == 0
  {
    if workers != [] {
      NoneBusy(workers[..|workers| - 1]);
    }
  }

  lemma {:induction false} AllReturned(workers: seq<Worker>)
    requires forall k | 0 <= k < |workers| :: workers[k].Returned?
    ensures ReturnedCount(workers) == |workers| && BusyCount(workers) == 0
  {
    if workers != [] {
      AllReturned(workers[..|workers| - 1]);
    }
  }

  // ----- whole runs -----

  /** All workers have returned, as after the joins. */
  ghost predicate Joined(s: State) {
    forall k | 0 <= k < |s.workers| :: s.workers[k].Returned?
  }

  /** Whatever the interleaving, after the joins the codes are the pointwise outcome. */
  lemma CodesArePointwise(w: World, jobs: nat, states: seq<State>, events: seq<Event>)
    requires jobs > 0 && Run(w, jobs, states, events) && Joined(states[|events|])
    ensures states[|events|].codes == seq(w.n, i requires 0 <= i < w.n => CodeOf(w, i))
    ensures states[|events|].next == w.n + jobs
  {
    AlwaysInvariant(w, jobs, states, events, |events|);
    var s := states[|events|];
    AllReturned(s.workers);
    assert forall i: nat :: !InHand(s, i);
  }

  ghost predicate ClaimsAt(states: seq<State>, events: seq<Event>, m: nat, i: nat)
    requires |states| == |events| + 1
  {
    m < |events| && events[m].Claim? && states[m].next == i
  }

  lemma {:induction false} NextGrows(w: World, jobs: nat, states: seq<State>, events: seq<Event>, a: nat, b: nat)
    requires Run(w, jobs, states, events) && a <= b < |states|
    ensures states[a].next <= states[b].next
    ensures a < b && events[a].Claim? ==> states[a].next < states[b].next
    decreases b
  {
    if a < b {
      NextGrows(w, jobs, states, events, a, b - 1);
    }
  }

  /** The step at which the counter passes `i`. */
  lemma {:induction false} Passing(w: World, jobs: nat, states: seq<State>, events: seq<Event>, i: nat, b: nat)
    returns (m: nat)
    requires Run(w, jobs, states, events) && b < |states| && i < states[b].next
    ensures m < b && ClaimsAt(states, events, m, i)
  {
    if b > 0 && i < states[b - 1].next {
      m := Passing(w, jobs, states, events, i, b - 1);
    } else {
      m := b - 1;
    }
  }

  /** Each input is claimed at exactly one step of the run, hence by exactly one worker; that
      step puts the worker to work on it. */
  lemma ClaimedOnce(w: World, jobs: nat, states: seq<State>, events: seq<Event>, i: nat) returns (m: nat)
    requires jobs > 0 && Run(w, jobs, states, events) && Joined(states[|events|]) && i < w.n
    ensures ClaimsAt(states, events, m, i) && states[m + 1].workers[events[m].worker] == Busy(i)
    ensures forall o: nat | ClaimsAt(states, events, o, i) :: o == m
  {
    CodesArePointwise(w, jobs, states, events);
    m := Passing(w, jobs, states, events, i, |events|);
    forall o: nat | ClaimsAt(states, events, o, i)
      ensures o == m
    {
      if o < m {
        NextGrows(w, jobs, states, events, o, m);
      } else if m < o {
        NextGrows(w, jobs, states, events, m, o);
      }
    }
  }

  /** Every step is one claim or one record: the length of a run is fixed by its last state. */
  lemma {:induction false} RunLength(w: World, jobs: nat, states: seq<State>, events: seq<Event>, i: nat)
    requires Run(w, jobs, states, events) && i < |states|
    ensures i + BusyCount(states[i].workers) == states[i].next + Min(states[i].next, w.n)
  {
    if i == 0 {
      NoneBusy(seq(jobs, _ => Idle));
    } else {
      RunLength(w, jobs, states, events, i - 1);
      AlwaysInvariant(w, jobs, states, events, i - 1);
      var before, k := states[i - 1], events[i - 1].worker;
      CountsMoved(before.workers, k, states[i].workers[k]);
    }
  }

  lemma {:induction false} BusyAtMost(workers: seq<Worker>)
    ensures BusyCount(workers) + ReturnedCount(workers) <= |workers|
  {
    if workers != [] {
      BusyAtMost(workers[..|workers| - 1]);
    }
  }

  /** The pool always ends: no run is longer than two steps per input and one per worker, a run
      whose workers have all returned has exactly that length, and in any other state some
      worker can go on. */
  lemma PoolEnds(w: World, jobs: nat, states: seq<State>, events: seq<Event>)
    requires Run(w, jobs, states, events)
    ensures |events| <= 2 * w.n + jobs
    ensures jobs > 0 && Joined(states[|events|]) ==> |events| == 2 * w.n + jobs
    ensures !Joined(states[|events|]) ==>
              exists k :: Enabled(states[|events|], Claim(k)) || Enabled(states[|events|], Record(k))
  {
    var s := states[|events|];
    RunLength(w, jobs, states, events, |events|);
    AlwaysInvariant(w, jobs, states, events, |events|);
    BusyAtMost(s.workers);
    if Joined(s) {
      AllReturned(s.workers);
    } else {
      var k :| 0 <= k < |s.workers| && !s.workers[k].Returned?;
      assert Enabled(s, Claim(k)) || Enabled(s, Record(k));
    }
  }

  // ----- the sequential path and the exit status -----

  /** The path taken with one job or one input; a conversion run in this process ends with a
      status from 0 to 3. */
  method RunInOrder(w: World) returns (codes: array<int>)
    requires forall i: nat | i < w.n :: 0 <= w.status(i) <= 3
    ensures codes[..] == seq(w.n, i requires 0 <= i < w.n => CodeOf(w, i))
  {
    codes := new int[w.n](_ => 0);
    for i := 0 to w.n
      invariant forall j | 0 <= j < i :: codes[j] == CodeOf(w, j)
    {
      codes[i] := if w.hasTarget(i) then w.status(i) else 2;
    }
  }

  function Tally(codes: seq<int>, wanted: set<int>): nat {
    if codes == [] then 0
    else Tally(codes[..|codes| - 1], wanted) + if codes[|codes| - 1] in wanted then 1 else 0
  }

  method Count(codes: seq<int>) returns (failed: nat, nonCompliant: nat)
    ensures failed == Tally(codes, {2, 3}) && nonCompliant == Tally(codes, {1})
  {
    failed, nonCompliant := 0, 0;
    for i := 0 to |codes|
      invariant failed == Tally(codes[..i], {2, 3}) && nonCompliant == Tally(codes[..i], {1})
    {
      assert codes[..i + 1][..i] == codes[..i];
      if codes[i] == 2 || codes[i] == 3 {
        failed := failed + 1;
      }
      if codes[i] == 1 {
        nonCompliant := nonCompliant + 1;
      }
    }
    assert codes[..|codes|] == codes;
  }

  lemma {:induction false} TallyPositive(codes: seq<int>, wanted: set<int>)
    ensures Tally(codes, wanted) > 0 <==> exists i | 0 <= i < |codes| :: codes[i] in wanted
  {
    if codes != [] {
      var front := codes[..|codes| - 1];
      TallyPositive(front, wanted);
      assert forall i | 0 <= i < |front| :: codes[i] == front[i];
    }
  }

  ghost predicate Some(codes: seq<int>, wanted: set<int>) {
    exists i | 0 <= i < |codes| :: codes[i] in wanted
  }

  /** The exit status of a batch. */
  method ExitStatus(codes: seq<int>) returns (status: int)
    ensures status == 2 <==> Some(codes, {2, 3})
    ensures status == 1 <==> !Some(codes, {2, 3}) && Some(codes, {1})
    ensures status == 0 <==> forall i | 0 <= i < |codes| :: codes[i] !in {1, 2, 3}
  {
    var failed, nonCompliant := Count(codes);
    TallyPositive(codes, {2, 3});
    TallyPositive(codes, {1});
    return if failed != 0 then 2 else if nonCompliant != 0 then 1 else 0;
  }

  /** A file without a destination counts as failed, and so does a status out of range. */
  lemma CodeIs(w: World, i: nat)
    ensures !w.hasTarget(i) ==> CodeOf(w, i) == 2
    ensures w.hasTarget(i) && w.status(i) in {0, 1, 2, 3} ==> CodeOf(w, i) == w.status(i)
    ensures w.hasTarget(i) && w.status(i) !in {0, 1, 2, 3} ==> CodeOf(w, i) == 2
  {
  }
}
