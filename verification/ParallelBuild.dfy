/** The start gate and the shared tuple counter of a parallel build. */
module ParallelBuild {
  import opened Sequences

  // ----- the counter of one worker -----

  class ParallelShared {
    var ntuples: nat
    var initializingWorkerDone: bool
    var broadcasts: nat

    constructor ()
      ensures ntuples == 0 && !initializingWorkerDone && broadcasts == 0
    {
      ntuples, initializingWorkerDone, broadcasts := 0, false, 0;
    }
  }

  /** How much of its local count a worker has put into the shared counter while
      it is still building: the initializing worker its first `threshold`. */
  function Contributed(initializing: bool, local: nat, threshold: nat): nat {
    if initializing then Min(local, threshold) else 0
  }

  class BuildStateParallel {
    const shared: ParallelShared
    const isInitializingWorker: bool
    const threshold: nat
    var localNtuples: nat

    constructor (shared: ParallelShared, isInitializingWorker: bool, threshold: nat)
      ensures this.shared == shared && this.isInitializingWorker == isInitializingWorker
      ensures this.threshold == threshold && localNtuples == 0
    {
      this.shared, this.isInitializingWorker, this.threshold := shared, isInitializingWorker, threshold;
      localNtuples := 0;
    }

    function Share(): nat
      reads this
    {
      Contributed(isInitializingWorker, localNtuples, threshold)
    }

    /** One more tuple. The shared counter moves with this worker's share, and
        waiting workers are woken when it has reached the threshold. */
    method IncrementNtuples()
      modifies this`localNtuples, shared`ntuples, shared`broadcasts
      ensures localNtuples == old(localNtuples) + 1
      ensures shared.ntuples - old(shared.ntuples) == Share() - old(Share())
      ensures shared.broadcasts == old(shared.broadcasts) +
        if Share() > old(Share()) && shared.ntuples >= threshold then 1 else 0
    {
      localNtuples := localNtuples + 1;
      if isInitializingWorker && localNtuples <= threshold {
        shared.ntuples := shared.ntuples + 1;
        if shared.ntuples >= threshold {
          shared.broadcasts := shared.broadcasts + 1;
        }
      }
    }

    /** What is left of the local count is added at the end. */
    method UpdateSharedNtuples()
      modifies shared`ntuples
      ensures shared.ntuples - old(shared.ntuples) == localNtuples - Share()
    {
      if isInitializingWorker {
        var remaining := if localNtuples > threshold then localNtuples - threshold else 0;
        if remaining > 0 {
          shared.ntuples := shared.ntuples + remaining;
        }
      } else {
        shared.ntuples := shared.ntuples + localNtuples;
      }
    }

    method IntoBuildState() returns (ntuples: nat)
      modifies shared
      ensures ntuples == localNtuples
      ensures shared.ntuples - old(shared.ntuples) == localNtuples - Share()
      ensures shared.initializingWorkerDone == (old(shared.initializingWorkerDone) || isInitializingWorker)
      ensures shared.broadcasts == old(shared.broadcasts) + if isInitializingWorker then 1 else 0
    {
      if isInitializingWorker {
        shared.initializingWorkerDone := true;
        shared.broadcasts := shared.broadcasts + 1;
      }
      UpdateSharedNtuples();
      ntuples := localNtuples;
    }
  }

  // ----- all workers as a step machine -----

  datatype Phase =
    | New
    | AtTop                          // of the wait loop
    | LoadedCount(n: nat)
    | LoadedBoth(n: nat, done: bool)
    | Asleep
    | Working                        // between tuples
    | Inserted                       // node inserted, not yet flushed or counted
    | Checked                        // flush decision taken
    | Announcing                     // about to broadcast that the threshold is met
    | Ending                         // scan finished
    | Closing                        // seed edges published
    | DoneSet                        // done flag stored, not yet broadcast
    | Reporting
    | Finished
  {
    predicate Waiting() {
      New? || AtTop? || LoadedCount? || LoadedBoth? || Asleep?
    }
  }

  /** `flushed` counts the nodes whose edges this worker has published. */
  datatype Worker = Worker(phase: Phase, initializing: bool, prepared: bool, local: nat, flushed: nat)

  datatype Config = Config(threshold: nat, interval: nat) {
    predicate Valid() {
      threshold >= 1 && interval >= 1
    }
  }

  /** `sleepers` is the wait list of the condition variable. */
  datatype State = State(ntuples: nat, taken: bool, done: bool, sleepers: set<nat>, workers: seq<Worker>)

  datatype Step =
    | Claim | LoadCount | LoadDone | Pass | Sleep | Wake
    | Insert | MaybeFlush | Count | Announce
    | EndScan | FinalFlush | SetDone | AnnounceDone | Report

  predicate Enabled(c: Config, s: State, i: nat, step: Step) {
    i < |s.workers| &&
    var w := s.workers[i];
    match step
    case Claim => w.phase.New?
    case LoadCount => w.phase.AtTop?
    case LoadDone => w.phase.LoadedCount?
    case Pass => w.phase.LoadedBoth? && (w.phase.n >= c.threshold || w.phase.done)
    case Sleep => w.phase.LoadedBoth? && !(w.phase.n >= c.threshold || w.phase.done)
    case Wake => w.phase.Asleep? && i !in s.sleepers
    case Insert => w.phase.Working?
    case MaybeFlush => w.phase.Inserted?
    case Count => w.phase.Checked?
    case Announce => w.phase.Announcing?
    case EndScan => w.phase.Working?
    case FinalFlush => w.phase.Ending?
    case SetDone => w.phase.Closing?
    case AnnounceDone => w.phase.DoneSet?
    case Report => w.phase.Reporting?
  }

  function Apply(c: Config, s: State, i: nat, step: Step): State
    requires c.Valid() && Enabled(c, s, i, step)
  {
    var w := s.workers[i];
    match step
    case Claim =>
      if s.taken then s.(workers := s.workers[i := w.(phase := AtTop)])
      else s.(taken := true, workers := s.workers[i := w.(phase := Working, initializing := true)])
    case LoadCount => s.(workers := s.workers[i := w.(phase := LoadedCount(s.ntuples))])
    case LoadDone => s.(workers := s.workers[i := w.(phase := LoadedBoth(w.phase.n, s.done))])
    case Pass => s.(workers := s.workers[i := w.(phase := Working, prepared := false)], sleepers := s.sleepers - {i})
    case Sleep =>
      // The first sleep only joins the wait list and returns to test again.
      if w.prepared then s.(workers := s.workers[i := w.(phase := Asleep)])
      else s.(workers := s.workers[i := w.(phase := AtTop, prepared := true)], sleepers := s.sleepers + {i})
    case Wake => s.(workers := s.workers[i := w.(phase := AtTop)], sleepers := s.sleepers + {i})
    case Insert => s.(workers := s.workers[i := w.(phase := Inserted)])
    case MaybeFlush =>
      var completed := w.local + 1;
      var flush := completed % c.interval == 0 || (w.initializing && completed == c.threshold);
      s.(workers := s.workers[i := w.(phase := Checked, flushed := if flush then completed else w.flushed)])
    case Count =>
      var local := w.local + 1;
      if w.initializing && local <= c.threshold then
        var count := s.ntuples + 1;
        s.(ntuples := count,
           workers := s.workers[i := w.(local := local, phase := if count >= c.threshold then Announcing else Working)])
      else s.(workers := s.workers[i := w.(local := local, phase := Working)])
    case Announce => s.(workers := s.workers[i := w.(phase := Working)], sleepers := {})
    case EndScan => s.(workers := s.workers[i := w.(phase := Ending)])
    case FinalFlush =>
      s.(workers := s.workers[i := w.(phase := Closing, flushed := if w.initializing then w.local else w.flushed)])
    case SetDone =>
      if w.initializing then s.(done := true, workers := s.workers[i := w.(phase := DoneSet)])
      else s.(workers := s.workers[i := w.(phase := Reporting)])
    case AnnounceDone => s.(workers := s.workers[i := w.(phase := Reporting)], sleepers := {})
    case Report =>
      s.(ntuples := s.ntuples + w.local - Contributed(w.initializing, w.local, c.threshold),
         workers := s.workers[i := w.(phase := Finished)])
  }

  // ----- conservation of the count -----

  /** What a worker has put into the shared counter so far. */
  function ShareOf(c: Config, w: Worker): nat {
    if w.phase.Finished? then w.local else Contributed(w.initializing, w.local, c.threshold)
  }

  function SumShares(c: Config, ws: seq<Worker>): nat {
    if ws == [] then 0 else SumShares(c, ws[..|ws| - 1]) + ShareOf(c, ws[|ws| - 1])
  }

  function SumLocal(ws: seq<Worker>): nat {
    if ws == [] then 0 else SumLocal(ws[..|ws| - 1]) + ws[|ws| - 1].local
  }

  lemma {:induction false} SumSharesUpdate(c: Config, ws: seq<Worker>, i: nat, w: Worker)
    requires i < |ws|
    ensures SumShares(c, ws[i := w]) == SumShares(c, ws) - ShareOf(c, ws[i]) + ShareOf(c, w)
    decreases |ws|
  {
    var n := |ws| - 1;
    if i < n {
      SumSharesUpdate(c, ws[..n], i, w);
      assert ws[i := w][..n] == ws[..n][i := w];
    } else {
      assert ws[i := w][..n] == ws[..n];
    }
  }

  lemma {:induction false} SumSharesOfOne(c: Config, ws: seq<Worker>, i: nat)
    requires i < |ws| && forall k :: 0 <= k < |ws| && k != i ==> ShareOf(c, ws[k]) == 0
    ensures SumShares(c, ws) == ShareOf(c, ws[i])
    decreases |ws|
  {
    var n := |ws| - 1;
    if i < n {
      SumSharesOfOne(c, ws[..n], i);
    } else {
      SumSharesOfNone(c, ws[..n]);
    }
  }

  lemma {:induction false} SumSharesOfNone(c: Config, ws: seq<Worker>)
    requires forall k :: 0 <= k < |ws| ==> ShareOf(c, ws[k]) == 0
    ensures SumShares(c, ws) == 0
    decreases |ws|
  {
    if ws == [] {
    } else {
      SumSharesOfNone(c, ws[..|ws| - 1]);
    }
  }

  // ----- the invariant -----

  /** The initializing worker has published its first `threshold` nodes, or has
      ended its scan and published all of them. */
  ghost predicate SeedsPublished(c: Config, s: State) {
    exists i :: 0 <= i < |s.workers| && Published(c, s.workers[i])
  }

  predicate Published(c: Config, w: Worker) {
    w.initializing && (w.flushed >= c.threshold || (w.flushed == w.local && AfterScan(w.phase)))
  }

  predicate AfterScan(ph: Phase) {
    ph.Closing? || ph.DoneSet? || ph.Reporting? || ph.Finished?
  }

  /** The broadcast that follows the done flag has happened. */
  predicate Announced(w: Worker) {
    w.initializing && (w.phase.Reporting? || w.phase.Finished?)
  }

  /** The broadcast that follows the threshold-th tuple has happened. */
  predicate Signalled(c: Config, w: Worker) {
    w.initializing && w.local >= c.threshold && !w.phase.Announcing?
  }

  /** One of the two broadcasts that let the other workers in has happened. */
  ghost predicate Woken(c: Config, s: State) {
    exists k :: 0 <= k < |s.workers| && (Announced(s.workers[k]) || Signalled(c, s.workers[k]))
  }

  predicate WorkerOk(c: Config, s: State, i: nat)
    requires i < |s.workers|
  {
    var w := s.workers[i];
    && (w.initializing ==> s.taken && !w.phase.Waiting())
    && (w.initializing && w.local >= c.threshold ==> w.flushed >= c.threshold)
    && (w.initializing && w.phase.Checked? && w.local + 1 >= c.threshold ==> w.flushed >= c.threshold)
    && (w.initializing && AfterScan(w.phase) ==> w.flushed == w.local)
    && (w.phase.Announcing? || w.phase.DoneSet? ==> w.initializing)
    && (w.initializing && (w.phase.DoneSet? || Announced(w)) ==> s.done)
    && (w.initializing ==> s.ntuples >= Min(w.local, c.threshold))
    && (i in s.sleepers ==> w.phase.Waiting() && w.prepared)
    && (w.phase.Waiting() ==> w.local == 0)
    && (w.phase.Asleep? ==> w.prepared)
    && (w.phase.New? ==> !w.prepared)
    && w.flushed <= w.local + (if w.phase.Checked? then 1 else 0)
  }

  /** Nobody but the initializing worker gets past the gate too early. */
  ghost predicate GateOk(c: Config, s: State) {
    && (s.ntuples >= c.threshold ==> SeedsPublished(c, s))
    && (s.done ==> SeedsPublished(c, s))
    && forall i :: 0 <= i < |s.workers| ==>
         var w := s.workers[i];
         && (!w.initializing && !w.phase.Waiting() ==> SeedsPublished(c, s))
         && (w.phase.LoadedCount? && w.phase.n >= c.threshold ==> SeedsPublished(c, s))
         && (w.phase.LoadedBoth? && (w.phase.n >= c.threshold || w.phase.done) ==> SeedsPublished(c, s))
  }

  /** Once the threshold or the end has been announced, nobody on the wait list
      has decided to sleep on old information. */
  ghost predicate WakeOk(c: Config, s: State) {
    Woken(c, s) ==>
      && (s.ntuples >= c.threshold || s.done)
      && forall i :: 0 <= i < |s.workers| && i in s.sleepers ==> WellInformed(c, s, s.workers[i].phase)
  }

  /** A waiter on the wait list that is about to find out that it can go on. */
  predicate WellInformed(c: Config, s: State, ph: Phase) {
    && !ph.Asleep?
    && (ph.LoadedCount? ==> ph.n >= c.threshold || s.done)
    && (ph.LoadedBoth? ==> ph.n >= c.threshold || ph.done)
  }

  ghost predicate OneInitializer(s: State) {
    forall i, j :: 0 <= i < j < |s.workers| ==> !(s.workers[i].initializing && s.workers[j].initializing)
  }

  ghost predicate Inv(c: Config, s: State) {
    && c.Valid()
    && s.ntuples == SumShares(c, s.workers)
    && OneInitializer(s)
    && (forall i :: 0 <= i < |s.workers| ==> WorkerOk(c, s, i))
    && GateOk(c, s)
    && WakeOk(c, s)
    && (s.done ==> exists k :: 0 <= k < |s.workers| && s.workers[k].initializing)
  }

  lemma StepKeepsCount(c: Config, s: State, i: nat, step: Step)
    requires Inv(c, s) && Enabled(c, s, i, step)
    ensures var t := Apply(c, s, i, step); t.ntuples == SumShares(c, t.workers)
  {
    hide GateOk, WakeOk, OneInitializer;
    var t := Apply(c, s, i, step);
    assert WorkerOk(c, s, i);
    SumSharesUpdate(c, s.workers, i, t.workers[i]);
  }

  lemma StepKeepsOther(c: Config, s: State, i: nat, step: Step, j: nat)
    requires c.Valid() && Enabled(c, s, i, step) && j < |s.workers| && j != i && WorkerOk(c, s, j)
    ensures WorkerOk(c, Apply(c, s, i, step), j)
  {
  }

  lemma StepKeepsOwn(c: Config, s: State, i: nat, step: Step)
    requires c.Valid() && Enabled(c, s, i, step) && WorkerOk(c, s, i)
    ensures WorkerOk(c, Apply(c, s, i, step), i)
  {
    hide WorkerOk, Apply, Enabled;
    if step.Claim? || step.LoadCount? || step.LoadDone? || step.Pass? || step.Sleep? || step.Wake? {
      WaitingKeepsOwn(c, s, i, step);
    } else if step.Insert? || step.MaybeFlush? || step.Count? || step.Announce? {
      WorkingKeepsOwn(c, s, i, step);
    } else {
      EndingKeepsOwn(c, s, i, step);
    }
  }

  lemma WaitingKeepsOwn(c: Config, s: State, i: nat, step: Step)
    requires c.Valid() && Enabled(c, s, i, step) && WorkerOk(c, s, i)
    requires step.Claim? || step.LoadCount? || step.LoadDone? || step.Pass? || step.Sleep? || step.Wake?
    ensures WorkerOk(c, Apply(c, s, i, step), i)
  {
  }

  lemma WorkingKeepsOwn(c: Config, s: State, i: nat, step: Step)
    requires c.Valid() && Enabled(c, s, i, step) && WorkerOk(c, s, i)
    requires step.Insert? || step.MaybeFlush? || step.Count? || step.Announce?
    ensures WorkerOk(c, Apply(c, s, i, step), i)
  {
  }

  lemma EndingKeepsOwn(c: Config, s: State, i: nat, step: Step)
    requires c.Valid() && Enabled(c, s, i, step) && WorkerOk(c, s, i)
    requires step.EndScan? || step.FinalFlush? || step.SetDone? || step.AnnounceDone? || step.Report?
    ensures WorkerOk(c, Apply(c, s, i, step), i)
  {
  }

  lemma StepKeepsWorkers(c: Config, s: State, i: nat, step: Step)
    requires Inv(c, s) && Enabled(c, s, i, step)
    ensures var t := Apply(c, s, i, step);
      OneInitializer(t) && |t.workers| == |s.workers| && forall j :: 0 <= j < |t.workers| ==> WorkerOk(c, t, j)
  {
    hide GateOk, WakeOk, SumShares, WorkerOk;
    var t := Apply(c, s, i, step);
    forall j | 0 <= j < |t.workers| ensures WorkerOk(c, t, j) {
      if j == i {
        StepKeepsOwn(c, s, i, step);
      } else {
        StepKeepsOther(c, s, i, step, j);
      }
    }
    StepKeepsOne(c, s, i, step);
  }

  lemma StepKeepsOne(c: Config, s: State, i: nat, step: Step)
    requires c.Valid() && Enabled(c, s, i, step) && OneInitializer(s)
    requires forall j :: 0 <= j < |s.workers| ==> WorkerOk(c, s, j)
    ensures OneInitializer(Apply(c, s, i, step))
  {
    if step.Claim? {
      forall j | 0 <= j < |s.workers| ensures s.workers[j].initializing ==> s.taken {
        assert WorkerOk(c, s, j);
      }
    }
  }

  lemma PublishedStays(c: Config, s: State, i: nat, step: Step)
    requires Inv(c, s) && Enabled(c, s, i, step) && SeedsPublished(c, s)
    ensures SeedsPublished(c, Apply(c, s, i, step))
  {
    hide GateOk, WakeOk, SumShares;
    var t := Apply(c, s, i, step);
    var k :| 0 <= k < |s.workers| && Published(c, s.workers[k]);
    assert WorkerOk(c, s, k);
    assert Published(c, t.workers[k]);
  }

  /** The shared counter cannot reach the threshold before the seeds are out. */
  lemma CountNeedsSeeds(c: Config, s: State)
    requires c.Valid() && s.ntuples == SumShares(c, s.workers) && OneInitializer(s)
    requires forall i :: 0 <= i < |s.workers| ==> WorkerOk(c, s, i)
    requires forall i :: 0 <= i < |s.workers| && !s.workers[i].initializing && !s.workers[i].phase.Waiting() ==>
      SeedsPublished(c, s)
    requires s.ntuples >= c.threshold
    ensures SeedsPublished(c, s)
  {
    hide SumShares;
    var ws := s.workers;
    if exists k :: 0 <= k < |ws| && !ws[k].initializing && !ws[k].phase.Waiting() {
    } else if exists k :: 0 <= k < |ws| && ws[k].initializing {
      var k :| 0 <= k < |ws| && ws[k].initializing;
      forall j | 0 <= j < |ws| && j != k ensures ShareOf(c, ws[j]) == 0 {
        assert WorkerOk(c, s, j);
        assert !ws[j].initializing;
      }
      SumSharesOfOne(c, ws, k);
      assert WorkerOk(c, s, k);
      assert Published(c, ws[k]);
    } else {
      forall j | 0 <= j < |ws| ensures ShareOf(c, ws[j]) == 0 {
        assert WorkerOk(c, s, j);
      }
      SumSharesOfNone(c, ws);
    }
  }

  lemma StepKeepsGate(c: Config, s: State, i: nat, step: Step)
    requires Inv(c, s) && Enabled(c, s, i, step)
    ensures GateOk(c, Apply(c, s, i, step))
  {
    hide WakeOk, SumShares, SeedsPublished;
    var t := Apply(c, s, i, step);
    StepKeepsCount(c, s, i, step);
    StepKeepsWorkers(c, s, i, step);
    if SeedsPublished(c, s) {
      PublishedStays(c, s, i, step);
    } else {
      if t.done && !s.done {
        DoneHasSeeds(c, t, i);
      }
      if t.ntuples >= c.threshold {
        CountNeedsSeeds(c, t);
      }
    }
  }

  lemma DoneHasSeeds(c: Config, t: State, i: nat)
    requires i < |t.workers| && WorkerOk(c, t, i) && t.workers[i].initializing && AfterScan(t.workers[i].phase)
    ensures SeedsPublished(c, t)
  {
    assert Published(c, t.workers[i]);
  }

  lemma StepKeepsWake(c: Config, s: State, i: nat, step: Step)
    requires Inv(c, s) && Enabled(c, s, i, step)
    ensures WakeOk(c, Apply(c, s, i, step))
  {
    hide GateOk, SumShares, WellInformed, Apply, WorkerOk, Announced, Signalled, OneInitializer;
    var t := Apply(c, s, i, step);
    StepKeepsWorkers(c, s, i, step);
    if Woken(c, t) {
      var k :| 0 <= k < |t.workers| && (Announced(t.workers[k]) || Signalled(c, t.workers[k]));
      OpenOnceWoken(c, t, k);
      NewlyWoken(c, s, i, step, k);
      forall j | 0 <= j < |t.workers| && j in t.sleepers ensures WellInformed(c, t, t.workers[j].phase) {
        assert WorkerOk(c, s, j);
        StaysInformed(c, s, i, step, j);
      }
    }
  }

  lemma OpenOnceWoken(c: Config, s: State, k: nat)
    requires k < |s.workers| && WorkerOk(c, s, k)
    requires Announced(s.workers[k]) || Signalled(c, s.workers[k])
    ensures s.ntuples >= c.threshold || s.done
  {
  }

  /** Only a broadcast, which empties the wait list, wakes for the first time. */
  lemma NewlyWoken(c: Config, s: State, i: nat, step: Step, k: nat)
    requires c.Valid() && Enabled(c, s, i, step) && WorkerOk(c, s, i)
    requires var t := Apply(c, s, i, step);
      k < |t.workers| && (Announced(t.workers[k]) || Signalled(c, t.workers[k]))
    ensures Apply(c, s, i, step).sleepers == {} || Woken(c, s)
  {
    if !step.AnnounceDone? && !step.Announce? {
      assert Announced(s.workers[k]) || Signalled(c, s.workers[k]);
    }
  }

  lemma StaysInformed(c: Config, s: State, i: nat, step: Step, j: nat)
    requires c.Valid() && Enabled(c, s, i, step) && j < |s.workers| && WorkerOk(c, s, j)
    requires s.ntuples >= c.threshold || s.done
    requires j in s.sleepers ==> WellInformed(c, s, s.workers[j].phase)
    requires j in Apply(c, s, i, step).sleepers
    ensures WellInformed(c, Apply(c, s, i, step), Apply(c, s, i, step).workers[j].phase)
  {
  }

  lemma StepKeepsInv(c: Config, s: State, i: nat, step: Step)
    requires Inv(c, s) && Enabled(c, s, i, step)
    ensures Inv(c, Apply(c, s, i, step))
  {
    StepKeepsCount(c, s, i, step);
    StepKeepsWorkers(c, s, i, step);
    StepKeepsGate(c, s, i, step);
    StepKeepsWake(c, s, i, step);
    hide GateOk, WakeOk, SumShares, OneInitializer;
    var t := Apply(c, s, i, step);
    if t.done {
      if s.done {
        var k :| 0 <= k < |s.workers| && s.workers[k].initializing;
        assert t.workers[k].initializing;
      } else {
        assert t.workers[i].initializing;
      }
    }
  }

  // ----- whole builds -----

  datatype Event = Event(worker: nat, step: Step)

  function Launched(n: nat): State {
    State(0, false, false, {}, seq(n, _ => Worker(New, false, false, 0, 0)))
  }

  ghost predicate IsRun(c: Config, n: nat, states: seq<State>, events: seq<Event>) {
    && c.Valid()
    && |states| == |events| + 1
    && states[0] == Launched(n)
    && forall k :: 0 <= k < |events| ==>
         Enabled(c, states[k], events[k].worker, events[k].step)
         && states[k + 1] == Apply(c, states[k], events[k].worker, events[k].step)
  }

  lemma LaunchedInv(c: Config, n: nat)
    requires c.Valid()
    ensures Inv(c, Launched(n))
  {
    SumSharesOfNone(c, Launched(n).workers);
  }

  lemma {:induction false} RunKeepsInv(c: Config, n: nat, states: seq<State>, events: seq<Event>, k: nat)
    requires IsRun(c, n, states, events) && k < |states|
    ensures Inv(c, states[k])
  {
    hide Enabled, Apply, Inv, Launched;
    if k == 0 {
      LaunchedInv(c, n);
    } else {
      RunKeepsInv(c, n, states, events, k - 1);
      StepKeepsInv(c, states[k - 1], events[k - 1].worker, events[k - 1].step);
    }
  }

  predicate PastGate(w: Worker) {
    !w.initializing && !w.phase.Waiting()
  }

  /** In every interleaving at most one worker initializes, and no other worker
      is past the gate before the first `threshold` nodes, or all nodes of the
      initializing worker if it found fewer, have been published. */
  lemma GateHolds(c: Config, n: nat, states: seq<State>, events: seq<Event>, k: nat)
    requires IsRun(c, n, states, events) && k < |states|
    ensures OneInitializer(states[k])
    ensures forall i :: 0 <= i < |states[k].workers| && PastGate(states[k].workers[i]) ==> SeedsPublished(c, states[k])
  {
    hide IsRun, WakeOk, SumShares, SeedsPublished;
    RunKeepsInv(c, n, states, events, k);
  }

  // ----- regular flushes -----

  /** What a worker has not yet flushed, once it has decided about a node, is no
      more than what the node count is beyond a multiple of the interval. */
  predicate FlushOk(c: Config, w: Worker)
    requires c.Valid()
  {
    var completed := w.local + if w.phase.Checked? then 1 else 0;
    completed - w.flushed <= completed % c.interval
  }

  lemma NextRemainder(n: nat, k: nat)
    requires k >= 1 && (n + 1) % k != 0
    ensures (n + 1) % k == n % k + 1
  {
    var q, r := n / k, n % k;
    assert n == q * k + r && (q + 1) * k == q * k + k;
    SmallRemainder(q + 1, 0, k);
    if r + 1 < k {
      SmallRemainder(q, r + 1, k);
    }
  }

  lemma SmallRemainder(q: nat, r: nat, k: nat)
    requires r < k
    ensures (q * k + r) % k == r
  {
    var n := q * k + r;
    var d, e := n / k, n % k;
    assert d * k + e == n && 0 <= e < k;
    assert (d + 1) * k == d * k + k && (q + 1) * k == q * k + k;
    ProductGrows(d + 1, q, k);
    ProductGrows(q + 1, d, k);
  }

  lemma ProductGrows(a: nat, b: nat, k: nat)
    ensures a <= b ==> a * k <= b * k
  {
    if a <= b {
      assert b * k == a * k + (b - a) * k;
    }
  }

  lemma StepKeepsFlushes(c: Config, s: State, i: nat, step: Step, j: nat)
    requires c.Valid() && Enabled(c, s, i, step) && j < |s.workers| && FlushOk(c, s.workers[j])
    ensures FlushOk(c, Apply(c, s, i, step).workers[j])
  {
    if i == j && step.MaybeFlush? && (s.workers[j].local + 1) % c.interval != 0 {
      NextRemainder(s.workers[j].local, c.interval);
    }
  }

  /** Every worker publishes its edges regularly: between two nodes it never has
      as many as `interval` nodes whose edges it has not flushed. */
  lemma {:induction false} FlushesAreRegular(c: Config, n: nat, states: seq<State>, events: seq<Event>, k: nat, i: nat)
    requires IsRun(c, n, states, events) && k < |states| && i < |states[k].workers|
    ensures FlushOk(c, states[k].workers[i])
    ensures !states[k].workers[i].phase.Checked? ==>
      states[k].workers[i].local - states[k].workers[i].flushed < c.interval
    decreases k
  {
    hide Enabled, Apply;
    if k == 0 {
    } else {
      WorkersStay(c, states[k - 1], events[k - 1].worker, events[k - 1].step);
      FlushesAreRegular(c, n, states, events, k - 1, i);
      StepKeepsFlushes(c, states[k - 1], events[k - 1].worker, events[k - 1].step, i);
    }
  }

  lemma WorkersStay(c: Config, s: State, i: nat, step: Step)
    requires c.Valid() && Enabled(c, s, i, step)
    ensures |Apply(c, s, i, step).workers| == |s.workers|
  {
  }

  /** Steps that bring a waiter past the gate, once it is open. */
  function Rank(c: Config, s: State, w: Worker): nat
    requires w.phase.Waiting() && !w.phase.New?
  {
    match w.phase
    case AtTop => 3
    case LoadedCount(n) => if n >= c.threshold || s.done then 2 else if w.prepared then 6 else 5
    case LoadedBoth(n, done) => if n >= c.threshold || done then 1 else if w.prepared then 5 else 4
    case Asleep => 4
  }

  /** The one thing a waiter does next. */
  function NextStep(c: Config, w: Worker): Step
    requires w.phase.Waiting() && !w.phase.New?
  {
    match w.phase
    case AtTop => LoadCount
    case LoadedCount(_) => LoadDone
    case LoadedBoth(n, done) => if n >= c.threshold || done then Pass else Sleep
    case Asleep => Wake
  }

  /** No lost wake-up. After the broadcast at the threshold, or the one at the
      end of the initializing worker, no waiter stays asleep: its next step is
      possible, and brings it past the gate or closer to it, and no step of
      another worker takes it back. */
  lemma WaitersGetThrough(c: Config, n: nat, states: seq<State>, events: seq<Event>, k: nat, i: nat)
    requires IsRun(c, n, states, events) && k < |states| && Woken(c, states[k])
    requires i < |states[k].workers| && states[k].workers[i].phase.Waiting() && !states[k].workers[i].phase.New?
    ensures var s, w := states[k], states[k].workers[i];
      && Enabled(c, s, i, NextStep(c, w))
      && (var t := Apply(c, s, i, NextStep(c, w));
          var after := t.workers[i];
          after.phase.Working? || (after.phase.Waiting() && !after.phase.New? && Rank(c, t, after) < Rank(c, s, w)))
      && forall j, step :: j != i && Enabled(c, s, j, step) ==>
           var t := Apply(c, s, j, step);
           t.workers[i] == w && Rank(c, t, w) <= Rank(c, s, w) && Woken(c, t)
  {
    hide IsRun, GateOk, SumShares, OneInitializer;
    RunKeepsInv(c, n, states, events, k);
    var s, w := states[k], states[k].workers[i];
    var a :| 0 <= a < |s.workers| && (Announced(s.workers[a]) || Signalled(c, s.workers[a]));
    assert WorkerOk(c, s, a) && WorkerOk(c, s, i);
    forall j, step | j != i && Enabled(c, s, j, step)
      ensures var t := Apply(c, s, j, step);
        t.workers[i] == w && Rank(c, t, w) <= Rank(c, s, w) && Woken(c, t)
    {
      StaysWoken(c, s, j, step, a);
    }
  }

  lemma StaysWoken(c: Config, s: State, j: nat, step: Step, a: nat)
    requires c.Valid() && Enabled(c, s, j, step) && a < |s.workers| && WorkerOk(c, s, a)
    requires Announced(s.workers[a]) || Signalled(c, s.workers[a])
    ensures Woken(c, Apply(c, s, j, step))
  {
    var t := Apply(c, s, j, step);
    assert Announced(t.workers[a]) || Signalled(c, t.workers[a]);
  }

  /** When all workers have finished, the shared counter is the number of all
      tuples indexed. */
  lemma CountIsComplete(c: Config, n: nat, states: seq<State>, events: seq<Event>, k: nat)
    requires IsRun(c, n, states, events) && k < |states|
    requires forall i :: 0 <= i < |states[k].workers| ==> states[k].workers[i].phase.Finished?
    ensures states[k].ntuples == SumLocal(states[k].workers)
  {
    hide IsRun, GateOk, WakeOk, OneInitializer;
    RunKeepsInv(c, n, states, events, k);
    SumsAgree(c, states[k].workers);
  }

  lemma {:induction false} SumsAgree(c: Config, ws: seq<Worker>)
    requires forall i :: 0 <= i < |ws| ==> ws[i].phase.Finished?
    ensures SumShares(c, ws) == SumLocal(ws)
    decreases |ws|
  {
    if ws == [] {
    } else {
      SumsAgree(c, ws[..|ws| - 1]);
    }
  }
}
