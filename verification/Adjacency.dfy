/** The write protocol for neighbour lists as a step machine. Any number of
    backends merge into nodes, append nodes and vacuum, on shared pages. A page
    is changed only through a private copy made under its exclusive lock, which
    is committed as a whole or dropped. */
module Adjacency {
  import opened Pointers
  import opened Labels
  import opened Sequences
  import opened Nodes
  import opened Pruning
  import opened Merging

  datatype Record = Record(vector: Vector, labels: Option<LabelSet>, slots: seq<ItemPointer>, heap: ItemPointer)

  type Page = seq<Record>

  datatype Job = Job(of: ItemPointer, mode: Mode, added: seq<Candidate>)

  /** Where a backend is. `since` and `seen` are log lengths, at the start of
      the job and at its latest snapshot. */
  datatype Phase =
    | Idle
    | Top(job: Job, since: nat, retries: nat)
    | Planned(job: Job, since: nat, retries: nat, expected: seq<ItemPointer>, plan: Merged, seen: nat)
    | Editing(job: Job, since: nat, retries: nat, expected: seq<ItemPointer>, plan: Merged, seen: nat, copy: Page)
    | Vacuuming(block: nat, copy: Page)
    | Appending(block: nat, copy: Page)
  {
    function Holds(): Option<nat> {
      if Editing? then Some(job.of.block)
      else if Vacuuming? || Appending? then Some(block)
      else None
    }

    predicate Active() {
      Top? || Planned? || Editing?
    }
  }

  /** One commit that changed a neighbour list. */
  datatype Change = Change(actor: nat, node: ItemPointer, before: seq<ItemPointer>, after: seq<ItemPointer>)

  /** `log`, `contributed` and `prunedAt` only record what has happened. */
  datatype State = State(
    pages: map<nat, Page>,
    holder: map<nat, nat>,
    phases: map<nat, Phase>,
    log: seq<Change>,
    contributed: map<ItemPointer, set<ItemPointer>>,
    prunedAt: set<ItemPointer>)
  {
    function PhaseOf(a: nat): Phase {
      if a in phases then phases[a] else Idle
    }

    function PageAt(b: nat): Page {
      if b in pages then pages[b] else []
    }

    predicate Exists(x: ItemPointer) {
      1 <= x.offset <= |PageAt(x.block)|
    }

    function At(x: ItemPointer): Record
      requires Exists(x)
    {
      PageAt(x.block)[x.offset - 1]
    }

    function ListOf(x: ItemPointer): seq<ItemPointer>
      requires Exists(x)
    {
      Adjacency(At(x).slots)
    }

    function Additions(x: ItemPointer): set<ItemPointer> {
      if x in contributed then contributed[x] else {}
    }
  }

  datatype Step =
    | Begin(job: Job)
    | Snapshot
    | Lock
    | Mismatch
    | Commit
    | VacuumLock(block: nat)
    | VacuumCommit(dead: set<nat>)
    | AppendLock(block: nat)
    | AppendCommit(heap: ItemPointer)
    | Abort

  function Without(holder: map<nat, nat>, phase: Phase): map<nat, nat> {
    match phase.Holds()
    case Some(b) => holder - {b}
    case None => holder
  }

  function Tombstoned(page: Page, dead: set<nat>): (r: Page)
    ensures |r| == |page|
  {
    seq(|page|, i requires 0 <= i < |page| => if i in dead then page[i].(heap := INVALID_POINTER) else page[i])
  }

  function NewRecord(env: Env, x: ItemPointer, heap: ItemPointer): Record {
    Record(env.vectorOf(x), env.GetLabels(x), EmptySlots(env.numNeighbors), heap)
  }

  function CopyList(page: Page, x: ItemPointer): seq<ItemPointer>
    requires 1 <= x.offset <= |page|
  {
    Adjacency(page[x.offset - 1].slots)
  }

  function Edited(page: Page, x: ItemPointer, list: seq<ItemPointer>): Page
    requires 1 <= x.offset <= |page| && |list| <= |page[x.offset - 1].slots|
  {
    page[x.offset - 1 := page[x.offset - 1].(slots := WithAdjacency(page[x.offset - 1].slots, list))]
  }

  ghost predicate Enabled(env: Env, s: State, a: nat, step: Step) {
    var ph := s.PhaseOf(a);
    match step
    case Begin(job) =>
      ph.Idle? && JobOk(env, s, job)
    case Snapshot =>
      ph.Top? && ph.job.of.block !in s.holder && s.Exists(ph.job.of) && env.Labelled(ph.job.added)
    case Lock =>
      ph.Planned? && ph.job.of.block !in s.holder
    case Mismatch =>
      ph.Editing? && 1 <= ph.job.of.offset <= |ph.copy| && CopyList(ph.copy, ph.job.of) != ph.expected
    case Commit =>
      ph.Editing? && 1 <= ph.job.of.offset <= |ph.copy| && CopyList(ph.copy, ph.job.of) == ph.expected
      && |ph.plan.neighbors| <= |ph.copy[ph.job.of.offset - 1].slots|
    case VacuumLock(b) =>
      ph.Idle? && b in s.pages && b !in s.holder
    case VacuumCommit(dead) =>
      ph.Vacuuming?
    case AppendLock(b) =>
      ph.Idle? && b < INVALID_BLOCK && b !in s.holder
    case AppendCommit(heap) =>
      ph.Appending?
    case Abort =>
      !ph.Idle?
  }

  ghost function Apply(env: Env, s: State, a: nat, step: Step): State
    requires Enabled(env, s, a, step)
  {
    var ph := s.PhaseOf(a);
    match step
    case Begin(job) =>
      s.(phases := s.phases[a := Top(job, |s.log|, 0)])
    case Snapshot =>
      var list := s.ListOf(ph.job.of);
      var plan := Merge(env, ph.job.of, ph.job.mode, list, ph.job.added);
      s.(phases := s.phases[a := Planned(ph.job, ph.since, ph.retries, list, plan, |s.log|)])
    case Lock =>
      var copy := s.PageAt(ph.job.of.block);
      s.(phases := s.phases[a := Editing(ph.job, ph.since, ph.retries, ph.expected, ph.plan, ph.seen, copy)],
         holder := s.holder[ph.job.of.block := a])
    case Mismatch =>
      s.(phases := s.phases[a := Top(ph.job, ph.since, ph.retries + 1)], holder := Without(s.holder, ph))
    case Commit =>
      var x, list := ph.job.of, PointersOf(ph.plan.neighbors);
      var done := s.(
        phases := s.phases[a := Idle],
        holder := Without(s.holder, ph),
        contributed := s.contributed[x := s.Additions(x) + PointerSet(ph.job.added)],
        prunedAt := if ph.plan.pruned then s.prunedAt + {x} else s.prunedAt);
      if list == ph.expected then done
      else done.(pages := s.pages[x.block := Edited(ph.copy, x, list)],
                 log := s.log + [Change(a, x, ph.expected, list)])
    case VacuumLock(b) =>
      s.(phases := s.phases[a := Vacuuming(b, s.PageAt(b))], holder := s.holder[b := a])
    case VacuumCommit(dead) =>
      s.(phases := s.phases[a := Idle], holder := Without(s.holder, ph),
         pages := s.pages[ph.block := Tombstoned(ph.copy, dead)])
    case AppendLock(b) =>
      s.(phases := s.phases[a := Appending(b, s.PageAt(b))], holder := s.holder[b := a])
    case AppendCommit(heap) =>
      var x := ItemPointer(ph.block, |ph.copy| + 1);
      s.(phases := s.phases[a := Idle], holder := Without(s.holder, ph),
         pages := s.pages[ph.block := ph.copy + [NewRecord(env, x, heap)]])
    case Abort =>
      s.(phases := s.phases[a := Idle], holder := Without(s.holder, ph))
  }

  // ----- the invariant -----

  ghost predicate JobOk(env: Env, s: State, job: Job) {
    && s.Exists(job.of)
    && env.Labelled(job.added)
    && forall y :: y in PointersOf(job.added) ==> s.Exists(y)
  }

  /** Locks are exclusive and the private copy of a holder is current. */
  ghost predicate LockInv(s: State) {
    && (forall b :: b in s.holder ==> s.PhaseOf(s.holder[b]).Holds() == Some(b))
    && (forall a :: a in s.phases && s.phases[a].Holds().Some? ==>
          var b := s.phases[a].Holds().value;
          b in s.holder && s.holder[b] == a && s.phases[a].copy == s.PageAt(b))
  }

  ghost predicate RecordOk(env: Env, s: State, x: ItemPointer)
    requires s.Exists(x)
  {
    && s.At(x).vector == env.vectorOf(x)
    && s.At(x).labels == env.GetLabels(x)
    && |s.At(x).slots| == env.numNeighbors
    && Distinct(s.ListOf(x))
    && x !in s.ListOf(x)
    && forall y :: y in s.ListOf(x) ==> s.Exists(y)
  }

  /** Every stored list is within the degree bound (it lives in numNeighbors
      slots), has no repetition and no self-loop, and names written nodes. */
  ghost predicate GraphInv(env: Env, s: State) {
    && (forall b :: b in s.pages ==> b < INVALID_BLOCK)
    && (forall x: ItemPointer :: s.Exists(x) ==> RecordOk(env, s, x))
  }

  /** List-changing commits to a node among the first `n`. */
  function CountTo(log: seq<Change>, n: nat, x: ItemPointer): nat
    requires n <= |log|
  {
    if n == 0 then 0 else CountTo(log, n - 1, x) + if log[n - 1].node == x then 1 else 0
  }

  ghost predicate PhaseOk(env: Env, s: State, a: nat)
    requires a in s.phases
  {
    var ph := s.phases[a];
    && (ph.Appending? || ph.Vacuuming? ==> ph.block < INVALID_BLOCK)
    && (ph.Active() ==>
      && JobOk(env, s, ph.job)
      && ph.since <= |s.log|
      && (forall k :: ph.since <= k < |s.log| ==> s.log[k].actor != a)
      && (ph.Top? ==> CountTo(s.log, ph.since, ph.job.of) + ph.retries <= CountTo(s.log, |s.log|, ph.job.of))
      && (!ph.Top? ==>
            && ph.since <= ph.seen <= |s.log|
            && ph.plan == Merge(env, ph.job.of, ph.job.mode, ph.expected, ph.job.added)
            && (forall y :: y in ph.expected ==> s.Exists(y))
            && CountTo(s.log, ph.since, ph.job.of) + ph.retries <= CountTo(s.log, ph.seen, ph.job.of)
            && CountTo(s.log, ph.seen, ph.job.of) <= CountTo(s.log, |s.log|, ph.job.of)
            && (CountTo(s.log, ph.seen, ph.job.of) == CountTo(s.log, |s.log|, ph.job.of) ==>
                  ph.expected == s.ListOf(ph.job.of))))
  }

  /** A list holds only additions, and all of them if no commit pruned it. */
  ghost predicate LedgerAt(s: State, x: ItemPointer)
    requires s.Exists(x)
  {
    && ToSet(s.ListOf(x)) <= s.Additions(x) - {x}
    && (x !in s.prunedAt ==> ToSet(s.ListOf(x)) == s.Additions(x) - {x})
  }

  ghost predicate LedgerInv(s: State) {
    && (forall x: ItemPointer :: s.Exists(x) ==> LedgerAt(s, x))
    && (forall x :: x in s.contributed ==> s.Exists(x))
    && (forall x :: x in s.prunedAt ==> s.Exists(x))
  }

  /** Only commits that changed a list are logged. */
  ghost predicate LogInv(s: State) {
    forall k :: 0 <= k < |s.log| ==> s.log[k].before != s.log[k].after
  }

  ghost predicate Inv(env: Env, s: State) {
    && LockInv(s)
    && GraphInv(env, s)
    && (forall a :: a in s.phases ==> PhaseOk(env, s, a))
    && LedgerInv(s)
    && LogInv(s)
  }

  ghost predicate Init(s: State) {
    s == State(map[], map[], map[], [], map[], {})
  }

  // ----- what one step does to the pages -----

  /** Only the heap pointer may have changed, and only to a tombstone. */
  ghost predicate SameButTombstone(r: Record, t: Record) {
    t == r || t == r.(heap := INVALID_POINTER)
  }

  /** What one step may do to the stored records. */
  ghost predicate PageEffect(env: Env, s: State, t: State, a: nat, step: Step) {
    && (forall b :: b in t.pages ==> b in s.pages || s.PhaseOf(a).Holds() == Some(b))
    && (forall x: ItemPointer :: s.Exists(x) ==> t.Exists(x))
    && (forall x: ItemPointer :: t.Exists(x) && !s.Exists(x) ==>
          step.AppendCommit? && t.At(x) == NewRecord(env, x, step.heap))
    && (forall x: ItemPointer :: s.Exists(x) && !step.Commit? ==> SameButTombstone(s.At(x), t.At(x)))
    && (forall x: ItemPointer :: s.Exists(x) && !step.VacuumCommit? && !step.Commit? ==> t.At(x) == s.At(x))
  }

  /** A commit changes the list of its own node only, even though it writes
      back a whole page that other nodes share. */
  ghost predicate CommitEffect(s: State, t: State, job: Job, plan: Merged) {
    && s.Exists(job.of) && t.Exists(job.of)
    && (forall x: ItemPointer :: s.Exists(x) && x != job.of ==> t.Exists(x) && t.At(x) == s.At(x))
    && t.ListOf(job.of) == PointersOf(plan.neighbors)
    && |t.At(job.of).slots| == |s.At(job.of).slots|
    && t.At(job.of) == s.At(job.of).(slots := t.At(job.of).slots)
  }

  /** The holder of a page works on a current copy. */
  lemma CopyIsCurrent(s: State, a: nat)
    requires LockInv(s) && s.PhaseOf(a).Holds().Some?
    ensures var b := s.PhaseOf(a).Holds().value;
      b in s.holder && s.holder[b] == a && s.PhaseOf(a).copy == s.PageAt(b)
  {
  }

  lemma PlanStorable(env: Env, s: State, job: Job, expected: seq<ItemPointer>)
    requires forall b :: b in s.pages ==> b < INVALID_BLOCK
    requires JobOk(env, s, job)
    requires forall y :: y in expected ==> s.Exists(y)
    ensures Storable(PointersOf(Merge(env, job.of, job.mode, expected, job.added).neighbors))
    ensures forall y :: y in PointersOf(Merge(env, job.of, job.mode, expected, job.added).neighbors) ==> s.Exists(y)
  {
    hide Merge;
    var m := Merge(env, job.of, job.mode, expected, job.added);
    MergeProperties(env, job.of, job.mode, expected, job.added);
    forall y | y in PointersOf(m.neighbors) ensures s.Exists(y) && y.block != INVALID_BLOCK {
      assert y in PointerSet(m.neighbors);
      assert s.Exists(y) && y.block in s.pages;
    }
    assert forall i :: 0 <= i < |m.neighbors| ==> PointersOf(m.neighbors)[i] in PointersOf(m.neighbors);
  }

  lemma CommitPages(env: Env, s: State, a: nat)
    requires LockInv(s) && GraphInv(env, s) && Enabled(env, s, a, Commit) && PhaseOk(env, s, a)
    ensures s.PhaseOf(a).expected == s.ListOf(s.PhaseOf(a).job.of)
    ensures CommitEffect(s, Apply(env, s, a, Commit), s.PhaseOf(a).job, s.PhaseOf(a).plan)
    ensures PageEffect(env, s, Apply(env, s, a, Commit), a, Commit)
  {
    hide Merge, LockInv, RecordOk, CountTo, Adjacency, WithAdjacency, Distinct;
    var ph, t := s.PhaseOf(a), Apply(env, s, a, Commit);
    var x, list := ph.job.of, PointersOf(ph.plan.neighbors);
    CopyIsCurrent(s, a);
    PlanStorable(env, s, ph.job, ph.expected);
    AdjacencyRoundTrip(ph.copy[x.offset - 1].slots, list);
  }

  lemma StepPages(env: Env, s: State, a: nat, step: Step)
    requires LockInv(s) && Enabled(env, s, a, step) && !step.Commit?
    ensures PageEffect(env, s, Apply(env, s, a, step), a, step)
  {
    hide Merge, LockInv, JobOk, CopyList, Edited, NewRecord, PageEffect, Tombstoned;
    var ph, t := s.PhaseOf(a), Apply(env, s, a, step);
    match step
    case VacuumCommit(dead) =>
      CopyIsCurrent(s, a);
      VacuumPages(env, s, t, a, dead);
    case AppendCommit(heap) =>
      CopyIsCurrent(s, a);
      AppendPages(env, s, t, a, heap);
    case _ =>
      SamePages(env, s, t, a, step);
  }

  lemma SamePages(env: Env, s: State, t: State, a: nat, step: Step)
    requires t.pages == s.pages && !step.Commit?
    ensures PageEffect(env, s, t, a, step)
  {
    hide NewRecord;
  }

  lemma VacuumPages(env: Env, s: State, t: State, a: nat, dead: set<nat>)
    requires var ph := s.PhaseOf(a);
      ph.Vacuuming? && t.pages == s.pages[ph.block := Tombstoned(s.PageAt(ph.block), dead)]
    ensures PageEffect(env, s, t, a, VacuumCommit(dead))
  {
    hide NewRecord;
  }

  lemma AppendPages(env: Env, s: State, t: State, a: nat, heap: ItemPointer)
    requires var ph := s.PhaseOf(a);
      ph.Appending? && t.pages == s.pages[ph.block :=
        s.PageAt(ph.block) + [NewRecord(env, ItemPointer(ph.block, |s.PageAt(ph.block)| + 1), heap)]]
    ensures PageEffect(env, s, t, a, AppendCommit(heap))
  {
    hide NewRecord;
  }

  lemma AcquireKeepsLocks(s: State, t: State, a: nat, b: nat, ph: Phase)
    requires LockInv(s) && s.PhaseOf(a).Holds().None? && b !in s.holder
    requires ph.Holds() == Some(b) && ph.copy == s.PageAt(b)
    requires t.pages == s.pages && t.phases == s.phases[a := ph] && t.holder == s.holder[b := a]
    ensures LockInv(t)
  {
  }

  lemma ReleaseKeepsLocks(s: State, t: State, a: nat, b: nat, ph: Phase)
    requires LockInv(s) && s.PhaseOf(a).Holds() == Some(b) && ph.Holds().None?
    requires t.phases == s.phases[a := ph] && t.holder == s.holder - {b}
    requires forall c :: c != b ==> t.PageAt(c) == s.PageAt(c)
    ensures LockInv(t)
  {
    CopyIsCurrent(s, a);
  }

  lemma QuietKeepsLocks(s: State, t: State, a: nat, ph: Phase)
    requires LockInv(s) && s.PhaseOf(a).Holds().None? && ph.Holds().None?
    requires t.pages == s.pages && t.phases == s.phases[a := ph] && t.holder == s.holder
    ensures LockInv(t)
  {
  }

  lemma StepKeepsLocks(env: Env, s: State, a: nat, step: Step)
    requires LockInv(s) && Enabled(env, s, a, step)
    ensures LockInv(Apply(env, s, a, step))
  {
    hide Merge, LockInv, JobOk, CopyList, Edited, NewRecord, Tombstoned;
    var ph, t := s.PhaseOf(a), Apply(env, s, a, step);
    if t.PhaseOf(a).Holds().Some? {
      AcquireKeepsLocks(s, t, a, t.PhaseOf(a).Holds().value, t.PhaseOf(a));
    } else if ph.Holds().Some? {
      ReleaseKeepsLocks(s, t, a, ph.Holds().value, t.PhaseOf(a));
    } else {
      QuietKeepsLocks(s, t, a, t.PhaseOf(a));
    }
  }

  lemma StepKeepsGraph(env: Env, s: State, a: nat, step: Step)
    requires Inv(env, s) && Enabled(env, s, a, step)
    ensures GraphInv(env, Apply(env, s, a, step))
  {
    hide Merge, LockInv, LedgerInv, CopyList, Edited, Tombstoned, Adjacency, Distinct, WithAdjacency;
    var ph, t := s.PhaseOf(a), Apply(env, s, a, step);
    if step.Commit? {
      CommitKeepsGraph(env, s, a);
    } else {
      StepPages(env, s, a, step);
      assert step.AppendCommit? || step.VacuumCommit? ==> PhaseOk(env, s, a);
      forall x: ItemPointer | t.Exists(x) ensures RecordOk(env, t, x) {
        if s.Exists(x) {
          RecordStays(env, s, t, x);
        } else {
          NewRecordOk(env, t, x);
        }
      }
    }
  }

  lemma NewRecordOk(env: Env, t: State, x: ItemPointer)
    requires t.Exists(x) && exists heap :: t.At(x) == NewRecord(env, x, heap)
    ensures RecordOk(env, t, x)
  {
  }

  lemma CommitKeepsGraph(env: Env, s: State, a: nat)
    requires LockInv(s) && GraphInv(env, s) && Enabled(env, s, a, Commit) && PhaseOk(env, s, a)
    ensures GraphInv(env, Apply(env, s, a, Commit))
  {
    hide Merge, LockInv, CopyList, Apply, Adjacency, CountTo, RecordOk, Distinct, PointerSet;
    var ph, t := s.PhaseOf(a), Apply(env, s, a, Commit);
    CommitPages(env, s, a);
    MergeProperties(env, ph.job.of, ph.job.mode, ph.expected, ph.job.added);
    PlanStorable(env, s, ph.job, ph.expected);
    assert s.PageAt(ph.job.of.block) != [];
    forall x: ItemPointer | t.Exists(x) ensures RecordOk(env, t, x) {
      assert s.Exists(x) && RecordOk(env, s, x);
      if x == ph.job.of {
        RecordEdited(env, s, t, x, ph.plan);
      } else {
        RecordStays(env, s, t, x);
      }
    }
  }

  lemma RecordStays(env: Env, s: State, t: State, x: ItemPointer)
    requires s.Exists(x) && t.Exists(x) && RecordOk(env, s, x)
    requires SameButTombstone(s.At(x), t.At(x))
    requires forall y: ItemPointer :: s.Exists(y) ==> t.Exists(y)
    ensures RecordOk(env, t, x)
  {
    hide Adjacency;
  }

  lemma RecordEdited(env: Env, s: State, t: State, x: ItemPointer, plan: Merged)
    requires s.Exists(x) && t.Exists(x) && RecordOk(env, s, x)
    requires t.At(x) == s.At(x).(slots := t.At(x).slots) && |t.At(x).slots| == |s.At(x).slots|
    requires t.ListOf(x) == PointersOf(plan.neighbors)
    requires Distinct(PointersOf(plan.neighbors)) && x !in PointersOf(plan.neighbors)
    requires forall y :: y in PointersOf(plan.neighbors) ==> t.Exists(y)
    ensures RecordOk(env, t, x)
  {
    hide Adjacency;
  }

  // ----- counting changes -----

  lemma {:induction false} CountToAppend(log: seq<Change>, c: Change, n: nat, x: ItemPointer)
    requires n <= |log|
    ensures CountTo(log + [c], n, x) == CountTo(log, n, x)
  {
    if n == 0 {
    } else {
      CountToAppend(log, c, n - 1, x);
    }
  }

  lemma CountToLast(log: seq<Change>, c: Change, x: ItemPointer)
    ensures CountTo(log + [c], |log| + 1, x) == CountTo(log, |log|, x) + if c.node == x then 1 else 0
  {
    CountToAppend(log, c, |log|, x);
  }

  /** One change was logged, by `a`, and only its node has a new list. */
  ghost predicate OneChange(s: State, t: State, a: nat, c: Change)
    requires forall x: ItemPointer :: s.Exists(x) ==> t.Exists(x)
  {
    && c.actor == a
    && t.log == s.log + [c]
    && forall x: ItemPointer :: s.Exists(x) && x != c.node ==> t.ListOf(x) == s.ListOf(x)
  }

  /** How a step may change lists and the log, as others see it. */
  ghost predicate Logged(s: State, t: State, a: nat) {
    && (forall x: ItemPointer :: s.Exists(x) ==> t.Exists(x))
    && (|| (t.log == s.log && forall x: ItemPointer :: s.Exists(x) ==> t.ListOf(x) == s.ListOf(x))
        || (exists c: Change :: OneChange(s, t, a, c)))
  }

  lemma SameLists(env: Env, s: State, t: State, a: nat, step: Step)
    requires PageEffect(env, s, t, a, step) && !step.Commit?
    ensures forall x: ItemPointer :: s.Exists(x) ==> t.Exists(x) && t.ListOf(x) == s.ListOf(x)
  {
    hide Adjacency;
    forall x: ItemPointer | s.Exists(x) ensures t.Exists(x) && t.ListOf(x) == s.ListOf(x) {
      assert SameButTombstone(s.At(x), t.At(x));
    }
  }

  lemma StepLogged(env: Env, s: State, a: nat, step: Step)
    requires LockInv(s) && GraphInv(env, s) && Enabled(env, s, a, step)
    requires a in s.phases ==> PhaseOk(env, s, a)
    ensures Logged(s, Apply(env, s, a, step), a)
  {
    hide Merge, LockInv, RecordOk, CountTo, CopyList, Edited, Tombstoned, Adjacency, WithAdjacency, NewRecord, JobOk;
    var ph, t := s.PhaseOf(a), Apply(env, s, a, step);
    if step.Commit? {
      CommitPages(env, s, a);
      var x, list := ph.job.of, PointersOf(ph.plan.neighbors);
      if list == ph.expected {
        assert t.ListOf(x) == s.ListOf(x);
      } else {
        var c := Change(a, x, ph.expected, list);
        assert OneChange(s, t, a, c);
      }
    } else {
      StepPages(env, s, a, step);
      SameLists(env, s, t, a, step);
    }
  }

  lemma PhaseSurvives(env: Env, s: State, t: State, a: nat, c: nat)
    requires c in s.phases && PhaseOk(env, s, c) && c in t.phases && t.phases[c] == s.phases[c]
    requires c != a && Logged(s, t, a)
    ensures PhaseOk(env, t, c)
  {
    hide Merge, CountTo, Adjacency;
    var ph := s.phases[c];
    if ph.Active() {
      var of := ph.job.of;
      if t.log != s.log {
        var ch :| OneChange(s, t, a, ch);
        CountToAppend(s.log, ch, ph.since, of);
        CountToLast(s.log, ch, of);
        if !ph.Top? {
          CountToAppend(s.log, ch, ph.seen, of);
        }
      }
    }
  }

  lemma OwnPhase(env: Env, s: State, a: nat, step: Step)
    requires LockInv(s) && Enabled(env, s, a, step)
    requires forall b :: b in s.pages ==> b < INVALID_BLOCK
    requires forall x: ItemPointer :: s.Exists(x) ==> RecordOk(env, s, x)
    requires a in s.phases ==> PhaseOk(env, s, a)
    ensures PhaseOk(env, Apply(env, s, a, step), a)
  {
    hide Merge, CountTo, Adjacency, LockInv, Edited, Tombstoned, WithAdjacency, NewRecord;
    var ph, t := s.PhaseOf(a), Apply(env, s, a, step);
    if step.Mismatch? {
      CopyIsCurrent(s, a);
    } else if step.Snapshot? {
      assert RecordOk(env, s, ph.job.of);
    }
  }

  lemma StepKeepsPhases(env: Env, s: State, a: nat, step: Step)
    requires Inv(env, s) && Enabled(env, s, a, step)
    ensures var t := Apply(env, s, a, step); forall c :: c in t.phases ==> PhaseOk(env, t, c)
  {
    hide Merge, LockInv, LedgerInv, Logged, PhaseOk, CopyList, Edited, Tombstoned, Adjacency, WithAdjacency,
      NewRecord, JobOk, RecordOk;
    var t := Apply(env, s, a, step);
    OwnPhase(env, s, a, step);
    StepLogged(env, s, a, step);
    forall c | c in t.phases ensures PhaseOk(env, t, c) {
      if c != a {
        PhaseSurvives(env, s, t, a, c);
      }
    }
  }

  lemma StepKeepsLedger(env: Env, s: State, a: nat, step: Step)
    requires Inv(env, s) && Enabled(env, s, a, step)
    ensures LedgerInv(Apply(env, s, a, step))
  {
    hide Merge, LockInv, CopyList, Edited, Tombstoned, Adjacency, RecordOk, CountTo, JobOk, ToSet, NewRecord, LedgerAt;
    var ph, t := s.PhaseOf(a), Apply(env, s, a, step);
    if step.Commit? {
      assert PhaseOk(env, s, a);
      CommitKeepsLedger(env, s, a);
    } else {
      StepPages(env, s, a, step);
      SameLists(env, s, t, a, step);
      assert t.contributed == s.contributed && t.prunedAt == s.prunedAt;
      forall x: ItemPointer | t.Exists(x) ensures LedgerAt(t, x) {
        if s.Exists(x) {
          LedgerSame(s, t, x);
        } else {
          LedgerNew(env, s, t, x);
        }
      }
    }
  }

  lemma CommitBooks(env: Env, s: State, a: nat)
    requires Enabled(env, s, a, Commit)
    ensures var ph, t := s.PhaseOf(a), Apply(env, s, a, Commit);
      && (forall y :: t.Additions(y) == s.Additions(y) + if y == ph.job.of then PointerSet(ph.job.added) else {})
      && (forall y :: y in t.contributed <==> y in s.contributed || y == ph.job.of)
      && (forall y :: y in t.prunedAt <==> y in s.prunedAt || (y == ph.job.of && ph.plan.pruned))
  {
    hide CopyList, Edited;
  }

  lemma CommitKeepsLedger(env: Env, s: State, a: nat)
    requires LockInv(s) && GraphInv(env, s) && Enabled(env, s, a, Commit) && PhaseOk(env, s, a)
    requires LedgerInv(s)
    ensures LedgerInv(Apply(env, s, a, Commit))
  {
    hide Merge, LockInv, RecordOk, GraphInv, CountTo, LedgerAt, ToSet, PointerSet, Distinct, Apply, CopyList,
      State.Additions, Adjacency, SameButTombstone, NewRecord;
    var ph, t := s.PhaseOf(a), Apply(env, s, a, Commit);
    var x := ph.job.of;
    CommitPages(env, s, a);
    CommitBooks(env, s, a);
    MergeProperties(env, x, ph.job.mode, ph.expected, ph.job.added);
    forall y: ItemPointer | t.Exists(y) ensures LedgerAt(t, y) {
      assert s.Exists(y) && LedgerAt(s, y);
      if y == x {
        LedgerGrows(s, t, x, ph.job, ph.plan);
      } else {
        LedgerSame(s, t, y);
      }
    }
  }

  lemma LedgerSame(s: State, t: State, y: ItemPointer)
    requires s.Exists(y) && t.Exists(y) && LedgerAt(s, y)
    requires t.ListOf(y) == s.ListOf(y) && t.Additions(y) == s.Additions(y) && (y in t.prunedAt <==> y in s.prunedAt)
    ensures LedgerAt(t, y)
  {
  }

  lemma LedgerNew(env: Env, s: State, t: State, x: ItemPointer)
    requires LedgerInv(s) && !s.Exists(x) && t.Exists(x) && t.contributed == s.contributed
    requires exists heap :: t.At(x) == NewRecord(env, x, heap)
    ensures LedgerAt(t, x)
  {
    assert t.ListOf(x) == [];
  }

  lemma LedgerGrows(s: State, t: State, x: ItemPointer, job: Job, plan: Merged)
    requires s.Exists(x) && t.Exists(x) && LedgerAt(s, x)
    requires t.ListOf(x) == PointersOf(plan.neighbors)
    requires t.Additions(x) == s.Additions(x) + PointerSet(job.added)
    requires x in t.prunedAt <==> x in s.prunedAt || plan.pruned
    requires var all := ToSet(s.ListOf(x)) + PointerSet(job.added) - {x};
      PointerSet(plan.neighbors) <= all && (!plan.pruned ==> PointerSet(plan.neighbors) == all)
    ensures LedgerAt(t, x)
  {
    hide Adjacency;
    assert ToSet(t.ListOf(x)) == PointerSet(plan.neighbors);
  }

  // ----- the theorems, over whole runs -----

  lemma StepKeepsInv(env: Env, s: State, a: nat, step: Step)
    requires Inv(env, s) && Enabled(env, s, a, step)
    ensures Inv(env, Apply(env, s, a, step))
  {
    hide LockInv, GraphInv, PhaseOk, LedgerInv, Apply, Enabled, LogInv;
    StepKeepsPhases(env, s, a, step);
    StepKeepsLocks(env, s, a, step);
    StepKeepsGraph(env, s, a, step);
    StepKeepsLedger(env, s, a, step);
    StepKeepsLog(env, s, a, step);
  }

  lemma StepKeepsLog(env: Env, s: State, a: nat, step: Step)
    requires LogInv(s) && Enabled(env, s, a, step)
    ensures LogInv(Apply(env, s, a, step))
  {
    hide Merge, CopyList, Edited, JobOk;
  }

  datatype Event = Event(actor: nat, step: Step)

  /** A run from an empty index: any interleaving of the backends' steps. */
  ghost predicate IsRun(env: Env, states: seq<State>, events: seq<Event>) {
    && |states| == |events| + 1
    && Init(states[0])
    && forall i :: 0 <= i < |events| ==>
         && Enabled(env, states[i], events[i].actor, events[i].step)
         && states[i + 1] == Apply(env, states[i], events[i].actor, events[i].step)
  }

  /** The graph is well formed in every state of every run. */
  lemma {:induction false} RunKeepsInv(env: Env, states: seq<State>, events: seq<Event>, i: nat)
    requires IsRun(env, states, events) && i < |states|
    ensures Inv(env, states[i])
  {
    hide Enabled, Apply;
    if i == 0 {
      hide PhaseOk, RecordOk;
    } else {
      RunKeepsInv(env, states, events, i - 1);
      hide Inv, IsRun;
      RunStep(env, states, events, i - 1);
      StepKeepsInv(env, states[i - 1], events[i - 1].actor, events[i - 1].step);
    }
  }

  lemma RunStep(env: Env, states: seq<State>, events: seq<Event>, i: nat)
    requires IsRun(env, states, events) && i < |events|
    ensures |states| == |events| + 1
    ensures Enabled(env, states[i], events[i].actor, events[i].step)
    ensures states[i + 1] == Apply(env, states[i], events[i].actor, events[i].step)
  {
  }

  /** In every interleaving a successful compare-and-replace writes the merge of
      the list that is on the page just before it with the writer's original
      additions, and changes nothing else in the index. */
  lemma CommitWritesMerge(env: Env, states: seq<State>, events: seq<Event>, i: nat)
    requires IsRun(env, states, events) && i < |events| && events[i].step.Commit?
    ensures var s, t, ph := states[i], states[i + 1], states[i].PhaseOf(events[i].actor);
      && ph.Editing? && JobOk(env, s, ph.job) && t.Exists(ph.job.of)
      && t.ListOf(ph.job.of)
         == PointersOf(Merge(env, ph.job.of, ph.job.mode, s.ListOf(ph.job.of), ph.job.added).neighbors)
      && t.At(ph.job.of).vector == s.At(ph.job.of).vector
      && t.At(ph.job.of).labels == s.At(ph.job.of).labels
      && t.At(ph.job.of).heap == s.At(ph.job.of).heap
      && forall x: ItemPointer :: s.Exists(x) && x != ph.job.of ==> t.Exists(x) && t.At(x) == s.At(x)
  {
    hide Merge, LockInv, GraphInv, LedgerInv, Apply, Adjacency, CountTo;
    var s, a := states[i], events[i].actor;
    RunKeepsInv(env, states, events, i);
    RunStep(env, states, events, i);
    assert PhaseOk(env, s, a);
    CommitPages(env, s, a);
  }

  /** Between taking the lock and deciding, a writer never fails an assertion:
      it either finds its snapshot stale or can replace the list. */
  lemma EditingDecides(env: Env, states: seq<State>, events: seq<Event>, i: nat, a: nat)
    requires IsRun(env, states, events) && i < |states| && states[i].PhaseOf(a).Editing?
    ensures Enabled(env, states[i], a, Mismatch) <==> !Enabled(env, states[i], a, Commit)
  {
    hide IsRun, Apply;
    RunKeepsInv(env, states, events, i);
    EditingIsReady(env, states[i], a);
  }

  lemma EditingIsReady(env: Env, s: State, a: nat)
    requires Inv(env, s) && s.PhaseOf(a).Editing?
    ensures Enabled(env, s, a, Mismatch) <==> !Enabled(env, s, a, Commit)
  {
    hide Merge, LockInv, LedgerInv, Adjacency, CountTo, Distinct, PointerSet, ToSet;
    var ph := s.PhaseOf(a);
    assert PhaseOk(env, s, a);
    CopyIsCurrent(s, a);
    assert RecordOk(env, s, ph.job.of);
    MergeProperties(env, ph.job.of, ph.job.mode, ph.expected, ph.job.added);
  }

  /** The additions of every commit to `x` among the first `n` events. */
  ghost function Contributed(states: seq<State>, events: seq<Event>, n: nat, x: ItemPointer): set<ItemPointer>
    requires n <= |events| < |states|
  {
    if n == 0 then {}
    else
      var ph := states[n - 1].PhaseOf(events[n - 1].actor);
      Contributed(states, events, n - 1, x)
      + if events[n - 1].step.Commit? && ph.Editing? && ph.job.of == x then PointerSet(ph.job.added) else {}
  }

  /** What has been contributed is what commits have added. */
  lemma {:induction false} ContributedIsAdded(states: seq<State>, events: seq<Event>, n: nat, x: ItemPointer,
                                              y: ItemPointer)
    requires n <= |events| < |states|
    ensures y in Contributed(states, events, n, x) <==> exists m :: 0 <= m < n && Adds(states, events, m, x, y)
  {
    hide PointerSet;
    if n == 0 {
    } else {
      ContributedIsAdded(states, events, n - 1, x, y);
      if y in Contributed(states, events, n, x) && y !in Contributed(states, events, n - 1, x) {
        assert Adds(states, events, n - 1, x, y);
      }
    }
  }

  ghost predicate PrunedBefore(states: seq<State>, events: seq<Event>, n: nat, x: ItemPointer)
    requires n <= |events| < |states|
  {
    exists k :: 0 <= k < n && events[k].step.Commit? && states[k].PhaseOf(events[k].actor).Editing?
      && states[k].PhaseOf(events[k].actor).job.of == x && states[k].PhaseOf(events[k].actor).plan.pruned
  }

  lemma {:induction false} BooksAreRight(env: Env, states: seq<State>, events: seq<Event>, n: nat, x: ItemPointer)
    requires IsRun(env, states, events) && n <= |events|
    ensures states[n].Additions(x) == Contributed(states, events, n, x)
    ensures x in states[n].prunedAt <==> PrunedBefore(states, events, n, x)
  {
    hide Enabled, Apply, PointerSet;
    if n == 0 {
    } else {
      BooksAreRight(env, states, events, n - 1, x);
      StepBooks(env, states[n - 1], events[n - 1].actor, events[n - 1].step, x);
    }
  }

  lemma StepBooks(env: Env, s: State, a: nat, step: Step, x: ItemPointer)
    requires Enabled(env, s, a, step)
    ensures var ph, t := s.PhaseOf(a), Apply(env, s, a, step);
      var here := step.Commit? && ph.Editing? && ph.job.of == x;
      && t.Additions(x) == s.Additions(x) + (if here then PointerSet(ph.job.added) else {})
      && (x in t.prunedAt <==> x in s.prunedAt || (here && ph.plan.pruned))
  {
    hide Merge, CopyList, Edited, JobOk;
  }

  /** No lost update. In every run a node's list holds only pointers that some
      commit to it added, never the node itself; and if no commit to it pruned,
      the list holds all of them. */
  lemma NoLostUpdate(env: Env, states: seq<State>, events: seq<Event>, n: nat, x: ItemPointer)
    requires IsRun(env, states, events) && n <= |events| && states[n].Exists(x)
    ensures ToSet(states[n].ListOf(x)) <= Contributed(states, events, n, x) - {x}
    ensures !PrunedBefore(states, events, n, x) ==>
      ToSet(states[n].ListOf(x)) == Contributed(states, events, n, x) - {x}
  {
    hide Enabled, Apply, Contributed, PrunedBefore, LockInv, GraphInv, PhaseOk, Adjacency;
    RunKeepsInv(env, states, events, n);
    BooksAreRight(env, states, events, n, x);
    assert LedgerAt(states[n], x);
  }

  /** Event `k` commits to `x` a pruned list without `y`, which was in the list
      before it or among its additions. */
  ghost predicate Drops(states: seq<State>, events: seq<Event>, k: nat, x: ItemPointer, y: ItemPointer)
    requires k < |events| < |states|
  {
    var s, t, ph := states[k], states[k + 1], states[k].PhaseOf(events[k].actor);
    && events[k].step.Commit? && ph.Editing? && ph.job.of == x && ph.plan.pruned
    && s.Exists(x) && t.Exists(x)
    && (y in s.ListOf(x) || y in PointerSet(ph.job.added))
    && y !in t.ListOf(x)
  }

  /** What a commit does to the membership of one pointer. */
  lemma CommitKeepsMember(env: Env, s: State, a: nat, y: ItemPointer)
    requires Inv(env, s) && Enabled(env, s, a, Commit)
    requires var ph := s.PhaseOf(a); y != ph.job.of && !ph.plan.pruned
    requires var ph := s.PhaseOf(a);
      s.Exists(ph.job.of) && (y in s.ListOf(ph.job.of) || y in PointerSet(ph.job.added))
    ensures var x, t := s.PhaseOf(a).job.of, Apply(env, s, a, Commit); t.Exists(x) && y in t.ListOf(x)
  {
    hide Merge, LockInv, GraphInv, LedgerInv, Apply, Adjacency, CountTo, CopyList;
    var ph := s.PhaseOf(a);
    assert PhaseOk(env, s, a);
    CommitPages(env, s, a);
    MergeProperties(env, ph.job.of, ph.job.mode, ph.expected, ph.job.added);
    assert y in PointerSet(ph.plan.neighbors);
  }

  /** Event `m` is a commit to `x` with `y` among its additions. */
  ghost predicate Adds(states: seq<State>, events: seq<Event>, m: nat, x: ItemPointer, y: ItemPointer)
    requires m < |events| < |states|
  {
    var ph := states[m].PhaseOf(events[m].actor);
    events[m].step.Commit? && ph.Editing? && ph.job.of == x && y in PointerSet(ph.job.added)
  }

  /** Every single addition counts: if a list lacks what some commit added to it,
      that commit or a later one pruned, had it before it, and dropped it. */
  lemma {:induction false} LossesArePruned(env: Env, states: seq<State>, events: seq<Event>, m: nat, n: nat,
                                           x: ItemPointer, y: ItemPointer)
    requires IsRun(env, states, events) && m < n <= |events| && Adds(states, events, m, x, y) && y != x
    requires states[n].Exists(x) ==> y !in states[n].ListOf(x)
    ensures states[n].Exists(x)
    ensures exists k :: m <= k < n && Drops(states, events, k, x, y)
    decreases n
  {
    assert |states| == |events| + 1;
    hide Enabled, Apply, Inv, Adjacency, IsRun, Adds, Drops, State.ListOf, State.Exists;
    AddedNodeStays(env, states, events, m, n - 1, x, y);
    AddedNodeStays(env, states, events, m, n, x, y);
    if y in states[n - 1].ListOf(x) || Adds(states, events, n - 1, x, y) {
      MissingIsDropped(env, states, events, n - 1, x, y);
    } else {
      assert m < n - 1;
      LossesArePruned(env, states, events, m, n - 1, x, y);
    }
  }

  lemma MissingIsDropped(env: Env, states: seq<State>, events: seq<Event>, k: nat, x: ItemPointer, y: ItemPointer)
    requires IsRun(env, states, events) && k < |events| && y != x
    requires states[k].Exists(x) && (y in states[k].ListOf(x) || Adds(states, events, k, x, y))
    requires states[k + 1].Exists(x) && y !in states[k + 1].ListOf(x)
    ensures Drops(states, events, k, x, y)
  {
    assert |states| == |events| + 1;
    hide Enabled, Apply, LockInv, GraphInv, PhaseOk, Adjacency, LedgerInv, LogInv, PointerSet, IsRun;
    var e, s := events[k], states[k];
    RunKeepsInv(env, states, events, k);
    RunStep(env, states, events, k);
    hide Inv;
    if !e.step.Commit? {
      OnlyCommitsChangeLists(env, states, events, k, x);
    } else {
      CommitHere(env, s, e.actor);
      if s.PhaseOf(e.actor).job.of != x {
        CommitElsewhere(env, s, e.actor, x);
      } else if !s.PhaseOf(e.actor).plan.pruned {
        CommitKeepsMember(env, s, e.actor, y);
      }
    }
  }

  lemma AddedNodeStays(env: Env, states: seq<State>, events: seq<Event>, m: nat, n: nat, x: ItemPointer, y: ItemPointer)
    requires IsRun(env, states, events) && m <= n <= |events| && m < |events| && Adds(states, events, m, x, y)
    ensures states[n].Exists(x)
  {
    assert |states| == |events| + 1;
    hide Enabled, Apply, Inv, IsRun;
    RunKeepsInv(env, states, events, m);
    RunStep(env, states, events, m);
    CommitHere(env, states[m], events[m].actor);
    RunEvolves(env, states, events, m, n);
  }

  lemma CommitHere(env: Env, s: State, a: nat)
    requires Inv(env, s) && Enabled(env, s, a, Commit)
    ensures s.PhaseOf(a).Editing? && s.Exists(s.PhaseOf(a).job.of)
  {
    hide Merge, LockInv, GraphInv, LedgerInv, Apply, Adjacency, CountTo, CopyList;
    assert PhaseOk(env, s, a);
  }

  lemma CommitElsewhere(env: Env, s: State, a: nat, x: ItemPointer)
    requires Inv(env, s) && Enabled(env, s, a, Commit) && s.Exists(x) && x != s.PhaseOf(a).job.of
    ensures Apply(env, s, a, Commit).Exists(x) && Apply(env, s, a, Commit).ListOf(x) == s.ListOf(x)
  {
    hide Merge, LockInv, GraphInv, LedgerInv, Apply, Adjacency, CountTo, CopyList;
    assert PhaseOk(env, s, a);
    CommitPages(env, s, a);
  }

  /** A dropped edge has a reason: unless the list then fills the degree bound,
      it holds a neighbour that rules the dropped one out. */
  lemma LossesHaveReasons(env: Env, states: seq<State>, events: seq<Event>, k: nat, x: ItemPointer, y: ItemPointer)
    returns (last: real)
    requires IsRun(env, states, events) && k < |events| && Drops(states, events, k, x, y) && y != x
    requires env.maxAlpha >= 1.0
    ensures LastAlpha(env.maxAlpha, last)
    ensures |states[k + 1].ListOf(x)| < env.numNeighbors ==>
      var list, added := states[k].ListOf(x), states[k].PhaseOf(events[k].actor).job.added;
      exists c: Candidate, d: Candidate ::
        && c.pointer == y && d.pointer in states[k + 1].ListOf(x)
        && OneOf(env, x, list, added, c) && OneOf(env, x, list, added, d)
        && RuledOutBy(env.PruneParams(x), c, d, last)
  {
    assert |states| == |events| + 1;
    hide Merge, LockInv, GraphInv, LedgerInv, Apply, Adjacency, CountTo, IsRun, RuledOutBy, Enabled;
    CommitWritesMerge(env, states, events, k);
    var job := states[k].PhaseOf(events[k].actor).job;
    var list, m := states[k].ListOf(x), Merge(env, x, job.mode, states[k].ListOf(x), job.added);
    last := DropHasReason(env, x, job.mode, list, job.added, y);
    if |m.neighbors| < env.numNeighbors {
      var c: Candidate, d: Candidate :| c.pointer == y && OneOf(env, x, list, job.added, c)
        && d in m.neighbors && RuledOutBy(env.PruneParams(x), c, d, last);
      MergeProperties(env, x, job.mode, list, job.added);
      assert OneOf(env, x, list, job.added, d);
      var i :| 0 <= i < |m.neighbors| && m.neighbors[i] == d;
      assert PointersOf(m.neighbors)[i] == d.pointer;
    }
  }

  /** Every retry is paid for: a writer's retries never exceed the number of
      commits that changed its node since it began, none of them its own. */
  lemma RetriesArePaidFor(env: Env, states: seq<State>, events: seq<Event>, i: nat, a: nat)
    requires IsRun(env, states, events) && i < |states| && states[i].PhaseOf(a).Active()
    ensures var s, ph := states[i], states[i].PhaseOf(a);
      && ph.since <= |s.log|
      && ph.retries <= CountTo(s.log, |s.log|, ph.job.of) - CountTo(s.log, ph.since, ph.job.of)
      && forall k :: ph.since <= k < |s.log| ==> s.log[k].actor != a && s.log[k].before != s.log[k].after
  {
    hide IsRun, LockInv, GraphInv, LedgerInv, Merge, CountTo;
    RunKeepsInv(env, states, events, i);
    assert PhaseOk(env, states[i], a);
  }

  /** What no run ever undoes: written nodes stay, their vectors and labels
      never change, and a heap pointer changes only to a tombstone. */
  ghost predicate Evolves(s: State, t: State) {
    forall x: ItemPointer :: s.Exists(x) ==>
      && t.Exists(x)
      && t.At(x).vector == s.At(x).vector
      && t.At(x).labels == s.At(x).labels
      && (t.At(x).heap == s.At(x).heap || t.At(x).heap == INVALID_POINTER)
  }

  lemma StepEvolves(env: Env, s: State, a: nat, step: Step)
    requires Inv(env, s) && Enabled(env, s, a, step)
    ensures Evolves(s, Apply(env, s, a, step))
  {
    hide Merge, LockInv, GraphInv, LedgerInv, Apply, Adjacency, CountTo, Enabled;
    if step.Commit? {
      CommitEvolves(env, s, a);
    } else {
      StepPages(env, s, a, step);
      forall x: ItemPointer | s.Exists(x) ensures SameButTombstone(s.At(x), Apply(env, s, a, step).At(x)) {
      }
    }
  }

  lemma CommitEvolves(env: Env, s: State, a: nat)
    requires Inv(env, s) && Enabled(env, s, a, Commit)
    ensures Evolves(s, Apply(env, s, a, Commit))
  {
    hide Merge, LockInv, GraphInv, LedgerInv, Apply, Adjacency, CountTo, CopyList;
    assert PhaseOk(env, s, a);
    CommitPages(env, s, a);
  }

  lemma {:induction false} RunEvolves(env: Env, states: seq<State>, events: seq<Event>, i: nat, j: nat)
    requires IsRun(env, states, events) && i <= j < |states|
    ensures Evolves(states[i], states[j])
    decreases j - i
  {
    hide Apply, Enabled;
    if i == j {
    } else {
      RunEvolves(env, states, events, i, j - 1);
      RunKeepsInv(env, states, events, j - 1);
      hide Inv;
      StepEvolves(env, states[j - 1], events[j - 1].actor, events[j - 1].step);
    }
  }

  /** Vacuum, appends and failed attempts leave every neighbour list alone. */
  lemma OnlyCommitsChangeLists(env: Env, states: seq<State>, events: seq<Event>, i: nat, x: ItemPointer)
    requires IsRun(env, states, events) && i < |events| && states[i].Exists(x) && !events[i].step.Commit?
    ensures states[i + 1].Exists(x) && states[i + 1].ListOf(x) == states[i].ListOf(x)
  {
    hide Enabled, Apply, GraphInv, LedgerInv, PhaseOk, Adjacency;
    RunKeepsInv(env, states, events, i);
    StepPages(env, states[i], events[i].actor, events[i].step);
    SameLists(env, states[i], states[i + 1], events[i].actor, events[i].step);
  }

  // ----- what single steps do, over runs -----

  /** Vacuum tombstones the dead nodes of its page and no others, and nothing else
      changes a heap pointer. */
  lemma VacuumDeletesExactly(env: Env, states: seq<State>, events: seq<Event>, i: nat, x: ItemPointer)
    requires IsRun(env, states, events) && i < |events| && states[i].Exists(x)
    ensures states[i + 1].Exists(x)
    ensures var ph, step := states[i].PhaseOf(events[i].actor), events[i].step;
      states[i + 1].At(x).heap ==
        if step.VacuumCommit? && ph.Vacuuming? && ph.block == x.block && x.offset - 1 in step.dead
        then INVALID_POINTER
        else states[i].At(x).heap
  {
    assert |states| == |events| + 1;
    hide IsRun, Apply, Enabled, LedgerInv, GraphInv, LogInv, Adjacency, CountTo, Merge;
    RunKeepsInv(env, states, events, i);
    RunStep(env, states, events, i);
    var s, a, step := states[i], events[i].actor, events[i].step;
    if step.Commit? {
      CommitHere(env, s, a);
      assert PhaseOk(env, s, a);
      CommitPages(env, s, a);
    } else {
      StepPages(env, s, a, step);
      if step.VacuumCommit? {
        VacuumMarks(env, s, a, step.dead, x);
      }
    }
  }

  lemma VacuumMarks(env: Env, s: State, a: nat, dead: set<nat>, x: ItemPointer)
    requires LockInv(s) && Enabled(env, s, a, VacuumCommit(dead)) && s.Exists(x)
    ensures var t := Apply(env, s, a, VacuumCommit(dead));
      t.Exists(x) && t.At(x).heap ==
        if s.PhaseOf(a).block == x.block && x.offset - 1 in dead then INVALID_POINTER else s.At(x).heap
  {
    hide LockInv;
    CopyIsCurrent(s, a);
  }

  /** An append writes one new node, with the vector, the labels and the heap
      pointer of the row and without neighbours, behind those on its page. */
  lemma AppendWritesNode(env: Env, states: seq<State>, events: seq<Event>, i: nat)
    requires IsRun(env, states, events) && i < |events| && events[i].step.AppendCommit?
    requires states[i].PhaseOf(events[i].actor).Appending?
    ensures var s, t, block := states[i], states[i + 1], states[i].PhaseOf(events[i].actor).block;
      var x := ItemPointer(block, |s.PageAt(block)| + 1);
      && !s.Exists(x) && t.Exists(x)
      && t.At(x).vector == env.vectorOf(x) && t.At(x).labels == env.GetLabels(x)
      && t.At(x).heap == events[i].step.heap && t.ListOf(x) == []
      && forall y: ItemPointer :: t.Exists(y) && y != x ==> s.Exists(y) && t.At(y) == s.At(y)
  {
    hide LedgerInv, GraphInv, LogInv, CountTo, PhaseOk;
    RunKeepsInv(env, states, events, i);
    CopyIsCurrent(states[i], events[i].actor);
  }

  lemma OwnJob(env: Env, s: State, a: nat, step: Step)
    requires Enabled(env, s, a, step) && Apply(env, s, a, step).PhaseOf(a).Active() && !step.Begin?
    ensures s.PhaseOf(a).Active() && Apply(env, s, a, step).PhaseOf(a).job == s.PhaseOf(a).job
    ensures !step.Commit? && !step.Abort?
  {
    hide Merge, CopyList, Edited, Tombstoned, NewRecord, JobOk;
  }

  lemma BegunJob(env: Env, s: State, a: nat, step: Step)
    requires Enabled(env, s, a, step) && step.Begin?
    ensures Apply(env, s, a, step).PhaseOf(a).Active() && Apply(env, s, a, step).PhaseOf(a).job == step.job
  {
    hide Merge, JobOk;
  }

  lemma OtherPhase(env: Env, s: State, a: nat, step: Step, b: nat)
    requires Enabled(env, s, a, step) && b != a
    ensures Apply(env, s, a, step).PhaseOf(b) == s.PhaseOf(b)
  {
    hide Merge, CopyList, Edited, Tombstoned, NewRecord, JobOk;
  }

  /** The job that a writer works on, through all its retries, is the one that it
      began: node, mode and additions. */
  lemma {:induction false} JobIsBegun(env: Env, states: seq<State>, events: seq<Event>, i: nat, a: nat)
    requires IsRun(env, states, events) && i <= |events| && states[i].PhaseOf(a).Active()
    ensures exists m :: 0 <= m < i && BeganAt(events, m, i, a, states[i].PhaseOf(a).job)
  {
    if i == 0 {
    } else {
      assert |states| == |events| + 1;
      RunStep(env, states, events, i - 1);
      hide Enabled, Apply, BeganAt;
      if events[i - 1].actor == a && events[i - 1].step.Begin? {
        BegunJob(env, states[i - 1], a, events[i - 1].step);
        BeginsHere(events, i - 1, a);
      } else {
        SameJob(env, states[i - 1], events[i - 1].actor, events[i - 1].step, a);
        JobIsBegun(env, states, events, i - 1, a);
        hide IsRun;
        var job := states[i].PhaseOf(a).job;
        var m :| 0 <= m < i - 1 && BeganAt(events, m, i - 1, a, job);
        BeganBefore(events, m, i, a, job);
      }
    }
  }

  /** Actor `a` began this job at event `m`, and has not ended it before event `i`. */
  ghost predicate BeganAt(events: seq<Event>, m: nat, i: nat, a: nat, job: Job)
    requires m < i <= |events|
  {
    && events[m] == Event(a, Begin(job))
    && forall k :: m < k < i && events[k].actor == a ==>
         !events[k].step.Begin? && !events[k].step.Commit? && !events[k].step.Abort?
  }

  lemma BeginsHere(events: seq<Event>, m: nat, a: nat)
    requires m < |events| && events[m].actor == a && events[m].step.Begin?
    ensures BeganAt(events, m, m + 1, a, events[m].step.job)
  {
  }

  lemma BeganBefore(events: seq<Event>, m: nat, i: nat, a: nat, job: Job)
    requires m < i - 1 < |events| && BeganAt(events, m, i - 1, a, job)
    requires events[i - 1].actor == a ==>
      !events[i - 1].step.Begin? && !events[i - 1].step.Commit? && !events[i - 1].step.Abort?
    ensures BeganAt(events, m, i, a, job)
  {
  }

  lemma SameJob(env: Env, s: State, a: nat, step: Step, b: nat)
    requires Enabled(env, s, a, step) && Apply(env, s, a, step).PhaseOf(b).Active()
    requires a == b ==> !step.Begin?
    ensures s.PhaseOf(b).Active() && Apply(env, s, a, step).PhaseOf(b).job == s.PhaseOf(b).job
    ensures a == b ==> !step.Commit? && !step.Abort?
  {
    hide Enabled, Apply;
    if a == b {
      OwnJob(env, s, a, step);
    } else {
      OtherPhase(env, s, a, step, b);
    }
  }

  // ----- lists with room for everything -----

  /** No commit to `x` so far came from an eviction, which always prunes. */
  ghost predicate NoEviction(states: seq<State>, events: seq<Event>, n: nat, x: ItemPointer)
    requires n <= |events| < |states|
  {
    forall k :: 0 <= k < n && CommitsTo(states, events, k, x) ==>
      states[k].PhaseOf(events[k].actor).job.mode != Mode.Builder(true)
  }

  ghost predicate CommitsTo(states: seq<State>, events: seq<Event>, k: nat, x: ItemPointer)
    requires k < |events| < |states|
  {
    var ph := states[k].PhaseOf(events[k].actor);
    events[k].step.Commit? && ph.Editing? && ph.job.of == x
  }

  lemma {:induction false} ContributionsGrow(states: seq<State>, events: seq<Event>, m: nat, n: nat, x: ItemPointer)
    requires m <= n <= |events| < |states|
    ensures Contributed(states, events, m, x) <= Contributed(states, events, n, x)
    decreases n
  {
    hide PointerSet;
    if m == n {
    } else {
      ContributionsGrow(states, events, m, n - 1, x);
    }
  }

  /** While the degree bound has room for all that was ever added to a node, and
      no eviction pruned it, its list holds all of that. */
  lemma SmallListsKeepAll(env: Env, states: seq<State>, events: seq<Event>, n: nat, x: ItemPointer)
    requires IsRun(env, states, events) && n <= |events| && states[n].Exists(x)
    requires |Contributed(states, events, n, x) - {x}| <= env.numNeighbors && NoEviction(states, events, n, x)
    ensures ToSet(states[n].ListOf(x)) == Contributed(states, events, n, x) - {x}
  {
    assert |states| == |events| + 1;
    hide IsRun, Contributed, Adjacency, Enabled, Apply, NoEviction;
    if PrunedBefore(states, events, n, x) {
      var k :| 0 <= k < n && CommitsTo(states, events, k, x) && states[k].PhaseOf(events[k].actor).plan.pruned;
      PruningNeeds(env, states, events, k, n, x);
    }
    hide PrunedBefore;
    NoLostUpdate(env, states, events, n, x);
  }

  lemma PruningNeeds(env: Env, states: seq<State>, events: seq<Event>, k: nat, n: nat, x: ItemPointer)
    requires IsRun(env, states, events) && k < n <= |events| && NoEviction(states, events, n, x)
    requires CommitsTo(states, events, k, x) && states[k].PhaseOf(events[k].actor).plan.pruned
    ensures |Contributed(states, events, n, x) - {x}| > env.numNeighbors
  {
    assert |states| == |events| + 1;
    var s, ph := states[k], states[k].PhaseOf(events[k].actor);
    RunStep(env, states, events, k);
    RunKeepsInv(env, states, events, k);
    CommitPrunes(env, s, events[k].actor);
    assert ph.job.mode != Mode.Builder(true);
    hide Inv, Adjacency, Apply, Enabled, PointerSet, Contributed, NoEviction, IsRun;
    MergedIsContributed(env, states, events, k, x);
    ContributionsGrow(states, events, k + 1, n, x);
    SubsetSize(ToSet(s.ListOf(x)) + PointerSet(ph.job.added) - {x}, Contributed(states, events, n, x) - {x});
  }

  lemma MergedIsContributed(env: Env, states: seq<State>, events: seq<Event>, k: nat, x: ItemPointer)
    requires IsRun(env, states, events) && k < |events| && CommitsTo(states, events, k, x) && states[k].Exists(x)
    ensures ToSet(states[k].ListOf(x)) + PointerSet(states[k].PhaseOf(events[k].actor).job.added) - {x}
         <= Contributed(states, events, k + 1, x) - {x}
  {
    assert |states| == |events| + 1;
    hide IsRun, Adjacency, PointerSet, PrunedBefore, ToSet;
    NoLostUpdate(env, states, events, k, x);
  }

  /** A commit has pruned exactly if it always does, or the bound left no room. */
  lemma CommitPrunes(env: Env, s: State, a: nat)
    requires Inv(env, s) && Enabled(env, s, a, Commit)
    ensures var ph := s.PhaseOf(a);
      && ph.Editing? && s.Exists(ph.job.of)
      && (ph.plan.pruned <==>
            || ph.job.mode == Mode.Builder(true)
            || |ToSet(s.ListOf(ph.job.of)) + PointerSet(ph.job.added) - {ph.job.of}| > env.numNeighbors)
  {
    hide LockInv, GraphInv, LedgerInv, LogInv, Adjacency, Apply, CountTo, Merge, PointerSet;
    var ph := s.PhaseOf(a);
    CommitHere(env, s, a);
    assert PhaseOk(env, s, a);
    CommitPages(env, s, a);
    MergeProperties(env, ph.job.of, ph.job.mode, ph.expected, ph.job.added);
  }

  lemma SubsetSize<T>(a: set<T>, b: set<T>)
    requires a <= b
    ensures |a| <= |b|
  {
    assert b == a + (b - a);
  }

  // ----- reasons in terms of vectors and labels -----

  /** A dropped edge has a reason that its vectors show, if the additions carried
      the distances and labels of their nodes: unless the list then fills the
      degree bound, it holds a node that outdoes the dropped one. */
  lemma LossesHaveMetricReasons(env: Env, states: seq<State>, events: seq<Event>, k: nat, x: ItemPointer,
                                y: ItemPointer)
    returns (last: real)
    requires IsRun(env, states, events) && k < |events| && Drops(states, events, k, x, y) && y != x
    requires env.maxAlpha >= 1.0
    requires forall c :: c in states[k].PhaseOf(events[k].actor).job.added ==> Measured(env, x, c)
    ensures LastAlpha(env.maxAlpha, last)
    ensures |states[k + 1].ListOf(x)| < env.numNeighbors ==>
      exists d :: d in states[k + 1].ListOf(x) && Outdone(env, x, y, d, last)
  {
    last := LossesHaveReasons(env, states, events, k, x, y);
    hide IsRun, Measured, Outdone, RuledOutBy, Adjacency, LastAlpha;
    var list, added := states[k].ListOf(x), states[k].PhaseOf(events[k].actor).job.added;
    PageRecordsAreMeasured(env, x, list);
    if |states[k + 1].ListOf(x)| < env.numNeighbors {
      var c: Candidate, d: Candidate :|
        && c.pointer == y && d.pointer in states[k + 1].ListOf(x)
        && OneOf(env, x, list, added, c) && OneOf(env, x, list, added, d)
        && RuledOutBy(env.PruneParams(x), c, d, last);
      RuledOutMeansOutdone(env, x, c, d, last);
    }
  }

  /** Label coverage of every commit: a list that is short of the degree bound
      keeps each label of the node that some node in it, or among the additions,
      carried. */
  lemma CommitsCoverLabels(env: Env, states: seq<State>, events: seq<Event>, k: nat, tag: Label, y: ItemPointer)
    requires IsRun(env, states, events) && k < |events| && events[k].step.Commit?
    requires states[k].PhaseOf(events[k].actor).Editing? && states[k].Exists(states[k].PhaseOf(events[k].actor).job.of)
    requires env.hasLabels && env.maxAlpha >= 1.0
    requires var job := states[k].PhaseOf(events[k].actor).job;
      && (forall c :: c in job.added ==> Measured(env, job.of, c))
      && tag in env.labelsOf(job.of) && tag in env.labelsOf(y) && y != job.of
      && (y in states[k].ListOf(job.of) || y in PointerSet(job.added))
    ensures var x, t := states[k].PhaseOf(events[k].actor).job.of, states[k + 1];
      && t.Exists(x)
      && (|t.ListOf(x)| < env.numNeighbors ==> exists d :: d in t.ListOf(x) && tag in env.labelsOf(d))
  {
    CommitWritesMerge(env, states, events, k);
    hide IsRun, Measured, Adjacency, Merge;
    var s, job := states[k], states[k].PhaseOf(events[k].actor).job;
    var m := Merge(env, job.of, job.mode, s.ListOf(job.of), job.added);
    if |m.neighbors| < env.numNeighbors {
      MergeCoversLabels(env, job.of, job.mode, s.ListOf(job.of), job.added, tag, y);
      var d :| d in m.neighbors && tag in env.labelsOf(d.pointer);
      var i :| 0 <= i < |m.neighbors| && m.neighbors[i] == d;
      assert PointersOf(m.neighbors)[i] == d.pointer;
    }
  }
}
