/** The entry points of the graph and the double-checked publication of new
    ones, as a step machine over backends with stale copies of the metadata. */
module EntryPoints {
  import opened Pointers
  import opened Labels
  import opened Sequences
  import Search

  datatype Roots = Roots(defaultNode: ItemPointer, labeled: map<Label, ItemPointer>) {
    predicate ContainsAll(labels: Option<LabelSet>) {
      match labels
      case Some(ls) => forall i :: 0 <= i < |ls| ==> ls[i] in labeled
      case None => true
    }

    /** Where a search starts: the default root, or the roots of its labels. */
    function GetForNode(labels: Option<LabelSet>): seq<ItemPointer> {
      match labels
      case Some(ls) => RootsFor(ls)
      case None => [defaultNode]
    }

    function RootsFor(ls: seq<Label>): seq<ItemPointer> {
      if ls == [] then []
      else (if ls[0] in labeled then [labeled[ls[0]]] else []) + RootsFor(ls[1..])
    }
  }

  /** Where a search starts, in terms of the stored roots: at the default root if
      it has no labels, otherwise at the roots of all its labels that have one;
      nowhere in an empty index. */
  ghost function StartSet(roots: Option<Roots>, labels: Option<LabelSet>): set<ItemPointer> {
    if roots.None? then {}
    else if labels.None? then {roots.value.defaultNode}
    else set l | l in labels.value && l in roots.value.labeled :: roots.value.labeled[l]
  }

  lemma StartsAtRoots(roots: Roots, labels: Option<LabelSet>)
    ensures ToSet(roots.GetForNode(labels)) == StartSet(Some(roots), labels)
  {
    if labels.Some? {
      forall x ensures x in roots.RootsFor(labels.value) <==> x in StartSet(Some(roots), labels) {
        LabelRoot(roots, labels.value, x);
      }
    }
  }

  lemma {:induction false} LabelRoot(roots: Roots, ls: seq<Label>, x: ItemPointer)
    ensures x in roots.RootsFor(ls) <==> exists l :: l in ls && l in roots.labeled && roots.labeled[l] == x
  {
    if ls == [] {
    } else {
      LabelRoot(roots, ls[1..], x);
      assert forall l :: l in ls <==> l == ls[0] || l in ls[1..];
    }
  }

  /** Where greedy_search_streaming_init starts. */
  method ChooseStarts(persisted: Option<Roots>, labels: Option<LabelSet>) returns (starts: seq<ItemPointer>)
    ensures ToSet(starts) == StartSet(persisted, labels)
    ensures forall x :: x in starts ==> x in StartSet(persisted, labels)
  {
    if persisted.None? {
      return [];
    }
    starts := persisted.value.GetForNode(labels);
    StartsAtRoots(persisted.value, labels);
    assert forall x :: x in starts ==> x in ToSet(starts);
  }

  lemma ContainsAllMeans(roots: Roots, labels: Option<LabelSet>)
    ensures roots.ContainsAll(labels) <==> (labels.Some? ==> forall l :: l in labels.value ==> l in roots.labeled)
  {
    if labels.Some? && forall l :: l in labels.value ==> l in roots.labeled {
      assert forall i :: 0 <= i < |labels.value| ==> labels.value[i] in labels.value;
    }
  }

  /** The stored form of the entry points, updated in place. */
  class StartNodes {
    var defaultNode: ItemPointer
    var labeledNodes: map<Label, ItemPointer>

    function Value(): Roots
      reads this
    {
      Roots(defaultNode, labeledNodes)
    }

    constructor (defaultNode: ItemPointer)
      ensures Value() == Roots(defaultNode, map[])
    {
      this.defaultNode := defaultNode;
      labeledNodes := map[];
    }

    constructor Load(roots: Roots)
      ensures Value() == roots
    {
      defaultNode, labeledNodes := roots.defaultNode, roots.labeled;
    }

    method Upsert(l: Label, node: ItemPointer) returns (previous: Option<ItemPointer>)
      modifies this`labeledNodes
      ensures labeledNodes == old(labeledNodes)[l := node]
      ensures previous == if l in old(labeledNodes) then Some(old(labeledNodes)[l]) else None
    {
      previous := if l in labeledNodes then Some(labeledNodes[l]) else None;
      labeledNodes := labeledNodes[l := node];
    }
  }

  /** Roots grow from `a` to `b`: the default stays, no label is lost or rebound. */
  ghost predicate Grows(a: Option<Roots>, b: Option<Roots>) {
    a.Some? ==>
      && b.Some?
      && b.value.defaultNode == a.value.defaultNode
      && forall l :: l in a.value.labeled ==> l in b.value.labeled && b.value.labeled[l] == a.value.labeled[l]
  }

  function RootedAt(ls: seq<Label>, x: ItemPointer): map<Label, ItemPointer> {
    map l | l in ls :: x
  }

  /** What is published for a node with the given labels: it becomes the root of
      whatever has none yet. */
  ghost function Published(current: Option<Roots>, x: ItemPointer, labels: Option<LabelSet>): Roots {
    var base := if current.Some? then current.value else Roots(x, map[]);
    match labels
    case None => base
    case Some(ls) => Roots(base.defaultNode, RootedAt(ls, x) + base.labeled)
  }

  /** The loop over the labels of the new node. */
  method UpsertMissing(nodes: StartNodes, ls: LabelSet, x: ItemPointer)
    modifies nodes`labeledNodes
    ensures nodes.labeledNodes == RootedAt(ls, x) + old(nodes.labeledNodes)
  {
    for i := 0 to |ls|
      invariant nodes.labeledNodes == RootedAt(ls[..i], x) + old(nodes.labeledNodes)
    {
      UpsertStep(old(nodes.labeledNodes), ls, i, x);
      if ls[i] !in nodes.labeledNodes {
        var _ := nodes.Upsert(ls[i], x);
      }
    }
    assert ls[..|ls|] == ls;
  }

  lemma UpsertStep(base: map<Label, ItemPointer>, ls: LabelSet, i: nat, x: ItemPointer)
    requires i < |ls|
    ensures var before := RootedAt(ls[..i], x) + base;
      RootedAt(ls[..i + 1], x) + base == if ls[i] in before then before else before[ls[i] := x]
  {
    assert ls[..i + 1] == ls[..i] + [ls[i]];
  }

  /** The locked part of update_start_nodes, after the metadata was read again.
      `stored` says whether the result has to be written. */
  method MergeRoots(current: Option<Roots>, x: ItemPointer, labels: Option<LabelSet>)
    returns (next: Roots, stored: bool)
    ensures stored <==> !(current.Some? && current.value.ContainsAll(labels))
    ensures next == Published(current, x, labels)
    ensures Grows(current, Some(next)) && next.ContainsAll(labels)
    ensures !stored ==> next == current.value
    ensures stored <==> current.None? || (labels.Some? && exists l :: l in labels.value && l !in current.value.labeled)
    ensures labels.Some? ==> forall l :: l in labels.value ==> l in next.labeled
  {
    PublishedGrows(current, x, labels);
    ContainsAllMeans(Published(current, x, labels), labels);
    if current.Some? {
      ContainsAllMeans(current.value, labels);
    }
    var nodes: StartNodes;
    if current.Some? {
      if current.value.ContainsAll(labels) {
        assert current.value.labeled == Published(current, x, labels).labeled;
        return current.value, false;
      }
      nodes := new StartNodes.Load(current.value);
    } else {
      nodes := new StartNodes(x);
    }
    hide Grows, Roots.ContainsAll;
    if labels.Some? {
      UpsertMissing(nodes, labels.value, x);
    }
    next, stored := nodes.Value(), true;
  }

  // ----- the step machine -----

  /** A backend inserting node `x` with `labels`. `local` is its own copy of the
      persisted roots, possibly stale. */
  datatype Phase =
    | Idle(local: Option<Roots>)
    | Written(local: Option<Roots>, x: ItemPointer, labels: Option<LabelSet>)
    | Locked(local: Option<Roots>, x: ItemPointer, labels: Option<LabelSet>)
    | Refetched(local: Option<Roots>, x: ItemPointer, labels: Option<LabelSet>)
    | Stored(local: Option<Roots>, x: ItemPointer, labels: Option<LabelSet>)
    | Returned(local: Option<Roots>, x: ItemPointer, labels: Option<LabelSet>)
  {
    predicate HasLock() {
      Locked? || Refetched? || Stored?
    }

    /** The unlocked test of update_start_nodes. */
    predicate Fast() {
      local.Some? && (Idle? || local.value.ContainsAll(labels))
    }
  }

  datatype State = State(
    persisted: Option<Roots>,
    lock: Option<nat>,
    nodes: map<ItemPointer, Option<LabelSet>>,
    phases: map<nat, Phase>)
  {
    function PhaseOf(b: nat): Phase {
      if b in phases then phases[b] else Idle(None)
    }
  }

  datatype Step =
    | Fetch
    | Create(x: ItemPointer, labels: Option<LabelSet>)
    | FastPath
    | Acquire
    | Refetch
    | GiveUp
    | Publish
    | Release
    | NextInsert
    | Fail

  ghost predicate Enabled(s: State, b: nat, step: Step) {
    var ph := s.PhaseOf(b);
    match step
    case Fetch => ph.Idle?
    case Create(x, _) => ph.Idle? && x !in s.nodes
    case FastPath => ph.Written? && ph.Fast()
    case Acquire => ph.Written? && !ph.Fast() && s.lock.None?
    case Refetch => ph.Locked?
    case GiveUp => ph.Refetched? && ph.Fast()
    case Publish => ph.Refetched? && !ph.Fast()
    case Release => ph.Stored?
    case NextInsert => ph.Returned?
    case Fail => true
  }

  ghost function Apply(s: State, b: nat, step: Step): State
    requires Enabled(s, b, step)
  {
    var ph := s.PhaseOf(b);
    match step
    case Fetch =>
      s.(phases := s.phases[b := Idle(s.persisted)])
    case Create(x, labels) =>
      s.(phases := s.phases[b := Written(ph.local, x, labels)], nodes := s.nodes[x := labels])
    case FastPath =>
      s.(phases := s.phases[b := Returned(ph.local, ph.x, ph.labels)])
    case Acquire =>
      s.(phases := s.phases[b := Locked(ph.local, ph.x, ph.labels)], lock := Some(b))
    case Refetch =>
      s.(phases := s.phases[b := Refetched(s.persisted, ph.x, ph.labels)])
    case GiveUp =>
      s.(phases := s.phases[b := Returned(ph.local, ph.x, ph.labels)], lock := None)
    case Publish =>
      var next := Some(Published(ph.local, ph.x, ph.labels));
      s.(phases := s.phases[b := Stored(next, ph.x, ph.labels)], persisted := next)
    case Release =>
      s.(phases := s.phases[b := Returned(ph.local, ph.x, ph.labels)], lock := None)
    case NextInsert =>
      s.(phases := s.phases[b := Idle(ph.local)])
    case Fail =>
      s.(phases := s.phases[b := Idle(None)], lock := if ph.HasLock() then None else s.lock)
  }

  /** Roots that name written nodes, each label root carrying its label. */
  ghost predicate RootsOk(s: State, roots: Option<Roots>) {
    roots.Some? ==>
      && roots.value.defaultNode in s.nodes
      && forall l :: l in roots.value.labeled ==>
           var r := roots.value.labeled[l];
           r in s.nodes && s.nodes[r].Some? && l in s.nodes[r].value
  }

  ghost predicate PhaseOk(s: State, b: nat)
    requires b in s.phases
  {
    var ph := s.phases[b];
    && Grows(ph.local, s.persisted)
    && (ph.HasLock() <==> s.lock == Some(b))
    && (ph.Refetched? ==> ph.local == s.persisted)
    && (!ph.Idle? ==> ph.x in s.nodes && s.nodes[ph.x] == ph.labels)
    && (ph.Stored? || ph.Returned? ==> ph.local.Some? && ph.local.value.ContainsAll(ph.labels))
  }

  ghost predicate Inv(s: State) {
    && RootsOk(s, s.persisted)
    && (s.lock.Some? ==> s.lock.value in s.phases)
    && forall b :: b in s.phases ==> PhaseOk(s, b)
  }

  lemma PublishedGrows(current: Option<Roots>, x: ItemPointer, labels: Option<LabelSet>)
    ensures var next := Published(current, x, labels);
      && Grows(current, Some(next))
      && next.ContainsAll(labels)
      && (current.None? ==> next.defaultNode == x)
      && (forall l :: l in next.labeled ==>
            (current.Some? && l in current.value.labeled && next.labeled[l] == current.value.labeled[l])
            || (next.labeled[l] == x && labels.Some? && l in labels.value))
  {
  }

  lemma GrowsTransitive(a: Option<Roots>, b: Option<Roots>, c: Option<Roots>)
    requires Grows(a, b) && Grows(b, c)
    ensures Grows(a, c)
  {
  }

  lemma GrowthCovers(a: Option<Roots>, b: Option<Roots>, labels: Option<LabelSet>)
    requires Grows(a, b) && a.Some? && a.value.ContainsAll(labels)
    ensures b.value.ContainsAll(labels)
  {
  }

  lemma StepKeepsRoots(s: State, b: nat, step: Step)
    requires Inv(s) && Enabled(s, b, step)
    ensures var t := Apply(s, b, step); RootsOk(t, t.persisted) && Grows(s.persisted, t.persisted)
  {
    hide Published, Roots.ContainsAll;
    var ph := s.PhaseOf(b);
    if step.Publish? {
      assert PhaseOk(s, b);
      PublishedGrows(ph.local, ph.x, ph.labels);
    }
  }

  lemma OwnPhase(s: State, b: nat, step: Step)
    requires Inv(s) && Enabled(s, b, step)
    ensures PhaseOk(Apply(s, b, step), b)
  {
    hide Published, Roots.ContainsAll, RootsOk;
    var ph := s.PhaseOf(b);
    if b in s.phases {
      assert PhaseOk(s, b);
      if step.Publish? {
        PublishedGrows(ph.local, ph.x, ph.labels);
      }
    }
  }

  lemma OtherPhase(s: State, b: nat, step: Step, c: nat)
    requires Enabled(s, b, step) && c != b && c in s.phases && PhaseOk(s, c)
    requires b in s.phases ==> PhaseOk(s, b)
    requires Grows(s.persisted, Apply(s, b, step).persisted)
    ensures PhaseOk(Apply(s, b, step), c)
  {
    hide Published, Roots.ContainsAll, Grows;
    GrowsTransitive(s.PhaseOf(c).local, s.persisted, Apply(s, b, step).persisted);
  }

  lemma StepKeepsInv(s: State, b: nat, step: Step)
    requires Inv(s) && Enabled(s, b, step)
    ensures Inv(Apply(s, b, step))
    ensures Grows(s.persisted, Apply(s, b, step).persisted)
  {
    hide Published, Roots.ContainsAll, PhaseOk, RootsOk, Grows;
    StepKeepsRoots(s, b, step);
    OwnPhase(s, b, step);
    var t := Apply(s, b, step);
    forall c | c in t.phases ensures PhaseOk(t, c) {
      if c != b {
        OtherPhase(s, b, step, c);
      }
    }
  }

  datatype Event = Event(backend: nat, step: Step)

  ghost predicate IsRun(states: seq<State>, events: seq<Event>) {
    && |states| == |events| + 1
    && states[0] == State(None, None, map[], map[])
    && forall i :: 0 <= i < |events| ==>
         Enabled(states[i], events[i].backend, events[i].step)
         && states[i + 1] == Apply(states[i], events[i].backend, events[i].step)
  }

  lemma {:induction false} RunKeepsInv(states: seq<State>, events: seq<Event>, i: nat)
    requires IsRun(states, events) && i < |states|
    ensures Inv(states[i])
  {
    hide Enabled, Apply;
    if i == 0 {
    } else {
      RunKeepsInv(states, events, i - 1);
      StepKeepsInv(states[i - 1], events[i - 1].backend, events[i - 1].step);
    }
  }

  /** Entry points only grow: from any state of any run to any later one, the
      default root stays once set and no label root is lost or rebound. */
  lemma {:induction false} EntryPointsOnlyGrow(states: seq<State>, events: seq<Event>, i: nat, j: nat)
    requires IsRun(states, events) && i <= j < |states|
    ensures Grows(states[i].persisted, states[j].persisted)
    decreases j - i
  {
    hide Enabled, Apply, Inv;
    if i == j {
    } else {
      EntryPointsOnlyGrow(states, events, i, j - 1);
      RunKeepsInv(states, events, j - 1);
      StepKeepsInv(states[j - 1], events[j - 1].backend, events[j - 1].step);
      GrowsTransitive(states[i].persisted, states[j - 1].persisted, states[j].persisted);
    }
  }

  /** Once a backend has returned from the update, by whichever path, the
      persisted roots cover its labels, then and in every later state. */
  lemma RootsCoverAfterReturn(states: seq<State>, events: seq<Event>, i: nat, j: nat, b: nat)
    requires IsRun(states, events) && i <= j < |states| && states[i].PhaseOf(b).Returned?
    ensures states[j].persisted.Some? && states[j].persisted.value.ContainsAll(states[i].PhaseOf(b).labels)
    ensures var labels := states[i].PhaseOf(b).labels;
      labels.Some? ==> forall l :: l in labels.value ==> l in states[j].persisted.value.labeled
  {
    hide IsRun;
    RunKeepsInv(states, events, i);
    var ph := states[i].PhaseOf(b);
    assert PhaseOk(states[i], b);
    EntryPointsOnlyGrow(states, events, i, j);
    GrowthCovers(ph.local, states[i].persisted, ph.labels);
    GrowthCovers(states[i].persisted, states[j].persisted, ph.labels);
    ContainsAllMeans(states[j].persisted.value, ph.labels);
  }

  /** Racing inserts agree on one default root, including those that raced into
      an empty index. */
  lemma RacingInsertsAgree(states: seq<State>, events: seq<Event>, i: nat, j: nat, b: nat, c: nat)
    requires IsRun(states, events) && i <= j < |states|
    requires states[i].PhaseOf(b).Returned? && states[j].PhaseOf(c).Returned?
    ensures states[i].PhaseOf(b).local.Some? && states[j].PhaseOf(c).local.Some?
    ensures states[i].PhaseOf(b).local.value.defaultNode == states[j].PhaseOf(c).local.value.defaultNode
  {
    hide IsRun;
    RunKeepsInv(states, events, i);
    RunKeepsInv(states, events, j);
    assert PhaseOk(states[i], b) && PhaseOk(states[j], c);
    EntryPointsOnlyGrow(states, events, i, j);
  }

  lemma RootCarries(s: State, roots: Option<Roots>, l: Label)
    requires RootsOk(s, roots) && roots.Some? && l in roots.value.labeled
    ensures var r := roots.value.labeled[l]; r in s.nodes && s.nodes[r].Some? && l in s.nodes[r].value
  {
  }

  lemma {:induction false} RootsForCarry(s: State, roots: Roots, ls: seq<Label>, r: ItemPointer)
    requires RootsOk(s, Some(roots)) && r in roots.RootsFor(ls)
    ensures r in s.nodes && s.nodes[r].Some? && exists l :: l in ls && l in s.nodes[r].value
  {
    if ls == [] {
    } else {
      if ls[0] in roots.labeled && r == roots.labeled[ls[0]] {
        RootCarries(s, Some(roots), ls[0]);
        assert ls[0] in ls;
      } else {
        RootsForCarry(s, roots, ls[1..], r);
        var l :| l in ls[1..] && l in s.nodes[r].value;
        assert l in ls;
      }
    }
  }

  /** Written nodes stay and keep their labels. */
  lemma {:induction false} NodesStay(states: seq<State>, events: seq<Event>, i: nat, j: nat)
    requires IsRun(states, events) && i <= j < |states|
    ensures forall x :: x in states[i].nodes ==> x in states[j].nodes && states[j].nodes[x] == states[i].nodes[x]
    decreases j - i
  {
    if i == j {
    } else {
      NodesStay(states, events, i, j - 1);
      StepKeepsNodes(states[j - 1], events[j - 1].backend, events[j - 1].step);
    }
  }

  lemma StepKeepsNodes(s: State, b: nat, step: Step)
    requires Enabled(s, b, step)
    ensures var t := Apply(s, b, step);
      forall x :: x in s.nodes ==> x in t.nodes && t.nodes[x] == s.nodes[x]
  {
    hide Published;
  }

  /** Filtered scans are sound in every reachable state: whatever a search with
      a label filter reaches from the roots of its labels overlaps the filter.
      The roots may have been fetched at any earlier moment of the run. */
  lemma FilteredScansAreSound(states: seq<State>, events: seq<Event>, i: nat, j: nat, g: Search.Graph,
                              q: Search.Query, x: ItemPointer)
    requires IsRun(states, events) && i <= j < |states| && states[i].persisted.Some?
    requires Search.Usable(g, q) && q.Filters()
    requires g.nodes.Keys == states[j].nodes.Keys
    requires forall y :: y in g.nodes ==> g.nodes[y].labels == states[j].nodes[y]
    requires Search.Reachable(g, q, StartSet(states[i].persisted, q.labels), x)
    ensures x in g.nodes && Overlap(q.labels.value, g.nodes[x].labels.value)
  {
    RunKeepsInv(states, events, i);
    NodesStay(states, events, i, j);
    hide IsRun;
    var roots := states[i].persisted.value;
    var starts := ToSet(roots.GetForNode(q.labels));
    StartsAtRoots(roots, q.labels);
    forall r | r in starts ensures r in g.nodes && q.Passes(g, r) {
      RootsForCarry(states[i], roots, q.labels.value, r);
    }
    Search.FilteredSearchIsSound(g, q, starts, x);
  }
}
