/** Snapshot writes (src/directory.rs): every writer reads the shared table, computes a new one and
  * swaps it in only if nobody else did meanwhile, retrying otherwise. Writers interleave freely. */
module Rcu {
  import opened Types
  import opened Snapshots

  type Table = map<Text, seq<ServiceInstance>>

  function ListOf(t: Table, svc: Text): seq<ServiceInstance> {
    if svc in t then t[svc] else []
  }

  /** The writers: apply_event, the first load of a service, and the wipe at shutdown. */
  datatype Write =
    | ApplyEvent(svc: Text, event: ServiceEvent)
    | Load(svc: Text, list: seq<ServiceInstance>)
    | Wipe

  function Updated(t: Table, w: Write): Table {
    match w
    case ApplyEvent(svc, e) => t[svc := Apply(ListOf(t, svc), e)]
    case Load(svc, list) => t[svc := list]
    case Wipe => map[]
  }

  function Fold(history: seq<Write>): Table {
    if history == [] then map[] else Updated(Fold(history[..|history| - 1]), history[|history| - 1])
  }

  /** A writer that has read nothing yet, one that holds what it read, and one that is through:
    * `at` is its place in the commit order and finalList what it reports to the listeners. */
  datatype Call =
    | Fresh(write: Write)
    | Computed(write: Write, version: nat, seen: Table)
    | Done(write: Write, at: nat, finalList: seq<ServiceInstance>)

  datatype State = State(version: nat, current: Table, calls: map<nat, Call>, history: seq<Write>)

  datatype Step = Begin(k: nat, write: Write) | Read(k: nat) | Swap(k: nat) | Store

  ghost predicate Enabled(s: State, step: Step) {
    match step
    case Begin(k, w) => k !in s.calls && !w.Wipe?
    case Read(k) => k in s.calls && s.calls[k].Fresh?
    case Swap(k) => k in s.calls && s.calls[k].Computed?
    case Store => true
  }

  function Reported(t: Table, w: Write): seq<ServiceInstance> {
    if w.Wipe? then [] else ListOf(Updated(t, w), w.svc)
  }

  function Next(s: State, step: Step): State
    requires Enabled(s, step)
  {
    match step
    case Begin(k, w) => s.(calls := s.calls[k := Fresh(w)])
    case Read(k) => s.(calls := s.calls[k := Computed(s.calls[k].write, s.version, s.current)])
    case Swap(k) =>
      var c := s.calls[k];
      if c.version == s.version then
        State(s.version + 1, Updated(c.seen, c.write),
              s.calls[k := Done(c.write, |s.history|, Reported(c.seen, c.write))], s.history + [c.write])
      else
        s.(calls := s.calls[k := Computed(c.write, s.version, s.current)])
    case Store => s.(version := s.version + 1, current := map[], history := s.history + [Wipe])
  }

  ghost predicate Possible(s: State, steps: seq<Step>)
    decreases |steps|
  {
    steps == [] || (Enabled(s, steps[0]) && Possible(Next(s, steps[0]), steps[1..]))
  }

  ghost function After(s: State, steps: seq<Step>): State
    requires Possible(s, steps)
    decreases |steps|
  {
    if steps == [] then s else After(Next(s, steps[0]), steps[1..])
  }

  const START := State(0, map[], map[], [])

  /** The finished writer k sits in the commit order where it says, and reports what it committed. */
  ghost predicate Recorded(s: State, k: nat)
    requires k in s.calls && s.calls[k].Done?
  {
    var c := s.calls[k];
    && !c.write.Wipe?
    && c.at < |s.history| && s.history[c.at] == c.write
    && c.finalList == ListOf(Fold(s.history[..c.at + 1]), c.write.svc)
  }

  ghost predicate CommittedBy(s: State, i: nat, k: nat) {
    k in s.calls && s.calls[k].Done? && s.calls[k].at == i
  }

  ghost predicate TableInv(s: State) {
    && s.current == Fold(s.history)
    && (forall k :: k in s.calls ==> !s.calls[k].write.Wipe?)
    && (forall k :: k in s.calls && s.calls[k].Computed? ==>
          s.calls[k].version <= s.version && (s.calls[k].version == s.version ==> s.calls[k].seen == s.current))
  }

  ghost predicate CallsInv(s: State) {
    && (forall k :: k in s.calls && s.calls[k].Done? ==> Recorded(s, k))
    && (forall i, j, k :: CommittedBy(s, i, j) && CommittedBy(s, i, k) ==> j == k)
  }

  /** Nothing is committed that no call made. */
  ghost predicate HistoryInv(s: State) {
    forall i :: 0 <= i < |s.history| && !s.history[i].Wipe? ==> exists k :: CommittedBy(s, i, k)
  }

  ghost predicate Inv(s: State) {
    TableInv(s) && CallsInv(s) && HistoryInv(s)
  }

  ghost predicate Commits(s: State, step: Step, k: nat)
    requires Enabled(s, step)
  {
    step == Swap(k) && s.calls[k].version == s.version
  }

  lemma StepKeepsTable(s: State, step: Step)
    requires TableInv(s) && Enabled(s, step)
    ensures TableInv(Next(s, step))
  {
    hide Fold, Updated, ListOf;
    match step {
      case Swap(k) => FoldAppended(s.history, s.calls[k].write);
      case Store => FoldAppended(s.history, Wipe); WipedIsEmpty(s.current);
      case Begin(_, _) =>
      case Read(_) =>
    }
  }

  lemma WipedIsEmpty(t: Table)
    ensures Updated(t, Wipe) == map[]
  {
  }

  lemma FoldAppended(history: seq<Write>, w: Write)
    ensures Fold(history + [w]) == Updated(Fold(history), w)
  {
    assert (history + [w])[..|history|] == history;
  }

  /** A step changes who committed place i only by committing the next place. */
  lemma StepCommits(s: State, step: Step, i: nat, k: nat)
    requires Enabled(s, step) && CallsInv(s)
    ensures CommittedBy(Next(s, step), i, k) <==> CommittedBy(s, i, k) || (i == |s.history| && Commits(s, step, k))
    ensures CommittedBy(s, i, k) ==> i < |s.history| && Recorded(s, k)
  {
  }

  lemma StepKeepsRecorded(s: State, step: Step, k: nat)
    requires Inv(s) && Enabled(s, step) && k in Next(s, step).calls && Next(s, step).calls[k].Done?
    ensures Recorded(Next(s, step), k)
  {
    hide Fold, Updated, ListOf, Reported;
    var r := Next(s, step);
    if Commits(s, step, k) {
      var w := s.calls[k].write;
      FoldAppended(s.history, w);
      ReportedIsUpdated(s.current, w);
      assert r.history[..|s.history| + 1] == s.history + [w];
    } else {
      assert r.calls[k] == s.calls[k];
      assert Recorded(s, k);
      var at := s.calls[k].at;
      assert r.history[..at + 1] == s.history[..at + 1];
    }
  }

  lemma ReportedIsUpdated(t: Table, w: Write)
    requires !w.Wipe?
    ensures Reported(t, w) == ListOf(Updated(t, w), w.svc)
  {
  }

  lemma StepKeepsInv(s: State, step: Step)
    requires Inv(s) && Enabled(s, step)
    ensures Inv(Next(s, step))
  {
    var r := Next(s, step);
    StepKeepsTable(s, step);
    forall k | k in r.calls && r.calls[k].Done?
      ensures Recorded(r, k)
    {
      StepKeepsRecorded(s, step, k);
    }
    forall i, j, k | CommittedBy(r, i, j) && CommittedBy(r, i, k)
      ensures j == k
    {
      StepCommits(s, step, i, j);
      StepCommits(s, step, i, k);
    }
    forall i | 0 <= i < |r.history| && !r.history[i].Wipe?
      ensures exists k :: CommittedBy(r, i, k)
    {
      StepKeepsHistoryAt(s, step, i);
    }
  }

  lemma StepKeepsHistoryAt(s: State, step: Step, i: nat)
    requires Inv(s) && Enabled(s, step) && i < |Next(s, step).history| && !Next(s, step).history[i].Wipe?
    ensures exists k :: CommittedBy(Next(s, step), i, k)
  {
    if i == |s.history| {
      assert CommittedBy(Next(s, step), i, step.k);
    } else {
      var k :| CommittedBy(s, i, k);
      StepCommits(s, step, i, k);
    }
  }

  /** No lost updates. In every interleaving the table is the fold of the committed writes in commit
    * order; every finished call is committed exactly once and reports the list it committed; and
    * nothing is committed that no call made. */
  lemma {:induction false} NoLostUpdates(s: State, steps: seq<Step>)
    requires Inv(s) && Possible(s, steps)
    ensures Inv(After(s, steps))
    decreases |steps|
  {
    if steps != [] {
      StepKeepsInv(s, steps[0]);
      NoLostUpdates(Next(s, steps[0]), steps[1..]);
    }
  }

  lemma FinishedCallsAreCommitted(steps: seq<Step>, j: nat, k: nat)
    requires Possible(START, steps)
    ensures var s := After(START, steps);
            && s.current == Fold(s.history)
            && (k in s.calls && s.calls[k].Done? ==>
                  && Recorded(s, k)
                  && (j in s.calls && s.calls[j].Done? && s.calls[j].at == s.calls[k].at ==> j == k))
  {
    NoLostUpdates(START, steps);
    var s := After(START, steps);
    if k in s.calls && s.calls[k].Done? && j in s.calls && s.calls[j].Done? && s.calls[j].at == s.calls[k].at {
      assert CommittedBy(s, s.calls[k].at, j) && CommittedBy(s, s.calls[k].at, k);
    }
  }

  // ---- One service ----

  /** What the writes of one service, and the wipes, make of its list. */
  function FoldService(history: seq<Write>, svc: Text): seq<ServiceInstance> {
    if history == [] then [] else
    var before := FoldService(history[..|history| - 1], svc);
    match history[|history| - 1]
    case ApplyEvent(other, e) => if other == svc then Apply(before, e) else before
    case Load(other, list) => if other == svc then list else before
    case Wipe => []
  }

  /** Services do not disturb each other: a service's list is decided by its own writes alone. */
  lemma {:induction false} ServicesIndependent(history: seq<Write>, svc: Text)
    ensures ListOf(Fold(history), svc) == FoldService(history, svc)
  {
    if history != [] {
      ServicesIndependent(history[..|history| - 1], svc);
    }
  }

  /** Ids stay distinct in every list if every reset and every loaded list has distinct ids. */
  lemma {:induction false} FoldKeepsDistinct(history: seq<Write>, svc: Text)
    requires forall i :: 0 <= i < |history| && history[i].Load? ==> DistinctIds(history[i].list)
    requires forall i :: 0 <= i < |history| && history[i].ApplyEvent? && history[i].event.Reset? ==>
               DistinctIds(history[i].event.all)
    ensures DistinctIds(ListOf(Fold(history), svc))
  {
    if history != [] {
      var front, w := history[..|history| - 1], history[|history| - 1];
      FoldKeepsDistinct(front, svc);
      if w.ApplyEvent? && w.svc == svc {
        ApplyKeepsDistinct(ListOf(Fold(front), svc), w.event);
      }
    }
  }
}
