/** The table of active watches and the loops behind it (src/directory.rs). Starting a watcher holds
  * the table's lock across an await, so other tasks run between its two halves. */
module Watchers {
  import opened Types

  /** A spawned watch loop; a cancellation token is known by its number. */
  datatype Loop = Loop(svc: Text, token: nat, running: bool)

  datatype Lock = Free | Starting(svc: Text, token: nat)

  datatype State = State(
    active: map<Text, nat>,
    cancelled: set<nat>,
    loops: seq<Loop>,
    minted: nat,           // tokens created so far
    lock: Lock)

  datatype Step =
    | Ensure(svc: Text)    // lock taken; a missing entry is inserted before the first subscription
    | Spawn                // subscription attempted, loop spawned, lock released
    | Unwatch(svc: Text)
    | Shutdown
    | Exit(i: nat)         // a loop notices its cancelled token and returns

  predicate Enabled(s: State, step: Step) {
    match step
    case Ensure(_) => s.lock.Free?
    case Spawn => s.lock.Starting?
    case Unwatch(_) => s.lock.Free?
    case Shutdown => s.lock.Free?
    case Exit(i) => i < |s.loops| && s.loops[i].running && s.loops[i].token in s.cancelled
  }

  function Next(s: State, step: Step): State
    requires Enabled(s, step)
  {
    match step
    case Ensure(svc) =>
      if svc in s.active then s
      else s.(active := s.active[svc := s.minted], minted := s.minted + 1, lock := Starting(svc, s.minted))
    case Spawn => s.(loops := s.loops + [Loop(s.lock.svc, s.lock.token, true)], lock := Free)
    case Unwatch(svc) =>
      if svc in s.active then s.(active := s.active - {svc}, cancelled := s.cancelled + {s.active[svc]}) else s
    case Shutdown => s.(active := map[], cancelled := s.cancelled + s.active.Values)
    case Exit(i) => s.(loops := s.loops[i := s.loops[i].(running := false)])
  }

  ghost predicate Possible(s: State, steps: seq<Step>)
    decreases |steps|
  {
    steps == [] || (Enabled(s, steps[0]) && Possible(Next(s, steps[0]), steps[1..]))
  }

  ghost function After(s: State, steps: seq<Step>): State
    requires Possible(s, steps)
    decreases |steps|
  {
    if steps == [] then s else After(Next(s, steps[0]), steps[1..])
  }

  const START := State(map[], {}, [], 0, Free)

  predicate Uncancelled(s: State, l: Loop) {
    l.token !in s.cancelled
  }

  predicate Live(s: State, l: Loop) {
    l.running && Uncancelled(s, l)
  }

  /** How many spawned loops of a service are running and hold a token nobody cancelled. */
  function LiveLoops(s: State, loops: seq<Loop>, svc: Text): nat {
    if loops == [] then 0
    else LiveLoops(s, loops[..|loops| - 1], svc)
         + (if loops[|loops| - 1].svc == svc && Live(s, loops[|loops| - 1]) then 1 else 0)
  }

  ghost predicate HasLoop(s: State, svc: Text, token: nat) {
    exists i :: 0 <= i < |s.loops| && s.loops[i].svc == svc && s.loops[i].token == token
  }

  /** Active tokens are distinct, minted and uncancelled. */
  ghost predicate TokensInv(s: State) {
    && (forall svc :: svc in s.active ==> s.active[svc] < s.minted && s.active[svc] !in s.cancelled)
    && (forall svc, other :: svc in s.active && other in s.active && s.active[svc] == s.active[other] ==> svc == other)
    && (forall t :: t in s.cancelled ==> t < s.minted)
    && (s.lock.Starting? ==> s.lock.svc in s.active && s.active[s.lock.svc] == s.lock.token)
  }

  /** Every loop has a token of its own, and an uncancelled one is its service's active token. */
  ghost predicate LoopInv(s: State, i: nat)
    requires i < |s.loops|
  {
    var l := s.loops[i];
    && l.token < s.minted
    && (forall j :: 0 <= j < |s.loops| && j != i ==> s.loops[j].token != l.token)
    && (Uncancelled(s, l) ==> l.running && l.svc in s.active && s.active[l.svc] == l.token)
    && (s.lock.Starting? ==> l.token != s.lock.token)
  }

  ghost predicate LoopsInv(s: State) {
    forall i :: 0 <= i < |s.loops| ==> LoopInv(s, i)
  }

  /** Every watched service has its loop, unless that is just being started. */
  ghost predicate CoverInv(s: State) {
    forall svc :: svc in s.active && !(s.lock.Starting? && s.lock.svc == svc) ==> HasLoop(s, svc, s.active[svc])
  }

  ghost predicate Inv(s: State) {
    TokensInv(s) && LoopsInv(s) && CoverInv(s)
  }

  lemma StepKeepsTokens(s: State, step: Step)
    requires TokensInv(s) && Enabled(s, step)
    ensures TokensInv(Next(s, step))
  {
    if step.Shutdown? {
      assert forall t :: t in s.active.Values ==> exists svc :: svc in s.active && s.active[svc] == t;
    }
  }

  lemma StepKeepsLoop(s: State, step: Step, i: nat)
    requires TokensInv(s) && LoopsInv(s) && Enabled(s, step) && i < |Next(s, step).loops|
    ensures LoopInv(Next(s, step), i)
  {
    var r := Next(s, step);
    if i < |s.loops| {
      assert LoopInv(s, i);
      if step.Shutdown? && Uncancelled(s, s.loops[i]) {
        assert s.active[s.loops[i].svc] in s.active.Values;
      }
    } else {
      forall j | 0 <= j < |s.loops|
        ensures r.loops[j].token != r.loops[i].token
      {
        assert LoopInv(s, j);
      }
    }
  }

  lemma StepKeepsCover(s: State, step: Step)
    requires Inv(s) && Enabled(s, step)
    ensures CoverInv(Next(s, step))
  {
    var r := Next(s, step);
    forall svc | svc in r.active && !(r.lock.Starting? && r.lock.svc == svc)
      ensures HasLoop(r, svc, r.active[svc])
    {
      if step.Spawn? && s.lock.svc == svc {
        assert r.loops[|s.loops|].svc == svc && r.loops[|s.loops|].token == r.active[svc];
      } else {
        assert HasLoop(s, svc, s.active[svc]);
        var i :| 0 <= i < |s.loops| && s.loops[i].svc == svc && s.loops[i].token == s.active[svc];
        assert r.loops[i].svc == svc && r.loops[i].token == r.active[svc];
      }
    }
  }

  lemma StepKeepsInv(s: State, step: Step)
    requires Inv(s) && Enabled(s, step)
    ensures Inv(Next(s, step))
  {
    StepKeepsTokens(s, step);
    StepKeepsCover(s, step);
    forall i | 0 <= i < |Next(s, step).loops|
      ensures LoopInv(Next(s, step), i)
    {
      StepKeepsLoop(s, step, i);
    }
  }

  lemma {:induction false} RunKeepsInv(s: State, steps: seq<Step>)
    requires Inv(s) && Possible(s, steps)
    ensures Inv(After(s, steps))
    decreases |steps|
  {
    if steps != [] {
      StepKeepsInv(s, steps[0]);
      RunKeepsInv(Next(s, steps[0]), steps[1..]);
    }
  }

  /** What the latest step about a service asked for: true for a watcher, false for none. */
  function LatestWish(steps: seq<Step>, svc: Text): Option<bool> {
    if steps == [] then None else
    var last := steps[|steps| - 1];
    if last == Ensure(svc) then Some(true)
    else if last == Unwatch(svc) || last.Shutdown? then Some(false)
    else LatestWish(steps[..|steps| - 1], svc)
  }

  lemma {:induction false} WishBehindFirst(first: Step, rest: seq<Step>, svc: Text)
    ensures LatestWish([first] + rest, svc)
            == if LatestWish(rest, svc).Some? then LatestWish(rest, svc) else LatestWish([first], svc)
  {
    if rest == [] {
      assert [first] + rest == [first];
    } else {
      var front := rest[..|rest| - 1];
      assert ([first] + rest)[..|rest|] == [first] + front;
      WishBehindFirst(first, front, svc);
    }
  }

  lemma StepWish(s: State, step: Step, svc: Text)
    requires Enabled(s, step)
    ensures svc in Next(s, step).active
            <==> match LatestWish([step], svc) case None => svc in s.active case Some(wanted) => wanted
    ensures LatestWish([step], svc).None? && svc in s.active ==> Next(s, step).active[svc] == s.active[svc]
  {
    assert [step][..0] == [];
  }

  /** Each service is watched exactly as last asked: in every run it is in the table if and only if the
    * latest Ensure, Unwatch or Shutdown that concerns it was an Ensure; what is done to other services
    * leaves its entry alone. */
  lemma {:induction false} WatchedAsLastAsked(s: State, steps: seq<Step>, svc: Text)
    requires Possible(s, steps)
    ensures svc in After(s, steps).active
            <==> match LatestWish(steps, svc) case None => svc in s.active case Some(wanted) => wanted
    ensures LatestWish(steps, svc).None? && svc in s.active ==> After(s, steps).active[svc] == s.active[svc]
    decreases |steps|
  {
    hide Next, Enabled;
    if steps != [] {
      assert steps == [steps[0]] + steps[1..];
      WishBehindFirst(steps[0], steps[1..], svc);
      StepWish(s, steps[0], svc);
      WatchedAsLastAsked(Next(s, steps[0]), steps[1..], svc);
    }
  }

  lemma {:induction false} NoLiveLoop(s: State, loops: seq<Loop>, svc: Text)
    requires forall i :: 0 <= i < |loops| ==> !(loops[i].svc == svc && Live(s, loops[i]))
    ensures LiveLoops(s, loops, svc) == 0
  {
    if loops != [] {
      NoLiveLoop(s, loops[..|loops| - 1], svc);
    }
  }

  lemma {:induction false} OneLiveLoop(s: State, loops: seq<Loop>, svc: Text, k: nat)
    requires k < |loops| && loops[k].svc == svc && Live(s, loops[k])
    requires forall i :: 0 <= i < |loops| && i != k ==> !(loops[i].svc == svc && Live(s, loops[i]))
    ensures LiveLoops(s, loops, svc) == 1
  {
    var last := |loops| - 1;
    if k == last {
      NoLiveLoop(s, loops[..last], svc);
    } else {
      OneLiveLoop(s, loops[..last], svc, k);
    }
  }

  lemma LiveLoopsOf(s: State, svc: Text)
    requires Inv(s) && s.lock.Free?
    ensures LiveLoops(s, s.loops, svc) == if svc in s.active then 1 else 0
  {
    forall i | 0 <= i < |s.loops| && s.loops[i].svc == svc && Live(s, s.loops[i])
      ensures svc in s.active && s.loops[i].token == s.active[svc]
      ensures forall j :: 0 <= j < |s.loops| && j != i ==> s.loops[j].token != s.loops[i].token
    {
      assert LoopInv(s, i);
    }
    if svc in s.active {
      assert HasLoop(s, svc, s.active[svc]);
      var k :| 0 <= k < |s.loops| && s.loops[k].svc == svc && s.loops[k].token == s.active[svc];
      assert LoopInv(s, k);
      OneLiveLoop(s, s.loops, svc, k);
    } else {
      NoLiveLoop(s, s.loops, svc);
    }
  }

  /** One live watcher: in every interleaving, whenever the lock is free, a watched service has exactly
    * one running loop with an uncancelled token and any other service has none; and no loop with an
    * uncancelled token ever stops, so counting tokens alone gives the same. */
  lemma OneLiveWatcher(steps: seq<Step>, svc: Text)
    requires Possible(START, steps)
    ensures var s := After(START, steps);
            && (s.lock.Free? ==> LiveLoops(s, s.loops, svc) == if svc in s.active then 1 else 0)
            && (forall i :: 0 <= i < |s.loops| && Uncancelled(s, s.loops[i]) ==> Live(s, s.loops[i]))
  {
    RunKeepsInv(START, steps);
    var s := After(START, steps);
    forall i | 0 <= i < |s.loops| && Uncancelled(s, s.loops[i])
      ensures Live(s, s.loops[i])
    {
      assert LoopInv(s, i);
    }
    if s.lock.Free? {
      LiveLoopsOf(s, svc);
    }
  }
}
