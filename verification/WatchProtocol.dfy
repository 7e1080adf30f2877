/** The replication protocol between the local provider and the watched snapshot of one service
  * (src/provider/local.rs, src/directory.rs).
  *
  * Any number of tasks add, remove, register and deregister instances, list the provider and store
  * what they listed, while one watch loop subscribes, delivers, falls behind, reconciles and loses
  * its stream. Steps interleave freely. `missed` is bookkeeping, not program state: the ids the
  * snapshot may have wrong and no pending event will put right.
  */
module WatchProtocol {
  import opened Types
  import opened Snapshots
  import opened LocalProvider

  /** A listing a task holds between reading the provider and writing the snapshot, and how much
    * had been broadcast when it was read. */
  datatype Held = Held(list: seq<ServiceInstance>, at: nat)

  datatype State = State(
    instances: Instances,
    log: seq<ServiceEvent>,                      // everything broadcast so far
    inflight: map<(Text, Text), ServiceEvent>,   // provider changed, event not sent yet
    snapshot: seq<ServiceInstance>,
    cursor: Option<nat>,                         // next event of the loop's subscription
    held: map<nat, Held>,
    missed: set<Text>)

  datatype Step =
    | Add(inst: ServiceInstance)
    | Remove(name: Text, id: Text)
    | BeginRegister(inst: ServiceInstance)
    | BeginDeregister(name: Text, id: Text)
    | Send(key: (Text, Text))
    | List(task: nat, list: seq<ServiceInstance>)
    | Store(task: nat)
    | Recover(fallback: seq<ServiceInstance>)
    | Subscribe
    | Unsubscribe
    | Deliver
    | Lag(to: nat)
    | DirectApply(event: ServiceEvent)

  /** The watch loop lists under this task number; it does so only inside its event loop and
    * touches its stream again only after storing. */
  const LOOP: nat := 0

  predicate NotReset(e: ServiceEvent) {
    !e.Reset?
  }

  function IdOf(e: ServiceEvent): (id: Text)
    requires NotReset(e)
    ensures Touches(e, id) && forall other :: Touches(e, other) ==> other == id
  {
    match e case Upsert(inst) => inst.serviceId case Delete(_, id) => id
  }

  ghost predicate Enabled(s: State, step: Step, svc: Text) {
    match step
    case Add(inst) => (inst.name, inst.serviceId) !in s.inflight
    case Remove(name, id) => (name, id) !in s.inflight
    case BeginRegister(inst) => (inst.name, inst.serviceId) !in s.inflight
    case BeginDeregister(name, id) => (name, id) !in s.inflight
    case Send(key) => key in s.inflight
    case List(task, list) =>
      task !in s.held && IsListing(list, Of(s.instances, svc)) && (task == LOOP ==> s.cursor.Some?)
    case Store(task) => task in s.held
    case Recover(_) => true
    case Subscribe => s.cursor.None? && LOOP !in s.held
    case Unsubscribe => s.cursor.Some? && LOOP !in s.held
    case Deliver => s.cursor.Some? && s.cursor.value < |s.log| && LOOP !in s.held
    case Lag(to) => s.cursor.Some? && s.cursor.value < to <= |s.log| && LOOP !in s.held
    case DirectApply(e) => NotReset(e)
  }

  /** Ids of the service that a stretch of events speaks about. */
  function Spoken(events: seq<ServiceEvent>, svc: Text): set<Text> {
    if events == [] then {} else
    var e := events[|events| - 1];
    Spoken(events[..|events| - 1], svc) + (if Relevant(e, svc) && NotReset(e) then {IdOf(e)} else {})
  }

  /** Broadcasting: a subscriber will be told, so the id will be right; without one it is missed. */
  function Broadcast(s: State, e: ServiceEvent, svc: Text): State
    requires NotReset(e)
  {
    s.(log := s.log + [e],
       missed := if !Relevant(e, svc) then s.missed
                 else if s.cursor.Some? then s.missed - {IdOf(e)}
                 else s.missed + {IdOf(e)})
  }

  /** Where the events that will still be delivered begin. */
  function Horizon(s: State): nat {
    if s.cursor.Some? then s.cursor.value else |s.log|
  }

  ghost predicate NamesItsKey(e: ServiceEvent, key: (Text, Text)) {
    match e
    case Upsert(inst) => key == (inst.name, inst.serviceId)
    case Delete(name, id) => key == (name, id)
    case Reset(_) => false
  }

  ghost predicate Bounded(s: State) {
    && Horizon(s) <= |s.log|
    && (forall t :: t in s.held ==> s.held[t].at <= |s.log|)
    && (forall k :: k in s.inflight ==> NamesItsKey(s.inflight[k], k))
    && (forall i :: 0 <= i < |s.log| ==> NotReset(s.log[i]))
  }

  ghost function Next(s: State, step: Step, svc: Text): State
    requires Bounded(s) && Enabled(s, step, svc)
  {
    match step
    case Add(inst) => Broadcast(s.(instances := Put(s.instances, inst)), Upsert(inst), svc)
    case Remove(name, id) => Broadcast(s.(instances := Drop(s.instances, name, id)), Delete(name, id), svc)
    case BeginRegister(inst) =>
      s.(instances := Put(s.instances, inst), inflight := s.inflight[(inst.name, inst.serviceId) := Upsert(inst)])
    case BeginDeregister(name, id) =>
      s.(instances := Drop(s.instances, name, id), inflight := s.inflight[(name, id) := Delete(name, id)])
    case Send(key) => Broadcast(s.(inflight := s.inflight - {key}), s.inflight[key], svc)
    case List(task, list) => s.(held := s.held[task := Held(list, |s.log|)])
    case Store(task) =>
      var h := s.held[task];
      s.(snapshot := h.list, held := s.held - {task},
         missed := if h.at < Horizon(s) then Spoken(s.log[h.at..Horizon(s)], svc) else {})
    case Recover(list) =>
      s.(snapshot := list,
         missed := (set i | 0 <= i < |list| :: list[i].serviceId) + Of(s.instances, svc).Keys)
    case Subscribe => s.(cursor := Some(|s.log|))
    case Unsubscribe => s.(cursor := None, missed := s.missed + Spoken(s.log[s.cursor.value..], svc))
    case Deliver =>
      s.(snapshot := Delivered(s.snapshot, s.log[s.cursor.value], svc), cursor := Some(s.cursor.value + 1))
    case Lag(to) => s.(cursor := Some(to), missed := s.missed + Spoken(s.log[s.cursor.value..to], svc))
    case DirectApply(e) => s.(snapshot := Apply(s.snapshot, e), missed := s.missed + {IdOf(e)})
  }

  // ---- The invariant, id by id ----

  function Pending(s: State): seq<ServiceEvent>
    requires Horizon(s) <= |s.log|
  {
    s.log[Horizon(s)..]
  }

  /** A registration of this id has changed the provider but not been broadcast. */
  predicate Busy(s: State, svc: Text, id: Text) {
    (svc, id) in s.inflight
  }

  function Truth(s: State, svc: Text, id: Text): Option<ServiceInstance> {
    Get(Of(s.instances, svc), id)
  }

  /** The last word broadcast about an id is what the provider holds. */
  ghost predicate LogRight(s: State, svc: Text, id: Text) {
    LastWord(s.log, svc, id).Some? ==> LastWord(s.log, svc, id).value == Truth(s, svc, id)
  }

  ghost predicate FlightRight(s: State, svc: Text, id: Text) {
    Busy(s, svc, id) ==>
      var e := s.inflight[(svc, id)];
      NotReset(e) && Relevant(e, svc) && IdOf(e) == id && Effect(e, id) == Truth(s, svc, id)
  }

  /** A listing read at position a is right about an id unless something was said about it since. */
  ghost predicate RightSince(s: State, svc: Text, list: seq<ServiceInstance>, a: nat, id: Text)
    requires a <= |s.log|
  {
    LastWord(s.log[a..], svc, id).None? ==> Lookup(list, id) == Truth(s, svc, id)
  }

  /** What is known of the provider's side alone: nothing here mentions the snapshot. */
  ghost predicate ProviderSide(s: State, svc: Text) {
    && Bounded(s)
    && (forall id :: FlightRight(s, svc, id))
    && (forall id :: !Busy(s, svc, id) ==> LogRight(s, svc, id))
    && (forall t, id :: t in s.held && !Busy(s, svc, id) ==> RightSince(s, svc, s.held[t].list, s.held[t].at, id))
    && (forall t :: t in s.held ==> DistinctIds(s.held[t].list))
    && (LOOP in s.held ==> s.cursor.Some? && s.cursor.value <= s.held[LOOP].at)
  }

  ghost predicate SnapshotSide(s: State, svc: Text)
    requires Bounded(s)
  {
    forall id :: !Busy(s, svc, id) && id !in s.missed ==> RightSince(s, svc, s.snapshot, Horizon(s), id)
  }

  ghost predicate Inv(s: State, svc: Text) {
    ProviderSide(s, svc) && SnapshotSide(s, svc)
  }

  // ---- Words and stretches ----

  lemma {:induction false} UnspokenHasNoWord(events: seq<ServiceEvent>, svc: Text, id: Text)
    requires forall i :: 0 <= i < |events| ==> NotReset(events[i])
    ensures id in Spoken(events, svc) <==> LastWord(events, svc, id).Some?
  {
    if events != [] {
      UnspokenHasNoWord(events[..|events| - 1], svc, id);
    }
  }

  lemma WordOfSuffix(log: seq<ServiceEvent>, a: nat, svc: Text, id: Text)
    requires a <= |log|
    ensures LastWord(log[a..], svc, id).Some? ==> LastWord(log, svc, id) == LastWord(log[a..], svc, id)
  {
    assert log == log[..a] + log[a..];
    LastWordConcat(log[..a], log[a..], svc, id);
  }

  lemma WordAppended(log: seq<ServiceEvent>, e: ServiceEvent, a: nat, svc: Text, id: Text)
    requires a <= |log|
    ensures LastWord((log + [e])[a..], svc, id)
            == if Relevant(e, svc) && Touches(e, id) then Some(Effect(e, id)) else LastWord(log[a..], svc, id)
  {
    var longer := (log + [e])[a..];
    assert longer[..|longer| - 1] == log[a..] && longer[|longer| - 1] == e;
  }

  // ---- Preservation ----

  /** Broadcasting the event that explains the provider's latest change keeps the invariants. */
  lemma BroadcastKeepsAt(s: State, e: ServiceEvent, svc: Text, list: seq<ServiceInstance>, a: nat, id: Text)
    requires NotReset(e) && a <= |s.log|
    requires Relevant(e, svc) && IdOf(e) == id ==> Effect(e, id) == Truth(s, svc, id)
    ensures (Relevant(e, svc) && IdOf(e) == id) || RightSince(s, svc, list, a, id) ==>
              RightSince(Broadcast(s, e, svc), svc, list, a, id)
    ensures (Relevant(e, svc) && IdOf(e) == id) || LogRight(s, svc, id) ==> LogRight(Broadcast(s, e, svc), svc, id)
  {
    WordAppended(s.log, e, a, svc, id);
    WordAppended(s.log, e, 0, svc, id);
    assert s.log[0..] == s.log && (s.log + [e])[0..] == s.log + [e];
  }

  /** The state just before a broadcast: as the invariant wants it, except that the id the event is
    * about need not have been right yet. */
  ghost predicate ReadyToBroadcast(s: State, e: ServiceEvent, svc: Text) {
    && Bounded(s) && NotReset(e)
    && (forall id :: FlightRight(s, svc, id))
    && (Relevant(e, svc) ==> !Busy(s, svc, IdOf(e)) && Effect(e, IdOf(e)) == Truth(s, svc, IdOf(e)))
    && (forall id :: !Busy(s, svc, id) && !(Relevant(e, svc) && IdOf(e) == id) ==> LogRight(s, svc, id))
    && (forall t, id :: t in s.held && !Busy(s, svc, id) && !(Relevant(e, svc) && IdOf(e) == id) ==>
          RightSince(s, svc, s.held[t].list, s.held[t].at, id))
    && (forall t :: t in s.held ==> DistinctIds(s.held[t].list))
    && (LOOP in s.held ==> s.cursor.Some? && s.cursor.value <= s.held[LOOP].at)
  }

  lemma BroadcastKeepsProviderSide(s: State, e: ServiceEvent, svc: Text)
    requires ReadyToBroadcast(s, e, svc)
    ensures ProviderSide(Broadcast(s, e, svc), svc)
  {
    var r := Broadcast(s, e, svc);
    forall id
      ensures FlightRight(r, svc, id)
    {
      assert FlightRight(s, svc, id);
    }
    forall id | !Busy(r, svc, id)
      ensures LogRight(r, svc, id)
    {
      BroadcastKeepsAt(s, e, svc, s.snapshot, Horizon(s), id);
    }
    forall t, id | t in r.held && !Busy(r, svc, id)
      ensures RightSince(r, svc, r.held[t].list, r.held[t].at, id)
    {
      BroadcastKeepsAt(s, e, svc, s.held[t].list, s.held[t].at, id);
      assert !Busy(s, svc, id);
      assert (Relevant(e, svc) && IdOf(e) == id) || RightSince(s, svc, s.held[t].list, s.held[t].at, id);
    }
  }

  lemma BroadcastKeepsSnapshotSide(s: State, e: ServiceEvent, svc: Text)
    requires ReadyToBroadcast(s, e, svc)
    requires forall id :: !Busy(s, svc, id) && id !in s.missed && !(Relevant(e, svc) && IdOf(e) == id) ==>
               RightSince(s, svc, s.snapshot, Horizon(s), id)
    ensures Bounded(Broadcast(s, e, svc)) && SnapshotSide(Broadcast(s, e, svc), svc)
  {
    var r := Broadcast(s, e, svc);
    forall id | !Busy(r, svc, id) && id !in r.missed
      ensures RightSince(r, svc, r.snapshot, Horizon(r), id)
    {
      BroadcastKeepsAt(s, e, svc, s.snapshot, Horizon(s), id);
      if s.cursor.None? {
        assert s.log[|s.log|..] == [] && r.log[|r.log|..] == [];
      }
    }
  }

  /** The provider's state after a change, before its event. */
  function Changed(s: State, step: Step): State
    requires step.Add? || step.Remove? || step.BeginRegister? || step.BeginDeregister?
  {
    match step
    case Add(inst) => s.(instances := Put(s.instances, inst))
    case Remove(name, id) => s.(instances := Drop(s.instances, name, id))
    case BeginRegister(inst) =>
      s.(instances := Put(s.instances, inst), inflight := s.inflight[(inst.name, inst.serviceId) := Upsert(inst)])
    case BeginDeregister(name, id) =>
      s.(instances := Drop(s.instances, name, id), inflight := s.inflight[(name, id) := Delete(name, id)])
  }

  function Explanation(step: Step): (e: ServiceEvent)
    requires step.Add? || step.Remove? || step.BeginRegister? || step.BeginDeregister?
    ensures NotReset(e)
  {
    match step
    case Add(inst) => Upsert(inst)
    case BeginRegister(inst) => Upsert(inst)
    case Remove(name, id) => Delete(name, id)
    case BeginDeregister(name, id) => Delete(name, id)
  }

  /** The event a step broadcasts. */
  function Told(s: State, step: Step): ServiceEvent
    requires step.Add? || step.Remove? || (step.Send? && step.key in s.inflight)
  {
    if step.Send? then s.inflight[step.key] else Explanation(step)
  }

  lemma ChangeTouchesOneId(s: State, step: Step, svc: Text, id: Text)
    requires step.Add? || step.Remove? || step.BeginRegister? || step.BeginDeregister?
    ensures var e, r := Explanation(step), Changed(s, step);
            if Relevant(e, svc) && IdOf(e) == id then Truth(r, svc, id) == Effect(e, id)
            else Truth(r, svc, id) == Truth(s, svc, id)
  {
  }

  lemma ChangeThenBroadcast(s: State, step: Step, svc: Text)
    requires Inv(s, svc) && Enabled(s, step, svc) && (step.Add? || step.Remove?)
    ensures Inv(Next(s, step, svc), svc)
  {
    var e, r := Explanation(step), Changed(s, step);
    ChangeIsReady(s, step, svc);
    BroadcastKeepsProviderSide(r, e, svc);
    forall id | !Busy(r, svc, id) && id !in r.missed && !(Relevant(e, svc) && IdOf(e) == id)
      ensures RightSince(r, svc, r.snapshot, Horizon(r), id)
    {
      ChangeTouchesOneId(s, step, svc, id);
      assert RightSince(s, svc, s.snapshot, Horizon(s), id);
    }
    BroadcastKeepsSnapshotSide(r, e, svc);
  }

  lemma ChangeIsReady(s: State, step: Step, svc: Text)
    requires ProviderSide(s, svc) && Enabled(s, step, svc) && (step.Add? || step.Remove?)
    ensures ReadyToBroadcast(Changed(s, step), Explanation(step), svc)
  {
    var e, r := Explanation(step), Changed(s, step);
    forall id
      ensures FlightRight(r, svc, id)
      ensures !Busy(r, svc, id) && !(Relevant(e, svc) && IdOf(e) == id) ==> LogRight(r, svc, id)
    {
      ChangeTouchesOneId(s, step, svc, id);
      assert FlightRight(s, svc, id);
      assert !Busy(s, svc, id) ==> LogRight(s, svc, id);
    }
    forall t, id | t in r.held && !Busy(r, svc, id) && !(Relevant(e, svc) && IdOf(e) == id)
      ensures RightSince(r, svc, r.held[t].list, r.held[t].at, id)
    {
      ChangeTouchesOneId(s, step, svc, id);
      assert !Busy(s, svc, id);
      assert RightSince(s, svc, s.held[t].list, s.held[t].at, id);
    }
    ChangeTouchesOneId(s, step, svc, IdOf(e));
  }

  lemma BeginKeepsProviderSide(s: State, step: Step, svc: Text)
    requires ProviderSide(s, svc) && Enabled(s, step, svc) && (step.BeginRegister? || step.BeginDeregister?)
    ensures ProviderSide(Next(s, step, svc), svc)
  {
    var e, r := Explanation(step), Next(s, step, svc);
    forall id
      ensures FlightRight(r, svc, id)
      ensures !Busy(r, svc, id) ==> LogRight(r, svc, id)
    {
      ChangeTouchesOneId(s, step, svc, id);
      assert FlightRight(s, svc, id);
      assert !Busy(s, svc, id) ==> LogRight(s, svc, id);
    }
    forall t, id | t in r.held && !Busy(r, svc, id)
      ensures RightSince(r, svc, r.held[t].list, r.held[t].at, id)
    {
      ChangeTouchesOneId(s, step, svc, id);
      assert !Busy(s, svc, id);
      assert RightSince(s, svc, s.held[t].list, s.held[t].at, id);
    }
  }

  lemma BeginKeepsSnapshotSide(s: State, step: Step, svc: Text)
    requires Inv(s, svc) && Enabled(s, step, svc) && (step.BeginRegister? || step.BeginDeregister?)
    ensures Bounded(Next(s, step, svc)) && SnapshotSide(Next(s, step, svc), svc)
  {
    var r := Next(s, step, svc);
    forall id | !Busy(r, svc, id) && id !in r.missed
      ensures RightSince(r, svc, r.snapshot, Horizon(r), id)
    {
      ChangeTouchesOneId(s, step, svc, id);
      assert RightSince(s, svc, s.snapshot, Horizon(s), id);
    }
  }

  lemma SendIsReady(s: State, key: (Text, Text), svc: Text)
    requires ProviderSide(s, svc) && key in s.inflight
    ensures ReadyToBroadcast(s.(inflight := s.inflight - {key}), s.inflight[key], svc)
  {
    var e, r := s.inflight[key], s.(inflight := s.inflight - {key});
    forall id
      ensures FlightRight(r, svc, id)
      ensures !Busy(r, svc, id) && !(Relevant(e, svc) && IdOf(e) == id) ==> !Busy(s, svc, id)
    {
      assert FlightRight(s, svc, id);
    }
    if Relevant(e, svc) {
      assert FlightRight(s, svc, IdOf(e));
    }
    forall t, id | t in r.held && !Busy(r, svc, id) && !(Relevant(e, svc) && IdOf(e) == id)
      ensures RightSince(r, svc, r.held[t].list, r.held[t].at, id)
    {
      assert RightSince(s, svc, s.held[t].list, s.held[t].at, id);
    }
    forall id | !Busy(r, svc, id) && !(Relevant(e, svc) && IdOf(e) == id)
      ensures LogRight(r, svc, id)
    {
      assert LogRight(s, svc, id);
    }
  }

  lemma SendKeeps(s: State, key: (Text, Text), svc: Text)
    requires ProviderSide(s, svc) && key in s.inflight
    ensures ProviderSide(Next(s, Send(key), svc), svc)
    ensures SnapshotSide(s, svc) ==> SnapshotSide(Next(s, Send(key), svc), svc)
  {
    var e, r := s.inflight[key], s.(inflight := s.inflight - {key});
    SendIsReady(s, key, svc);
    BroadcastKeepsProviderSide(r, e, svc);
    if SnapshotSide(s, svc) {
      forall id | !Busy(r, svc, id) && id !in r.missed && !(Relevant(e, svc) && IdOf(e) == id)
        ensures RightSince(r, svc, r.snapshot, Horizon(r), id)
      {
        assert !Busy(s, svc, id);
        assert RightSince(s, svc, s.snapshot, Horizon(s), id);
      }
      BroadcastKeepsSnapshotSide(r, e, svc);
    }
  }

  /** Every step keeps the provider's side, whatever the snapshot holds. */
  lemma StepKeepsProviderSide(s: State, step: Step, svc: Text)
    requires ProviderSide(s, svc) && Enabled(s, step, svc)
    ensures ProviderSide(Next(s, step, svc), svc)
  {
    var r := Next(s, step, svc);
    match step {
      case Add(_) | Remove(_, _) =>
        ChangeIsReady(s, step, svc);
        BroadcastKeepsProviderSide(Changed(s, step), Explanation(step), svc);
      case BeginRegister(_) | BeginDeregister(_, _) =>
        BeginKeepsProviderSide(s, step, svc);
      case Send(key) =>
        SendKeeps(s, key, svc);
      case _ =>
        ReadersKeepProviderSide(s, step, svc);
    }
  }

  /** The steps that leave the provider and the log alone. */
  ghost predicate Reader(step: Step) {
    step.List? || step.Store? || step.Recover? || step.Subscribe? || step.Unsubscribe?
    || step.Deliver? || step.Lag? || step.DirectApply?
  }

  lemma ReadersKeepProviderSide(s: State, step: Step, svc: Text)
    requires ProviderSide(s, svc) && Enabled(s, step, svc) && Reader(step)
    ensures ProviderSide(Next(s, step, svc), svc)
  {
    var r := Next(s, step, svc);
    assert r.log == s.log && r.inflight == s.inflight && r.instances == s.instances;
    forall id
      ensures FlightRight(r, svc, id)
      ensures !Busy(r, svc, id) ==> LogRight(r, svc, id)
    {
      assert FlightRight(s, svc, id);
      assert !Busy(s, svc, id) ==> LogRight(s, svc, id);
    }
    forall t, id | t in r.held && !Busy(r, svc, id)
      ensures RightSince(r, svc, r.held[t].list, r.held[t].at, id)
    {
      assert !Busy(s, svc, id);
      if !(step.List? && step.task == t) {
        assert RightSince(s, svc, s.held[t].list, s.held[t].at, id);
      }
    }
  }

  // ---- The snapshot ----

  /** After storing a listing read at position a, ids that nothing was said about between a and the
    * events still to be delivered are right. */
  lemma StoreKeepsAt(s: State, task: nat, svc: Text, id: Text)
    requires ProviderSide(s, svc) && task in s.held && !Busy(s, svc, id)
    requires id !in Next(s, Store(task), svc).missed
    ensures RightSince(s, svc, s.held[task].list, Horizon(s), id)
  {
    var h, c := s.held[task], Horizon(s);
    assert RightSince(s, svc, h.list, h.at, id);
    if h.at < c {
      LastWordSplit(s.log, h.at, c, |s.log|, svc, id);
      UnspokenHasNoWord(s.log[h.at..c], svc, id);
    } else {
      LastWordSplit(s.log, c, h.at, |s.log|, svc, id);
      if LastWord(s.log[c..], svc, id).None? {
        assert LastWord(s.log[h.at..], svc, id).None?;
      }
    }
  }

  lemma StoreKeepsSnapshotSide(s: State, task: nat, svc: Text)
    requires ProviderSide(s, svc) && task in s.held
    ensures SnapshotSide(Next(s, Store(task), svc), svc)
  {
    var r := Next(s, Store(task), svc);
    forall id | !Busy(r, svc, id) && id !in r.missed
      ensures RightSince(r, svc, r.snapshot, Horizon(r), id)
    {
      assert !Busy(s, svc, id);
      StoreKeepsAt(s, task, svc, id);
    }
  }

  lemma DeliverKeepsSnapshotSide(s: State, svc: Text)
    requires Inv(s, svc) && Enabled(s, Deliver, svc)
    ensures SnapshotSide(Next(s, Deliver, svc), svc)
  {
    var r, c := Next(s, Deliver, svc), s.cursor.value;
    var e := s.log[c];
    forall id | !Busy(r, svc, id) && id !in r.missed
      ensures RightSince(r, svc, r.snapshot, Horizon(r), id)
    {
      assert !Busy(s, svc, id) && LogRight(s, svc, id);
      assert RightSince(s, svc, s.snapshot, c, id);
      WordOfSuffix(s.log, c, svc, id);
      LastWordSplit(s.log, c, c + 1, |s.log|, svc, id);
      assert s.log[c..c + 1] == [e];
      WordOfOne(e, svc, id);
      ApplyLookup(s.snapshot, e, id);
    }
  }

  lemma WordOfOne(e: ServiceEvent, svc: Text, id: Text)
    ensures LastWord([e], svc, id) == if Relevant(e, svc) && Touches(e, id) then Some(Effect(e, id)) else None
  {
    assert [e][..0] == [];
  }

  /** Events that will never be delivered are missed. */
  lemma SkipKeepsAt(s: State, c: nat, to: nat, svc: Text, id: Text)
    requires Bounded(s) && c <= to <= |s.log| && RightSince(s, svc, s.snapshot, c, id)
    requires id !in Spoken(s.log[c..to], svc)
    ensures RightSince(s, svc, s.snapshot, to, id)
  {
    LastWordSplit(s.log, c, to, |s.log|, svc, id);
    UnspokenHasNoWord(s.log[c..to], svc, id);
  }

  lemma SkipKeepsSnapshotSide(s: State, step: Step, svc: Text)
    requires Inv(s, svc) && Enabled(s, step, svc) && (step.Unsubscribe? || step.Lag?)
    ensures Bounded(Next(s, step, svc)) && SnapshotSide(Next(s, step, svc), svc)
  {
    var r, c := Next(s, step, svc), s.cursor.value;
    var to := if step.Lag? then step.to else |s.log|;
    assert s.log[c..] == s.log[c..|s.log|];
    forall id | !Busy(r, svc, id) && id !in r.missed
      ensures RightSince(r, svc, r.snapshot, Horizon(r), id)
    {
      assert !Busy(s, svc, id);
      assert RightSince(s, svc, s.snapshot, c, id);
      SkipKeepsAt(s, c, to, svc, id);
    }
  }

  lemma OverwriteKeepsSnapshotSide(s: State, step: Step, svc: Text)
    requires Inv(s, svc) && Enabled(s, step, svc) && (step.Recover? || step.DirectApply?)
    ensures SnapshotSide(Next(s, step, svc), svc)
  {
    var r := Next(s, step, svc);
    forall id | !Busy(r, svc, id) && id !in r.missed
      ensures RightSince(r, svc, r.snapshot, Horizon(r), id)
    {
      if step.DirectApply? {
        assert !Busy(s, svc, id);
        assert RightSince(s, svc, s.snapshot, Horizon(s), id);
        ApplyLookup(s.snapshot, step.event, id);
      }
    }
  }

  lemma QuietReadersKeepSnapshotSide(s: State, step: Step, svc: Text)
    requires Inv(s, svc) && Enabled(s, step, svc) && (step.List? || step.Subscribe?)
    ensures Bounded(Next(s, step, svc)) && SnapshotSide(Next(s, step, svc), svc)
  {
    var r := Next(s, step, svc);
    forall id | !Busy(r, svc, id) && id !in r.missed
      ensures RightSince(r, svc, r.snapshot, Horizon(r), id)
    {
      assert !Busy(s, svc, id);
      assert RightSince(s, svc, s.snapshot, Horizon(s), id);
    }
  }

  /** Every step keeps the whole invariant. */
  lemma StepKeepsInv(s: State, step: Step, svc: Text)
    requires Inv(s, svc) && Enabled(s, step, svc)
    ensures Inv(Next(s, step, svc), svc)
  {
    StepKeepsProviderSide(s, step, svc);
    match step {
      case Add(_) | Remove(_, _) => ChangeThenBroadcast(s, step, svc);
      case BeginRegister(_) | BeginDeregister(_, _) => BeginKeepsSnapshotSide(s, step, svc);
      case Send(key) => SendKeeps(s, key, svc);
      case Store(task) => StoreKeepsSnapshotSide(s, task, svc);
      case Deliver => DeliverKeepsSnapshotSide(s, svc);
      case Unsubscribe | Lag(_) => SkipKeepsSnapshotSide(s, step, svc);
      case Recover(_) | DirectApply(_) => OverwriteKeepsSnapshotSide(s, step, svc);
      case List(_, _) | Subscribe => QuietReadersKeepSnapshotSide(s, step, svc);
    }
  }

  // ---- Runs ----

  ghost predicate Possible(s: State, steps: seq<Step>, svc: Text)
    decreases |steps|
  {
    Bounded(s) &&
    (steps == [] || (Enabled(s, steps[0], svc) && Possible(Next(s, steps[0], svc), steps[1..], svc)))
  }

  ghost function After(s: State, steps: seq<Step>, svc: Text): (r: State)
    requires Possible(s, steps, svc)
    ensures Bounded(r)
    decreases |steps|
  {
    if steps == [] then s else After(Next(s, steps[0], svc), steps[1..], svc)
  }

  /** A directory that has not looked yet, beside a provider in any state. */
  ghost predicate Start(s: State, svc: Text) {
    && s.log == [] && s.inflight == map[] && s.snapshot == [] && s.cursor == None && s.held == map[]
    && s.missed == Of(s.instances, svc).Keys
  }

  lemma StartInv(s: State, svc: Text)
    requires Start(s, svc)
    ensures Inv(s, svc)
  {
  }

  lemma {:induction false} RunKeepsInv(s: State, steps: seq<Step>, svc: Text)
    requires Inv(s, svc) && Possible(s, steps, svc)
    ensures Inv(After(s, steps, svc), svc)
    decreases |steps|
  {
    if steps != [] {
      StepKeepsInv(s, steps[0], svc);
      RunKeepsInv(Next(s, steps[0], svc), steps[1..], svc);
    }
  }

  /** The snapshot with its pending events replayed is right about an id. */
  ghost predicate Agrees(s: State, svc: Text, id: Text)
    requires Bounded(s)
  {
    Lookup(Replay(s.snapshot, Pending(s), svc), id) == Truth(s, svc, id)
  }

  lemma InvAgrees(s: State, svc: Text, id: Text)
    requires Inv(s, svc) && id !in s.missed && !Busy(s, svc, id)
    ensures Agrees(s, svc, id)
  {
    assert RightSince(s, svc, s.snapshot, Horizon(s), id) && LogRight(s, svc, id);
    ReplayLookup(s.snapshot, Pending(s), svc, id);
    WordOfSuffix(s.log, Horizon(s), svc, id);
  }

  /** In every run the snapshot, once its pending events are replayed, agrees with the provider on
    * every id that was not missed and is not in the middle of being registered. */
  lemma AlwaysAgrees(start: State, steps: seq<Step>, svc: Text, id: Text)
    requires Start(start, svc) && Possible(start, steps, svc)
    ensures id !in After(start, steps, svc).missed && !Busy(After(start, steps, svc), svc, id) ==>
              Agrees(After(start, steps, svc), svc, id)
  {
    StartInv(start, svc);
    RunKeepsInv(start, steps, svc);
    var s := After(start, steps, svc);
    if id !in s.missed && !Busy(s, svc, id) {
      InvAgrees(s, svc, id);
    }
  }

  /** The loop's reconciliation leaves nothing missed. */
  lemma ReconcileClearsMissed(s: State, svc: Text)
    requires ProviderSide(s, svc) && Enabled(s, Store(LOOP), svc)
    ensures Next(s, Store(LOOP), svc).missed == {}
    ensures Inv(Next(s, Store(LOOP), svc), svc)
  {
    StoreKeepsSnapshotSide(s, LOOP, svc);
    StepKeepsProviderSide(s, Store(LOOP), svc);
  }

  /** Any activity of the provider, further listings, reconciliations and deliveries, while the
    * stream stays up and only the loop writes the snapshot. */
  ghost predicate Steady(steps: seq<Step>) {
    forall i :: 0 <= i < |steps| ==>
      var step := steps[i];
      step.Add? || step.Remove? || step.BeginRegister? || step.BeginDeregister? || step.Send?
      || step.List? || step == Store(LOOP) || step.Deliver?
  }

  ghost predicate Healed(s: State, svc: Text) {
    Inv(s, svc) && s.missed == {} && s.cursor.Some? && DistinctIds(s.snapshot)
  }

  lemma {:induction false} SteadyKeepsHealed(s: State, steps: seq<Step>, svc: Text)
    requires Healed(s, svc) && Possible(s, steps, svc) && Steady(steps)
    ensures Healed(After(s, steps, svc), svc)
    decreases |steps|
  {
    if steps != [] {
      StepKeepsInv(s, steps[0], svc);
      var r := Next(s, steps[0], svc);
      if steps[0].Deliver? {
        ApplyKeepsDistinct(s.snapshot, s.log[s.cursor.value]);
      } else if steps[0].Store? {
        ReconcileClearsMissed(s, svc);
      }
      SteadyKeepsHealed(r, steps[1..], svc);
    }
  }

  /** Self-healing: from any snapshot whatever, once the loop stores one reconciliation and then
    * drains its stream, the snapshot lists exactly what the provider holds, however many changes,
    * listings, reconciliations and deliveries interleave. */
  lemma SelfHealing(s: State, steps: seq<Step>, svc: Text)
    requires ProviderSide(s, svc) && Possible(s, [Store(LOOP)] + steps, svc) && Steady(steps)
    ensures var end := After(s, [Store(LOOP)] + steps, svc);
            Horizon(end) == |end.log| && (forall id :: !Busy(end, svc, id)) ==>
              IsListing(end.snapshot, Of(end.instances, svc))
  {
    var all := [Store(LOOP)] + steps;
    assert all[0] == Store(LOOP) && all[1..] == steps;
    ReconcileClearsMissed(s, svc);
    SteadyKeepsHealed(Next(s, Store(LOOP), svc), steps, svc);
    var end := After(s, all, svc);
    if Horizon(end) == |end.log| && (forall id :: !Busy(end, svc, id)) {
      forall id
        ensures Lookup(end.snapshot, id) == Get(Of(end.instances, svc), id)
      {
        InvAgrees(end, svc, id);
        assert Pending(end) == [];
      }
    }
  }

  /** Clearing the provider is not a step of the protocol because no event tells of it: the snapshot
    * with its pending events replayed, right before, stays right about exactly the ids the provider
    * did not hold. */
  lemma ClearGoesUnseen(s: State, svc: Text, id: Text)
    requires Inv(s, svc) && id !in s.missed && !Busy(s, svc, id)
    ensures Agrees(s, svc, id)
    ensures Agrees(s.(instances := map[]), svc, id) <==> id !in Of(s.instances, svc)
  {
    InvAgrees(s, svc, id);
  }

  // ---- What can be missed ----

  /** Ids a step puts out of reach: spoken of by events behind the horizon that it did not deliver. */
  ghost function Skipped(s: State, step: Step, svc: Text): set<Text>
    requires Bounded(s) && Enabled(s, step, svc) && Bounded(Next(s, step, svc))
  {
    var r := Next(s, step, svc);
    if step.Deliver? || Horizon(r) < Horizon(s) then {} else Spoken(r.log[Horizon(s)..Horizon(r)], svc)
  }

  /** Ids spoken of undelivered since the latest store, beside what was out of reach at the start. */
  ghost function OutOfReach(s: State, steps: seq<Step>, svc: Text, before: set<Text>): set<Text>
    requires Possible(s, steps, svc)
    decreases |steps|
  {
    if steps == [] then before else
    var r := Next(s, steps[0], svc);
    var now := if steps[0].Store? then
                 var at := s.held[steps[0].task].at;
                 if at < Horizon(s) then Spoken(s.log[at..Horizon(s)], svc) else {}
               else before + Skipped(s, steps[0], svc);
    OutOfReach(r, steps[1..], svc, now)
  }

  /** Nothing writes the snapshot out of band. */
  ghost predicate InBand(steps: seq<Step>) {
    forall i :: 0 <= i < |steps| ==> !steps[i].Recover? && !steps[i].DirectApply?
  }

  lemma StepMissesSkipped(s: State, step: Step, svc: Text)
    requires Bounded(s) && Enabled(s, step, svc) && Bounded(Next(s, step, svc))
    requires !step.Recover? && !step.DirectApply? && !step.Store?
    ensures Next(s, step, svc).missed <= s.missed + Skipped(s, step, svc)
  {
    var r := Next(s, step, svc);
    if step.Add? || step.Remove? || step.Send? {
      var e := Told(s, step);
      if s.cursor.None? {
        LatestAlone(s.log, e);
        SpokenOne(e, svc);
      }
    } else if step.Unsubscribe? {
      TailIsSlice(s.log, s.cursor.value);
    }
  }

  lemma LatestAlone(log: seq<ServiceEvent>, e: ServiceEvent)
    ensures (log + [e])[|log|..|log| + 1] == [e]
  {
    var t := (log + [e])[|log|..|log| + 1];
    assert |t| == 1 && t[0] == e;
  }

  lemma TailIsSlice(log: seq<ServiceEvent>, a: nat)
    requires a <= |log|
    ensures log[a..] == log[a..|log|]
  {
  }

  lemma SpokenOne(e: ServiceEvent, svc: Text)
    ensures Spoken([e], svc) == if Relevant(e, svc) && NotReset(e) then {IdOf(e)} else {}
  {
    assert [e][..0] == [];
    assert Spoken([], svc) == {};
  }

  /** Nothing is missed without cause: in a run without out-of-band writes every missed id was held by
    * the provider before the first listing was stored, or was spoken of by an event that no delivery
    * will bring any more since the latest one was. */
  lemma {:induction false} MissedOnlyOutOfReach(s: State, steps: seq<Step>, svc: Text, before: set<Text>)
    requires Possible(s, steps, svc) && InBand(steps) && s.missed <= before
    ensures After(s, steps, svc).missed <= OutOfReach(s, steps, svc, before)
    decreases |steps|
  {
    hide Skipped;
    if steps != [] {
      var r, rest := Next(s, steps[0], svc), steps[1..];
      assert InBand(rest);
      if steps[0].Store? {
        MissedOnlyOutOfReach(r, rest, svc, r.missed);
      } else {
        StepMissesSkipped(s, steps[0], svc);
        MissedOnlyOutOfReach(r, rest, svc, before + Skipped(s, steps[0], svc));
      }
    }
  }

  lemma RunOne(s: State, step: Step, rest: seq<Step>, svc: Text, r: State)
    requires Bounded(s) && Enabled(s, step, svc) && r == Next(s, step, svc)
    requires Possible(r, rest, svc)
    ensures Possible(s, [step] + rest, svc) && After(s, [step] + rest, svc) == After(r, rest, svc)
  {
    var steps := [step] + rest;
    assert steps[0] == step && steps[1..] == rest;
  }

  // ---- How right a subscriber is, exactly ----

  /** Any activity of the provider, listings by other tasks and deliveries: the stream stays up and
    * nothing is stored. */
  ghost predicate Listening(steps: seq<Step>) {
    forall i :: 0 <= i < |steps| ==>
      var step := steps[i];
      step.Add? || step.Remove? || step.BeginRegister? || step.BeginDeregister? || step.Send?
      || step.List? || step.Deliver?
  }

  /** Since the log was base long: deliveries have decided what the snapshot finds, else it finds what it
    * did then; and the provider holds what it held then unless the log says otherwise or soon will. */
  ghost predicate Follows(s: State, base: nat, found: Option<ServiceInstance>, truth: Option<ServiceInstance>,
                          svc: Text, id: Text)
  {
    && s.cursor.Some? && base <= s.cursor.value <= |s.log|
    && Lookup(s.snapshot, id) == (match LastWord(s.log[base..s.cursor.value], svc, id)
                                  case None => found
                                  case Some(v) => v)
    && (LastWord(s.log[base..], svc, id).Some? || Busy(s, svc, id) || Truth(s, svc, id) == truth)
  }

  lemma SpeakingFollows(s: State, step: Step, base: nat, found: Option<ServiceInstance>,
                        truth: Option<ServiceInstance>, svc: Text, id: Text)
    requires ProviderSide(s, svc) && Enabled(s, step, svc) && Follows(s, base, found, truth, svc, id)
    requires step.Add? || step.Remove? || step.Send?
    ensures Follows(Next(s, step, svc), base, found, truth, svc, id)
  {
    var r, c := Next(s, step, svc), s.cursor.value;
    var e := Told(s, step);
    assert r.log[base..c] == s.log[base..c];
    WordAppended(s.log, e, base, svc, id);
    if step.Send? {
      assert FlightRight(s, svc, id);
    } else {
      ChangeTouchesOneId(s, step, svc, id);
    }
  }

  lemma WordExtended(log: seq<ServiceEvent>, base: nat, c: nat, svc: Text, id: Text)
    requires base <= c < |log|
    ensures LastWord(log[base..c + 1], svc, id)
            == if Relevant(log[c], svc) && Touches(log[c], id) then Some(Effect(log[c], id))
               else LastWord(log[base..c], svc, id)
  {
    var longer := log[base..c + 1];
    assert longer[..|longer| - 1] == log[base..c] && longer[|longer| - 1] == log[c];
  }

  lemma DeliveryFollows(s: State, base: nat, found: Option<ServiceInstance>, truth: Option<ServiceInstance>,
                        svc: Text, id: Text)
    requires Bounded(s) && Enabled(s, Deliver, svc) && Follows(s, base, found, truth, svc, id)
    ensures Follows(Next(s, Deliver, svc), base, found, truth, svc, id)
  {
    hide LastWord, Lookup, Effect, Touches, Relevant;
    WordExtended(s.log, base, s.cursor.value, svc, id);
    ApplyLookup(s.snapshot, s.log[s.cursor.value], id);
  }

  lemma StepFollows(s: State, step: Step, base: nat, found: Option<ServiceInstance>,
                    truth: Option<ServiceInstance>, svc: Text, id: Text)
    requires ProviderSide(s, svc) && Enabled(s, step, svc) && Listening([step])
    requires Follows(s, base, found, truth, svc, id)
    ensures Follows(Next(s, step, svc), base, found, truth, svc, id)
  {
    assert [step][0] == step;
    match step {
      case Add(_) | Remove(_, _) | Send(_) => SpeakingFollows(s, step, base, found, truth, svc, id);
      case BeginRegister(_) | BeginDeregister(_, _) => ChangeTouchesOneId(s, step, svc, id);
      case Deliver => DeliveryFollows(s, base, found, truth, svc, id);
      case List(_, _) =>
    }
  }

  lemma {:induction false} RunFollows(s: State, steps: seq<Step>, base: nat, found: Option<ServiceInstance>,
                                      truth: Option<ServiceInstance>, svc: Text, id: Text)
    requires ProviderSide(s, svc) && Possible(s, steps, svc) && Listening(steps)
    requires Follows(s, base, found, truth, svc, id)
    ensures ProviderSide(After(s, steps, svc), svc) && Follows(After(s, steps, svc), base, found, truth, svc, id)
    ensures s.log <= After(s, steps, svc).log
    decreases |steps|
  {
    hide Follows, ProviderSide;
    if steps != [] {
      assert Listening([steps[0]]) && Listening(steps[1..]);
      StepKeepsProviderSide(s, steps[0], svc);
      StepFollows(s, steps[0], base, found, truth, svc, id);
      RunFollows(Next(s, steps[0], svc), steps[1..], base, found, truth, svc, id);
    }
  }

  /** The listing precedes the subscription, so the snapshot a subscriber starts from can be wrong. How
    * long: after any run of provider activity, listings and deliveries the snapshot with its pending
    * events replayed - the snapshot itself, once drained - is right about an id exactly when something
    * was said about the id since the subscription or the snapshot was right about it then. */
  lemma SubscriberRightExactly(s: State, steps: seq<Step>, svc: Text, id: Text)
    requires ProviderSide(s, svc) && s.cursor == Some(|s.log|) && Possible(s, steps, svc) && Listening(steps)
    requires !Busy(s, svc, id) && !Busy(After(s, steps, svc), svc, id)
    ensures s.log <= After(s, steps, svc).log
    ensures var end := After(s, steps, svc);
            Agrees(end, svc, id)
            <==> id in Spoken(end.log[|s.log|..], svc) || Lookup(s.snapshot, id) == Truth(s, svc, id)
    ensures var end := After(s, steps, svc);
            Pending(end) == [] ==>
              (Agrees(end, svc, id) <==> Lookup(end.snapshot, id) == Truth(end, svc, id))
  {
    var base := |s.log|;
    assert s.log[base..] == [] && s.log[base..base] == [];
    RunFollows(s, steps, base, Lookup(s.snapshot, id), Truth(s, svc, id), svc, id);
    var end := After(s, steps, svc);
    ReplayLookup(end.snapshot, Pending(end), svc, id);
    LastWordSplit(end.log, base, end.cursor.value, |end.log|, svc, id);
    WordOfSuffix(end.log, base, svc, id);
    UnspokenHasNoWord(end.log[base..], svc, id);
    assert LogRight(end, svc, id);
  }

  // ---- What a lost stream, a lag and an out-of-band write cost, exactly ----

  /** At any moment the snapshot with its pending events is right about an id exactly when a pending
    * event speaks of it or the snapshot is right about it already. */
  lemma RightNowExactly(s: State, svc: Text, id: Text)
    requires ProviderSide(s, svc) && !Busy(s, svc, id)
    ensures Agrees(s, svc, id) <==> id in Spoken(Pending(s), svc) || Lookup(s.snapshot, id) == Truth(s, svc, id)
  {
    ReplayLookup(s.snapshot, Pending(s), svc, id);
    WordOfSuffix(s.log, Horizon(s), svc, id);
    UnspokenHasNoWord(Pending(s), svc, id);
    assert LogRight(s, svc, id);
  }

  /** A reconnection does not list again: whatever was still to be delivered is lost, and the snapshot is
    * right about exactly the ids it was right about without it. */
  lemma ReconnectRightExactly(s: State, svc: Text, id: Text)
    requires Bounded(s) && Enabled(s, Unsubscribe, svc)
    ensures var down := Next(s, Unsubscribe, svc);
            && Enabled(down, Subscribe, svc)
            && var up := Next(down, Subscribe, svc);
               && Pending(up) == []
               && (Agrees(up, svc, id) <==> Lookup(s.snapshot, id) == Truth(s, svc, id))
  {
    var up := Next(Next(s, Unsubscribe, svc), Subscribe, svc);
    assert Replay(up.snapshot, [], svc) == up.snapshot;
  }

  /** After falling behind, only what is left of the stream can put an id right. */
  lemma LagRightExactly(s: State, to: nat, svc: Text, id: Text)
    requires ProviderSide(s, svc) && Enabled(s, Lag(to), svc) && !Busy(s, svc, id)
    ensures Agrees(Next(s, Lag(to), svc), svc, id)
            <==> id in Spoken(s.log[to..], svc) || Lookup(s.snapshot, id) == Truth(s, svc, id)
  {
    StepKeepsProviderSide(s, Lag(to), svc);
    RightNowExactly(Next(s, Lag(to), svc), svc, id);
  }

  /** A list stored from elsewhere, or an event applied by hand, is right until the stream speaks exactly
    * where it happens to say what the provider holds. */
  lemma OutOfBandRightExactly(s: State, list: seq<ServiceInstance>, e: ServiceEvent, svc: Text, id: Text)
    requires ProviderSide(s, svc) && !Busy(s, svc, id) && NotReset(e)
    ensures Agrees(Next(s, Recover(list), svc), svc, id)
            <==> id in Spoken(Pending(s), svc) || Lookup(list, id) == Truth(s, svc, id)
    ensures Agrees(Next(s, DirectApply(e), svc), svc, id)
            <==> || id in Spoken(Pending(s), svc)
                 || (if Touches(e, id) then Effect(e, id) else Lookup(s.snapshot, id)) == Truth(s, svc, id)
  {
    hide Lookup, Spoken, LastWord;
    StepKeepsProviderSide(s, Recover(list), svc);
    RightNowExactly(Next(s, Recover(list), svc), svc, id);
    StepKeepsProviderSide(s, DirectApply(e), svc);
    RightNowExactly(Next(s, DirectApply(e), svc), svc, id);
    ApplyLookup(s.snapshot, e, id);
  }

  const GAP_TASK: nat := 1

  function GapRun(inst: ServiceInstance): seq<Step> {
    [List(GAP_TASK, [])] + ([Store(GAP_TASK)] + ([Add(inst)] + ([Subscribe] + [])))
  }

  function GapEnd(inst: ServiceInstance): State {
    State(Put(map[], inst), [Upsert(inst)], map[], [], Some(1), map[], {inst.serviceId})
  }

  /** A fault-free run with such a change: an instance added in between is absent from a drained
    * snapshot until a reconciliation. */
  lemma GapBetweenListAndSubscribe(inst: ServiceInstance, start: State)
    requires Start(start, inst.name) && start.instances == map[]
    ensures Possible(start, GapRun(inst), inst.name) && After(start, GapRun(inst), inst.name) == GapEnd(inst)
    ensures Pending(GapEnd(inst)) == [] && Lookup(GapEnd(inst).snapshot, inst.serviceId) == None
    ensures Truth(GapEnd(inst), inst.name, inst.serviceId) == Some(inst)
  {
    var svc := inst.name;
    var s1 := start.(held := map[GAP_TASK := Held([], 0)]);
    assert IsListing([], Of(start.instances, svc));
    GapTail(inst, s1);
    RunOne(start, List(GAP_TASK, []), [Store(GAP_TASK)] + ([Add(inst)] + ([Subscribe] + [])), svc, s1);
  }

  lemma GapTail(inst: ServiceInstance, s1: State)
    requires s1 == State(map[], [], map[], [], None, map[GAP_TASK := Held([], 0)], {})
    ensures var rest := [Store(GAP_TASK)] + ([Add(inst)] + ([Subscribe] + []));
            Possible(s1, rest, inst.name) && After(s1, rest, inst.name) == GapEnd(inst)
  {
    var svc := inst.name;
    var s2 := State(map[], [], map[], [], None, map[], {});
    var s3 := GapEnd(inst).(cursor := None);
    assert s1.held - {GAP_TASK} == map[];
    RunOne(s3, Subscribe, [], svc, GapEnd(inst));
    RunOne(s2, Add(inst), [Subscribe] + [], svc, s3);
    RunOne(s1, Store(GAP_TASK), [Add(inst)] + ([Subscribe] + []), svc, s2);
  }
}
