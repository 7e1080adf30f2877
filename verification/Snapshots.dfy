/** What events do to an instance list, and the last-writer-wins law that makes replaying an
  * overlapping stretch of them harmless (src/directory.rs). */
module Snapshots {
  import opened Types

  /** The first instance of the list with that id. */
  function Lookup(list: seq<ServiceInstance>, id: Text): Option<ServiceInstance> {
    match Position(list, id)
    case None => None
    case Some(p) => Some(list[p])
  }

  function Position(list: seq<ServiceInstance>, id: Text): (p: Option<nat>)
    ensures p.Some? ==> p.value < |list| && list[p.value].serviceId == id
                        && forall i :: 0 <= i < p.value ==> list[i].serviceId != id
    ensures p.None? ==> forall i :: 0 <= i < |list| ==> list[i].serviceId != id
  {
    if list == [] then None
    else if list[0].serviceId == id then Some(0)
    else match Position(list[1..], id)
      case None => None
      case Some(p) => Some(p + 1)
  }

  /** The list without the instances of that id. */
  function Without(list: seq<ServiceInstance>, id: Text): (r: seq<ServiceInstance>)
    ensures forall i :: 0 <= i < |r| ==> r[i] in list && r[i].serviceId != id
  {
    if list == [] then []
    else (if list[0].serviceId == id then [] else [list[0]]) + Without(list[1..], id)
  }

  /** The list an event leaves behind. */
  function Apply(list: seq<ServiceInstance>, e: ServiceEvent): seq<ServiceInstance> {
    match e
    case Upsert(inst) =>
      (match Position(list, inst.serviceId)
       case Some(p) => list[p := inst]
       case None => list + [inst])
    case Delete(_, id) => Without(list, id)
    case Reset(all) => all
  }

  predicate Touches(e: ServiceEvent, id: Text) {
    match e
    case Upsert(inst) => inst.serviceId == id
    case Delete(_, gone) => gone == id
    case Reset(_) => true
  }

  /** What a lookup of a touched id finds after the event. */
  function Effect(e: ServiceEvent, id: Text): Option<ServiceInstance> {
    match e
    case Upsert(inst) => Some(inst)
    case Delete(_, _) => None
    case Reset(all) => Lookup(all, id)
  }

  lemma {:induction false} LookupFront(list: seq<ServiceInstance>, more: seq<ServiceInstance>, id: Text)
    ensures Lookup(list + more, id) == if Lookup(list, id).Some? then Lookup(list, id) else Lookup(more, id)
  {
    if list == [] {
      assert list + more == more;
    } else {
      assert (list + more)[1..] == list[1..] + more;
      LookupFront(list[1..], more, id);
    }
  }

  lemma {:induction false} LookupWithout(list: seq<ServiceInstance>, gone: Text, id: Text)
    ensures Lookup(Without(list, gone), id) == if id == gone then None else Lookup(list, id)
  {
    if list != [] {
      LookupWithout(list[1..], gone, id);
      var head := if list[0].serviceId == gone then [] else [list[0]];
      LookupFront(head, Without(list[1..], gone), id);
    }
  }

  lemma LookupReplace(list: seq<ServiceInstance>, p: nat, inst: ServiceInstance, id: Text)
    requires Position(list, inst.serviceId) == Some(p)
    ensures Lookup(list[p := inst], id) == if id == inst.serviceId then Some(inst) else Lookup(list, id)
  {
    var q, q' := Position(list, id), Position(list[p := inst], id);
    if id == inst.serviceId {
      assert list[p := inst][p].serviceId == id;
      assert q'.Some?;
    } else if q.Some? {
      assert list[p := inst][q.value] == list[q.value];
    }
  }

  /** Every event is last-writer-wins per id: it decides the ids it touches and leaves the others. */
  lemma ApplyLookup(list: seq<ServiceInstance>, e: ServiceEvent, id: Text)
    ensures Lookup(Apply(list, e), id) == if Touches(e, id) then Effect(e, id) else Lookup(list, id)
  {
    match e
    case Upsert(inst) =>
      match Position(list, inst.serviceId) {
        case Some(p) => LookupReplace(list, p, inst, id);
        case None => LookupFront(list, [inst], id);
      }
    case Delete(_, gone) => LookupWithout(list, gone, id);
    case Reset(all) =>
  }

  /** Deleting keeps the order of what stays: it works on each part of the list by itself. */
  lemma {:induction false} WithoutConcat(a: seq<ServiceInstance>, b: seq<ServiceInstance>, id: Text)
    ensures Without(a + b, id) == Without(a, id) + Without(b, id)
  {
    if a == [] {
      assert a + b == b;
    } else {
      assert (a + b)[1..] == a[1..] + b;
      WithoutConcat(a[1..], b, id);
    }
  }

  /** An upsert keeps the order of the ids: a known id stays in its place, a new one goes last. */
  lemma UpsertKeepsOrder(list: seq<ServiceInstance>, inst: ServiceInstance)
    ensures Ids(Apply(list, Upsert(inst)))
            == if inst.serviceId in Ids(list) then Ids(list) else Ids(list) + [inst.serviceId]
  {
    match Position(list, inst.serviceId) {
      case Some(p) => assert Ids(list)[p] == inst.serviceId;
      case None => assert forall i :: 0 <= i < |list| ==> Ids(list)[i] != inst.serviceId;
    }
  }

  lemma {:induction false} WithoutDistinct(list: seq<ServiceInstance>, id: Text)
    requires DistinctIds(list)
    ensures DistinctIds(Without(list, id))
  {
    if list != [] {
      WithoutDistinct(list[1..], id);
      var rest := Without(list[1..], id);
      assert forall i :: 0 <= i < |rest| ==> rest[i] in list[1..];
    }
  }

  /** Ids stay distinct as long as every Reset list has distinct ids. */
  lemma ApplyKeepsDistinct(list: seq<ServiceInstance>, e: ServiceEvent)
    requires DistinctIds(list) && (e.Reset? ==> DistinctIds(e.all))
    ensures DistinctIds(Apply(list, e))
  {
    if e.Delete? {
      WithoutDistinct(list, e.serviceId);
    }
  }

  // ---- Streams ----

  /** The filter of a provider stream opened for one service (src/provider/local.rs). */
  predicate Relevant(e: ServiceEvent, svc: Text) {
    match e
    case Upsert(inst) => inst.name == svc
    case Delete(serviceName, _) => serviceName == svc
    case Reset(all) => all != [] && all[0].name == svc
  }

  /** One delivery to the watcher of a service: events of other services are filtered out. */
  function Delivered(list: seq<ServiceInstance>, e: ServiceEvent, svc: Text): seq<ServiceInstance> {
    if Relevant(e, svc) then Apply(list, e) else list
  }

  /** The filter: a watcher is told exactly of the upserts and deletes that name its service, and of the
    * resets whose first instance does. */
  lemma ToldOfOwnService(list: seq<ServiceInstance>, inst: ServiceInstance, name: Text, id: Text,
                         all: seq<ServiceInstance>, svc: Text)
    ensures Delivered(list, Upsert(inst), svc) == if inst.name == svc then Apply(list, Upsert(inst)) else list
    ensures Delivered(list, Delete(name, id), svc) == if name == svc then Without(list, id) else list
    ensures Delivered(list, Reset(all), svc) == if all != [] && all[0].name == svc then all else list
  {
  }

  function Replay(list: seq<ServiceInstance>, events: seq<ServiceEvent>, svc: Text): seq<ServiceInstance> {
    if events == [] then list
    else Delivered(Replay(list, events[..|events| - 1], svc), events[|events| - 1], svc)
  }

  /** The last thing a stretch of events says about an id, if it says anything. */
  function LastWord(events: seq<ServiceEvent>, svc: Text, id: Text): Option<Option<ServiceInstance>> {
    if events == [] then None else
    var e := events[|events| - 1];
    if Relevant(e, svc) && Touches(e, id) then Some(Effect(e, id)) else LastWord(events[..|events| - 1], svc, id)
  }

  lemma {:induction false} ReplayLookup(list: seq<ServiceInstance>, events: seq<ServiceEvent>, svc: Text, id: Text)
    ensures Lookup(Replay(list, events, svc), id)
            == match LastWord(events, svc, id) case None => Lookup(list, id) case Some(v) => v
  {
    if events != [] {
      var front, e := events[..|events| - 1], events[|events| - 1];
      ReplayLookup(list, front, svc, id);
      ApplyLookup(Replay(list, front, svc), e, id);
    }
  }

  lemma {:induction false} LastWordConcat(a: seq<ServiceEvent>, b: seq<ServiceEvent>, svc: Text, id: Text)
    ensures LastWord(a + b, svc, id)
            == if LastWord(b, svc, id).Some? then LastWord(b, svc, id) else LastWord(a, svc, id)
  {
    if b == [] {
      assert a + b == a;
    } else {
      assert (a + b)[..|a + b| - 1] == a + b[..|b| - 1];
      LastWordConcat(a, b[..|b| - 1], svc, id);
    }
  }

  /** Overlap: replaying events c..n over the state after m of them, with c <= m <= n, finds every
    * id as the state after n does - the stretch c..m, already applied, is harmless. */
  lemma OverlapHarmless(start: seq<ServiceInstance>, log: seq<ServiceEvent>, svc: Text,
                        c: nat, m: nat, n: nat, id: Text)
    requires c <= m <= n <= |log|
    ensures Lookup(Replay(Replay(start, log[..m], svc), log[c..n], svc), id) == Lookup(Replay(start, log[..n], svc), id)
  {
    hide LastWord, Replay, Lookup;
    ReplayLookup(Replay(start, log[..m], svc), log[c..n], svc, id);
    ReplayLookup(start, log[..m], svc, id);
    ReplayLookup(start, log[..n], svc, id);
    LastWordSplit(log, 0, c, n, svc, id);
    LastWordSplit(log, 0, c, m, svc, id);
    LastWordSplit(log, c, m, n, svc, id);
  }

  lemma LastWordSplit(log: seq<ServiceEvent>, a: nat, b: nat, c: nat, svc: Text, id: Text)
    requires a <= b <= c <= |log|
    ensures log[0..c] == log[..c] && log[0..b] == log[..b]
    ensures c == |log| ==> log[a..c] == log[a..] && log[b..c] == log[b..]
    ensures LastWord(log[a..c], svc, id)
            == if LastWord(log[b..c], svc, id).Some? then LastWord(log[b..c], svc, id) else LastWord(log[a..b], svc, id)
  {
    assert log[a..c] == log[a..b] + log[b..c];
    LastWordConcat(log[a..b], log[b..c], svc, id);
  }

  lemma {:induction false} ReplayKeepsDistinct(list: seq<ServiceInstance>, events: seq<ServiceEvent>, svc: Text)
    requires DistinctIds(list)
    requires forall i :: 0 <= i < |events| && events[i].Reset? ==> DistinctIds(events[i].all)
    ensures DistinctIds(Replay(list, events, svc))
  {
    if events != [] {
      var front, e := events[..|events| - 1], events[|events| - 1];
      ReplayKeepsDistinct(list, front, svc);
      if Relevant(e, svc) {
        ApplyKeepsDistinct(Replay(list, front, svc), e);
      }
    }
  }
}
