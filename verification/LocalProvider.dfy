/** The in-memory provider (src/provider/local.rs). */
module LocalProvider {
  import opened Types
  import opened Snapshots

  type Instances = map<Text, map<Text, ServiceInstance>>

  /** The instances of one service, by id. */
  function Of(instances: Instances, svc: Text): map<Text, ServiceInstance> {
    if svc in instances then instances[svc] else map[]
  }

  function Get(m: map<Text, ServiceInstance>, id: Text): Option<ServiceInstance> {
    if id in m then Some(m[id]) else None
  }

  function Put(instances: Instances, inst: ServiceInstance): (r: Instances)
    ensures Of(r, inst.name) == Of(instances, inst.name)[inst.serviceId := inst]
    ensures forall svc :: svc != inst.name ==> Of(r, svc) == Of(instances, svc)
  {
    instances[inst.name := Of(instances, inst.name)[inst.serviceId := inst]]
  }

  /** Removing from an unknown service does not create it. */
  function Drop(instances: Instances, svc: Text, id: Text): (r: Instances)
    ensures Of(r, svc) == Of(instances, svc) - {id}
    ensures forall other :: other != svc ==> Of(r, other) == Of(instances, other)
    ensures r.Keys == instances.Keys
  {
    if svc in instances then instances[svc := instances[svc] - {id}] else instances
  }

  /** Every instance is stored under its own name and id. */
  ghost predicate Keyed(instances: Instances) {
    forall svc, id :: svc in instances && id in instances[svc] ==>
                        instances[svc][id].name == svc && instances[svc][id].serviceId == id
  }

  /** The list holds exactly the values of the map, each once, in any order. */
  ghost predicate IsListing(list: seq<ServiceInstance>, m: map<Text, ServiceInstance>) {
    DistinctIds(list) && forall id :: Lookup(list, id) == Get(m, id)
  }

  class LocalRegistry {
    var instances: Instances
    var sent: seq<ServiceEvent>
    var registeredKey: Option<(Text, Text)>

    constructor ()
      ensures instances == map[] && sent == [] && registeredKey == None
    {
      instances, sent, registeredKey := map[], [], None;
    }

    method AddInstance(inst: ServiceInstance)
      modifies this
      ensures instances == Put(old(instances), inst)
      ensures sent == old(sent) + [Upsert(inst)]
      ensures registeredKey == old(registeredKey)
      ensures old(Keyed(instances)) ==> Keyed(instances)
    {
      var svcMap := if inst.name in instances then instances[inst.name] else map[];
      instances := instances[inst.name := svcMap[inst.serviceId := inst]];
      sent := sent + [Upsert(inst)];
    }

    /** The Delete is broadcast whether or not anything was stored. */
    method RemoveInstance(serviceName: Text, serviceId: Text)
      modifies this
      ensures instances == Drop(old(instances), serviceName, serviceId)
      ensures sent == old(sent) + [Delete(serviceName, serviceId)]
      ensures registeredKey == old(registeredKey)
      ensures old(Keyed(instances)) ==> Keyed(instances)
    {
      if serviceName in instances {
        instances := instances[serviceName := instances[serviceName] - {serviceId}];
      }
      sent := sent + [Delete(serviceName, serviceId)];
    }

    /** Empties the provider and tells nobody. */
    method Clear()
      modifies this
      ensures instances == map[] && sent == old(sent) && registeredKey == old(registeredKey)
    {
      instances := map[];
    }

    method Register(inst: ServiceInstance)
      modifies this
      ensures instances == Put(old(instances), inst)
      ensures sent == old(sent) + [Upsert(inst)]
      ensures registeredKey == Some((inst.name, inst.serviceId))
      ensures old(Keyed(instances)) ==> Keyed(instances)
    {
      var svcMap := if inst.name in instances then instances[inst.name] else map[];
      instances := instances[inst.name := svcMap[inst.serviceId := inst]];
      registeredKey := Some((inst.name, inst.serviceId));
      sent := sent + [Upsert(inst)];
    }

    /** Only the latest registration is undone, and only once. */
    method Deregister()
      modifies this
      ensures registeredKey == None
      ensures match old(registeredKey)
              case None => instances == old(instances) && sent == old(sent)
              case Some(key) =>
                && instances == Drop(old(instances), key.0, key.1)
                && sent == old(sent) + [Delete(key.0, key.1)]
      ensures old(Keyed(instances)) ==> Keyed(instances)
    {
      var key := registeredKey;
      registeredKey := None;
      if key.Some? {
        var (svc, id) := key.value;
        if svc in instances {
          instances := instances[svc := instances[svc] - {id}];
        }
        sent := sent + [Delete(svc, id)];
      }
    }

    /** Lists the values of a service in whatever order the map yields them. */
    method ListInstances(serviceName: Text) returns (list: seq<ServiceInstance>)
      requires Keyed(instances)
      ensures IsListing(list, Of(instances, serviceName))
    {
      var left := if serviceName in instances then instances[serviceName] else map[];
      ghost var all := left;
      list := [];
      while left != map[]
        invariant PartlyListed(list, left, all)
        decreases |left|
      {
        var id :| id in left;
        ListOneMore(list, left, all, id);
        list := list + [left[id]];
        left := left - {id};
      }
    }
  }

  /** The ids of all that are no longer left have been listed. */
  ghost predicate PartlyListed(list: seq<ServiceInstance>, left: map<Text, ServiceInstance>,
                               all: map<Text, ServiceInstance>)
  {
    && DistinctIds(list)
    && (forall id :: id in left ==> id in all && left[id] == all[id] && left[id].serviceId == id)
    && (forall id :: Lookup(list, id) == if id in left then None else Get(all, id))
  }

  lemma ListOneMore(list: seq<ServiceInstance>, left: map<Text, ServiceInstance>, all: map<Text, ServiceInstance>,
                    id: Text)
    requires PartlyListed(list, left, all) && id in left
    ensures PartlyListed(list + [left[id]], left - {id}, all)
  {
    assert Lookup(list, id) == None;
    forall other
      ensures Lookup(list + [left[id]], other) == if other in left - {id} then None else Get(all, other)
    {
      LookupFront(list, [left[id]], other);
    }
  }
}
