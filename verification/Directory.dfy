/** The service directory as one task sees it (src/directory.rs). Interleavings of several tasks are
  * the subject of the modules Rcu, Watchers and WatchProtocol, whose functions it is proved against. */
module Directory {
  import opened Types
  import opened Snapshots
  import Rcu
  import Watchers

  class ServiceDirectory {
    var snapshots: Rcu.Table
    var activeWatches: map<Text, nat>
    var cancelled: set<nat>
    var loops: seq<Watchers.Loop>
    var minted: nat
    var notified: seq<(Text, seq<ServiceInstance>)>   // what each listener has been told, in order
    ghost var commits: seq<Rcu.Write>                 // every write of the snapshots, in order

    function Watch(): Watchers.State
      reads this
    {
      Watchers.State(activeWatches, cancelled, loops, minted, Watchers.Free)
    }

    ghost predicate Valid()
      reads this
    {
      Watchers.Inv(Watch()) && snapshots == Rcu.Fold(commits)
    }

    constructor ()
      ensures Valid() && snapshots == map[] && Watch() == Watchers.START && notified == [] && commits == []
    {
      snapshots, activeWatches, cancelled, loops, minted, notified := map[], map[], {}, [], 0, [];
      commits := [];
    }

    /** A reader sees what the service's own writes since the latest shutdown make of an empty list:
      * nobody else's, and none missing. */
    method GetInstances(svc: Text) returns (list: seq<ServiceInstance>)
      requires Valid()
      ensures list == Rcu.FoldService(commits, svc)
    {
      Rcu.ServicesIndependent(commits, svc);
      list := if svc in snapshots then snapshots[svc] else [];
    }

    /** Rewrites one service's list and tells the listeners the very list it wrote. */
    method ApplyEvent(svc: Text, event: ServiceEvent)
      requires Valid()
      modifies this`snapshots, this`notified, this`commits
      ensures Valid() && commits == old(commits) + [Rcu.ApplyEvent(svc, event)]
      ensures snapshots == Rcu.Updated(old(snapshots), Rcu.ApplyEvent(svc, event))
      ensures notified == old(notified) + [(svc, Rcu.ListOf(snapshots, svc))]
      ensures forall id :: Lookup(Rcu.ListOf(snapshots, svc), id)
                           == if Touches(event, id) then Effect(event, id)
                              else Lookup(old(Rcu.ListOf(snapshots, svc)), id)
      ensures forall other :: other != svc ==> Rcu.ListOf(snapshots, other) == old(Rcu.ListOf(snapshots, other))
    {
      hide Rcu.Fold, Rcu.FoldService, Watchers.Inv;
      var list := GetInstances(svc);
      Rcu.ServicesIndependent(commits, svc);
      Rcu.FoldAppended(commits, Rcu.ApplyEvent(svc, event));
      commits := commits + [Rcu.ApplyEvent(svc, event)];
      forall id
        ensures Lookup(Apply(list, event), id) == if Touches(event, id) then Effect(event, id) else Lookup(list, id)
      {
        ApplyLookup(list, event, id);
      }
      ghost var expected := Apply(list, event);
      match event {
        case Upsert(inst) =>
          var pos := Position(list, inst.serviceId);
          if pos.Some? {
            list := list[pos.value := inst];
          } else {
            list := list + [inst];
          }
        case Delete(_, id) =>
          list := Without(list, id);
        case Reset(all) =>
          list := all;
      }
      assert list == expected;
      snapshots := snapshots[svc := list];
      notified := notified + [(svc, list)];
    }

    /** Serves the snapshot only while a watcher maintains it; otherwise lists the provider, falling
      * back to what was saved on disk, and starts a watcher. None stands for an error. */
    method LoadOrWatch(svc: Text, remote: Option<seq<ServiceInstance>>, disk: Option<seq<ServiceInstance>>)
      returns (list: Option<seq<ServiceInstance>>)
      requires Valid()
      modifies this
      ensures Valid() && notified == old(notified)
      ensures svc in old(snapshots) && svc in old(activeWatches) ==>
                list == Some(old(snapshots)[svc]) && commits == old(commits) && snapshots == old(snapshots)
                && Watch() == old(Watch())
      ensures !(svc in old(snapshots) && svc in old(activeWatches)) && (remote.Some? || disk.Some?) ==>
                && list == (if remote.Some? then remote else disk)
                && commits == old(commits) + [Rcu.Load(svc, list.value)]
                && snapshots == Rcu.Updated(old(snapshots), Rcu.Load(svc, list.value))
                && svc in snapshots && snapshots[svc] == list.value
                && (forall other :: other != svc ==>
                      Rcu.ListOf(snapshots, other) == old(Rcu.ListOf(snapshots, other)))
                && svc in activeWatches && Watchers.LiveLoops(Watch(), loops, svc) == 1
      ensures forall other :: other != svc ==>
                && (other in activeWatches <==> other in old(activeWatches))
                && Watchers.LiveLoops(Watch(), loops, other) == old(Watchers.LiveLoops(Watch(), loops, other))
      ensures !(svc in old(snapshots) && svc in old(activeWatches)) && remote.None? && disk.None? ==>
                list == None && commits == old(commits) && snapshots == old(snapshots) && Watch() == old(Watch())
    {
      if svc in snapshots && svc in activeWatches {
        return Some(snapshots[svc]);
      }
      list := if remote.Some? then remote else disk;
      if list.None? {
        return;
      }
      Rcu.FoldAppended(commits, Rcu.Load(svc, list.value));
      snapshots := snapshots[svc := list.value];
      commits := commits + [Rcu.Load(svc, list.value)];
      EnsureWatcherStarted(svc);
    }

    method EnsureWatcherStarted(svc: Text)
      requires Valid()
      modifies this`activeWatches, this`loops, this`minted
      ensures Valid()
      ensures svc in old(activeWatches) ==> Watch() == old(Watch())
      ensures svc !in old(activeWatches) ==>
                Watch() == Watchers.Next(Watchers.Next(old(Watch()), Watchers.Ensure(svc)), Watchers.Spawn)
      ensures svc in activeWatches && Watchers.LiveLoops(Watch(), loops, svc) == 1
      ensures forall other :: other != svc ==>
                && (other in activeWatches <==> other in old(activeWatches))
                && (other in activeWatches ==> activeWatches[other] == old(activeWatches)[other])
                && Watchers.LiveLoops(Watch(), loops, other) == old(Watchers.LiveLoops(Watch(), loops, other))
    {
      hide Watchers.Inv, Watchers.LiveLoops, Rcu.Fold;
      WatchedAreLive();
      ghost var before := Watch();
      if svc !in activeWatches {
        Watchers.StepKeepsInv(before, Watchers.Ensure(svc));
        Watchers.StepKeepsInv(Watchers.Next(before, Watchers.Ensure(svc)), Watchers.Spawn);
        var token := minted;
        minted := minted + 1;
        activeWatches := activeWatches[svc := token];
        loops := loops + [Watchers.Loop(svc, token, true)];
      }
      WatchedAreLive();
    }

    lemma WatchedAreLive()
      requires Valid()
      ensures forall svc :: Watchers.LiveLoops(Watch(), loops, svc) == if svc in activeWatches then 1 else 0
    {
      forall svc
        ensures Watchers.LiveLoops(Watch(), loops, svc) == if svc in activeWatches then 1 else 0
      {
        Watchers.LiveLoopsOf(Watch(), svc);
      }
    }

    /** Cancels the service's watcher, and no other; its snapshot stays. */
    method Unwatch(svc: Text)
      requires Valid()
      modifies this`activeWatches, this`cancelled
      ensures Valid() && Watch() == Watchers.Next(old(Watch()), Watchers.Unwatch(svc))
      ensures svc !in activeWatches && Watchers.LiveLoops(Watch(), loops, svc) == 0
      ensures forall other :: other != svc ==>
                && (other in activeWatches <==> other in old(activeWatches))
                && (other in activeWatches ==> activeWatches[other] == old(activeWatches)[other])
                && Watchers.LiveLoops(Watch(), loops, other) == old(Watchers.LiveLoops(Watch(), loops, other))
    {
      WatchedAreLive();
      Watchers.StepKeepsInv(Watch(), Watchers.Unwatch(svc));
      if svc in activeWatches {
        var token := activeWatches[svc];
        activeWatches := activeWatches - {svc};
        cancelled := cancelled + {token};
      }
      WatchedAreLive();
    }

    method Shutdown()
      requires Valid()
      modifies this`activeWatches, this`cancelled, this`snapshots, this`commits
      ensures Valid() && Watch() == Watchers.Next(old(Watch()), Watchers.Shutdown)
      ensures snapshots == map[] && activeWatches == map[]
      ensures commits == old(commits) + [Rcu.Wipe] && snapshots == Rcu.Updated(old(snapshots), Rcu.Wipe)
      ensures forall svc :: Watchers.LiveLoops(Watch(), loops, svc) == 0
    {
      hide Rcu.Fold, Rcu.Updated;
      Watchers.StepKeepsInv(Watch(), Watchers.Shutdown);
      Rcu.FoldAppended(commits, Rcu.Wipe);
      Rcu.WipedIsEmpty(snapshots);
      snapshots, commits := map[], commits + [Rcu.Wipe];
      cancelled := cancelled + activeWatches.Values;
      activeWatches := map[];
      forall svc
        ensures Watchers.LiveLoops(Watch(), loops, svc) == 0
      {
        Watchers.LiveLoopsOf(Watch(), svc);
      }
    }
  }
}
