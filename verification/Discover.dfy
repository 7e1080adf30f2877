/** Change streams for Tower and Tonic (src/discover.rs): each notification is compared with what the
  * consumer was last told, and only the differences are sent. */
module Discover {
  import opened Types

  datatype Change<T> = Insert(id: Text, value: T) | Remove(id: Text)

  /** What a consumer holds after the changes it was sent. */
  function Fold<T>(changes: seq<Change<T>>): map<Text, T> {
    if changes == [] then map[] else Took(Fold(changes[..|changes| - 1]), changes[|changes| - 1])
  }

  function Took<T>(held: map<Text, T>, c: Change<T>): map<Text, T> {
    match c
    case Insert(id, v) => held[id := v]
    case Remove(id) => held - {id}
  }

  function TookAll<T>(held: map<Text, T>, changes: seq<Change<T>>): map<Text, T> {
    if changes == [] then held else Took(TookAll(held, changes[..|changes| - 1]), changes[|changes| - 1])
  }

  lemma {:induction false} TookConcat<T>(held: map<Text, T>, a: seq<Change<T>>, b: seq<Change<T>>)
    ensures TookAll(held, a + b) == TookAll(TookAll(held, a), b)
  {
    if b == [] {
      assert a + b == a;
    } else {
      assert (a + b)[..|a + b| - 1] == a + b[..|b| - 1];
      TookConcat(held, a, b[..|b| - 1]);
    }
  }

  lemma {:induction false} FoldIsTookAll<T>(changes: seq<Change<T>>)
    ensures Fold(changes) == TookAll(map[], changes)
  {
    if changes != [] {
      FoldIsTookAll(changes[..|changes| - 1]);
    }
  }

  lemma FoldConcat<T>(a: seq<Change<T>>, b: seq<Change<T>>)
    ensures Fold(a + b) == TookAll(Fold(a), b)
  {
    FoldIsTookAll(a + b);
    FoldIsTookAll(a);
    TookConcat(map[], a, b);
  }

  lemma TookNone<T>(held: map<Text, T>)
    ensures TookAll(held, []) == held
  {
  }

  lemma TookOne<T>(held: map<Text, T>, c: Change<T>)
    ensures TookAll(held, [c]) == Took(held, c)
  {
    assert [c][..0] == [];
  }

  lemma TookTwo<T>(held: map<Text, T>, c: Change<T>, d: Change<T>)
    ensures TookAll(held, [c, d]) == Took(Took(held, c), d)
  {
    assert [c, d][..1] == [c];
    TookOne(held, c);
  }

  /** A Remove for each of these ids, once, in any order. */
  ghost predicate Removes<T>(changes: seq<Change<T>>, ids: set<Text>) {
    && (forall i :: 0 <= i < |changes| ==> changes[i].Remove? && changes[i].id in ids)
    && (forall id :: id in ids ==> Remove(id) in changes)
    && (forall i, j :: 0 <= i < j < |changes| ==> changes[i].id != changes[j].id)
  }

  lemma {:induction false} TookRemoves<T>(held: map<Text, T>, changes: seq<Change<T>>, id: Text)
    requires forall i :: 0 <= i < |changes| ==> changes[i].Remove?
    ensures id in TookAll(held, changes) <==> id in held && Remove(id) !in changes
    ensures id in TookAll(held, changes) ==> TookAll(held, changes)[id] == held[id]
  {
    if changes != [] {
      TookRemoves(held, changes[..|changes| - 1], id);
      assert changes == changes[..|changes| - 1] + [changes[|changes| - 1]];
    }
  }

  /** A Remove for every id, in the order the set yields them. */
  method RemovesFor<T>(ids: set<Text>) returns (r: seq<Change<T>>)
    ensures Removes(r, ids)
    ensures ids == {} ==> r == []
  {
    r := [];
    var left := ids;
    while left != {}
      invariant ids == {} ==> r == []
      invariant left <= ids && Removes(r, ids - left)
    {
      var id :| id in left;
      r := r + [Remove(id)];
      left := left - {id};
    }
    assert ids - left == ids;
  }

  // ---- Tower: ids only ----

  /** The Inserts for listed instances whose id is not known, in list order. */
  function Inserts(known: set<Text>, list: seq<ServiceInstance>): seq<Change<ServiceInstance>> {
    if list == [] then [] else
    var inst := list[|list| - 1];
    Inserts(known, list[..|list| - 1]) + (if inst.serviceId in known then [] else [Insert(inst.serviceId, inst)])
  }

  /** Every Remove names an id the consumer holds and every Insert one it does not. */
  ghost predicate Orderly<T>(held: map<Text, T>, changes: seq<Change<T>>) {
    forall i :: 0 <= i < |changes| ==> (changes[i].Remove? <==> changes[i].id in TookAll(held, changes[..i]))
  }

  lemma OrderlyConcat<T>(held: map<Text, T>, a: seq<Change<T>>, b: seq<Change<T>>)
    requires Orderly(held, a) && Orderly(TookAll(held, a), b)
    ensures Orderly(held, a + b)
  {
    forall i | 0 <= i < |a + b|
      ensures (a + b)[i].Remove? <==> (a + b)[i].id in TookAll(held, (a + b)[..i])
    {
      if i < |a| {
        assert (a + b)[..i] == a[..i];
      } else {
        assert (a + b)[..i] == a + b[..i - |a|];
        TookConcat(held, a, b[..i - |a|]);
      }
    }
  }

  lemma IdSetExtended(list: seq<ServiceInstance>)
    requires list != []
    ensures IdSet(list) == IdSet(list[..|list| - 1]) + {list[|list| - 1].serviceId}
  {
    forall id | id in IdSet(list)
      ensures id in IdSet(list[..|list| - 1]) + {list[|list| - 1].serviceId}
    {
      var i :| 0 <= i < |list| && list[i].serviceId == id;
      if i < |list| - 1 {
        assert list[..|list| - 1][i] == list[i];
      }
    }
  }

  lemma {:induction false} TookInserts(held: map<Text, ServiceInstance>, known: set<Text>, list: seq<ServiceInstance>)
    ensures TookAll(held, Inserts(known, list)).Keys == held.Keys + (IdSet(list) - known)
  {
    if list != [] {
      IdSetExtended(list);
      TookInserts(held, known, list[..|list| - 1]);
      var inst := list[|list| - 1];
      var one := if inst.serviceId in known then [] else [Insert(inst.serviceId, inst)];
      TookConcat(held, Inserts(known, list[..|list| - 1]), one);
      if one != [] {
        assert one[..0] == [];
      }
    }
  }

  lemma {:induction false} InsertsOrderly(held: map<Text, ServiceInstance>, known: set<Text>,
                                          list: seq<ServiceInstance>)
    requires DistinctIds(list) && held.Keys <= known
    ensures Orderly(held, Inserts(known, list))
  {
    if list != [] {
      var front, inst := list[..|list| - 1], list[|list| - 1];
      InsertsOrderly(held, known, front);
      TookInserts(held, known, front);
      var one := if inst.serviceId in known then [] else [Insert(inst.serviceId, inst)];
      assert inst.serviceId !in IdSet(front);
      if one != [] {
        assert one[..0] == [];
      }
      OrderlyConcat(held, Inserts(known, front), one);
    }
  }

  lemma RemovesOrderly<T>(held: map<Text, T>, changes: seq<Change<T>>, ids: set<Text>)
    requires Removes(changes, ids) && ids <= held.Keys
    ensures Orderly(held, changes)
  {
    forall i | 0 <= i < |changes|
      ensures changes[i].id in TookAll(held, changes[..i])
    {
      TookRemoves(held, changes[..i], changes[i].id);
    }
  }

  /** The last listed instance with its id. */
  ghost predicate LastOfId(list: seq<ServiceInstance>, i: int) {
    0 <= i < |list| && forall j :: i < j < |list| ==> list[j].serviceId != list[i].serviceId
  }

  /** A listed id that is not known is announced with the last instance listed for it. */
  lemma {:induction false} InsertsAnnounceLast(held: map<Text, ServiceInstance>, known: set<Text>,
                                               list: seq<ServiceInstance>, i: int)
    requires LastOfId(list, i) && list[i].serviceId !in known
    ensures list[i].serviceId in TookAll(held, Inserts(known, list))
    ensures TookAll(held, Inserts(known, list))[list[i].serviceId] == list[i]
  {
    var front, inst := list[..|list| - 1], list[|list| - 1];
    var one := if inst.serviceId in known then [] else [Insert(inst.serviceId, inst)];
    TookConcat(held, Inserts(known, front), one);
    if one != [] {
      TookOne(TookAll(held, Inserts(known, front)), one[0]);
    }
    if i < |front| {
      InsertsAnnounceLast(held, known, front, i);
    }
  }

  lemma TowerValues(held: map<Text, ServiceInstance>, removes: seq<Change<ServiceInstance>>, list: seq<ServiceInstance>)
    requires Removes(removes, held.Keys - IdSet(list))
    ensures TookAll(held, removes).Keys <= held.Keys
    ensures var end := TookAll(held, removes + Inserts(held.Keys, list));
            && end.Keys == IdSet(list)
            && (forall id :: id in held && id in IdSet(list) ==> end[id] == held[id])
            && (forall i :: LastOfId(list, i) && list[i].serviceId !in held ==> end[list[i].serviceId] == list[i])
  {
    hide Inserts, IdSet;
    var middle := TookAll(held, removes);
    forall id
      ensures id in middle <==> id in held && id in IdSet(list)
      ensures id in middle ==> middle[id] == held[id]
    {
      TookRemoves(held, removes, id);
    }
    TookConcat(held, removes, Inserts(held.Keys, list));
    TookInserts(middle, held.Keys, list);
    forall id | id in held && id in IdSet(list)
      ensures TookAll(middle, Inserts(held.Keys, list))[id] == held[id]
    {
      InsertsLeaveKnown(middle, held.Keys, list, id);
    }
    forall i | LastOfId(list, i) && list[i].serviceId !in held
      ensures list[i].serviceId in TookAll(middle, Inserts(held.Keys, list))
      ensures TookAll(middle, Inserts(held.Keys, list))[list[i].serviceId] == list[i]
    {
      InsertsAnnounceLast(middle, held.Keys, list, i);
    }
  }

  /** One notification brings a consumer that holds the known ids to exactly the listed ids: a known id
    * keeps the instance it was announced with, a new one gets the last instance listed for it. With
    * distinct ids every change is orderly. */
  lemma TowerReplay(held: map<Text, ServiceInstance>, removes: seq<Change<ServiceInstance>>, list: seq<ServiceInstance>)
    requires Removes(removes, held.Keys - IdSet(list))
    ensures TookAll(held, removes + Inserts(held.Keys, list)).Keys == IdSet(list)
    ensures DistinctIds(list) ==> Orderly(held, removes + Inserts(held.Keys, list))
    ensures forall id :: id in held && id in IdSet(list) ==>
              TookAll(held, removes + Inserts(held.Keys, list))[id] == held[id]
    ensures forall i :: LastOfId(list, i) && list[i].serviceId !in held ==>
              TookAll(held, removes + Inserts(held.Keys, list))[list[i].serviceId] == list[i]
  {
    TowerValues(held, removes, list);
    if DistinctIds(list) {
      RemovesOrderly(held, removes, held.Keys - IdSet(list));
      InsertsOrderly(TookAll(held, removes), held.Keys, list);
      OrderlyConcat(held, removes, Inserts(held.Keys, list));
    }
  }

  /** The consumer holds every listed id as it is listed. */
  ghost predicate HoldsListed(held: map<Text, ServiceInstance>, list: seq<ServiceInstance>) {
    forall i :: LastOfId(list, i) ==> list[i].serviceId in held && held[list[i].serviceId] == list[i]
  }

  /** A changed instance under a known id is not announced, so after a notification the consumer holds
    * the listed instances exactly when those it already held are unchanged. */
  lemma TowerInstancesExactly(held: map<Text, ServiceInstance>, removes: seq<Change<ServiceInstance>>,
                              list: seq<ServiceInstance>)
    requires Removes(removes, held.Keys - IdSet(list))
    ensures HoldsListed(TookAll(held, removes + Inserts(held.Keys, list)), list)
            <==> (forall i :: LastOfId(list, i) && list[i].serviceId in held ==> held[list[i].serviceId] == list[i])
    ensures DistinctIds(list) ==> forall i :: 0 <= i < |list| ==> LastOfId(list, i)
  {
    TowerReplay(held, removes, list);
    var end := TookAll(held, removes + Inserts(held.Keys, list));
    forall i | LastOfId(list, i)
      ensures list[i].serviceId in end
      ensures end[list[i].serviceId] == if list[i].serviceId in held then held[list[i].serviceId] else list[i]
    {
      assert list[i].serviceId in IdSet(list);
    }
  }

  /** If changes were dropped because the channel was full, consumer and bookkeeping drift apart. The
    * next notification reaches the listed ids exactly when every known listed id is held and every
    * held id that is not listed is known: a lost Insert or Remove is not repaired by repetition. */
  lemma TowerInStepExactly(held: map<Text, ServiceInstance>, known: set<Text>,
                           removes: seq<Change<ServiceInstance>>, list: seq<ServiceInstance>)
    requires Removes(removes, known - IdSet(list))
    ensures TookAll(held, removes + Inserts(known, list)).Keys == IdSet(list)
            <==> known * IdSet(list) <= held.Keys && held.Keys - IdSet(list) <= known
  {
    var middle, end := TookAll(held, removes), TookAll(held, removes + Inserts(known, list));
    TookConcat(held, removes, Inserts(known, list));
    TookInserts(middle, known, list);
    forall id
      ensures id in middle <==> id in held && !(id in known && id !in IdSet(list))
    {
      TookRemoves(held, removes, id);
    }
    if known * IdSet(list) <= held.Keys && held.Keys - IdSet(list) <= known {
      assert forall id :: id in end.Keys <==> id in IdSet(list);
    } else if id :| id in known * IdSet(list) && id !in held {
      assert id in IdSet(list) && id !in end.Keys;
    } else {
      var id :| id in held.Keys - IdSet(list) && id !in known;
      assert id !in IdSet(list) && id in end.Keys;
    }
  }

  lemma {:induction false} InsertsLeaveKnown(held: map<Text, ServiceInstance>, known: set<Text>,
                                             list: seq<ServiceInstance>, id: Text)
    requires id in known && id in held
    ensures id in TookAll(held, Inserts(known, list)) && TookAll(held, Inserts(known, list))[id] == held[id]
  {
    if list != [] {
      InsertsLeaveKnown(held, known, list[..|list| - 1], id);
      var inst := list[|list| - 1];
      var one := if inst.serviceId in known then [] else [Insert(inst.serviceId, inst)];
      TookConcat(held, Inserts(known, list[..|list| - 1]), one);
      if one != [] {
        assert one[..0] == [];
      }
    }
  }

  /** The Tower listener of one service; `sent` is everything put on the channel. */
  class TowerStream {
    const svc: Text
    var known: set<Text>
    var sent: seq<Change<ServiceInstance>>

    ghost predicate Valid()
      reads this
    {
      Fold(sent).Keys == known
    }

    constructor (svc: Text, initial: seq<ServiceInstance>)
      ensures Valid() && this.svc == svc
      ensures sent == Inserts({}, initial) && Fold(sent).Keys == IdSet(initial) && HoldsListed(Fold(sent), initial)
    {
      this.svc := svc;
      known := IdSet(initial);
      new;
      var changes: seq<Change<ServiceInstance>> := [];
      for i := 0 to |initial|
        invariant changes == Inserts({}, initial[..i])
      {
        assert initial[..i + 1][..i] == initial[..i];
        changes := changes + [Insert(initial[i].serviceId, initial[i])];
      }
      assert initial[..|initial|] == initial;
      sent := changes;
      FoldIsTookAll(sent);
      TookInserts(map[], {}, initial);
      forall i | LastOfId(initial, i)
        ensures initial[i].serviceId in Fold(sent) && Fold(sent)[initial[i].serviceId] == initial[i]
      {
        InsertsAnnounceLast(map[], {}, initial, i);
      }
    }

    method OnChange(name: Text, list: seq<ServiceInstance>)
      requires Valid()
      modifies this
      ensures Valid()
      ensures name != svc ==> sent == old(sent) && known == old(known)
      ensures name == svc ==>
                && known == IdSet(list) && Fold(sent).Keys == IdSet(list)
                && |sent| >= |old(sent)| && sent[..|old(sent)|] == old(sent)
                && (DistinctIds(list) ==> Orderly(Fold(old(sent)), sent[|old(sent)|..]))
                && (old(known) == IdSet(list) ==> sent == old(sent))
                && (forall id :: id in old(known) && id in IdSet(list) ==> Fold(sent)[id] == Fold(old(sent))[id])
                && (forall i :: LastOfId(list, i) && list[i].serviceId !in old(known) ==>
                      Fold(sent)[list[i].serviceId] == list[i])
    {
      if name != svc {
        return;
      }
      var newSet := IdSet(list);
      var changes := RemovesFor(known - newSet);
      ghost var removes := changes;
      for i := 0 to |list|
        invariant changes == removes + Inserts(known, list[..i])
        invariant known == old(known) && sent == old(sent)
      {
        assert list[..i + 1][..i] == list[..i];
        if list[i].serviceId !in known {
          changes := changes + [Insert(list[i].serviceId, list[i])];
        }
      }
      assert list[..|list|] == list;
      FoldConcat(sent, changes);
      TowerReplay(Fold(sent), removes, list);
      if known == newSet {
        NothingNew(known, list);
      }
      sent := sent + changes;
      known := newSet;
    }
  }

  /** A notification with the known ids sends nothing: a change that got lost before is not sent
    * again, and an instance whose address changed under the same id is not announced. */
  lemma {:induction false} NothingNew(known: set<Text>, list: seq<ServiceInstance>)
    requires IdSet(list) <= known
    ensures Inserts(known, list) == []
  {
    if list != [] {
      IdSetExtended(list);
      NothingNew(known, list[..|list| - 1]);
    }
  }

  // ---- Tonic: endpoints by URL ----

  const HTTP: Text := [104, 116, 116, 112]

  function GrpcUrl(inst: ServiceInstance): Option<Text> {
    match inst.grpc case None => None case Some(e) => Some(ToUrl(e, HTTP))
  }

  /** The gRPC URL of every listed id that has one; a later instance with the same id wins. */
  function Urls(list: seq<ServiceInstance>): map<Text, Text> {
    if list == [] then map[] else
    var front, inst := Urls(list[..|list| - 1]), list[|list| - 1];
    match GrpcUrl(inst) case None => front case Some(url) => front[inst.serviceId := url]
  }

  /** What the consumer can be told about an id: its URL, if it has one and it parses. */
  function Usable(urls: map<Text, Text>, parses: Text -> bool, id: Text): Option<Text> {
    if id in urls && parses(urls[id]) then Some(urls[id]) else None
  }

  function Held(m: map<Text, Text>, id: Text): Option<Text> {
    if id in m then Some(m[id]) else None
  }

  function InsertIfParses(id: Text, url: Text, parses: Text -> bool): seq<Change<Text>> {
    if parses(url) then [Insert(id, url)] else []
  }

  /** The changes sent for one listed instance. */
  function UpdateOf(known: map<Text, Text>, inst: ServiceInstance, parses: Text -> bool): seq<Change<Text>> {
    match GrpcUrl(inst)
    case None => []
    case Some(url) =>
      var id := inst.serviceId;
      if id in known && known[id] == url then []
      else (if id in known then [Remove(id)] else []) + InsertIfParses(id, url, parses)
  }

  function Updates(known: map<Text, Text>, list: seq<ServiceInstance>, parses: Text -> bool): seq<Change<Text>> {
    if list == [] then []
    else Updates(known, list[..|list| - 1], parses) + UpdateOf(known, list[|list| - 1], parses)
  }

  /** The consumer holds exactly the usable part of the known URLs. */
  ghost predicate InStep(held: map<Text, Text>, known: map<Text, Text>, parses: Text -> bool) {
    forall id :: Held(held, id) == Usable(known, parses, id)
  }

  /** The last gRPC URL listed for an id among those worth keeping. */
  function LastUrl(list: seq<ServiceInstance>, id: Text, keep: Text -> bool): Option<Text> {
    if list == [] then None else
    var front, inst := list[..|list| - 1], list[|list| - 1];
    match GrpcUrl(inst)
    case Some(url) => if inst.serviceId == id && keep(url) then Some(url) else LastUrl(front, id, keep)
    case None => LastUrl(front, id, keep)
  }

  function IfParses(url: Text, parses: Text -> bool): Option<Text> {
    if parses(url) then Some(url) else None
  }

  lemma TookUpdateOf(held: map<Text, Text>, known: map<Text, Text>, inst: ServiceInstance, parses: Text -> bool,
                     id: Text)
    ensures Held(TookAll(held, UpdateOf(known, inst, parses)), id)
            == match GrpcUrl(inst)
               case None => Held(held, id)
               case Some(url) =>
                 if id != inst.serviceId || (id in known && known[id] == url) then Held(held, id)
                 else if id in known || parses(url) then IfParses(url, parses)
                 else Held(held, id)
  {
    hide GrpcUrl, TookAll;
    TookNone(held);
    match GrpcUrl(inst) {
      case None =>
      case Some(url) =>
        var x := inst.serviceId;
        TookOne(held, Remove(x));
        TookOne(held, Insert(x, url));
        TookTwo(held, Remove(x), Insert(x, url));
        var remove: Change<Text> := Remove(x);
        var insert := InsertIfParses(x, url, parses);
        assert [] + insert == insert && [remove] + [] == [remove];
        assert [remove] + [Insert(x, url)] == [remove, Insert(x, url)];
    }
  }

  /** What the listed updates leave a consumer holding, repeated ids included: a known id has its last
    * URL that differs from the known one, a new id its last URL that parses. */
  lemma {:induction false} TookUpdates(held: map<Text, Text>, known: map<Text, Text>, list: seq<ServiceInstance>,
                                       parses: Text -> bool, id: Text)
    ensures Held(TookAll(held, Updates(known, list, parses)), id)
            == if id in known then
                 match LastUrl(list, id, url => url != known[id])
                 case None => Held(held, id)
                 case Some(url) => IfParses(url, parses)
               else
                 match LastUrl(list, id, parses)
                 case None => Held(held, id)
                 case Some(url) => Some(url)
  {
    if list != [] {
      var front, inst := list[..|list| - 1], list[|list| - 1];
      TookUpdates(held, known, front, parses, id);
      TookConcat(held, Updates(known, front, parses), UpdateOf(known, inst, parses));
      TookUpdateOf(TookAll(held, Updates(known, front, parses)), known, inst, parses, id);
    }
  }

  /** A kept URL is listed and kept. */
  lemma {:induction false} LastUrlKept(list: seq<ServiceInstance>, id: Text, keep: Text -> bool)
    ensures LastUrl(list, id, keep).Some? ==> keep(LastUrl(list, id, keep).value) && id in Urls(list)
    ensures id in Urls(list) && keep(Urls(list)[id]) ==> LastUrl(list, id, keep) == Some(Urls(list)[id])
  {
    if list != [] {
      LastUrlKept(list[..|list| - 1], id, keep);
    }
  }

  /** The list names no id in a way that confuses the listener. A new id: its last URL parses, or none
    * does. A known id back at its known URL: no other URL is listed for it before, or neither the
    * known URL nor the last other one parses. */
  ghost predicate Unconfusing(known: map<Text, Text>, list: seq<ServiceInstance>, parses: Text -> bool) {
    forall id :: id in Urls(list) ==> UnconfusingAt(known, list, parses, id)
  }

  predicate UnconfusingAt(known: map<Text, Text>, list: seq<ServiceInstance>, parses: Text -> bool, id: Text)
    requires id in Urls(list)
  {
    if id !in known then
      parses(Urls(list)[id]) || LastUrl(list, id, parses).None?
    else
      Urls(list)[id] == known[id] ==>
        match LastUrl(list, id, url => url != known[id])
        case None => true
        case Some(other) => !parses(other) && !parses(known[id])
  }

  /** What one notification makes of an id, whatever the consumer held before. A new id: its last URL
    * parses, or none does and nothing is held for it. A known id back at its known URL: no other is
    * listed and the consumer was right about it, or another is and neither parses. A known id at a new
    * URL is always put right, and one no longer listed always removed. */
  ghost predicate RepairedAt(held: map<Text, Text>, known: map<Text, Text>, list: seq<ServiceInstance>,
                             parses: Text -> bool, id: Text)
  {
    if id !in Urls(list) then
      id in known || id !in held
    else if id !in known then
      if LastUrl(list, id, parses).None? then id !in held else parses(Urls(list)[id])
    else
      Urls(list)[id] == known[id] ==>
        match LastUrl(list, id, url => url != known[id])
        case None => Held(held, id) == Usable(known, parses, id)
        case Some(other) => !parses(other) && !parses(known[id])
  }

  ghost predicate Repairs(held: map<Text, Text>, known: map<Text, Text>, list: seq<ServiceInstance>,
                          parses: Text -> bool)
  {
    forall id :: RepairedAt(held, known, list, parses, id)
  }

  /** For any consumer and any bookkeeping, after confusing lists and lost changes too: one notification
    * brings the consumer in step with the listed URLs exactly when it repairs every id. */
  lemma TonicRepairsExactly(held: map<Text, Text>, known: map<Text, Text>, list: seq<ServiceInstance>,
                            parses: Text -> bool, removes: seq<Change<Text>>)
    requires Removes(removes, known.Keys - Urls(list).Keys)
    ensures InStep(TookAll(held, Updates(known, list, parses) + removes), Urls(list), parses)
            <==> Repairs(held, known, list, parses)
    ensures held.Keys <= known.Keys ==>
              TookAll(held, Updates(known, list, parses) + removes).Keys <= Urls(list).Keys
  {
    hide Urls, Updates, LastUrl;
    var middle := TookAll(held, Updates(known, list, parses));
    var end := TookAll(held, Updates(known, list, parses) + removes);
    TookConcat(held, Updates(known, list, parses), removes);
    forall id
      ensures Held(end, id) == Usable(Urls(list), parses, id) <==> RepairedAt(held, known, list, parses, id)
      ensures held.Keys <= known.Keys && id in end ==> id in Urls(list)
    {
      TookUpdates(held, known, list, parses, id);
      TookRemoves(middle, removes, id);
      LastUrlKept(list, id, parses);
      if id in known {
        LastUrlKept(list, id, url => url != known[id]);
      }
    }
  }

  /** With distinct ids: every id listed at its known URL was right before, and every id held though not
    * known is listed with a URL that parses. */
  lemma TonicDistinctExactly(held: map<Text, Text>, known: map<Text, Text>, list: seq<ServiceInstance>,
                             parses: Text -> bool)
    requires DistinctIds(list)
    ensures Repairs(held, known, list, parses)
            <==> && (forall id :: id in known && id in Urls(list) && Urls(list)[id] == known[id] ==>
                       Held(held, id) == Usable(known, parses, id))
                 && (forall id :: id in held && id !in known ==> id in Urls(list) && parses(Urls(list)[id]))
  {
    hide Urls, LastUrl;
    forall id
      ensures RepairedAt(held, known, list, parses, id)
              <==> && (id in known && id in Urls(list) && Urls(list)[id] == known[id] ==>
                         Held(held, id) == Usable(known, parses, id))
                   && (id in held && id !in known ==> id in Urls(list) && parses(Urls(list)[id]))
    {
      DistinctHasOneUrl(list, id, parses);
      if id in known {
        DistinctHasOneUrl(list, id, url => url != known[id]);
      }
    }
  }

  /** One notification brings a consumer in step with the known URLs in step with the listed ones
    * exactly when no repeated id confuses the listener. */
  lemma TonicInStepExactly(held: map<Text, Text>, known: map<Text, Text>, list: seq<ServiceInstance>,
                           parses: Text -> bool, removes: seq<Change<Text>>)
    requires InStep(held, known, parses)
    requires Removes(removes, known.Keys - Urls(list).Keys)
    ensures InStep(TookAll(held, Updates(known, list, parses) + removes), Urls(list), parses)
            <==> Unconfusing(known, list, parses)
  {
    TonicRepairsExactly(held, known, list, parses, removes);
    InStepRepairs(held, known, list, parses);
  }

  lemma InStepRepairs(held: map<Text, Text>, known: map<Text, Text>, list: seq<ServiceInstance>,
                      parses: Text -> bool)
    requires InStep(held, known, parses)
    ensures Repairs(held, known, list, parses) <==> Unconfusing(known, list, parses)
  {
    hide Urls, LastUrl;
    forall id
      ensures RepairedAt(held, known, list, parses, id)
              <==> (id in Urls(list) ==> UnconfusingAt(known, list, parses, id))
    {
      assert Held(held, id) == Usable(known, parses, id);
      LastUrlKept(list, id, parses);
    }
  }

  lemma DistinctFront(list: seq<ServiceInstance>)
    requires list != [] && DistinctIds(list)
    ensures DistinctIds(list[..|list| - 1]) && list[|list| - 1].serviceId !in IdSet(list[..|list| - 1])
  {
  }

  lemma {:induction false} UrlsOf(list: seq<ServiceInstance>, id: Text, keep: Text -> bool)
    ensures id in Urls(list) ==> id in IdSet(list)
    ensures id !in IdSet(list) ==> LastUrl(list, id, keep).None?
  {
    if list != [] {
      IdSetExtended(list);
      UrlsOf(list[..|list| - 1], id, keep);
    }
  }

  /** With distinct ids an id has at most one URL to keep. */
  lemma {:induction false} DistinctHasOneUrl(list: seq<ServiceInstance>, id: Text, keep: Text -> bool)
    requires DistinctIds(list)
    ensures LastUrl(list, id, keep) == if id in Urls(list) && keep(Urls(list)[id]) then Some(Urls(list)[id]) else None
  {
    if list != [] {
      DistinctFront(list);
      UrlsOf(list[..|list| - 1], id, keep);
      DistinctHasOneUrl(list[..|list| - 1], id, keep);
    }
  }

  lemma DistinctUnconfusing(known: map<Text, Text>, list: seq<ServiceInstance>, parses: Text -> bool)
    requires DistinctIds(list)
    ensures Unconfusing(known, list, parses)
  {
    forall id | id in Urls(list)
      ensures UnconfusingAt(known, list, parses, id)
    {
      DistinctHasOneUrl(list, id, parses);
      if id in known {
        DistinctHasOneUrl(list, id, url => url != known[id]);
      }
    }
  }

  /** One notification with distinct ids brings a consumer in step with the known URLs in step with
    * the listed ones: through changed URLs, endpoints lost and regained, and URLs that do not parse. */
  lemma TonicReplay(held: map<Text, Text>, known: map<Text, Text>, list: seq<ServiceInstance>, parses: Text -> bool,
                    removes: seq<Change<Text>>)
    requires InStep(held, known, parses) && DistinctIds(list)
    requires Removes(removes, known.Keys - Urls(list).Keys)
    ensures InStep(TookAll(held, Updates(known, list, parses) + removes), Urls(list), parses)
  {
    DistinctUnconfusing(known, list, parses);
    TonicInStepExactly(held, known, list, parses, removes);
  }

  /** A confusing list: one that names an id twice, first with a new URL and then with the known one,
    * leaves the consumer on the first and the bookkeeping on the second. */
  lemma TonicDuplicateIds(a: ServiceInstance, b: ServiceInstance, parses: Text -> bool)
    requires a.serviceId == b.serviceId && GrpcUrl(a).Some? && GrpcUrl(b).Some? && GrpcUrl(a) != GrpcUrl(b)
    requires parses(GrpcUrl(a).value) && parses(GrpcUrl(b).value)
    ensures var known := map[b.serviceId := GrpcUrl(b).value];
            && InStep(known, known, parses)
            && Urls([a, b]) == known
            && Held(TookAll(known, Updates(known, [a, b], parses)), a.serviceId) == GrpcUrl(a)
  {
    hide GrpcUrl, Updates, TookAll;
    var known, id := map[b.serviceId := GrpcUrl(b).value], b.serviceId;
    assert [a, b][..1] == [a] && [a][..0] == [];
    assert Urls([a]) == map[id := GrpcUrl(a).value];
    assert LastUrl([a], id, url => url != known[id]) == GrpcUrl(a);
    TookUpdates(known, known, [a, b], parses, id);
  }

  /** And it stays there: the same list without the confusing entry has distinct ids, sends nothing and
    * leaves the consumer on the wrong URL. */
  lemma TonicConfusionStays(a: ServiceInstance, b: ServiceInstance, parses: Text -> bool)
    requires a.serviceId == b.serviceId && GrpcUrl(a).Some? && GrpcUrl(b).Some? && GrpcUrl(a) != GrpcUrl(b)
    requires parses(GrpcUrl(a).value) && parses(GrpcUrl(b).value)
    ensures var known := map[b.serviceId := GrpcUrl(b).value];
            var held := TookAll(known, Updates(known, [a, b], parses));
            && DistinctIds([b]) && Unconfusing(known, [b], parses)
            && Urls([b]) == known && Updates(known, [b], parses) == []
            && !InStep(held, known, parses)
  {
    TonicDuplicateIds(a, b, parses);
    DistinctUnconfusing(map[b.serviceId := GrpcUrl(b).value], [b], parses);
    assert [b][..0] == [];
  }

  // ---- How a change is announced ----

  /** Every Insert names an id the consumer does not hold at that moment. */
  ghost predicate InsertsFresh<T>(held: map<Text, T>, changes: seq<Change<T>>) {
    forall k :: 0 <= k < |changes| && changes[k].Insert? ==> changes[k].id !in TookAll(held, changes[..k])
  }

  lemma FreshConcat<T>(held: map<Text, T>, a: seq<Change<T>>, b: seq<Change<T>>)
    requires InsertsFresh(held, a) && InsertsFresh(TookAll(held, a), b)
    ensures InsertsFresh(held, a + b)
  {
    forall k | 0 <= k < |a + b| && (a + b)[k].Insert?
      ensures (a + b)[k].id !in TookAll(held, (a + b)[..k])
    {
      if k < |a| {
        assert (a + b)[..k] == a[..k];
      } else {
        assert (a + b)[..k] == a + b[..k - |a|];
        TookConcat(held, a, b[..k - |a|]);
      }
    }
  }

  lemma UpdateFresh(held: map<Text, Text>, known: map<Text, Text>, inst: ServiceInstance, parses: Text -> bool)
    requires inst.serviceId in known || inst.serviceId !in held
    ensures InsertsFresh(held, UpdateOf(known, inst, parses))
  {
    hide GrpcUrl;
    var changes := UpdateOf(known, inst, parses);
    TookNone(held);
    TookOne(held, Remove(inst.serviceId));
    forall k | 0 <= k < |changes| && changes[k].Insert?
      ensures changes[k].id !in TookAll(held, changes[..k])
    {
      if k == 0 {
        assert changes[..k] == [];
      } else {
        assert changes[..k] == [Remove(inst.serviceId)];
      }
    }
  }

  /** A moved instance is announced as gone before it is announced at its new URL: with distinct ids no
    * Insert names an id the consumer still holds. */
  lemma {:induction false} TonicInsertsFresh(held: map<Text, Text>, known: map<Text, Text>,
                                             list: seq<ServiceInstance>, parses: Text -> bool)
    requires InStep(held, known, parses) && DistinctIds(list)
    ensures InsertsFresh(held, Updates(known, list, parses))
  {
    hide InsertsFresh, UpdateOf, Urls;
    if list == [] {
      NothingFresh(held);
    } else {
      var front, inst := list[..|list| - 1], list[|list| - 1];
      DistinctFront(list);
      TonicInsertsFresh(held, known, front, parses);
      var id, middle := inst.serviceId, TookAll(held, Updates(known, front, parses));
      TookUpdates(held, known, front, parses, id);
      UrlsOf(front, id, parses);
      assert Held(held, id) == Usable(known, parses, id);
      UpdateFresh(middle, known, inst, parses);
      FreshConcat(held, Updates(known, front, parses), UpdateOf(known, inst, parses));
    }
  }

  lemma RemovesFresh<T>(held: map<Text, T>, changes: seq<Change<T>>)
    requires forall k :: 0 <= k < |changes| ==> changes[k].Remove?
    ensures InsertsFresh(held, changes)
  {
  }

  lemma NothingFresh<T>(held: map<Text, T>)
    ensures InsertsFresh(held, [])
  {
  }

  /** Live connections are kept: while every listed URL is the known one nothing is sent. */
  lemma {:induction false} UnchangedSendsNothing(known: map<Text, Text>, list: seq<ServiceInstance>,
                                                 parses: Text -> bool)
    requires forall i :: 0 <= i < |list| && list[i].grpc.Some? ==>
               list[i].serviceId in known && known[list[i].serviceId] == ToUrl(list[i].grpc.value, HTTP)
    ensures Updates(known, list, parses) == []
  {
    hide ToUrl;
    if list != [] {
      var last := |list| - 1;
      UnchangedSendsNothing(known, list[..last], parses);
      assert list[last].grpc.Some? ==> known[list[last].serviceId] == ToUrl(list[last].grpc.value, HTTP);
    }
  }

  // ---- In terms of the listed instances themselves ----

  /** The consumer is connected to the gRPC endpoint of every listed instance whose URL parses, by its
    * own scheme or "http", and to nothing else. */
  ghost predicate OnListedEndpoints(held: map<Text, Text>, list: seq<ServiceInstance>, parses: Text -> bool) {
    && (forall i :: 0 <= i < |list| ==>
          match list[i].grpc
          case Some(e) =>
            Held(held, list[i].serviceId) == if parses(ToUrl(e, HTTP)) then Some(ToUrl(e, HTTP)) else None
          case None => list[i].serviceId !in held)
    && (forall id :: id in held ==> id in IdSet(list))
  }

  lemma {:induction false} UrlIsOwn(list: seq<ServiceInstance>, i: nat)
    requires DistinctIds(list) && i < |list|
    ensures Held(Urls(list), list[i].serviceId)
            == match list[i].grpc case Some(e) => Some(ToUrl(e, HTTP)) case None => None
  {
    hide ToUrl;
    DistinctFront(list);
    var front := list[..|list| - 1];
    UrlsOf(front, list[i].serviceId, _ => true);
    if i < |front| {
      UrlIsOwn(front, i);
      assert front[i] == list[i];
    }
  }

  /** Being in step with the URLs of a list of distinct ids is being on its endpoints. */
  lemma InStepIsOnEndpoints(held: map<Text, Text>, list: seq<ServiceInstance>, parses: Text -> bool)
    requires DistinctIds(list)
    ensures InStep(held, Urls(list), parses) <==> OnListedEndpoints(held, list, parses)
  {
    hide Urls, ToUrl, DistinctIds;
    forall i | 0 <= i < |list|
      ensures Held(Urls(list), list[i].serviceId)
              == match list[i].grpc case Some(e) => Some(ToUrl(e, HTTP)) case None => None
    {
      UrlIsOwn(list, i);
    }
    forall id
      ensures id in Urls(list) ==> id in IdSet(list)
    {
      UrlsOf(list, id, _ => true);
    }
    if InStep(held, Urls(list), parses) {
      forall i | 0 <= i < |list|
        ensures match list[i].grpc
                case Some(e) =>
                  Held(held, list[i].serviceId) == if parses(ToUrl(e, HTTP)) then Some(ToUrl(e, HTTP)) else None
                case None => list[i].serviceId !in held
      {
        assert Held(held, list[i].serviceId) == Usable(Urls(list), parses, list[i].serviceId);
      }
      forall id | id in held
        ensures id in IdSet(list)
      {
        assert Held(held, id) == Usable(Urls(list), parses, id);
      }
    } else {
      var id :| Held(held, id) != Usable(Urls(list), parses, id);
      if id in IdSet(list) {
        var i :| 0 <= i < |list| && list[i].serviceId == id;
        assert Held(Urls(list), id) == match list[i].grpc case Some(e) => Some(ToUrl(e, HTTP)) case None => None;
      }
    }
  }

  /** What a listener sends depends on ids and gRPC endpoints alone: lists that differ in anything else,
    * their HTTP endpoints for one, send the same. */
  lemma {:induction false} OnlyGrpcMatters(known: map<Text, Text>, list: seq<ServiceInstance>,
                                           other: seq<ServiceInstance>, parses: Text -> bool)
    requires |list| == |other|
    requires forall i :: 0 <= i < |list| ==>
               list[i].serviceId == other[i].serviceId && list[i].grpc == other[i].grpc
    ensures Updates(known, list, parses) == Updates(known, other, parses) && Urls(list) == Urls(other)
    ensures Initial(list, parses) == Initial(other, parses)
  {
    if list != [] {
      OnlyGrpcMatters(known, list[..|list| - 1], other[..|other| - 1], parses);
    }
  }

  /** Address "a", port 80 and no scheme make "http://a:80". */
  lemma DefaultUrlExample()
    ensures ToUrl(Endpoint([97], 80, None), HTTP) == [104, 116, 116, 112, 58, 47, 47, 97, 58, 56, 48]
  {
    assert Decimal(80) == Decimal(8) + [DIGITS[0]];
  }

  // ---- Whole runs of notifications ----

  /** held' is what a consumer can hold after one notification; removals come in any order. */
  ghost predicate Notified(held: map<Text, Text>, known: map<Text, Text>, list: seq<ServiceInstance>,
                           parses: Text -> bool, held': map<Text, Text>)
  {
    exists removes :: Removes(removes, known.Keys - Urls(list).Keys)
                      && held' == TookAll(held, Updates(known, list, parses) + removes)
  }

  /** What the listener remembers before notification k. */
  function KnownBefore(known: map<Text, Text>, lists: seq<seq<ServiceInstance>>, k: nat): map<Text, Text>
    requires k <= |lists|
  {
    if k == 0 then known else Urls(lists[k - 1])
  }

  ghost predicate NotifiedAll(helds: seq<map<Text, Text>>, known: map<Text, Text>,
                              lists: seq<seq<ServiceInstance>>, parses: Text -> bool)
  {
    && |helds| == |lists| + 1
    && forall k :: 0 <= k < |lists| ==>
         Notified(helds[k], KnownBefore(known, lists, k), lists[k], parses, helds[k + 1])
  }

  /** After k notifications the consumer is in step. */
  ghost predicate RightAfter(helds: seq<map<Text, Text>>, known: map<Text, Text>,
                             lists: seq<seq<ServiceInstance>>, parses: Text -> bool, k: int)
    requires |helds| == |lists| + 1
  {
    0 <= k <= |lists| && InStep(helds[k], KnownBefore(known, lists, k), parses)
  }

  /** Notification k is not confusing after the one before. */
  ghost predicate ClearAt(known: map<Text, Text>, lists: seq<seq<ServiceInstance>>, parses: Text -> bool, k: int) {
    0 <= k < |lists| && Unconfusing(KnownBefore(known, lists, k), lists[k], parses)
  }

  lemma RunStep(helds: seq<map<Text, Text>>, known: map<Text, Text>, lists: seq<seq<ServiceInstance>>,
                parses: Text -> bool, k: nat)
    requires NotifiedAll(helds, known, lists, parses) && k < |lists| && RightAfter(helds, known, lists, parses, k)
    ensures RightAfter(helds, known, lists, parses, k + 1) <==> ClearAt(known, lists, parses, k)
  {
    hide InStep, Unconfusing, Urls, Updates, TookAll;
    var before := KnownBefore(known, lists, k);
    assert Notified(helds[k], before, lists[k], parses, helds[k + 1]);
    var removes :| Removes(removes, before.Keys - Urls(lists[k]).Keys)
                   && helds[k + 1] == TookAll(helds[k], Updates(before, lists[k], parses) + removes);
    TonicInStepExactly(helds[k], before, lists[k], parses, removes);
  }

  /** Over any notifications from a consumer in step: it is in step after each of them exactly when none
    * is confusing after the one before. */
  lemma {:induction false} TonicRunExactly(helds: seq<map<Text, Text>>, known: map<Text, Text>,
                                           lists: seq<seq<ServiceInstance>>, parses: Text -> bool, n: nat)
    requires |helds| == |lists| + 1 && NotifiedAll(helds, known, lists, parses)
    requires n <= |lists| && RightAfter(helds, known, lists, parses, 0)
    ensures (forall k :: 0 <= k <= n ==> RightAfter(helds, known, lists, parses, k))
            <==> (forall k :: 0 <= k < n ==> ClearAt(known, lists, parses, k))
  {
    hide NotifiedAll, RightAfter, ClearAt;
    if n > 0 {
      TonicRunExactly(helds, known, lists, parses, n - 1);
      if RightAfter(helds, known, lists, parses, n - 1) {
        RunStep(helds, known, lists, parses, n - 1);
      }
    }
  }

  /** What the initial population sends and remembers: only URLs that parse. */
  function Initial(list: seq<ServiceInstance>, parses: Text -> bool): seq<Change<Text>> {
    if list == [] then [] else
    var front, inst := Initial(list[..|list| - 1], parses), list[|list| - 1];
    match GrpcUrl(inst)
    case None => front
    case Some(url) => front + InsertIfParses(inst.serviceId, url, parses)
  }

  lemma FoldAppended<T>(changes: seq<Change<T>>, c: Change<T>)
    ensures Fold(changes + [c]) == Took(Fold(changes), c)
  {
    assert (changes + [c])[..|changes|] == changes;
  }

  lemma InitialStep(front: seq<ServiceInstance>, inst: ServiceInstance, parses: Text -> bool)
    ensures Initial(front + [inst], parses)
            == Initial(front, parses)
               + match GrpcUrl(inst) case None => [] case Some(url) => InsertIfParses(inst.serviceId, url, parses)
    ensures Urls(front + [inst])
            == match GrpcUrl(inst) case None => Urls(front) case Some(url) => Urls(front)[inst.serviceId := url]
  {
    assert (front + [inst])[..|front|] == front;
  }

  /** The initial population is a notification to a listener that knows nothing. */
  lemma {:induction false} InitialIsUpdate(list: seq<ServiceInstance>, parses: Text -> bool)
    ensures Initial(list, parses) == Updates(map[], list, parses)
  {
    if list != [] {
      InitialIsUpdate(list[..|list| - 1], parses);
    }
  }

  lemma {:induction false} InitialParses(list: seq<ServiceInstance>, parses: Text -> bool, id: Text)
    ensures id in Fold(Initial(list, parses)) ==> parses(Fold(Initial(list, parses))[id])
  {
    FoldIsTookAll(Initial(list, parses));
    InitialIsUpdate(list, parses);
    TookUpdates(map[], map[], list, parses, id);
    LastUrlKept(list, id, parses);
  }

  /** After the initial population the consumer is in step with what is remembered, and with everything
    * listed exactly when no repeated id is confusing: its last URL parses or none does. */
  lemma InitialInStep(list: seq<ServiceInstance>, parses: Text -> bool)
    ensures InStep(Fold(Initial(list, parses)), Fold(Initial(list, parses)), parses)
    ensures InStep(Fold(Initial(list, parses)), Urls(list), parses) <==> Unconfusing(map[], list, parses)
  {
    hide Urls, Updates, LastUrl, Initial, Fold;
    forall id
      ensures Held(Fold(Initial(list, parses)), id) == Usable(Fold(Initial(list, parses)), parses, id)
    {
      InitialParses(list, parses, id);
    }
    FoldIsTookAll(Initial(list, parses));
    InitialIsUpdate(list, parses);
    assert Updates(map[], list, parses) + [] == Updates(map[], list, parses);
    var none: seq<Change<Text>> := [];
    assert Removes(none, {});
    TonicInStepExactly(map[], map[], list, parses, none);
  }

  method SendInitial(initial: seq<ServiceInstance>, parses: Text -> bool)
    returns (changes: seq<Change<Text>>, urls: map<Text, Text>)
    ensures changes == Initial(initial, parses) && urls == Fold(changes)
  {
    changes, urls := [], map[];
    for i := 0 to |initial|
      invariant changes == Initial(initial[..i], parses) && urls == Fold(changes)
    {
      assert initial[..i + 1] == initial[..i] + [initial[i]];
      InitialStep(initial[..i], initial[i], parses);
      var url := GrpcUrl(initial[i]);
      if url.Some? && parses(url.value) {
        FoldAppended(changes, Insert(initial[i].serviceId, url.value));
        changes := changes + [Insert(initial[i].serviceId, url.value)];
        urls := urls[initial[i].serviceId := url.value];
      }
    }
    assert initial[..|initial|] == initial;
  }

  lemma UpdatesStep(known: map<Text, Text>, list: seq<ServiceInstance>, i: nat, parses: Text -> bool)
    requires i < |list|
    ensures Updates(known, list[..i + 1], parses)
            == Updates(known, list[..i], parses) + UpdateOf(known, list[i], parses)
    ensures Urls(list[..i + 1])
            == match GrpcUrl(list[i])
               case None => Urls(list[..i])
               case Some(url) => Urls(list[..i])[list[i].serviceId := url]
  {
    assert list[..i + 1][..i] == list[..i];
  }

  lemma UpdatesNone(known: map<Text, Text>, list: seq<ServiceInstance>, parses: Text -> bool)
    ensures Updates(known, list[..0], parses) == [] && Urls(list[..0]) == map[]
  {
  }

  /** The loop over the notified list. */
  method UpdatesFor(known: map<Text, Text>, list: seq<ServiceInstance>, parses: Text -> bool)
    returns (changes: seq<Change<Text>>, newMap: map<Text, Text>)
    ensures changes == Updates(known, list, parses) && newMap == Urls(list)
  {
    hide Urls, Updates, GrpcUrl;
    changes, newMap := [], map[];
    UpdatesNone(known, list, parses);
    for i := 0 to |list|
      invariant newMap == Urls(list[..i])
      invariant changes == Updates(known, list[..i], parses)
    {
      UpdatesStep(known, list, i, parses);
      var grpc := GrpcUrl(list[i]);
      ghost var before := changes;
      if grpc.Some? {
        var id, url := list[i].serviceId, grpc.value;
        newMap := newMap[id := url];
        if id in known && known[id] == url {
          // unchanged: the live connection is kept
        } else {
          if id in known {
            changes := changes + [Remove(id)];
          }
          if parses(url) {
            changes := changes + [Insert(id, url)];
          }
        }
      }
      assert changes == before + UpdateOf(known, list[i], parses);
    }
    assert list[..|list|] == list;
  }

  /** The Tonic listener of one service; `sent` is everything put on the balancing channel. */
  class TonicChannel {
    const svc: Text
    const parses: Text -> bool
    var known: map<Text, Text>
    var sent: seq<Change<Text>>

    ghost predicate Valid()
      reads this
    {
      InStep(Fold(sent), known, parses)
    }

    constructor (svc: Text, parses: Text -> bool, initial: seq<ServiceInstance>)
      ensures Valid() && this.svc == svc && this.parses == parses
      ensures sent == Initial(initial, parses) && known == Fold(sent)
      ensures InStep(Fold(sent), Urls(initial), parses) <==> Unconfusing(map[], initial, parses)
      ensures DistinctIds(initial) ==> OnListedEndpoints(Fold(sent), initial, parses)
    {
      this.svc, this.parses := svc, parses;
      new;
      InitialInStep(initial, parses);
      if DistinctIds(initial) {
        DistinctUnconfusing(map[], initial, parses);
        InStepIsOnEndpoints(Fold(Initial(initial, parses)), initial, parses);
      }
      sent, known := SendInitial(initial, parses);
    }

    /** The consumer ends up with the listed URLs that parse exactly when the notification repairs every
      * id. If it was in step that is: exactly when no repeated id is confusing, so always with distinct
      * ids. */
    method OnChange(name: Text, list: seq<ServiceInstance>)
      modifies this
      ensures name != svc ==> sent == old(sent) && known == old(known)
      ensures name == svc ==>
                && known == Urls(list)
                && |sent| >= |old(sent)| && sent[..|old(sent)|] == old(sent)
                && (Valid() <==> Repairs(old(Fold(sent)), old(known), list, parses))
                && (old(Valid()) ==> (Valid() <==> Unconfusing(old(known), list, parses)))
                && (old(Valid()) && DistinctIds(list) ==> Valid() && OnListedEndpoints(Fold(sent), list, parses))
                && (old(Fold(sent)).Keys <= old(known).Keys ==> Fold(sent).Keys <= known.Keys)
                && (old(Valid()) && DistinctIds(list) ==> InsertsFresh(Fold(old(sent)), sent[|old(sent)|..]))
    {
      if name != svc {
        return;
      }
      hide Fold, Urls, Updates, DistinctIds, InStep, Unconfusing, Repairs, OnListedEndpoints, InsertsFresh;
      var updates, newMap := UpdatesFor(known, list, parses);
      var removes := RemovesFor(known.Keys - newMap.Keys);
      FoldConcat(sent, updates + removes);
      TonicRepairsExactly(Fold(sent), known, list, parses, removes);
      if Valid() {
        InStepRepairs(Fold(sent), known, list, parses);
      }
      if DistinctIds(list) {
        DistinctUnconfusing(known, list, parses);
        InStepIsOnEndpoints(Fold(sent + (updates + removes)), list, parses);
        if Valid() {
          TonicInsertsFresh(Fold(sent), known, list, parses);
          RemovesFresh(TookAll(Fold(sent), updates), removes);
          FreshConcat(Fold(sent), updates, removes);
        }
      }
      assert (sent + (updates + removes))[|sent|..] == updates + removes;
      known, sent := newMap, sent + (updates + removes);
    }
  }
}
