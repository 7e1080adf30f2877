/** Consistent hashing with virtual nodes and a fingerprint cache (src/selector/consistent_hash.rs).
  *
  * The reference definition is the clockwise distance on the ring of 64-bit words: a key belongs to
  * the id that owns the virtual node at the least distance from the key's hash. Sorting, binary
  * search, wrap-around and caching are shown to compute exactly that.
  */
module ConsistentHash {
  import opened Types
  import opened Fnv

  /** A point of the ring, by the value of its 64-bit hash. */
  datatype VirtualNode = VirtualNode(hash: nat, serviceId: Text)

  datatype RingCache = RingCache(fingerprint: bv64, ring: seq<VirtualNode>)

  /** The string "{id}#v{v}". */
  function NodeKey(id: Text, v: nat): Text {
    id + [35, 118] + Decimal(v)
  }

  function NodeHash(id: Text, v: nat): (h: nat)
    ensures h < WORDS
  {
    Value(Hash(NodeKey(id, v)))
  }

  /** Virtual nodes have different keys. */
  lemma NodeKeysDistinct(id: Text, v: nat, other: Text, w: nat)
    requires NodeKey(id, v) == NodeKey(other, w)
    ensures id == other && v == w
  {
    assert NodeKey(id, v) == (id + [35]) + [118] + Decimal(v);
    assert NodeKey(other, w) == (other + [35]) + [118] + Decimal(w);
    NumberedInjective(id + [35], v, other + [35], w, 118);
    assert (id + [35])[..|id|] == id && (other + [35])[..|other|] == other;
  }

  /** Two different virtual nodes share a position exactly when the hash collides on their keys. */
  lemma SharedPositionIsCollision(id: Text, v: nat, other: Text, w: nat)
    requires id != other || v != w
    ensures NodeKey(id, v) != NodeKey(other, w)
    ensures NodeHash(id, v) == NodeHash(other, w) <==> Hash(NodeKey(id, v)) == Hash(NodeKey(other, w))
  {
    if NodeKey(id, v) == NodeKey(other, w) {
      NodeKeysDistinct(id, v, other, w);
    }
    if NodeHash(id, v) == NodeHash(other, w) {
      ValueInjective(Hash(NodeKey(id, v)), Hash(NodeKey(other, w)));
    }
  }

  // ---- The reference: who owns a point of the ring ----

  /** How far clockwise from a to b. */
  function Clockwise(a: nat, b: nat): int {
    if b >= a then b - a else b - a + WORDS
  }

  /** Virtual node v of id is the first met going clockwise from target. */
  ghost predicate FirstMet(ids: set<Text>, replicas: nat, target: nat, id: Text, v: nat) {
    && id in ids
    && v < replicas
    && forall id', v' :: id' in ids && 0 <= v' < replicas ==>
                           Clockwise(target, NodeHash(id, v)) <= Clockwise(target, NodeHash(id', v'))
  }

  ghost predicate Owns(ids: set<Text>, replicas: nat, target: nat, id: Text) {
    exists v: nat :: FirstMet(ids, replicas, target, id, v)
  }

  /** Virtual node v of id is at the least position not before target or, if there is none, at the least
    * position of all. */
  ghost predicate Successor(ids: set<Text>, replicas: nat, target: nat, id: Text, v: nat) {
    && id in ids
    && v < replicas
    && forall id', v' :: id' in ids && 0 <= v' < replicas ==>
                           if NodeHash(id, v) >= target
                           then NodeHash(id', v') < target || NodeHash(id, v) <= NodeHash(id', v')
                           else NodeHash(id', v') < target && NodeHash(id, v) <= NodeHash(id', v')
  }

  /** The nearest node clockwise is the one at the next greater position, wrapping past the largest. */
  lemma FirstMetIsSuccessor(ids: set<Text>, replicas: nat, target: nat, id: Text, v: nat)
    requires target < WORDS
    ensures FirstMet(ids, replicas, target, id, v) <==> Successor(ids, replicas, target, id, v)
  {
    hide NodeHash;
  }

  /** A node key, byte by byte: "a#v12". */
  lemma NodeKeyExample()
    ensures NodeKey([97], 12) == [97, 35, 118, 49, 50]
  {
    assert Decimal(12) == Decimal(1) + [DIGITS[2]];
  }

  /** No two virtual nodes share a position. */
  ghost predicate DistinctNodes(ids: set<Text>, replicas: nat) {
    forall id, v, id', v' | id in ids && id' in ids && 0 <= v < replicas && 0 <= v' < replicas ::
      NodeHash(id, v) == NodeHash(id', v') ==> id == id'
  }

  /** Replicas whose ids differ in the last byte alone never share a position: with one virtual node
    * each, nodes are distinct for certain. */
  lemma NumberedReplicasDistinct(stem: Text, bytes: set<bv8>)
    ensures DistinctNodes(set b | b in bytes :: stem + [b], 1)
  {
    forall b, c | b in bytes && c in bytes && b != c
      ensures NodeHash(stem + [b], 0) != NodeHash(stem + [c], 0)
    {
      OneByteNeverCollides(NodeKey(stem + [b], 0), NodeKey(stem + [c], 0), |stem|);
      SharedPositionIsCollision(stem + [b], 0, stem + [c], 0);
    }
  }

  /** With distinct nodes a point has at most one owner, so the order of the list is irrelevant. */
  lemma OwnerUnique(ids: set<Text>, replicas: nat, target: nat, a: Text, b: Text)
    requires DistinctNodes(ids, replicas)
    requires Owns(ids, replicas, target, a) && Owns(ids, replicas, target, b)
    ensures a == b
  {
    hide NodeHash;
    var v: nat :| FirstMet(ids, replicas, target, a, v);
    var w: nat :| FirstMet(ids, replicas, target, b, w);
    assert Clockwise(target, NodeHash(a, v)) == Clockwise(target, NodeHash(b, w));
    assert NodeHash(a, v) == NodeHash(b, w);
  }

  /** Minimal disruption when an instance joins: a key stays where it was or moves to it. */
  lemma JoinMovesOnlyToNewcomer(ids: set<Text>, newcomer: Text, replicas: nat, target: nat, before: Text, after: Text)
    requires DistinctNodes(ids + {newcomer}, replicas)
    requires Owns(ids, replicas, target, before) && Owns(ids + {newcomer}, replicas, target, after)
    ensures after == before || after == newcomer
  {
    if after != newcomer {
      var w: nat :| FirstMet(ids + {newcomer}, replicas, target, after, w);
      assert FirstMet(ids, replicas, target, after, w);
      OwnerUnique(ids, replicas, target, before, after);
    }
  }

  /** Minimal disruption when an instance leaves: only the keys it owned move. */
  lemma LeaveMovesOnlyOwnKeys(ids: set<Text>, leaver: Text, replicas: nat, target: nat, before: Text, after: Text)
    requires DistinctNodes(ids, replicas) && before != leaver
    requires Owns(ids, replicas, target, before) && Owns(ids - {leaver}, replicas, target, after)
    ensures after == before
  {
    var v: nat :| FirstMet(ids, replicas, target, before, v);
    assert FirstMet(ids - {leaver}, replicas, target, before, v);
    OwnerUnique(ids - {leaver}, replicas, target, before, after);
  }

  // ---- Rings ----

  /** The virtual nodes of the ids in the order they are pushed. */
  function NodesOf(id: Text, replicas: nat): (nodes: seq<VirtualNode>)
    ensures |nodes| == replicas
    ensures forall v :: 0 <= v < replicas ==> nodes[v] == VirtualNode(NodeHash(id, v), id)
  {
    seq(replicas, v requires v >= 0 => VirtualNode(NodeHash(id, v), id))
  }

  function Nodes(ids: seq<Text>, replicas: nat): seq<VirtualNode> {
    if ids == [] then [] else Nodes(ids[..|ids| - 1], replicas) + NodesOf(ids[|ids| - 1], replicas)
  }

  ghost predicate Sorted(ring: seq<VirtualNode>) {
    forall i, j :: 0 <= i < j < |ring| ==> ring[i].hash <= ring[j].hash
  }

  /** Stable insertion behind every node that is not greater. */
  function Insert(node: VirtualNode, ring: seq<VirtualNode>): seq<VirtualNode> {
    if ring == [] || ring[|ring| - 1].hash <= node.hash then ring + [node]
    else Insert(node, ring[..|ring| - 1]) + [ring[|ring| - 1]]
  }

  lemma {:induction false} InsertKeepsNodes(node: VirtualNode, ring: seq<VirtualNode>)
    ensures multiset(Insert(node, ring)) == multiset(ring) + multiset{node}
  {
    if ring != [] && ring[|ring| - 1].hash > node.hash {
      InsertKeepsNodes(node, ring[..|ring| - 1]);
      assert ring == ring[..|ring| - 1] + [ring[|ring| - 1]];
    }
  }

  lemma {:induction false} InsertKeepsSorted(node: VirtualNode, ring: seq<VirtualNode>)
    requires Sorted(ring)
    ensures Sorted(Insert(node, ring))
  {
    if ring != [] && ring[|ring| - 1].hash > node.hash {
      var front, top := Insert(node, ring[..|ring| - 1]), ring[|ring| - 1];
      InsertKeepsSorted(node, ring[..|ring| - 1]);
      InsertKeepsNodes(node, ring[..|ring| - 1]);
      forall i | 0 <= i < |front|
        ensures front[i].hash <= top.hash
      {
        assert front[i] in multiset(front);
        assert front[i] == node || front[i] in ring[..|ring| - 1];
      }
    }
  }

  /** Sorting by hash, keeping the pushed order of equal hashes. */
  function SortByHash(nodes: seq<VirtualNode>): (ring: seq<VirtualNode>)
    ensures Sorted(ring) && multiset(ring) == multiset(nodes)
  {
    if nodes == [] then [] else
    var last := |nodes| - 1;
    assert nodes == nodes[..last] + [nodes[last]];
    InsertKeepsNodes(nodes[last], SortByHash(nodes[..last]));
    InsertKeepsSorted(nodes[last], SortByHash(nodes[..last]));
    Insert(nodes[last], SortByHash(nodes[..last]))
  }

  function Build(ids: seq<Text>, replicas: nat): (ring: seq<VirtualNode>)
    ensures Sorted(ring)
  {
    SortByHash(Nodes(ids, replicas))
  }

  /** node is one of the virtual nodes of its id. */
  ghost predicate IsReplica(node: VirtualNode, replicas: nat) {
    exists v: nat :: v < replicas && node == VirtualNode(NodeHash(node.serviceId, v), node.serviceId)
  }

  lemma {:induction false} NodesComplete(ids: seq<Text>, replicas: nat, node: VirtualNode)
    ensures node in Nodes(ids, replicas) <==> node.serviceId in ids && IsReplica(node, replicas)
  {
    if ids != [] {
      var last := |ids| - 1;
      NodesComplete(ids[..last], replicas, node);
      assert ids == ids[..last] + [ids[last]];
      if node.serviceId == ids[last] {
        if v: nat :| v < replicas && node == VirtualNode(NodeHash(node.serviceId, v), node.serviceId) {
          assert NodesOf(ids[last], replicas)[v] == node;
        }
      }
    }
  }

  /** A ring holds exactly the virtual nodes of its ids. */
  lemma BuildComplete(ids: seq<Text>, replicas: nat, node: VirtualNode)
    ensures node in Build(ids, replicas) <==> node.serviceId in ids && IsReplica(node, replicas)
  {
    NodesComplete(ids, replicas, node);
    assert node in Build(ids, replicas) <==> node in multiset(Build(ids, replicas));
  }

  // ---- Search ----

  datatype Search = Found(at: nat) | Absent(insertAt: nat)

  /** What a binary search of a sorted ring may answer: any match, or the insertion point. */
  ghost predicate Locates(ring: seq<VirtualNode>, target: nat, s: Search) {
    match s
    case Found(at) => at < |ring| && ring[at].hash == target
    case Absent(at) =>
      && at <= |ring|
      && (forall j :: 0 <= j < at ==> ring[j].hash < target)
      && (forall j :: at <= j < |ring| ==> ring[j].hash > target)
  }

  method BinarySearch(ring: seq<VirtualNode>, target: nat) returns (s: Search)
    requires Sorted(ring)
    ensures Locates(ring, target, s)
  {
    var low, high := 0, |ring|;
    while low < high
      invariant 0 <= low <= high <= |ring|
      invariant forall j :: 0 <= j < low ==> ring[j].hash < target
      invariant forall j :: high <= j < |ring| ==> ring[j].hash > target
    {
      var mid := (low + high) / 2;
      if ring[mid].hash == target {
        return Found(mid);
      } else if ring[mid].hash < target {
        low := mid + 1;
      } else {
        high := mid;
      }
    }
    s := Absent(low);
  }

  /** The ring position a search leads to: past the end it folds back to the head. */
  function Landing(ring: seq<VirtualNode>, s: Search): nat {
    match s
    case Found(at) => at
    case Absent(at) => if at >= |ring| then 0 else at
  }

  /** Wherever the search lands, no node of the ring is nearer clockwise. */
  lemma LandingIsNearest(ring: seq<VirtualNode>, target: nat, s: Search, j: nat)
    requires Sorted(ring) && Locates(ring, target, s) && j < |ring| && target < WORDS
    requires forall i :: 0 <= i < |ring| ==> ring[i].hash < WORDS
    ensures Landing(ring, s) < |ring|
    ensures Clockwise(target, ring[Landing(ring, s)].hash) <= Clockwise(target, ring[j].hash)
  {
    var k := Landing(ring, s);
  }

  // ---- Routing ----

  function RoutingKey(ctx: SelectContext): Text {
    match ctx.key
    case Some(k) => k
    case None => match ctx.clientIp case Some(ip) => ip case None => ctx.serviceName
  }

  function KeyHash(ctx: SelectContext): (h: nat)
    ensures h < WORDS
  {
    Value(Hash(RoutingKey(ctx)))
  }

  /** The key decides if there is one, else the client's address, else the name of the service. */
  lemma KeyThenIpThenName(ctx: SelectContext)
    ensures ctx.key.Some? ==> KeyHash(ctx) == Value(Hash(ctx.key.value))
    ensures ctx.key.None? && ctx.clientIp.Some? ==> KeyHash(ctx) == Value(Hash(ctx.clientIp.value))
    ensures ctx.key.None? && ctx.clientIp.None? ==> KeyHash(ctx) == Value(Hash(ctx.serviceName))
  {
    hide Hash;
  }

  /** k is the first position of the list with that id, or 0 when there is none. */
  ghost predicate FirstWithId(list: seq<ServiceInstance>, id: Text, k: nat) {
    && k < |list|
    && (forall i :: 0 <= i < k ==> list[i].serviceId != id)
    && (list[k].serviceId == id || (k == 0 && id !in Ids(list)))
  }

  /** Position k is a possible answer for target, given this ring. */
  ghost predicate Routed(ring: seq<VirtualNode>, list: seq<ServiceInstance>, target: nat, k: nat) {
    if ring == [] then k == 0
    else exists s :: Locates(ring, target, s) && Landing(ring, s) < |ring|
                     && FirstWithId(list, ring[Landing(ring, s)].serviceId, k)
  }

  function SetOf(ids: seq<Text>): set<Text> {
    set id | id in ids
  }

  ghost predicate SameIds(ids: seq<Text>, others: seq<Text>) {
    forall id :: id in ids <==> id in others
  }

  ghost predicate SameNodes(ring: seq<VirtualNode>, other: seq<VirtualNode>) {
    forall node :: node in ring <==> node in other
  }

  /** In a ring that holds the virtual nodes of some ids a search lands on the owner's. */
  lemma LandingOwns(ring: seq<VirtualNode>, ids: seq<Text>, replicas: nat, target: nat, s: Search)
    requires ids != [] && replicas > 0 && target < WORDS && Sorted(ring)
    requires SameNodes(ring, Build(ids, replicas)) && Locates(ring, target, s)
    ensures Landing(ring, s) < |ring|
    ensures Owns(SetOf(ids), replicas, target, ring[Landing(ring, s)].serviceId)
  {
    hide NodeHash, Build;
    ReplicaOf(ids[0], 0, ids, replicas);
    assert VirtualNode(NodeHash(ids[0], 0), ids[0]) in ring;
    RingHashesAreWords(ring, ids, replicas);
    var j0 :| 0 <= j0 < |ring| && ring[j0] == VirtualNode(NodeHash(ids[0], 0), ids[0]);
    LandingIsNearest(ring, target, s, j0);
    var node := ring[Landing(ring, s)];
    BuildComplete(ids, replicas, node);
    var v: nat :| v < replicas && node == VirtualNode(NodeHash(node.serviceId, v), node.serviceId);
    forall id', v' | id' in SetOf(ids) && 0 <= v' < replicas
      ensures Clockwise(target, NodeHash(node.serviceId, v)) <= Clockwise(target, NodeHash(id', v'))
    {
      ReplicaOf(id', v', ids, replicas);
      var j :| 0 <= j < |ring| && ring[j] == VirtualNode(NodeHash(id', v'), id');
      LandingIsNearest(ring, target, s, j);
    }
    assert FirstMet(SetOf(ids), replicas, target, node.serviceId, v);
  }

  lemma ReplicaOf(id: Text, v: nat, ids: seq<Text>, replicas: nat)
    requires id in ids && v < replicas
    ensures VirtualNode(NodeHash(id, v), id) in Build(ids, replicas)
  {
    BuildComplete(ids, replicas, VirtualNode(NodeHash(id, v), id));
  }

  /** The clockwise successor computed through a ring with the nodes of the listed ids is the owner. */
  lemma RoutedToOwner(ring: seq<VirtualNode>, list: seq<ServiceInstance>, replicas: nat, target: nat, k: nat)
    requires list != [] && replicas > 0 && target < WORDS && Sorted(ring)
    requires SameNodes(ring, Build(Ids(list), replicas)) && Routed(ring, list, target, k)
    ensures k < |list| && Owns(IdSet(list), replicas, target, list[k].serviceId)
  {
    hide NodeHash, Build;
    assert Ids(list)[0] == list[0].serviceId;
    ReplicaOf(list[0].serviceId, 0, Ids(list), replicas);
    assert ring != [];
    var s :| Locates(ring, target, s) && Landing(ring, s) < |ring|
             && FirstWithId(list, ring[Landing(ring, s)].serviceId, k);
    LandingOwns(ring, Ids(list), replicas, target, s);
    SetOfIds(list);
  }

  lemma SetOfIds(list: seq<ServiceInstance>)
    ensures SetOf(Ids(list)) == IdSet(list)
  {
    forall id
      ensures id in SetOf(Ids(list)) <==> id in IdSet(list)
    {
      IdSetIsIds(list, id);
    }
  }

  lemma RingHashesAreWords(ring: seq<VirtualNode>, ids: seq<Text>, replicas: nat)
    requires SameNodes(ring, Build(ids, replicas))
    ensures forall i :: 0 <= i < |ring| ==> ring[i].hash < WORDS
  {
    forall i | 0 <= i < |ring|
      ensures ring[i].hash < WORDS
    {
      BuildComplete(ids, replicas, ring[i]);
    }
  }

  lemma IdSetIsIds(list: seq<ServiceInstance>, id: Text)
    ensures id in IdSet(list) <==> id in Ids(list)
  {
    if id in IdSet(list) {
      var i :| 0 <= i < |list| && list[i].serviceId == id;
      assert Ids(list)[i] == id;
    }
  }

  /** The one-instance shortcut also answers with the owner. */
  lemma {:induction false} OnlyInstanceOwns(id: Text, replicas: nat, target: nat) returns (v: nat)
    requires replicas > 0
    ensures FirstMet({id}, replicas, target, id, v)
  {
    if replicas == 1 {
      v := 0;
    } else {
      v := OnlyInstanceOwns(id, replicas - 1, target);
      if Clockwise(target, NodeHash(id, replicas - 1)) < Clockwise(target, NodeHash(id, v)) {
        v := replicas - 1;
      }
    }
  }

  // ---- The cache ----

  datatype Request = Request(serviceName: Text, ids: seq<Text>)

  /** What a rebuild stores for a request. */
  function Fresh(r: Request, replicas: nat): RingCache {
    RingCache(Fingerprint(r.ids), Build(r.ids, replicas))
  }

  function RingFor(rings: map<Text, RingCache>, r: Request, replicas: nat): RingCache {
    if r.serviceName in rings && rings[r.serviceName].fingerprint == Fingerprint(r.ids) then rings[r.serviceName]
    else Fresh(r, replicas)
  }

  /** The cache after a sequence of ring requests. */
  function CacheAfter(requests: seq<Request>, replicas: nat): map<Text, RingCache> {
    if requests == [] then map[] else
    var last := requests[|requests| - 1];
    var before := CacheAfter(requests[..|requests| - 1], replicas);
    before[last.serviceName := RingFor(before, last, replicas)]
  }

  /** The fingerprints tell apart the id sequences seen for each service. */
  ghost predicate Separates(requests: seq<Request>) {
    forall i, j | 0 <= i < |requests| && 0 <= j < |requests| && requests[i].serviceName == requests[j].serviceName ::
      Fingerprint(requests[i].ids) == Fingerprint(requests[j].ids) ==> requests[i].ids == requests[j].ids
  }

  /** Every cached ring was built for some request of its service. */
  lemma {:induction false} CachedRingHasOrigin(requests: seq<Request>, replicas: nat, svc: Text) returns (i: nat)
    requires svc in CacheAfter(requests, replicas)
    ensures i < |requests| && requests[i].serviceName == svc
    ensures CacheAfter(requests, replicas)[svc] == Fresh(requests[i], replicas)
  {
    hide Fingerprint, Build;
    var last := |requests| - 1;
    var before := CacheAfter(requests[..last], replicas);
    var r := requests[last];
    if r.serviceName == svc && !(svc in before && before[svc].fingerprint == Fingerprint(r.ids)) {
      i := last;
    } else {
      i := CachedRingHasOrigin(requests[..last], replicas, svc);
    }
  }

  /** Cache refinement: after any requests, on any services, a request is answered with the ring a
    * rebuild would give. */
  lemma CacheIsRebuild(requests: seq<Request>, r: Request, replicas: nat)
    requires Separates(requests + [r])
    ensures RingFor(CacheAfter(requests, replicas), r, replicas) == Fresh(r, replicas)
  {
    hide Fingerprint, Build;
    if r.serviceName in CacheAfter(requests, replicas) {
      var i := CachedRingHasOrigin(requests, replicas, r.serviceName);
      assert (requests + [r])[i] == requests[i] && (requests + [r])[|requests|] == r;
    }
  }

  // ---- When the cache is right, exactly ----

  /** Two rings hold the same nodes exactly when they were built for the same ids. */
  lemma SameNodesExactly(ids: seq<Text>, others: seq<Text>, replicas: nat)
    requires replicas > 0
    ensures SameNodes(Build(ids, replicas), Build(others, replicas)) <==> SameIds(ids, others)
  {
    hide NodeHash, Build;
    if SameNodes(Build(ids, replicas), Build(others, replicas)) {
      forall id
        ensures id in ids <==> id in others
      {
        BuildComplete(ids, replicas, VirtualNode(NodeHash(id, 0), id));
        BuildComplete(others, replicas, VirtualNode(NodeHash(id, 0), id));
        assert IsReplica(VirtualNode(NodeHash(id, 0), id), replicas);
      }
    } else {
      var node :| (node in Build(ids, replicas)) != (node in Build(others, replicas));
      BuildComplete(ids, replicas, node);
      BuildComplete(others, replicas, node);
    }
  }

  /** The latest request of a service. */
  function Latest(requests: seq<Request>, svc: Text): (i: Option<nat>)
    ensures i.Some? ==> i.value < |requests| && requests[i.value].serviceName == svc
    ensures i.Some? ==> forall j :: i.value < j < |requests| ==> requests[j].serviceName != svc
    ensures i.None? ==> forall j :: 0 <= j < |requests| ==> requests[j].serviceName != svc
  {
    if requests == [] then None
    else if requests[|requests| - 1].serviceName == svc then Some(|requests| - 1)
    else Latest(requests[..|requests| - 1], svc)
  }

  /** Request j names the same ids as the one before it for its service, or another fingerprint. */
  ghost predicate ToldApart(requests: seq<Request>, j: nat)
    requires j < |requests|
  {
    match Latest(requests[..j], requests[j].serviceName)
    case None => true
    case Some(i) =>
      Fingerprint(requests[i].ids) == Fingerprint(requests[j].ids) ==> SameIds(requests[i].ids, requests[j].ids)
  }

  /** Every request of a service is told apart. */
  ghost predicate ToldApartAll(requests: seq<Request>, svc: Text) {
    forall j :: 0 <= j < |requests| && requests[j].serviceName == svc ==> ToldApart(requests, j)
  }

  /** Request j is served a ring with exactly the nodes of its ids. */
  ghost predicate ServedRight(requests: seq<Request>, j: nat, replicas: nat)
    requires j < |requests|
  {
    var served := RingFor(CacheAfter(requests[..j], replicas), requests[j], replicas);
    SameNodes(served.ring, Build(requests[j].ids, replicas))
  }

  lemma {:induction false} CacheHoldsLatest(requests: seq<Request>, replicas: nat, svc: Text)
    requires forall j :: 0 <= j < |requests| && requests[j].serviceName == svc ==> ServedRight(requests, j, replicas)
    ensures match Latest(requests, svc)
            case None => svc !in CacheAfter(requests, replicas)
            case Some(i) =>
              && svc in CacheAfter(requests, replicas)
              && CacheAfter(requests, replicas)[svc].fingerprint == Fingerprint(requests[i].ids)
              && SameNodes(CacheAfter(requests, replicas)[svc].ring, Build(requests[i].ids, replicas))
  {
    hide Fingerprint, Build;
    if requests != [] {
      var front := requests[..|requests| - 1];
      if requests[|requests| - 1].serviceName == svc {
        assert ServedRight(requests, |requests| - 1, replicas);
      } else {
        forall j | 0 <= j < |front| && front[j].serviceName == svc
          ensures ServedRight(front, j, replicas)
        {
          assert front[..j] == requests[..j];
          assert ServedRight(requests, j, replicas);
        }
        CacheHoldsLatest(front, replicas, svc);
      }
    }
  }

  /** As long as earlier requests of its service were served right, a request is served right exactly
    * when it is told apart from the latest one for its service. */
  lemma ServedRightExactly(requests: seq<Request>, j: nat, replicas: nat)
    requires j < |requests| && replicas > 0
    requires forall i :: 0 <= i < j && requests[i].serviceName == requests[j].serviceName ==>
               ServedRight(requests, i, replicas)
    ensures ServedRight(requests, j, replicas) <==> ToldApart(requests, j)
  {
    hide Fingerprint, Build;
    var front, r := requests[..j], requests[j];
    forall i | 0 <= i < j && front[i].serviceName == r.serviceName
      ensures ServedRight(front, i, replicas)
    {
      assert front[..i] == requests[..i] && front[i] == requests[i];
      assert ServedRight(requests, i, replicas);
    }
    CacheHoldsLatest(front, replicas, r.serviceName);
    if Latest(front, r.serviceName).Some? {
      SameNodesExactly(requests[Latest(front, r.serviceName).value].ids, r.ids, replicas);
    }
  }

  /** Every request of a service in a run is served right exactly when consecutive requests of that
    * service with the same fingerprint always name the same ids. Other services do not matter. */
  lemma {:induction false} CacheRightExactly(requests: seq<Request>, replicas: nat, svc: Text, n: nat)
    requires replicas > 0 && n <= |requests|
    ensures (forall j :: 0 <= j < n && requests[j].serviceName == svc ==> ServedRight(requests, j, replicas))
            <==> (forall j :: 0 <= j < n && requests[j].serviceName == svc ==> ToldApart(requests, j))
  {
    hide ServedRight, ToldApart;
    if n > 0 {
      CacheRightExactly(requests, replicas, svc, n - 1);
      if requests[n - 1].serviceName == svc
         && forall j :: 0 <= j < n - 1 && requests[j].serviceName == svc ==> ServedRight(requests, j, replicas) {
        ServedRightExactly(requests, n - 1, replicas);
      }
    }
  }

  /** Otherwise a stale ring is served. If none of its ids is still listed, every key
    * goes to the first instance, whatever its hash. */
  lemma StaleRingRoutesToFirst(ids: seq<Text>, list: seq<ServiceInstance>, replicas: nat, target: nat, k: nat)
    requires forall id :: id in ids ==> id !in Ids(list)
    requires Routed(Build(ids, replicas), list, target, k)
    ensures k == 0
  {
    var ring := Build(ids, replicas);
    if ring != [] {
      var s :| Locates(ring, target, s) && Landing(ring, s) < |ring|
               && FirstWithId(list, ring[Landing(ring, s)].serviceId, k);
      BuildComplete(ids, replicas, ring[Landing(ring, s)]);
      if k > 0 {
        assert Ids(list)[k] == list[k].serviceId;
      } else if list[0].serviceId == ring[Landing(ring, s)].serviceId {
        assert Ids(list)[0] == list[0].serviceId;
      }
    }
  }

  // "ab", "c" and "a", "bc": the same bytes cut at different places.
  const EARLIER: seq<Text> := [[97, 98], [99]]
  const LATER: seq<Text> := [[97], [98, 99]]

  /** A concrete failure: a service listed as EARLIER is next listed as LATER. The stale ring is
    * served, so the key "bc#v0", which "bc" owns, is routed to "a" like every other key. */
  lemma StaleCacheMisroutes(svc: Text, list: seq<ServiceInstance>, replicas: nat, k: nat)
    requires Ids(list) == LATER && replicas > 0
    requires Routed(RingFor(CacheAfter([Request(svc, EARLIER)], replicas), Request(svc, LATER), replicas).ring,
                    list, NodeHash(LATER[1], 0), k)
    ensures Fingerprint(EARLIER) == Fingerprint(LATER) && EARLIER != LATER
    ensures Owns(IdSet(list), replicas, NodeHash(LATER[1], 0), LATER[1])
    ensures k == 0 && list[k].serviceId == LATER[0] != LATER[1]
  {
    hide Fingerprint, NodeHash, Build;
    JoinedPair(EARLIER);
    JoinedPair(LATER);
    assert EARLIER[0] + EARLIER[1] == LATER[0] + LATER[1];
    FingerprintIgnoresBoundaries(EARLIER, LATER);
    assert CacheAfter([Request(svc, EARLIER)][..0], replicas) == map[];
    assert RingFor(CacheAfter([Request(svc, EARLIER)], replicas), Request(svc, LATER), replicas).ring
           == Build(EARLIER, replicas);
    assert EARLIER[0] != LATER[0] && EARLIER[0] != LATER[1] && EARLIER[1] != LATER[0] && EARLIER[1] != LATER[1] by {
      assert |EARLIER[0]| == |LATER[1]| == 2 && |EARLIER[1]| == |LATER[0]| == 1;
      assert EARLIER[0][0] == 97 && LATER[1][0] == 98 && EARLIER[1][0] == 99;
    }
    StaleRingRoutesToFirst(EARLIER, list, replicas, NodeHash(LATER[1], 0), k);
    assert Ids(list)[0] == LATER[0] && Ids(list)[1] == LATER[1];
    assert FirstMet(IdSet(list), replicas, NodeHash(LATER[1], 0), LATER[1], 0);
  }

  lemma JoinedPair(ids: seq<Text>)
    requires |ids| == 2
    ensures Joined(ids) == ids[0] + ids[1]
  {
    assert ids[..1][..0] == [] && ids[..1][0] == ids[0];
    assert Joined(ids[..1]) == ids[0];
  }

  // ---- When a stale ring still routes every key right, exactly ----

  /** A binary search of a sorted ring has an answer. */
  lemma {:induction false} SearchAnswers(ring: seq<VirtualNode>, target: nat) returns (s: Search)
    requires Sorted(ring)
    ensures Locates(ring, target, s)
  {
    if ring == [] {
      s := Absent(0);
    } else {
      var last, front := |ring| - 1, ring[..|ring| - 1];
      s := SearchAnswers(front, target);
      assert forall j :: 0 <= j < last ==> front[j] == ring[j] && ring[j].hash <= ring[last].hash;
      if s.Absent? && s.insertAt < last {
        assert front[last - 1].hash > target;
      } else if s.Absent? {
        s := if ring[last].hash == target then Found(last)
             else if ring[last].hash < target then Absent(|ring|) else Absent(last);
      }
    }
  }

  /** Through the ring of the cached ids every key reaches its owner among the listed ones. */
  ghost predicate EveryKeyRight(cached: seq<Text>, list: seq<ServiceInstance>, replicas: nat) {
    forall target: nat, k: nat :: target < WORDS && k < |list| && Routed(Build(cached, replicas), list, target, k) ==>
                                    Owns(IdSet(list), replicas, target, list[k].serviceId)
  }

  /** The first listed instance owns the position of every virtual node of the ids that left. */
  ghost predicate HeirIsFirst(cached: seq<Text>, list: seq<ServiceInstance>, replicas: nat)
    requires list != []
  {
    forall id, v :: id in cached && id !in IdSet(list) && 0 <= v < replicas ==>
                      Owns(IdSet(list), replicas, NodeHash(id, v), list[0].serviceId)
  }

  /** Where the cached ring sends a key: to the cached owner if listed, else to the first instance. */
  lemma SentTo(cached: seq<Text>, list: seq<ServiceInstance>, replicas: nat, target: nat) returns (k: nat, id: Text)
    requires cached != [] && list != [] && replicas > 0 && target < WORDS
    ensures k < |list| && Routed(Build(cached, replicas), list, target, k)
    ensures Owns(SetOf(cached), replicas, target, id)
    ensures if id in IdSet(list) then list[k].serviceId == id else k == 0
  {
    hide Build, NodeHash, Owns;
    var ring := Build(cached, replicas);
    var s := SearchAnswers(ring, target);
    LandingOwns(ring, cached, replicas, target, s);
    id := ring[Landing(ring, s)].serviceId;
    IdSetIsIds(list, id);
    k := FirstWith(list, id);
  }

  lemma {:induction false} FirstWith(list: seq<ServiceInstance>, id: Text) returns (k: nat)
    requires list != []
    ensures FirstWithId(list, id, k)
    ensures id in IdSet(list) ==> list[k].serviceId == id
  {
    IdSetIsIds(list, id);
    if id in Ids(list) {
      k := 0;
      while list[k].serviceId != id
        invariant k < |list| && forall i :: 0 <= i < k ==> list[i].serviceId != id
        decreases |list| - k
      {
        k := k + 1;
        assert k < |list| by {
          var i :| 0 <= i < |list| && Ids(list)[i] == id;
        }
      }
    } else {
      k := 0;
    }
  }

  lemma NodeOwnsItsPosition(ids: set<Text>, replicas: nat, id: Text, v: nat)
    requires id in ids && v < replicas
    ensures Owns(ids, replicas, NodeHash(id, v), id)
  {
    hide NodeHash;
    assert FirstMet(ids, replicas, NodeHash(id, v), id, v);
  }

  /** The virtual node of x that comes last before a position. */
  lemma {:induction false} LastBefore(x: Text, replicas: nat, position: nat) returns (v: nat)
    requires replicas > 0
    ensures v < replicas
    ensures forall w :: 0 <= w < replicas ==>
              Clockwise(NodeHash(x, v), position) <= Clockwise(NodeHash(x, w), position)
  {
    hide NodeHash;
    if replicas == 1 {
      v := 0;
    } else {
      v := LastBefore(x, replicas - 1, position);
      if Clockwise(NodeHash(x, replicas - 1), position) < Clockwise(NodeHash(x, v), position) {
        v := replicas - 1;
      }
    }
  }

  function After(p: nat): nat
    requires p < WORDS
  {
    if p + 1 == WORDS then 0 else p + 1
  }

  /** Between the last node of x before a node of z, and that node, x owns nothing. */
  lemma NotPastItsLast(ids: set<Text>, replicas: nat, x: Text, v: nat, z: Text)
    requires DistinctNodes(ids, replicas) && x in ids && z in ids && x != z && v < replicas
    requires forall w :: 0 <= w < replicas ==>
               Clockwise(NodeHash(x, v), NodeHash(z, 0)) <= Clockwise(NodeHash(x, w), NodeHash(z, 0))
    ensures !Owns(ids, replicas, After(NodeHash(x, v)), x)
  {
    hide NodeHash;
    var p := NodeHash(x, v);
    assert p != NodeHash(z, 0);
    forall w: nat | w < replicas
      ensures Clockwise(After(p), NodeHash(z, 0)) < Clockwise(After(p), NodeHash(x, w))
    {
      assert NodeHash(x, w) != NodeHash(z, 0);
      assert Clockwise(p, NodeHash(z, 0)) <= Clockwise(NodeHash(x, w), NodeHash(z, 0));
    }
  }

  /** Moving on by one from a position no node of the ids has does not change the owner. */
  lemma OwnerOfNext(ids: set<Text>, replicas: nat, p: nat, id: Text)
    requires p < WORDS && Owns(ids, replicas, p, id)
    requires forall other, w :: other in ids && 0 <= w < replicas ==> NodeHash(other, w) != p
    ensures Owns(ids, replicas, After(p), id)
  {
    hide NodeHash;
    var v: nat :| FirstMet(ids, replicas, p, id, v);
    forall other, w | other in ids && 0 <= w < replicas
      ensures Clockwise(After(p), NodeHash(id, v)) <= Clockwise(After(p), NodeHash(other, w))
    {
      assert NodeHash(other, w) != p && NodeHash(id, v) != p;
      assert Clockwise(p, NodeHash(id, v)) <= Clockwise(p, NodeHash(other, w));
    }
    assert FirstMet(ids, replicas, After(p), id, v);
  }

  /** If every key is right, the first instance owns any key of a departed id. */
  lemma RightMeansInherited(cached: seq<Text>, list: seq<ServiceInstance>, replicas: nat, target: nat, id: Text)
    requires cached != [] && list != [] && replicas > 0 && target < WORDS
    requires DistinctNodes(SetOf(cached) + IdSet(list), replicas) && EveryKeyRight(cached, list, replicas)
    requires Owns(SetOf(cached), replicas, target, id) && id !in IdSet(list)
    ensures Owns(IdSet(list), replicas, target, list[0].serviceId)
  {
    hide Build, NodeHash, Routed;
    var k, y := SentTo(cached, list, replicas, target);
    OwnerUnique(SetOf(cached), replicas, target, id, y);
  }

  lemma RightMeansHeir(cached: seq<Text>, list: seq<ServiceInstance>, replicas: nat)
    requires cached != [] && list != [] && replicas > 0
    requires DistinctNodes(SetOf(cached) + IdSet(list), replicas) && EveryKeyRight(cached, list, replicas)
    ensures HeirIsFirst(cached, list, replicas)
  {
    hide Build, NodeHash, Routed, Owns, DistinctNodes, EveryKeyRight;
    forall id, v | id in cached && id !in IdSet(list) && 0 <= v < replicas
      ensures Owns(IdSet(list), replicas, NodeHash(id, v), list[0].serviceId)
    {
      NodeOwnsItsPosition(SetOf(cached), replicas, id, v);
      RightMeansInherited(cached, list, replicas, NodeHash(id, v), id);
    }
  }

  /** Whoever owns the position of the node a key lands on, among ids that are all on the ring, owns the
    * key: clockwise distances add up. */
  lemma OwnerBehindNode(ids: set<Text>, cached: set<Text>, replicas: nat, target: nat, id: Text, v: nat, heir: Text)
    requires ids <= cached && target < WORDS && FirstMet(cached, replicas, target, id, v)
    requires Owns(ids, replicas, NodeHash(id, v), heir)
    ensures Owns(ids, replicas, target, heir)
  {
    hide NodeHash;
    var p := NodeHash(id, v);
    var w: nat :| FirstMet(ids, replicas, p, heir, w);
    forall other, x | other in ids && 0 <= x < replicas
      ensures Clockwise(target, NodeHash(heir, w)) <= Clockwise(target, NodeHash(other, x))
    {
      assert Clockwise(target, p) <= Clockwise(target, NodeHash(other, x));
      assert Clockwise(target, p) <= Clockwise(target, NodeHash(heir, w));
      assert Clockwise(p, NodeHash(heir, w)) <= Clockwise(p, NodeHash(other, x));
    }
    assert FirstMet(ids, replicas, target, heir, w);
  }

  /** If every key is right, no listed id but the first can be missing from the cached ones. */
  lemma RightMeansKnown(cached: seq<Text>, list: seq<ServiceInstance>, replicas: nat, x: Text)
    requires cached != [] && list != [] && replicas > 0
    requires DistinctNodes(SetOf(cached) + IdSet(list), replicas) && EveryKeyRight(cached, list, replicas)
    requires x in IdSet(list) && x != list[0].serviceId
    ensures x in cached
  {
    hide Build, NodeHash, Routed;
    var target := NodeHash(x, 0);
    var k, y := SentTo(cached, list, replicas, target);
    NodeOwnsItsPosition(IdSet(list), replicas, x, 0);
    OwnerUnique(IdSet(list), replicas, target, x, list[k].serviceId);
  }

  /** Nor the first, when another id is listed: some key just past one of its nodes goes astray. */
  lemma RightMeansFirstKnown(cached: seq<Text>, list: seq<ServiceInstance>, replicas: nat, z: Text)
    requires cached != [] && list != [] && replicas > 0
    requires DistinctNodes(SetOf(cached) + IdSet(list), replicas) && EveryKeyRight(cached, list, replicas)
    requires z in IdSet(list) && z != list[0].serviceId
    ensures list[0].serviceId in cached
  {
    hide Build, NodeHash, Routed;
    var x := list[0].serviceId;
    if x !in cached {
      var v := LastBefore(x, replicas, NodeHash(z, 0));
      var p := NodeHash(x, v);
      var k, y := SentTo(cached, list, replicas, p);
      NodeOwnsItsPosition(IdSet(list), replicas, x, v);
      OwnerUnique(IdSet(list), replicas, p, x, list[k].serviceId);
      assert y !in IdSet(list);
      OwnerOfNext(SetOf(cached), replicas, p, y);
      RightMeansInherited(cached, list, replicas, After(p), y);
      NotPastItsLast(IdSet(list), replicas, x, v, z);
    }
  }

  /** What a stale ring costs, for any two topologies with distinct nodes and at least two listed ids:
    * every key still reaches its owner exactly when no listed id is missing from the cached ones and
    * the first instance owns the positions of all that left. A newcomer always loses a key. */
  lemma EveryKeyRightExactly(cached: seq<Text>, list: seq<ServiceInstance>, replicas: nat, z: Text)
    requires cached != [] && list != [] && replicas > 0
    requires DistinctNodes(SetOf(cached) + IdSet(list), replicas)
    requires z in IdSet(list) && z != list[0].serviceId
    ensures EveryKeyRight(cached, list, replicas)
            <==> IdSet(list) <= SetOf(cached) && HeirIsFirst(cached, list, replicas)
  {
    hide Build, NodeHash;
    if EveryKeyRight(cached, list, replicas) {
      RightMeansHeir(cached, list, replicas);
      RightMeansFirstKnown(cached, list, replicas, z);
      forall x | x in IdSet(list)
        ensures x in SetOf(cached)
      {
        if x != list[0].serviceId {
          RightMeansKnown(cached, list, replicas, x);
        }
      }
    }
    if IdSet(list) <= SetOf(cached) && HeirIsFirst(cached, list, replicas) {
      forall target: nat, k: nat | target < WORDS && k < |list| && Routed(Build(cached, replicas), list, target, k)
        ensures Owns(IdSet(list), replicas, target, list[k].serviceId)
      {
        StaleKeyRight(cached, list, replicas, target, k);
      }
    }
  }

  lemma StaleKeyRight(cached: seq<Text>, list: seq<ServiceInstance>, replicas: nat, target: nat, k: nat)
    requires cached != [] && list != [] && replicas > 0 && target < WORDS && k < |list|
    requires IdSet(list) <= SetOf(cached) && HeirIsFirst(cached, list, replicas)
    requires Routed(Build(cached, replicas), list, target, k)
    ensures Owns(IdSet(list), replicas, target, list[k].serviceId)
  {
    hide Build, NodeHash;
    var ring := Build(cached, replicas);
    ReplicaOf(cached[0], 0, cached, replicas);
    var s :| Locates(ring, target, s) && Landing(ring, s) < |ring|
             && FirstWithId(list, ring[Landing(ring, s)].serviceId, k);
    LandingOwns(ring, cached, replicas, target, s);
    var id := ring[Landing(ring, s)].serviceId;
    IdSetIsIds(list, id);
    if id in IdSet(list) {
      var v: nat :| FirstMet(SetOf(cached), replicas, target, id, v);
      assert FirstMet(IdSet(list), replicas, target, id, v);
    } else {
      var v: nat :| FirstMet(SetOf(cached), replicas, target, id, v);
      OwnerBehindNode(IdSet(list), SetOf(cached), replicas, target, id, v, list[0].serviceId);
    }
  }

  // ---- Disruption between two lists ----

  /** Position k is what an uncached selection may answer. */
  ghost predicate Answers(list: seq<ServiceInstance>, replicas: nat, target: nat, k: nat) {
    && list != []
    && k < |list|
    && if |list| == 1 then k == 0 else Routed(Build(Ids(list), replicas), list, target, k)
  }

  lemma AnswerIsOwner(list: seq<ServiceInstance>, replicas: nat, target: nat, k: nat)
    requires Answers(list, replicas, target, k) && replicas > 0 && target < WORDS
    ensures Owns(IdSet(list), replicas, target, list[k].serviceId)
  {
    if |list| == 1 {
      OnlyInstanceIsOwner(list, replicas, target);
    } else {
      RoutedToOwner(Build(Ids(list), replicas), list, replicas, target, k);
    }
  }

  /** Adding an instance to a list, anywhere, moves a key only to the new instance. */
  lemma ScaleOutDisruption(list: seq<ServiceInstance>, grown: seq<ServiceInstance>, newcomer: Text,
                           replicas: nat, target: nat, k: nat, k': nat)
    requires replicas > 0 && target < WORDS
    requires IdSet(grown) == IdSet(list) + {newcomer} && DistinctNodes(IdSet(grown), replicas)
    requires Answers(list, replicas, target, k) && Answers(grown, replicas, target, k')
    ensures grown[k'].serviceId == list[k].serviceId || grown[k'].serviceId == newcomer
  {
    AnswerIsOwner(list, replicas, target, k);
    AnswerIsOwner(grown, replicas, target, k');
    JoinMovesOnlyToNewcomer(IdSet(list), newcomer, replicas, target, list[k].serviceId, grown[k'].serviceId);
  }

  /** Removing an instance moves only the keys that were mapped to it. */
  lemma ScaleInDisruption(list: seq<ServiceInstance>, shrunk: seq<ServiceInstance>, leaver: Text,
                          replicas: nat, target: nat, k: nat, k': nat)
    requires replicas > 0 && target < WORDS
    requires IdSet(shrunk) == IdSet(list) - {leaver} && DistinctNodes(IdSet(list), replicas)
    requires Answers(list, replicas, target, k) && Answers(shrunk, replicas, target, k')
    requires list[k].serviceId != leaver
    ensures shrunk[k'].serviceId == list[k].serviceId
  {
    AnswerIsOwner(list, replicas, target, k);
    AnswerIsOwner(shrunk, replicas, target, k');
    LeaveMovesOnlyOwnKeys(IdSet(list), leaver, replicas, target, list[k].serviceId, shrunk[k'].serviceId);
  }

  /** Lists with the same ids, in any order, route every key to the same id. */
  lemma OrderIrrelevant(list: seq<ServiceInstance>, shuffled: seq<ServiceInstance>,
                        replicas: nat, target: nat, k: nat, k': nat)
    requires replicas > 0 && target < WORDS
    requires IdSet(shuffled) == IdSet(list) && DistinctNodes(IdSet(list), replicas)
    requires Answers(list, replicas, target, k) && Answers(shuffled, replicas, target, k')
    ensures shuffled[k'].serviceId == list[k].serviceId
  {
    AnswerIsOwner(list, replicas, target, k);
    AnswerIsOwner(shuffled, replicas, target, k');
    OwnerUnique(IdSet(list), replicas, target, list[k].serviceId, shuffled[k'].serviceId);
  }

  /** Sessions stick: two requests with the same key, whatever their clients and services, on lists with
    * the same ids in any order, are answered with the same id. */
  lemma SameKeySameId(ctx: SelectContext, other: SelectContext, list: seq<ServiceInstance>,
                      shuffled: seq<ServiceInstance>, replicas: nat, k: nat, k': nat)
    requires replicas > 0 && ctx.key.Some? && other.key == ctx.key
    requires IdSet(shuffled) == IdSet(list) && DistinctNodes(IdSet(list), replicas)
    requires Answers(list, replicas, KeyHash(ctx), k) && Answers(shuffled, replicas, KeyHash(other), k')
    ensures shuffled[k'].serviceId == list[k].serviceId
  {
    hide Answers, Hash, DistinctNodes;
    KeyThenIpThenName(ctx);
    KeyThenIpThenName(other);
    OrderIrrelevant(list, shuffled, replicas, KeyHash(ctx), k, k');
  }

  class ConsistentHashSelector {
    const replicas: nat
    var rings: map<Text, RingCache>
    ghost var requests: seq<Request>

    ghost predicate Valid()
      reads this
    {
      replicas > 0 && rings == CacheAfter(requests, replicas)
    }

    constructor (virtualNodes: nat)
      ensures Valid() && requests == []
      ensures replicas == if virtualNodes > 1 then virtualNodes else 1
    {
      replicas := if virtualNodes > 1 then virtualNodes else 1;
      rings := map[];
      requests := [];
    }

    method GetOrBuildRing(serviceName: Text, list: seq<ServiceInstance>) returns (cache: RingCache)
      requires Valid()
      modifies this
      ensures Valid() && requests == old(requests) + [Request(serviceName, Ids(list))]
      ensures cache == RingFor(old(rings), Request(serviceName, Ids(list)), replicas)
      ensures rings == old(rings)[serviceName := cache]
    {
      var fingerprint := ComputeFingerprint(list);
      assert (requests + [Request(serviceName, Ids(list))])[..|requests|] == requests;
      if serviceName in rings && rings[serviceName].fingerprint == fingerprint {
        cache := rings[serviceName];
        requests := requests + [Request(serviceName, Ids(list))];
        assert rings == old(rings)[serviceName := cache];
        return;
      }
      var nodes := PushNodes(list, replicas);
      cache := RingCache(fingerprint, SortByHash(nodes));
      rings := rings[serviceName := cache];
      requests := requests + [Request(serviceName, Ids(list))];
    }

    /** Returns the position of the chosen instance. Unconditionally it is a position of the list;
      * alone or with a cache that was right so far it is the owner of the routing key. */
    method Select(ctx: SelectContext, list: seq<ServiceInstance>) returns (chosen: Option<nat>)
      requires Valid()
      modifies this
      ensures Valid()
      ensures chosen == None <==> list == []
      ensures chosen.Some? ==> chosen.value < |list|
      ensures |list| < 2 ==> rings == old(rings) && requests == old(requests)
      ensures |list| >= 2 ==>
                && requests == old(requests) + [Request(ctx.serviceName, Ids(list))]
                && Routed(RingFor(old(rings), Request(ctx.serviceName, Ids(list)), replicas).ring, list,
                          KeyHash(ctx), chosen.value)
      ensures |list| == 1 || (list != [] && ToldApartAll(old(requests) + [Request(ctx.serviceName, Ids(list))],
                                                               ctx.serviceName)) ==>
                && var id := list[chosen.value].serviceId;
                   && Owns(IdSet(list), replicas, KeyHash(ctx), id)
                   && (ctx.key.Some? ==> Owns(IdSet(list), replicas, Value(Hash(ctx.key.value)), id))
                   && (ctx.key.None? && ctx.clientIp.Some? ==>
                         Owns(IdSet(list), replicas, Value(Hash(ctx.clientIp.value)), id))
                   && (ctx.key.None? && ctx.clientIp.None? ==>
                         Owns(IdSet(list), replicas, Value(Hash(ctx.serviceName)), id))
    {
      if list == [] {
        return None;
      }
      if |list| == 1 {
        KeyThenIpThenName(ctx);
        OnlyInstanceIsOwner(list, replicas, KeyHash(ctx));
        return Some(0);
      }
      hide KeyHash, Hash, Build, IdSet, Owns;
      KeyThenIpThenName(ctx);
      var targetHash := RoutingHash(ctx);
      var cache := GetOrBuildRing(ctx.serviceName, list);
      ghost var origin := CachedRingHasOrigin(requests, replicas, ctx.serviceName);
      RingHashesAreWords(cache.ring, requests[origin].ids, replicas);
      var position := Route(cache.ring, list, targetHash);
      CachedRouteToOwner(old(requests), ctx.serviceName, list, replicas, targetHash, position);
      chosen := Some(position);
    }
  }

  lemma OnlyInstanceIsOwner(list: seq<ServiceInstance>, replicas: nat, target: nat)
    requires |list| == 1 && replicas > 0
    ensures Owns(IdSet(list), replicas, target, list[0].serviceId)
  {
    var v := OnlyInstanceOwns(list[0].serviceId, replicas, target);
    assert IdSet(list) == {list[0].serviceId};
  }

  /** Cached selection equals the uncached clockwise successor. */
  lemma CachedRouteToOwner(requests: seq<Request>, svc: Text, list: seq<ServiceInstance>,
                           replicas: nat, target: nat, k: nat)
    requires list != [] && replicas > 0 && target < WORDS
    requires Routed(RingFor(CacheAfter(requests, replicas), Request(svc, Ids(list)), replicas).ring, list, target, k)
    ensures k < |list|
    ensures ToldApartAll(requests + [Request(svc, Ids(list))], svc) ==>
              Owns(IdSet(list), replicas, target, list[k].serviceId)
  {
    hide Build, NodeHash, Owns, Fingerprint;
    var r := Request(svc, Ids(list));
    var all := requests + [r];
    if ToldApartAll(all, svc) {
      CacheRightExactly(all, replicas, svc, |all|);
      assert ServedRight(all, |requests|, replicas);
      assert all[..|requests|] == requests;
      CachedRingSorted(requests, r, replicas);
      RoutedToOwner(RingFor(CacheAfter(requests, replicas), r, replicas).ring, list, replicas, target, k);
    }
  }

  lemma CachedRingSorted(requests: seq<Request>, r: Request, replicas: nat)
    ensures Sorted(RingFor(CacheAfter(requests, replicas), r, replicas).ring)
  {
    if r.serviceName in CacheAfter(requests, replicas) {
      var i := CachedRingHasOrigin(requests, replicas, r.serviceName);
    }
  }

  method RoutingHash(ctx: SelectContext) returns (h: nat)
    ensures h == KeyHash(ctx) && h < WORDS
  {
    var word := Fnv1aHash(RoutingKey(ctx));
    h := Value(word);
  }

  /** Binary search with wrap-around, then the first instance with the id found. */
  method Route(ring: seq<VirtualNode>, list: seq<ServiceInstance>, target: nat) returns (k: nat)
    requires list != [] && Sorted(ring) && target < WORDS
    requires forall i :: 0 <= i < |ring| ==> ring[i].hash < WORDS
    ensures Routed(ring, list, target, k)
  {
    if ring == [] {
      return 0;
    }
    var s := BinarySearch(ring, target);
    LandingIsNearest(ring, target, s, 0);
    k := FindById(list, ring[Landing(ring, s)].serviceId);
  }

  method PushNodes(list: seq<ServiceInstance>, replicas: nat) returns (ring: seq<VirtualNode>)
    ensures ring == Nodes(Ids(list), replicas)
  {
    hide NodeHash, NodeKey, Hash, Value;
    ring := [];
    for i := 0 to |list|
      invariant ring == Nodes(Ids(list)[..i], replicas)
    {
      var id := list[i].serviceId;
      ghost var before := ring;
      for v := 0 to replicas
        invariant ring == before + NodesOf(id, replicas)[..v]
      {
        var hash := Fnv1aHash(NodeKey(id, v));
        HashOfKey(id, v);
        ring := ring + [VirtualNode(Value(hash), id)];
      }
      assert Ids(list)[..i + 1][..i] == Ids(list)[..i];
    }
    assert Ids(list)[..|list|] == Ids(list);
  }

  lemma HashOfKey(id: Text, v: nat)
    ensures NodeHash(id, v) == Value(Hash(NodeKey(id, v)))
  {
  }

  method FindById(list: seq<ServiceInstance>, id: Text) returns (k: nat)
    requires list != []
    ensures FirstWithId(list, id, k)
  {
    for i := 0 to |list|
      invariant forall j :: 0 <= j < i ==> list[j].serviceId != id
    {
      if list[i].serviceId == id {
        return i;
      }
    }
    k := 0;
  }
}
