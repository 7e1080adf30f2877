/** Keys, prefix listings and watch translation of the etcd provider (src/provider/etcd.rs). */
module EtcdKeys {
  import opened Types
  import opened Snapshots

  const SLASH: bv8 := 47

  datatype Config = Config(namespace: Text, group: Text)

  function TrimStart(s: Text): Text {
    if s != [] && s[0] == SLASH then TrimStart(s[1..]) else s
  }

  function TrimEnd(s: Text): Text {
    if s != [] && s[|s| - 1] == SLASH then TrimEnd(s[..|s| - 1]) else s
  }

  /** Slashes are trimmed from both ends, not from the middle. */
  function Trim(s: Text): Text {
    TrimEnd(TrimStart(s))
  }

  function Base(c: Config): Text {
    [SLASH] + Trim(c.namespace) + [SLASH] + Trim(c.group) + [SLASH]
  }

  /** "/{namespace}/{group}/{service}/{id}" */
  function InstanceKey(c: Config, svc: Text, id: Text): Text {
    Base(c) + (Trim(svc) + [SLASH] + Trim(id))
  }

  /** "/{namespace}/{group}/{service}/" */
  function ServicePrefix(c: Config, svc: Text): Text {
    Base(c) + (Trim(svc) + [SLASH])
  }

  /** What follows the last slash. */
  function LastSegment(s: Text): Text {
    if s == [] || s[|s| - 1] == SLASH then [] else LastSegment(s[..|s| - 1]) + [s[|s| - 1]]
  }

  predicate SlashFree(s: Text) {
    SLASH !in s
  }

  lemma TrimSlashFree(s: Text)
    requires SlashFree(s)
    ensures Trim(s) == s
  {
    assert s != [] ==> s[0] in s && s[|s| - 1] in s;
  }

  lemma {:induction false} LastSegmentSlashFree(s: Text)
    ensures SlashFree(LastSegment(s))
  {
    if s != [] && s[|s| - 1] != SLASH {
      LastSegmentSlashFree(s[..|s| - 1]);
    }
  }

  lemma {:induction false} LastSegmentAfterSlash(front: Text, t: Text)
    ensures LastSegment(front + [SLASH] + t) == LastSegment(t)
  {
    var s := front + [SLASH] + t;
    if t == [] {
      assert s == front + [SLASH];
    } else {
      var last := |t| - 1;
      assert s[|s| - 1] == t[last] && s[..|s| - 1] == front + [SLASH] + t[..last];
      LastSegmentAfterSlash(front, t[..last]);
    }
  }

  lemma {:induction false} LastSegmentWhole(id: Text)
    requires SlashFree(id)
    ensures LastSegment(id) == id
  {
    if id != [] {
      var last := |id| - 1;
      assert id[last] in id;
      LastSegmentWhole(id[..last]);
      assert id == id[..last] + [id[last]];
    }
  }

  /** Key round trip: the last segment of an instance's key is its id exactly when the id has no
    * slash. A deletion of any other id is announced under a wrong id. */
  lemma LastSegmentIsId(c: Config, svc: Text, id: Text)
    ensures LastSegment(InstanceKey(c, svc, id)) == id <==> SlashFree(id)
  {
    LastSegmentSlashFree(InstanceKey(c, svc, id));
    if SlashFree(id) {
      TrimSlashFree(id);
      assert InstanceKey(c, svc, id) == (Base(c) + Trim(svc)) + [SLASH] + id;
      LastSegmentAfterSlash(Base(c) + Trim(svc), id);
      LastSegmentWhole(id);
    }
  }

  lemma FirstSlashDecides(a: Text, b: Text, rest: Text)
    requires SlashFree(a) && SlashFree(b)
    ensures a + [SLASH] <= b + [SLASH] + rest <==> a == b
  {
    var whole := b + [SLASH] + rest;
    assert whole[|b|] == SLASH && forall i :: 0 <= i < |b| ==> whole[i] == b[i] && whole[i] in b;
    if a + [SLASH] <= whole {
      assert (a + [SLASH])[|a|] == whole[|a|] == SLASH;
      assert forall i :: 0 <= i < |a| ==> (a + [SLASH])[i] == whole[i] && a[i] == whole[i] && a[i] in a;
      assert |a| == |b|;
    }
  }

  lemma PrefixCancels(base: Text, a: Text, b: Text)
    ensures base + a <= base + b <==> a <= b
  {
    if base + a <= base + b {
      assert (base + a)[|base|..] == a && (base + b)[|base|..] == b;
      assert forall i :: 0 <= i < |a| ==> a[i] == (base + a)[|base| + i] == (base + b)[|base| + i] == b[i];
    }
    if a <= b {
      assert forall i :: 0 <= i < |base + a| ==> (base + a)[i] == (base + b)[i];
    }
  }

  /** For slash-free service names a key has a service's prefix exactly when it belongs to it. */
  lemma PrefixIffService(c: Config, svc: Text, owner: Text, id: Text)
    requires SlashFree(svc) && SlashFree(owner)
    ensures ServicePrefix(c, svc) <= InstanceKey(c, owner, id) <==> svc == owner
  {
    TrimSlashFree(svc);
    TrimSlashFree(owner);
    PrefixCancels(Base(c), svc + [SLASH], owner + [SLASH] + Trim(id));
    FirstSlashDecides(svc, owner, Trim(id));
  }

  // ---- Names with slashes ----

  lemma {:induction false} TrimStartHead(s: Text)
    ensures TrimStart(s) != [] ==> TrimStart(s)[0] != SLASH
    ensures s != [] && s[0] != SLASH ==> TrimStart(s) == s
  {
    if s != [] && s[0] == SLASH {
      TrimStartHead(s[1..]);
    }
  }

  lemma {:induction false} TrimEndEnds(s: Text)
    ensures TrimEnd(s) <= s
    ensures TrimEnd(s) != [] ==> TrimEnd(s)[|TrimEnd(s)| - 1] != SLASH
    ensures s != [] && s[|s| - 1] != SLASH ==> TrimEnd(s) == s
  {
    if s != [] && s[|s| - 1] == SLASH {
      TrimEndEnds(s[..|s| - 1]);
    }
  }

  /** A trimmed text has no slash at either end, and trimming leaves such a text alone. */
  lemma TrimmedEnds(s: Text)
    ensures Trim(s) != [] ==> Trim(s)[0] != SLASH && Trim(s)[|Trim(s)| - 1] != SLASH
    ensures s != [] && s[0] != SLASH && s[|s| - 1] != SLASH ==> Trim(s) == s
  {
    TrimStartHead(s);
    TrimEndEnds(TrimStart(s));
  }

  /** Every key of owner o has the prefix of service s: s is o, or a part of its path from the front. */
  predicate SeesAll(s: Text, o: Text) {
    s + [SLASH] <= o + [SLASH]
  }

  /** Service s is deeper than owner o, so some ids of o complete the path to s. */
  predicate SeesSome(s: Text, o: Text) {
    o + [SLASH] < s && s[|o| + 1] != SLASH
  }

  lemma SeesKey(c: Config, svc: Text, owner: Text, id: Text)
    ensures ServicePrefix(c, svc) <= InstanceKey(c, owner, id)
            <==> Trim(svc) + [SLASH] <= Trim(owner) + [SLASH] + Trim(id)
  {
    PrefixCancels(Base(c), Trim(svc) + [SLASH], Trim(owner) + [SLASH] + Trim(id));
  }

  /** Comparing a prefix with a path, one segment of it at a time. */
  lemma PathPrefix(s: Text, o: Text, t: Text)
    requires s != [] ==> s[|s| - 1] != SLASH
    requires t != [] ==> t[0] != SLASH
    ensures s + [SLASH] <= o + [SLASH] + t ==> SeesAll(s, o) || (SeesSome(s, o) && SLASH in t)
    ensures SeesAll(s, o) ==> s + [SLASH] <= o + [SLASH] + t
  {
    var whole := o + [SLASH] + t;
    if s + [SLASH] <= whole {
      assert forall i :: 0 <= i < |s| ==> s[i] == (s + [SLASH])[i] == whole[i];
      assert (s + [SLASH])[|s|] == whole[|s|];
      if |s| <= |o| {
        assert forall i :: 0 <= i <= |s| ==> (s + [SLASH])[i] == whole[i] == (o + [SLASH])[i];
      } else {
        assert s[|o|] == SLASH;
        assert s[..|o| + 1] == o + [SLASH];
        assert s[|o| + 1] == t[0] && t[|s| - |o| - 1] == SLASH;
      }
    }
  }

  /** An id of owner that completes the path to svc. */
  lemma CompletingId(c: Config, svc: Text, owner: Text) returns (id: Text)
    requires SeesSome(Trim(svc), Trim(owner))
    ensures ServicePrefix(c, svc) <= InstanceKey(c, owner, id)
  {
    var s, o := Trim(svc), Trim(owner);
    id := s[|o| + 1..] + [SLASH, 120];
    SeesKey(c, svc, owner, id);
    TrimmedEnds(id);
    assert s == o + [SLASH] + s[|o| + 1..];
    assert o + [SLASH] + id == (s + [SLASH]) + [120];
  }

  /** For any names, slashes included: service svc sees every key of an owner exactly when its trimmed
    * name is the owner's or leads up to it, and some key exactly when, besides, it may lie below the
    * owner's. Keys with slash-free ids are seen in the first case alone. */
  lemma OverlapExactly(c: Config, svc: Text, owner: Text)
    ensures (forall id :: ServicePrefix(c, svc) <= InstanceKey(c, owner, id)) <==> SeesAll(Trim(svc), Trim(owner))
    ensures (exists id :: ServicePrefix(c, svc) <= InstanceKey(c, owner, id))
            <==> SeesAll(Trim(svc), Trim(owner)) || SeesSome(Trim(svc), Trim(owner))
    ensures (exists id :: SlashFree(id) && ServicePrefix(c, svc) <= InstanceKey(c, owner, id))
            <==> SeesAll(Trim(svc), Trim(owner))
  {
    hide Trim, ServicePrefix, InstanceKey, SeesAll, SeesSome;
    var s, o := Trim(svc), Trim(owner);
    TrimmedEnds(svc);
    forall id
      ensures ServicePrefix(c, svc) <= InstanceKey(c, owner, id) ==> SeesAll(s, o) || (SeesSome(s, o) && !SlashFree(id))
      ensures SeesAll(s, o) ==> ServicePrefix(c, svc) <= InstanceKey(c, owner, id)
    {
      SeesKey(c, svc, owner, id);
      TrimmedEnds(id);
      PathPrefix(s, o, Trim(id));
      if SlashFree(id) {
        TrimSlashFree(id);
      }
    }
    var plain: Text := [];
    assert SlashFree(plain);
    if SeesAll(s, o) {
      assert ServicePrefix(c, svc) <= InstanceKey(c, owner, plain);
    } else {
      assert !(ServicePrefix(c, svc) <= InstanceKey(c, owner, plain));
    }
    if SeesSome(s, o) {
      var id := CompletingId(c, svc, owner);
      assert ServicePrefix(c, svc) <= InstanceKey(c, owner, id);
    }
  }

  /** A case of overlap: service "a/b" also sees service "a"'s "b/c". */
  lemma NestedNamesOverlap(c: Config)
    ensures var a, ab, bc := [97], [97, SLASH, 98], [98, SLASH, 99];
            ServicePrefix(c, ab) <= InstanceKey(c, a, bc) && a != ab
  {
    var a, ab, bc: Text := [97], [97, SLASH, 98], [98, SLASH, 99];
    TrimmedEnds(a);
    TrimmedEnds(ab);
    TrimmedEnds(bc);
    SeesKey(c, ab, a, bc);
    assert (a + [SLASH] + bc)[..4] == ab + [SLASH];
  }

  lemma KeysDistinct(c: Config, svc: Text, id: Text, other: Text)
    requires SlashFree(id) && SlashFree(other) && InstanceKey(c, svc, id) == InstanceKey(c, svc, other)
    ensures id == other
  {
    LastSegmentIsId(c, svc, id);
    LastSegmentIsId(c, svc, other);
  }

  // ---- Keys segment by segment ----

  /** The stretches between slashes. */
  function Segments(s: Text): (r: seq<Text>)
    ensures r != []
  {
    if s == [] then [[]] else
    var front, last := Segments(s[..|s| - 1]), s[|s| - 1];
    if last == SLASH then front + [[]]
    else front[..|front| - 1] + [front[|front| - 1] + [last]]
  }

  lemma NoSegments()
    ensures Segments([]) == [[]]
  {
  }

  lemma {:induction false} SegmentsAppended(s: Text, t: Text)
    requires SlashFree(t)
    ensures Segments(s + [SLASH] + t) == Segments(s) + [t]
  {
    var whole := s + [SLASH] + t;
    if t == [] {
      assert whole[..|whole| - 1] == s;
    } else {
      var last := |t| - 1;
      assert t[last] in t && SlashFree(t[..last]);
      assert whole[..|whole| - 1] == s + [SLASH] + t[..last] && whole[|whole| - 1] == t[last];
      SegmentsAppended(s, t[..last]);
      assert t == t[..last] + [t[last]];
    }
  }

  /** Trimming takes slashes off both ends and nothing else. */
  lemma TrimTakesSlashes(s: Text) returns (front: Text, back: Text)
    ensures s == front + Trim(s) + back
    ensures forall b :: b in front || b in back ==> b == SLASH
  {
    front := TrimStartTakes(s);
    back := TrimEndTakes(TrimStart(s));
    assert s == front + TrimStart(s) == front + (Trim(s) + back) == front + Trim(s) + back;
  }

  lemma {:induction false} TrimStartTakes(s: Text) returns (front: Text)
    ensures s == front + TrimStart(s) && forall b :: b in front ==> b == SLASH
  {
    front := [];
    if s != [] && s[0] == SLASH {
      var more := TrimStartTakes(s[1..]);
      front := [SLASH] + more;
      assert s == [SLASH] + s[1..];
    }
  }

  lemma {:induction false} TrimEndTakes(s: Text) returns (back: Text)
    ensures s == TrimEnd(s) + back && forall b :: b in back ==> b == SLASH
  {
    back := [];
    if s != [] && s[|s| - 1] == SLASH {
      var more := TrimEndTakes(s[..|s| - 1]);
      back := more + [SLASH];
      assert s == s[..|s| - 1] + [SLASH];
    }
  }

  /** When no slash is left after trimming, a key reads, between slashes: nothing, namespace, group,
    * service, id, each trimmed. */
  lemma KeySegments(c: Config, svc: Text, id: Text)
    requires SlashFree(Trim(c.namespace)) && SlashFree(Trim(c.group)) && SlashFree(Trim(svc)) && SlashFree(Trim(id))
    ensures Segments(InstanceKey(c, svc, id)) == [[], Trim(c.namespace), Trim(c.group), Trim(svc), Trim(id)]
    ensures Segments(ServicePrefix(c, svc)) == [[], Trim(c.namespace), Trim(c.group), Trim(svc), []]
  {
    hide Segments, Trim;
    NoSegments();
    var nothing: Text := [];
    var a := nothing + [SLASH] + Trim(c.namespace);
    var b := a + [SLASH] + Trim(c.group);
    var d := b + [SLASH] + Trim(svc);
    SegmentsAppended(nothing, Trim(c.namespace));
    SegmentsAppended(a, Trim(c.group));
    SegmentsAppended(b, Trim(svc));
    SegmentsAppended(d, Trim(id));
    SegmentsAppended(d, nothing);
    assert Base(c) == b + [SLASH];
    assert InstanceKey(c, svc, id) == d + [SLASH] + Trim(id);
    assert ServicePrefix(c, svc) == d + [SLASH] + nothing;
  }

  lemma AllTrimmed(c: Config, svc: Text, id: Text)
    requires SlashFree(c.namespace) && SlashFree(c.group) && SlashFree(svc) && SlashFree(id)
    ensures Trim(c.namespace) == c.namespace && Trim(c.group) == c.group && Trim(svc) == svc && Trim(id) == id
  {
    TrimSlashFree(c.namespace);
    TrimSlashFree(c.group);
    TrimSlashFree(svc);
    TrimSlashFree(id);
  }

  /** So no two configurations, services or ids share a key. */
  lemma KeysDetermineAll(c: Config, svc: Text, id: Text, d: Config, other: Text, id': Text)
    requires SlashFree(c.namespace) && SlashFree(c.group) && SlashFree(svc) && SlashFree(id)
    requires SlashFree(d.namespace) && SlashFree(d.group) && SlashFree(other) && SlashFree(id')
    ensures InstanceKey(c, svc, id) == InstanceKey(d, other, id') <==> c == d && svc == other && id == id'
  {
    hide InstanceKey, Segments, Trim;
    AllTrimmed(c, svc, id);
    AllTrimmed(d, other, id');
    KeySegments(c, svc, id);
    KeySegments(d, other, id');
    if InstanceKey(c, svc, id) == InstanceKey(d, other, id') {
      var s, t := [[], c.namespace, c.group, svc, id], [[], d.namespace, d.group, other, id'];
      assert s[1] == t[1] && s[2] == t[2] && s[3] == t[3] && s[4] == t[4];
    }
  }

  // ---- The key space and what a watch makes of it ----

  /** A stored value: the instance it decodes to, or None when it does not decode. */
  type KeySpace = map<Text, Option<ServiceInstance>>

  datatype KeyEvent = Put(key: Text, value: Option<ServiceInstance>) | Del(key: Text)

  function Written(ks: KeySpace, e: KeyEvent): KeySpace {
    match e case Put(k, v) => ks[k := v] case Del(k) => ks - {k}
  }

  function WrittenAll(ks: KeySpace, events: seq<KeyEvent>): KeySpace {
    if events == [] then ks else Written(WrittenAll(ks, events[..|events| - 1]), events[|events| - 1])
  }

  /** The watch task's translation: puts that decode become upserts, deletes carry the last segment. */
  function Translated(e: KeyEvent, svc: Text): Option<ServiceEvent> {
    match e
    case Put(_, Some(inst)) => Some(Upsert(inst))
    case Put(_, None) => None
    case Del(key) => Some(Delete(svc, LastSegment(key)))
  }

  /** One key event seen by a watch on the service's prefix. */
  function Watched(list: seq<ServiceInstance>, c: Config, e: KeyEvent, svc: Text): seq<ServiceInstance> {
    if ServicePrefix(c, svc) <= e.key then
      match Translated(e, svc) case None => list case Some(event) => Apply(list, event)
    else list
  }

  function WatchedAll(list: seq<ServiceInstance>, c: Config, events: seq<KeyEvent>, svc: Text): seq<ServiceInstance> {
    if events == [] then list
    else Watched(WatchedAll(list, c, events[..|events| - 1], svc), c, events[|events| - 1], svc)
  }

  /** What registration, deregistration and lease expiry write, for slash-free names and ids. */
  ghost predicate ByRegistration(c: Config, e: KeyEvent) {
    match e
    case Put(key, Some(inst)) =>
      SlashFree(inst.name) && SlashFree(inst.serviceId) && key == InstanceKey(c, inst.name, inst.serviceId)
    case Put(_, None) => false
    case Del(key) => exists svc, id :: SlashFree(svc) && SlashFree(id) && key == InstanceKey(c, svc, id)
  }

  function Stored(ks: KeySpace, c: Config, svc: Text, id: Text): Option<ServiceInstance> {
    var key := InstanceKey(c, svc, id);
    if SlashFree(id) && key in ks then ks[key] else None
  }

  /** The list finds under every id what the key space stores for it. */
  ghost predicate Tracks(list: seq<ServiceInstance>, ks: KeySpace, c: Config, svc: Text) {
    forall id :: Lookup(list, id) == Stored(ks, c, svc, id)
  }

  lemma WatchedTracks(list: seq<ServiceInstance>, ks: KeySpace, c: Config, e: KeyEvent, svc: Text)
    requires SlashFree(svc) && ByRegistration(c, e) && Tracks(list, ks, c, svc)
    ensures Tracks(Watched(list, c, e, svc), Written(ks, e), c, svc)
  {
    var owner, eid: Text;
    if e.Put? {
      owner, eid := e.value.value.name, e.value.value.serviceId;
    } else {
      owner, eid :| SlashFree(owner) && SlashFree(eid) && e.key == InstanceKey(c, owner, eid);
    }
    PrefixIffService(c, svc, owner, eid);
    LastSegmentIsId(c, owner, eid);
    forall id
      ensures Lookup(Watched(list, c, e, svc), id) == Stored(Written(ks, e), c, svc, id)
    {
      assert Lookup(list, id) == Stored(ks, c, svc, id);
      WatchedLookup(list, ks, c, e, svc, owner, eid, id);
    }
  }

  lemma WatchedLookup(list: seq<ServiceInstance>, ks: KeySpace, c: Config, e: KeyEvent, svc: Text,
                      owner: Text, eid: Text, id: Text)
    requires SlashFree(svc) && SlashFree(owner) && SlashFree(eid) && e.key == InstanceKey(c, owner, eid)
    requires e.Put? ==> e.value.Some? && e.value.value.serviceId == eid
    requires ServicePrefix(c, svc) <= e.key <==> svc == owner
    requires LastSegment(e.key) == eid
    requires Lookup(list, id) == Stored(ks, c, svc, id)
    ensures Lookup(Watched(list, c, e, svc), id) == Stored(Written(ks, e), c, svc, id)
  {
    hide InstanceKey, ServicePrefix, LastSegment;
    if svc == owner {
      ApplyLookup(list, Translated(e, svc).value, id);
      if SlashFree(id) && InstanceKey(c, svc, id) == e.key {
        KeysDistinct(c, svc, id, eid);
      }
    } else if SlashFree(id) && InstanceKey(c, svc, id) == e.key {
      PrefixIffService(c, svc, svc, id);
    }
  }

  /** Folding the translated events into a list that tracks the key space keeps tracking it, however
    * registrations, deregistrations and expiries of all services interleave. */
  lemma {:induction false} WatchTracksKeySpace(list: seq<ServiceInstance>, ks: KeySpace, c: Config,
                                               events: seq<KeyEvent>, svc: Text)
    requires SlashFree(svc) && Tracks(list, ks, c, svc)
    requires forall i :: 0 <= i < |events| ==> ByRegistration(c, events[i])
    ensures Tracks(WatchedAll(list, c, events, svc), WrittenAll(ks, events), c, svc)
  {
    if events != [] {
      var last := |events| - 1;
      WatchTracksKeySpace(list, ks, c, events[..last], svc);
      WatchedTracks(WatchedAll(list, c, events[..last], svc), WrittenAll(ks, events[..last]), c, events[last], svc);
    }
  }

  /** The deletion of a key reaches the instance of its id exactly when the id has no slash. Otherwise
    * that instance stays listed, and the one whose id is what follows the last slash goes instead. No
    * assumption on the service's name. */
  lemma DeletionReachesId(list: seq<ServiceInstance>, c: Config, svc: Text, id: Text)
    ensures Lookup(Watched(list, c, Del(InstanceKey(c, svc, id)), svc), id)
            == if SlashFree(id) then None else Lookup(list, id)
    ensures LastSegment(InstanceKey(c, svc, id)) == LastSegment(Trim(id))
    ensures forall other :: Lookup(Watched(list, c, Del(InstanceKey(c, svc, id)), svc), other)
                            == if other == LastSegment(Trim(id)) then None else Lookup(list, other)
  {
    LastSegmentIsId(c, svc, id);
    assert InstanceKey(c, svc, id) == ServicePrefix(c, svc) + Trim(id);
    assert InstanceKey(c, svc, id) == (Base(c) + Trim(svc)) + [SLASH] + Trim(id);
    LastSegmentAfterSlash(Base(c) + Trim(svc), Trim(id));
    forall other
      ensures Lookup(Watched(list, c, Del(InstanceKey(c, svc, id)), svc), other)
              == if other == LastSegment(Trim(id)) then None else Lookup(list, other)
    {
      ApplyLookup(list, Delete(svc, LastSegment(InstanceKey(c, svc, id))), other);
    }
  }

  // ---- Prefix listings ----

  /** The pairs are the entries under the prefix, each key once. */
  ghost predicate Entries(kvs: seq<(Text, Option<ServiceInstance>)>, ks: KeySpace, prefix: Text) {
    && (forall i :: 0 <= i < |kvs| ==> prefix <= kvs[i].0 && kvs[i].0 in ks && ks[kvs[i].0] == kvs[i].1)
    && (forall key :: key in ks && prefix <= key ==> exists i :: 0 <= i < |kvs| && kvs[i].0 == key)
    && (forall i, j :: 0 <= i < j < |kvs| ==> kvs[i].0 != kvs[j].0)
  }

  /** Values that decode, in the order the server returned them. */
  function Decoded(kvs: seq<(Text, Option<ServiceInstance>)>): seq<ServiceInstance> {
    if kvs == [] then [] else
    Decoded(kvs[..|kvs| - 1]) + match kvs[|kvs| - 1].1 case None => [] case Some(inst) => [inst]
  }

  /** Decoding keeps the order and skips just what does not decode. */
  lemma {:induction false} DecodedConcat(a: seq<(Text, Option<ServiceInstance>)>,
                                         b: seq<(Text, Option<ServiceInstance>)>)
    ensures Decoded(a + b) == Decoded(a) + Decoded(b)
  {
    if b == [] {
      assert a + b == a;
    } else {
      assert (a + b)[..|a + b| - 1] == a + b[..|b| - 1];
      DecodedConcat(a, b[..|b| - 1]);
    }
  }

  lemma DecodedOne(key: Text, value: Option<ServiceInstance>)
    ensures Decoded([(key, value)]) == match value case None => [] case Some(inst) => [inst]
  {
    assert [(key, value)][..0] == [];
  }

  method ListInstances(kvs: seq<(Text, Option<ServiceInstance>)>) returns (instances: seq<ServiceInstance>)
    ensures instances == Decoded(kvs)
  {
    instances := [];
    for i := 0 to |kvs|
      invariant instances == Decoded(kvs[..i])
    {
      assert kvs[..i + 1][..i] == kvs[..i];
      match kvs[i].1 {
        case None =>
        case Some(inst) => instances := instances + [inst];
      }
    }
    assert kvs[..|kvs|] == kvs;
  }

  /** Every entry was written by a registration. */
  ghost predicate Registered(ks: KeySpace, c: Config) {
    forall key :: key in ks ==> ByRegistration(c, Put(key, ks[key]))
  }

  lemma {:induction false} DecodedLookup(kvs: seq<(Text, Option<ServiceInstance>)>, id: Text, k: nat)
    requires forall i :: 0 <= i < |kvs| ==> kvs[i].1.Some?
    requires k <= |kvs| && (k < |kvs| ==> kvs[k].1.value.serviceId == id)
    requires forall i :: 0 <= i < |kvs| && i != k ==> kvs[i].1.value.serviceId != id
    ensures Lookup(Decoded(kvs), id) == if k < |kvs| then kvs[k].1 else None
  {
    if kvs != [] {
      var last := |kvs| - 1;
      DecodedLookup(kvs[..last], id, if k < last then k else last);
      LookupFront(Decoded(kvs[..last]), [kvs[last].1.value], id);
    }
  }

  lemma EntryIsOfService(kvs: seq<(Text, Option<ServiceInstance>)>, ks: KeySpace, c: Config, svc: Text, i: nat)
    requires SlashFree(svc) && Registered(ks, c) && Entries(kvs, ks, ServicePrefix(c, svc)) && i < |kvs|
    ensures kvs[i].1.Some? && SlashFree(kvs[i].1.value.serviceId)
    ensures kvs[i].0 == InstanceKey(c, svc, kvs[i].1.value.serviceId)
  {
    assert ByRegistration(c, Put(kvs[i].0, ks[kvs[i].0]));
    var inst := kvs[i].1.value;
    PrefixIffService(c, svc, inst.name, inst.serviceId);
  }

  /** A prefix listing of a key space written by registrations tracks it. */
  lemma ListingTracks(kvs: seq<(Text, Option<ServiceInstance>)>, ks: KeySpace, c: Config, svc: Text)
    requires SlashFree(svc) && Registered(ks, c) && Entries(kvs, ks, ServicePrefix(c, svc))
    ensures Tracks(Decoded(kvs), ks, c, svc)
  {
    forall id
      ensures Lookup(Decoded(kvs), id) == Stored(ks, c, svc, id)
    {
      ListingTracksId(kvs, ks, c, svc, id);
    }
  }

  lemma ListingTracksId(kvs: seq<(Text, Option<ServiceInstance>)>, ks: KeySpace, c: Config, svc: Text, id: Text)
    requires SlashFree(svc) && Registered(ks, c) && Entries(kvs, ks, ServicePrefix(c, svc))
    ensures Lookup(Decoded(kvs), id) == Stored(ks, c, svc, id)
  {
    hide InstanceKey, ServicePrefix, Lookup, Decoded;
    forall i | 0 <= i < |kvs|
      ensures kvs[i].1.Some? && SlashFree(kvs[i].1.value.serviceId)
      ensures kvs[i].0 == InstanceKey(c, svc, kvs[i].1.value.serviceId)
    {
      EntryIsOfService(kvs, ks, c, svc, i);
    }
    var key := InstanceKey(c, svc, id);
    PrefixIffService(c, svc, svc, id);
    if SlashFree(id) && key in ks {
      var k :| 0 <= k < |kvs| && kvs[k].0 == key;
      KeysDistinct(c, svc, id, kvs[k].1.value.serviceId);
      DecodedLookup(kvs, id, k);
    } else {
      DecodedLookup(kvs, id, |kvs|);
    }
  }
}
