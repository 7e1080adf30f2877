/** The tag filter around another selector (src/selector/canary.rs). */
module Canary {
  import opened Types
  import opened Snapshots
  import RoundRobin

  predicate OccursAt(whole: Text, part: Text, i: nat) {
    i <= |whole| - |part| && whole[i..i + |part|] == part
  }

  /** part occurs in whole. */
  predicate Contains(whole: Text, part: Text) {
    exists i :: 0 <= i <= |whole| && OccursAt(whole, part, i)
  }

  /** Metadata first, then group and namespace, then the id. */
  predicate Matches(inst: ServiceInstance, tag: (Text, Text)) {
    || (tag.0 in inst.metadata && inst.metadata[tag.0] == tag.1)
    || inst.group == tag.1
    || inst.namespace == tag.1
    || Contains(inst.serviceId, tag.1)
  }

  /** The positions of the matching instances, in list order. */
  function Matching(list: seq<ServiceInstance>, tag: (Text, Text)): (r: seq<nat>)
    ensures forall j :: 0 <= j < |r| ==> r[j] < |list| && Matches(list[r[j]], tag)
    ensures forall i, j :: 0 <= i < j < |r| ==> r[i] < r[j]
    ensures forall p :: 0 <= p < |list| && Matches(list[p], tag) ==> p in r
  {
    if list == [] then [] else
    var last := |list| - 1;
    Matching(list[..last], tag) + (if Matches(list[last], tag) then [last] else [])
  }

  function Filtered(list: seq<ServiceInstance>, tag: (Text, Text)): (r: seq<ServiceInstance>)
    ensures |r| == |Matching(list, tag)|
    ensures forall j :: 0 <= j < |r| ==> r[j] == list[Matching(list, tag)[j]]
  {
    var m := Matching(list, tag);
    seq(|m|, j requires 0 <= j < |m| => list[m[j]])
  }

  /** A selector as a step on its own state: it answers with a position of the list it was given. */
  type Inner<!S> = (S, SelectContext, seq<ServiceInstance>) -> (S, Option<nat>)

  ghost predicate Sound<S(!new)>(inner: Inner<S>) {
    forall s, ctx, list :: inner(s, ctx, list).1.Some? ==> inner(s, ctx, list).1.value < |list|
  }

  /** One call of the filter: the inner state afterwards and the position chosen. */
  function Select<S(!new)>(inner: Inner<S>, fallbackOnMiss: bool, s: S, ctx: SelectContext, list: seq<ServiceInstance>)
    : (r: (S, Option<nat>))
    requires Sound(inner)
    ensures r.1.Some? ==> r.1.value < |list|
  {
    match ctx.requiredTag
    case None => inner(s, ctx, list)
    case Some(tag) =>
      var filtered := Filtered(list, tag);
      if filtered != [] then
        var (s', target) := inner(s, ctx, filtered);
        if target.Some? then (s', Position(list, filtered[target.value].serviceId))
        else inner(s', ctx, list)
      else if !fallbackOnMiss then (s, None)
      else inner(s, ctx, list)
  }

  /** No earlier instance has the id of position p. */
  ghost predicate FirstOfItsId(list: seq<ServiceInstance>, p: int) {
    0 <= p < |list| && forall i :: 0 <= i < p ==> list[i].serviceId != list[p].serviceId
  }

  /** No matching instance repeats the id of an earlier instance. */
  ghost predicate MatchesComeFirst(list: seq<ServiceInstance>, tag: (Text, Text)) {
    forall p :: 0 <= p < |list| && Matches(list[p], tag) ==> FirstOfItsId(list, p)
  }

  lemma DistinctMatchesComeFirst(list: seq<ServiceInstance>, tag: (Text, Text))
    requires DistinctIds(list)
    ensures MatchesComeFirst(list, tag)
  {
  }

  lemma PositionIsFirst(list: seq<ServiceInstance>, p: nat, i: nat)
    requires p < |list| && FirstOfItsId(list, i) && list[i].serviceId == list[p].serviceId
    ensures Position(list, list[p].serviceId) == Some(i)
  {
    hide Position;
    var q := Position(list, list[p].serviceId);
    assert q.Some? && !(i < q.value) && !(q.value < i);
  }

  /** For any list: when the inner selector picks matching position p, the filter returns the first
    * position with the id of p. That is p itself exactly when no earlier instance has its id. */
  lemma PickReturnedExactly<S(!new)>(inner: Inner<S>, fallbackOnMiss: bool, s: S, ctx: SelectContext,
                                     list: seq<ServiceInstance>, tag: (Text, Text))
    requires Sound(inner) && ctx.requiredTag == Some(tag)
    requires Filtered(list, tag) != [] && inner(s, ctx, Filtered(list, tag)).1.Some?
    ensures var (s', j) := inner(s, ctx, Filtered(list, tag));
            var p := Matching(list, tag)[j.value];
            var (after, chosen) := Select(inner, fallbackOnMiss, s, ctx, list);
            && after == s' && chosen.Some?
            && FirstOfItsId(list, chosen.value) && list[chosen.value].serviceId == list[p].serviceId
            && (chosen.value == p <==> FirstOfItsId(list, p))
  {
    hide Position, Matches;
    var p := Matching(list, tag)[inner(s, ctx, Filtered(list, tag)).1.value];
    var q := Position(list, list[p].serviceId);
    assert q.Some?;
    if FirstOfItsId(list, p) {
      PositionIsFirst(list, p, p);
    }
  }

  /** Unless a matching instance repeats an earlier id, the filter refines its inner selector: whenever
    * the inner selector picks one from the matching subset, that very instance is returned. */
  lemma RefinesInner<S(!new)>(inner: Inner<S>, fallbackOnMiss: bool, s: S, ctx: SelectContext,
                              list: seq<ServiceInstance>, tag: (Text, Text))
    requires Sound(inner) && MatchesComeFirst(list, tag) && ctx.requiredTag == Some(tag)
    requires Filtered(list, tag) != [] && inner(s, ctx, Filtered(list, tag)).1.Some?
    ensures var (s', j) := inner(s, ctx, Filtered(list, tag));
            && Select(inner, fallbackOnMiss, s, ctx, list) == (s', Some(Matching(list, tag)[j.value]))
            && Matches(list[Matching(list, tag)[j.value]], tag)
  {
    hide Select, Matches;
    PickReturnedExactly(inner, fallbackOnMiss, s, ctx, list, tag);
  }

  /** The selector that always wants position j. */
  function Wanting(j: nat): Inner<()> {
    (s: (), ctx: SelectContext, list: seq<ServiceInstance>) => ((), if j < |list| then Some(j) else None)
  }

  function Wanted(j: nat, fallbackOnMiss: bool, ctx: SelectContext, list: seq<ServiceInstance>): Option<nat> {
    Select(Wanting(j), fallbackOnMiss, (), ctx, list).1
  }

  /** Refinement, exactly and before any call: every instance an inner selector may pick is returned
    * if and only if no matching instance repeats an earlier id. */
  lemma RefinesExactly(fallbackOnMiss: bool, ctx: SelectContext, list: seq<ServiceInstance>, tag: (Text, Text))
    requires ctx.requiredTag == Some(tag)
    ensures (forall j :: 0 <= j < |Filtered(list, tag)| ==>
               Wanted(j, fallbackOnMiss, ctx, list) == Some(Matching(list, tag)[j]))
            <==> MatchesComeFirst(list, tag)
  {
    hide Select, Matches;
    forall j | 0 <= j < |Filtered(list, tag)|
      ensures Wanted(j, fallbackOnMiss, ctx, list) == Some(Matching(list, tag)[j])
              <==> FirstOfItsId(list, Matching(list, tag)[j])
    {
      PickReturnedExactly(Wanting(j), fallbackOnMiss, (), ctx, list, tag);
    }
    if !MatchesComeFirst(list, tag) {
      var p :| 0 <= p < |list| && Matches(list[p], tag) && !FirstOfItsId(list, p);
      assert p in Matching(list, tag);
      var j :| 0 <= j < |Matching(list, tag)| && Matching(list, tag)[j] == p;
      assert Wanted(j, fallbackOnMiss, ctx, list) != Some(Matching(list, tag)[j]);
    }
  }

  /** The first instance with the id of a matching one always matches too. */
  ghost predicate TwinsMatchToo(list: seq<ServiceInstance>, tag: (Text, Text)) {
    forall p, i | 0 <= p < |list| && Matches(list[p], tag) && FirstOfItsId(list, i) ::
      list[i].serviceId == list[p].serviceId ==> Matches(list[i], tag)
  }

  /** The filter never lets an instance without the tag through, whichever match is picked, if and only
    * if the first instance with the id of a matching one always matches too. */
  lemma FilterHoldsExactly(fallbackOnMiss: bool, ctx: SelectContext, list: seq<ServiceInstance>, tag: (Text, Text))
    requires ctx.requiredTag == Some(tag)
    ensures (forall j :: 0 <= j < |Filtered(list, tag)| ==>
               Wanted(j, fallbackOnMiss, ctx, list).Some?
               && Matches(list[Wanted(j, fallbackOnMiss, ctx, list).value], tag))
            <==> TwinsMatchToo(list, tag)
  {
    hide Select, Matches, Filtered;
    forall j | 0 <= j < |Filtered(list, tag)|
      ensures Wanted(j, fallbackOnMiss, ctx, list).Some?
      ensures var i := Wanted(j, fallbackOnMiss, ctx, list).value;
              FirstOfItsId(list, i) && list[i].serviceId == list[Matching(list, tag)[j]].serviceId
    {
      WantingPicks(j, ctx, list, tag);
      PickReturnedExactly(Wanting(j), fallbackOnMiss, (), ctx, list, tag);
    }
    if !TwinsMatchToo(list, tag) {
      var p, i :| 0 <= p < |list| && Matches(list[p], tag) && FirstOfItsId(list, i)
                  && list[i].serviceId == list[p].serviceId && !Matches(list[i], tag);
      assert p in Matching(list, tag);
      var j :| 0 <= j < |Matching(list, tag)| && Matching(list, tag)[j] == p;
      assert Wanted(j, fallbackOnMiss, ctx, list).value == i;
    }
  }

  lemma WantingPicks(j: nat, ctx: SelectContext, list: seq<ServiceInstance>, tag: (Text, Text))
    requires j < |Filtered(list, tag)|
    ensures Wanting(j)((), ctx, Filtered(list, tag)) == ((), Some(j))
  {
  }

  /** A request without a tag is the inner selector's on the whole list. */
  lemma UntaggedIsInner<S(!new)>(inner: Inner<S>, fallbackOnMiss: bool, s: S, ctx: SelectContext,
                                 list: seq<ServiceInstance>)
    requires Sound(inner) && ctx.requiredTag == None
    ensures Select(inner, fallbackOnMiss, s, ctx, list) == inner(s, ctx, list)
  {
  }

  /** An inner selector that declines the matching ones is asked again with the whole list. */
  lemma DeclinedAsksAgain<S(!new)>(inner: Inner<S>, fallbackOnMiss: bool, s: S, ctx: SelectContext,
                                   list: seq<ServiceInstance>, tag: (Text, Text))
    requires Sound(inner) && ctx.requiredTag == Some(tag)
    requires Filtered(list, tag) != [] && inner(s, ctx, Filtered(list, tag)).1.None?
    ensures Select(inner, fallbackOnMiss, s, ctx, list) == inner(inner(s, ctx, Filtered(list, tag)).0, ctx, list)
  {
  }

  lemma ContainsMeans(whole: Text, part: Text)
    ensures Contains(whole, part) <==> exists front: Text, back: Text :: whole == front + part + back
  {
    if i :| 0 <= i <= |whole| && OccursAt(whole, part, i) {
      assert whole == whole[..i] + part + whole[i + |part|..];
    }
    if front: Text, back: Text :| whole == front + part + back {
      assert OccursAt(whole, part, |front|);
    }
  }

  lemma MatchesMeans(inst: ServiceInstance, tag: (Text, Text))
    ensures Matches(inst, tag)
            <==> || (tag.0 in inst.metadata && inst.metadata[tag.0] == tag.1)
                 || inst.group == tag.1
                 || inst.namespace == tag.1
                 || exists front: Text, back: Text :: inst.serviceId == front + tag.1 + back
  {
    hide Contains;
    ContainsMeans(inst.serviceId, tag.1);
  }

  /** What it takes to carry a tag: the metadata entry, the group, the namespace, or an id that contains
    * the value. With distinct ids those are exactly the instances the filter can return for a match. */
  lemma ReturnsExactlyTagged(fallbackOnMiss: bool, ctx: SelectContext, list: seq<ServiceInstance>,
                             tag: (Text, Text), p: nat)
    requires ctx.requiredTag == Some(tag) && DistinctIds(list) && p < |list|
    ensures (exists j :: 0 <= j < |Filtered(list, tag)| && Wanted(j, fallbackOnMiss, ctx, list) == Some(p))
            <==> || (tag.0 in list[p].metadata && list[p].metadata[tag.0] == tag.1)
                 || list[p].group == tag.1
                 || list[p].namespace == tag.1
                 || exists front: Text, back: Text :: list[p].serviceId == front + tag.1 + back
  {
    DistinctMatchesComeFirst(list, tag);
    RefinesExactly(fallbackOnMiss, ctx, list, tag);
    MatchesMeans(list[p], tag);
    hide Matches, Wanted, Filtered, MatchesComeFirst;
    if Matches(list[p], tag) {
      assert p in Matching(list, tag);
      var j :| 0 <= j < |Matching(list, tag)| && Matching(list, tag)[j] == p;
      assert Wanted(j, fallbackOnMiss, ctx, list) == Some(p);
    }
  }


  /** Without a match the answer is the inner one on the whole list, or none without fallback. */
  lemma NoMatch<S(!new)>(inner: Inner<S>, fallbackOnMiss: bool, s: S, ctx: SelectContext, list: seq<ServiceInstance>,
                         tag: (Text, Text))
    requires Sound(inner) && ctx.requiredTag == Some(tag)
    requires forall p :: 0 <= p < |list| ==> !Matches(list[p], tag)
    ensures Select(inner, fallbackOnMiss, s, ctx, list) == if fallbackOnMiss then inner(s, ctx, list) else (s, None)
  {
    NothingMatches(list, tag);
  }

  lemma {:induction false} NothingMatches(list: seq<ServiceInstance>, tag: (Text, Text))
    requires forall p :: 0 <= p < |list| ==> !Matches(list[p], tag)
    ensures Matching(list, tag) == []
  {
    if list != [] {
      NothingMatches(list[..|list| - 1], tag);
    }
  }

  /** A failing case: with a repeated id the answer is an instance that does not match. */
  lemma RepeatedIdEscapesFilter<S(!new)>(inner: Inner<S>, s: S, ctx: SelectContext,
                                         a: ServiceInstance, b: ServiceInstance, tag: (Text, Text))
    requires Sound(inner) && ctx.requiredTag == Some(tag) && a.serviceId == b.serviceId
    requires !Matches(a, tag) && Matches(b, tag) && inner(s, ctx, [b]).1.Some?
    ensures Select(inner, true, s, ctx, [a, b]).1 == Some(0) && !Matches([a, b][0], tag)
  {
    var list := [a, b];
    assert list[..1] == [a] && list[..1][..0] == [];
    assert Matching(list[..1], tag) == Matching([], tag) + [];
    assert Matching(list, tag) == [] + [1];
    assert Filtered(list, tag) == [b];
    assert Position(list, b.serviceId) == Some(0);
  }

  // ---- Over round robin ----

  const ROUND_ROBIN: Inner<RoundRobin.Counters> :=
    (c: RoundRobin.Counters, ctx: SelectContext, list: seq<ServiceInstance>) => RoundRobin.Called(c, ctx, list)

  lemma RoundRobinSound()
    ensures Sound(ROUND_ROBIN)
  {
  }

  function Called(counters: RoundRobin.Counters, fallbackOnMiss: bool, ctx: SelectContext,
                  list: seq<ServiceInstance>)
    : (RoundRobin.Counters, Option<nat>)
  {
    RoundRobinSound();
    Select(ROUND_ROBIN, fallbackOnMiss, counters, ctx, list)
  }

  function After(counters: RoundRobin.Counters, fallbackOnMiss: bool, ctx: SelectContext,
                 list: seq<ServiceInstance>, t: nat)
    : RoundRobin.Counters
  {
    if t == 0 then counters
    else Called(After(counters, fallbackOnMiss, ctx, list, t - 1), fallbackOnMiss, ctx, list).0
  }

  function Hits(counters: RoundRobin.Counters, fallbackOnMiss: bool, ctx: SelectContext, list: seq<ServiceInstance>,
                p: nat, t: nat): nat
  {
    if t == 0 then 0
    else Hits(counters, fallbackOnMiss, ctx, list, p, t - 1)
         + (if Called(After(counters, fallbackOnMiss, ctx, list, t - 1), fallbackOnMiss, ctx, list).1 == Some(p)
            then 1 else 0)
  }

  lemma CalledIsFilteredRoundRobin(counters: RoundRobin.Counters, fallbackOnMiss: bool, ctx: SelectContext,
                                   list: seq<ServiceInstance>, tag: (Text, Text))
    requires MatchesComeFirst(list, tag) && ctx.requiredTag == Some(tag) && Filtered(list, tag) != []
    ensures var inner := RoundRobin.Called(counters, ctx, Filtered(list, tag));
            && inner.1.Some?
            && Called(counters, fallbackOnMiss, ctx, list) == (inner.0, Some(Matching(list, tag)[inner.1.value]))
  {
    RoundRobinSound();
    RefinesInner(ROUND_ROBIN, fallbackOnMiss, counters, ctx, list, tag);
  }

  /** Calls through the filter are calls of the inner selector on the matching subset. */
  lemma {:induction false} HitsAreInnerHits(counters: RoundRobin.Counters, fallbackOnMiss: bool,
                                            ctx: SelectContext, list: seq<ServiceInstance>, tag: (Text, Text),
                                            j: nat, t: nat)
    requires MatchesComeFirst(list, tag) && ctx.requiredTag == Some(tag) && j < |Filtered(list, tag)|
    ensures After(counters, fallbackOnMiss, ctx, list, t) == RoundRobin.After(counters, ctx, Filtered(list, tag), t)
    ensures Hits(counters, fallbackOnMiss, ctx, list, Matching(list, tag)[j], t)
            == RoundRobin.Hits(counters, ctx, Filtered(list, tag), j, t)
  {
    hide Called, Matching, Filtered, RoundRobin.Called;
    if t > 0 {
      HitsAreInnerHits(counters, fallbackOnMiss, ctx, list, tag, j, t - 1);
      var before := After(counters, fallbackOnMiss, ctx, list, t - 1);
      CalledIsFilteredRoundRobin(before, fallbackOnMiss, ctx, list, tag);
      var i := RoundRobin.Called(before, ctx, Filtered(list, tag)).1.value;
      assert Matching(list, tag)[i] == Matching(list, tag)[j] <==> i == j;
    }
  }

  /** The first t calls chose every matching instance k times. */
  ghost predicate EachMatchHit(counters: RoundRobin.Counters, fallbackOnMiss: bool, ctx: SelectContext,
                               list: seq<ServiceInstance>, tag: (Text, Text), t: nat, k: nat)
  {
    forall j :: 0 <= j < |Filtered(list, tag)| ==>
      Hits(counters, fallbackOnMiss, ctx, list, Matching(list, tag)[j], t) == k
  }

  lemma EachIsInnerEach(counters: RoundRobin.Counters, fallbackOnMiss: bool, ctx: SelectContext,
                        list: seq<ServiceInstance>, tag: (Text, Text), t: nat, k: nat)
    requires MatchesComeFirst(list, tag) && ctx.requiredTag == Some(tag)
    ensures EachMatchHit(counters, fallbackOnMiss, ctx, list, tag, t, k)
            <==> RoundRobin.EachHit(counters, ctx, Filtered(list, tag), t, k)
  {
    hide Hits, RoundRobin.Hits, Matches, Filtered, Matching, MatchesComeFirst;
    forall j | 0 <= j < |Filtered(list, tag)|
      ensures Hits(counters, fallbackOnMiss, ctx, list, Matching(list, tag)[j], t)
              == RoundRobin.Hits(counters, ctx, Filtered(list, tag), j, t)
    {
      HitsAreInnerHits(counters, fallbackOnMiss, ctx, list, tag, j, t);
    }
    if EachMatchHit(counters, fallbackOnMiss, ctx, list, tag, t, k) {
      forall j | 0 <= j < |Filtered(list, tag)|
        ensures RoundRobin.Hits(counters, ctx, Filtered(list, tag), j, t) == k
      {
        assert Hits(counters, fallbackOnMiss, ctx, list, Matching(list, tag)[j], t) == k;
      }
    }
  }

  /** With n matching instances, k * n consecutive requests with the same tag choose each k times
    * exactly when round robin itself would be even on n instances. */
  lemma FairAmongMatching(counters: RoundRobin.Counters, fallbackOnMiss: bool, ctx: SelectContext,
                          list: seq<ServiceInstance>, tag: (Text, Text), k: nat)
    requires MatchesComeFirst(list, tag) && ctx.requiredTag == Some(tag) && Filtered(list, tag) != []
    requires k * |Filtered(list, tag)| <= RoundRobin.USIZE
    requires RoundRobin.CounterOf(counters, ctx.serviceName) < RoundRobin.USIZE
    ensures EachMatchHit(counters, fallbackOnMiss, ctx, list, tag, k * |Filtered(list, tag)|, k)
            <==> RoundRobin.EvenRun(RoundRobin.CounterOf(counters, ctx.serviceName), |Filtered(list, tag)|, k)
  {
    hide *;
    EachIsInnerEach(counters, fallbackOnMiss, ctx, list, tag, k * |Filtered(list, tag)|, k);
    RoundRobin.FairExactly(counters, ctx, Filtered(list, tag), k);
  }
}
