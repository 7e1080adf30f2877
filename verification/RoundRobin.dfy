/** Round robin (src/selector/round_robin.rs). */
module RoundRobin {
  import opened Arithmetic
  import opened Types

  const USIZE: nat := 0x1_0000_0000_0000_0000

  type Counters = map<Text, nat>

  function CounterOf(counters: Counters, svc: Text): nat {
    if svc in counters then counters[svc] else 0
  }

  /** One call: the counters afterwards and the position chosen. Counters wrap like machine words. */
  function Called(counters: Counters, ctx: SelectContext, list: seq<ServiceInstance>): (r: (Counters, Option<nat>))
    ensures r.1.Some? ==> r.1.value < |list|
  {
    if list == [] then (counters, None)
    else if |list| == 1 then (counters, Some(0))
    else
      var c := CounterOf(counters, ctx.serviceName);
      (counters[ctx.serviceName := (c + 1) % USIZE], Some(c % |list|))
  }

  class RoundRobinSelector {
    var counters: Counters

    constructor ()
      ensures counters == map[]
    {
      counters := map[];
    }

    /** The counter of a service, created at zero on first use. */
    method GetCounter(svc: Text) returns (value: nat)
      modifies this
      ensures value == CounterOf(old(counters), svc)
      ensures counters == old(counters)[svc := value]
    {
      if svc !in counters {
        counters := counters[svc := 0];
      }
      value := counters[svc];
      assert counters == old(counters)[svc := value];
    }

    method Select(ctx: SelectContext, list: seq<ServiceInstance>) returns (chosen: Option<nat>)
      modifies this
      ensures (counters, chosen) == Called(old(counters), ctx, list)
      ensures list == [] <==> chosen == None
      ensures |list| == 1 ==> chosen == Some(0)
      ensures |list| < 2 ==> counters == old(counters)
      ensures forall svc :: svc != ctx.serviceName ==> CounterOf(counters, svc) == CounterOf(old(counters), svc)
    {
      if list == [] {
        return None;
      }
      if |list| == 1 {
        return Some(0);
      }
      var value := GetCounter(ctx.serviceName);
      counters := counters[ctx.serviceName := (value + 1) % USIZE];
      assert counters == old(counters)[ctx.serviceName := (value + 1) % USIZE];
      chosen := Some(value % |list|);
    }
  }

  // ---- Runs on a fixed list ----

  function After(counters: Counters, ctx: SelectContext, list: seq<ServiceInstance>, t: nat): Counters {
    if t == 0 then counters else Called(After(counters, ctx, list, t - 1), ctx, list).0
  }

  function Pick(counters: Counters, ctx: SelectContext, list: seq<ServiceInstance>, t: nat): Option<nat> {
    Called(After(counters, ctx, list, t), ctx, list).1
  }

  /** How many of the first t calls chose position i. */
  function Hits(counters: Counters, ctx: SelectContext, list: seq<ServiceInstance>, i: nat, t: nat): nat {
    if t == 0 then 0
    else Hits(counters, ctx, list, i, t - 1) + (if Pick(counters, ctx, list, t - 1) == Some(i) then 1 else 0)
  }

  /** The first t calls chose every position k times. */
  ghost predicate EachHit(counters: Counters, ctx: SelectContext, list: seq<ServiceInstance>, t: nat, k: nat) {
    forall i :: 0 <= i < |list| ==> Hits(counters, ctx, list, i, t) == k
  }

  /** How many numbers of from .. to - 1 are in residue class i modulo n. */
  function InClass(from: nat, to: nat, n: nat, i: nat): nat
    requires from <= to && n > 0
  {
    if from == to then 0 else InClass(from, to - 1, n, i) + (if (to - 1) % n == i then 1 else 0)
  }

  lemma {:induction false} InClassSplit(a: nat, b: nat, c: nat, n: nat, i: nat)
    requires a <= b <= c && n > 0
    ensures InClass(a, c, n, i) == InClass(a, b, n, i) + InClass(b, c, n, i)
  {
    if b < c {
      InClassSplit(a, b, c - 1, n, i);
    }
  }

  lemma {:induction false} InClassOnly(from: nat, to: nat, n: nat, i: nat, x: nat)
    requires from <= to && n > 0
    requires forall other :: from <= other < to && other % n == i ==> other == x
    requires from <= x < to ==> x % n == i
    ensures InClass(from, to, n, i) == if from <= x < to then 1 else 0
  {
    if from < to {
      InClassOnly(from, to - 1, n, i, x);
    }
  }

  /** k consecutive windows of n numbers hold each class k times. */
  lemma {:induction false} InClassWindows(from: nat, k: nat, n: nat, i: nat)
    requires i < n
    ensures InClass(from, from + k * n, n, i) == k
  {
    if k > 0 {
      var mid := from + (k - 1) * n;
      assert mid + n == from + k * n;
      InClassWindows(from, k - 1, n, i);
      InClassSplit(from, mid, mid + n, n, i);
      var x := OneInWindow(mid, n, i);
      InClassOnly(mid, mid + n, n, i, x);
    }
  }

  lemma CallAdvances(counters: Counters, ctx: SelectContext, list: seq<ServiceInstance>)
    requires |list| >= 2
    ensures var c := CounterOf(counters, ctx.serviceName);
            && Called(counters, ctx, list).1 == Some(c % |list|)
            && (c + 1 < USIZE ==> CounterOf(Called(counters, ctx, list).0, ctx.serviceName) == c + 1)
  {
  }

  lemma {:induction false} CounterAdvances(counters: Counters, ctx: SelectContext, list: seq<ServiceInstance>, t: nat)
    requires |list| >= 2 && CounterOf(counters, ctx.serviceName) + t < USIZE
    ensures CounterOf(After(counters, ctx, list, t), ctx.serviceName) == CounterOf(counters, ctx.serviceName) + t
  {
    hide Called, CounterOf;
    if t > 0 {
      CounterAdvances(counters, ctx, list, t - 1);
      CallAdvances(After(counters, ctx, list, t - 1), ctx, list);
    }
  }

  lemma {:induction false} HitsAreClasses(counters: Counters, ctx: SelectContext, list: seq<ServiceInstance>,
                                          i: nat, t: nat)
    requires |list| >= 2 && CounterOf(counters, ctx.serviceName) + t <= USIZE
    ensures var c := CounterOf(counters, ctx.serviceName);
            Hits(counters, ctx, list, i, t) == InClass(c, c + t, |list|, i)
  {
    hide Called, CounterOf;
    if t > 0 {
      HitsAreClasses(counters, ctx, list, i, t - 1);
      CounterAdvances(counters, ctx, list, t - 1);
      CallAdvances(After(counters, ctx, list, t - 1), ctx, list);
    }
  }

  lemma {:induction false} AloneAlwaysHit(counters: Counters, ctx: SelectContext, list: seq<ServiceInstance>, t: nat)
    requires |list| == 1
    ensures Hits(counters, ctx, list, 0, t) == t
  {
    if t > 0 {
      AloneAlwaysHit(counters, ctx, list, t - 1);
    }
  }

  /** From any counter that does not wrap meanwhile, k * n calls on n instances choose each k times. */
  lemma ExactlyFair(counters: Counters, ctx: SelectContext, list: seq<ServiceInstance>, i: nat, k: nat)
    requires i < |list| && CounterOf(counters, ctx.serviceName) + k * |list| <= USIZE
    ensures Hits(counters, ctx, list, i, k * |list|) == k
  {
    if |list| == 1 {
      AloneAlwaysHit(counters, ctx, list, k);
    } else {
      HitsAreClasses(counters, ctx, list, i, k * |list|);
      InClassWindows(CounterOf(counters, ctx.serviceName), k, |list|, i);
    }
  }

  /** Until the counter wraps, calls take the positions in list order, one after the other. */
  lemma PicksInOrder(counters: Counters, ctx: SelectContext, list: seq<ServiceInstance>, t: nat)
    requires |list| >= 2 && CounterOf(counters, ctx.serviceName) + t < USIZE
    ensures Pick(counters, ctx, list, t) == Some((CounterOf(counters, ctx.serviceName) + t) % |list|)
  {
    CounterAdvances(counters, ctx, list, t);
  }

  // ---- Wrap-around ----

  /** The residue class of a number that starts a new window of n. */
  lemma ResidueStep(from: nat, t: nat, n: nat, i: nat)
    requires i < n && t < n
    ensures (from + t) % n == i <==> (i - from) % n == t
  {
    ResidueOf(from + t, i, n);
    ResidueOf(i - from, t, n);
    assert i - from - t == -(from + t - i);
    if (from + t - i) % n == 0 {
      MultipleNegated(from + t - i, n);
    }
    if (i - from - t) % n == 0 {
      MultipleNegated(i - from - t, n);
    }
  }

  /** A stretch of b numbers meets each class b / n times, and once more the classes it starts with. */
  lemma {:induction false} InClassExactly(from: nat, b: nat, n: nat, i: nat)
    requires i < n
    ensures InClass(from, from + b, n, i) == b / n + (if (i - from) % n < b % n then 1 else 0)
  {
    var q, t := b / n, b % n;
    var mid := from + q * n;
    assert mid + t == from + b;
    InClassWindows(from, q, n, i);
    InClassSplit(from, mid, mid + t, n, i);
    InClassShort(mid, t, n, i);
    ShiftKeepsResidue(i - from, q, n);
    assert i - mid == (i - from) - q * n;
  }

  lemma {:induction false} InClassShort(from: nat, t: nat, n: nat, i: nat)
    requires i < n && t <= n
    ensures InClass(from, from + t, n, i) == if (i - from) % n < t then 1 else 0
  {
    if t > 0 {
      InClassShort(from, t - 1, n, i);
      ResidueStep(from, t - 1, n, i);
    }
  }

  lemma CallWraps(counters: Counters, ctx: SelectContext, list: seq<ServiceInstance>)
    requires |list| >= 2
    ensures var c := CounterOf(counters, ctx.serviceName);
            CounterOf(Called(counters, ctx, list).0, ctx.serviceName) == (c + 1) % USIZE
  {
  }

  /** Past the largest machine word the counter goes on from zero. */
  lemma {:induction false} CounterWraps(counters: Counters, ctx: SelectContext, list: seq<ServiceInstance>, t: nat)
    requires |list| >= 2 && CounterOf(counters, ctx.serviceName) < USIZE && t <= USIZE
    ensures var c := CounterOf(counters, ctx.serviceName);
            CounterOf(After(counters, ctx, list, t), ctx.serviceName) == if c + t < USIZE then c + t else c + t - USIZE
  {
    hide Called, CounterOf;
    if t > 0 {
      CounterWraps(counters, ctx, list, t - 1);
      CallWraps(After(counters, ctx, list, t - 1), ctx, list);
    }
  }

  lemma {:induction false} HitsAcrossWrap(counters: Counters, ctx: SelectContext, list: seq<ServiceInstance>,
                                          i: nat, t: nat)
    requires |list| >= 2 && CounterOf(counters, ctx.serviceName) < USIZE <= CounterOf(counters, ctx.serviceName) + t
    requires t <= USIZE
    ensures var c := CounterOf(counters, ctx.serviceName);
            Hits(counters, ctx, list, i, t) == InClass(c, USIZE, |list|, i) + InClass(0, c + t - USIZE, |list|, i)
  {
    hide Called, CounterOf;
    var c := CounterOf(counters, ctx.serviceName);
    if c + t == USIZE {
      HitsAreClasses(counters, ctx, list, i, t);
    } else {
      HitsAcrossWrap(counters, ctx, list, i, t - 1);
      CounterWraps(counters, ctx, list, t - 1);
      CallAdvances(After(counters, ctx, list, t - 1), ctx, list);
    }
  }

  /** b numbers from zero meet class i as often as b numbers from w. */
  predicate SameCount(w: nat, b: nat, n: nat, i: nat)
    requires n > 0
  {
    InClass(0, b, n, i) == InClass(w, w + b, n, i)
  }

  predicate SameCounts(w: nat, b: nat, n: nat)
    requires n > 0
  {
    forall i :: 0 <= i < n ==> SameCount(w, b, n, i)
  }

  lemma WrappedHits(counters: Counters, ctx: SelectContext, list: seq<ServiceInstance>, i: nat, k: nat)
    requires |list| >= 2 && i < |list| && k * |list| <= USIZE
    requires CounterOf(counters, ctx.serviceName) < USIZE < CounterOf(counters, ctx.serviceName) + k * |list|
    ensures Hits(counters, ctx, list, i, k * |list|) == k
            <==> SameCount(USIZE, CounterOf(counters, ctx.serviceName) + k * |list| - USIZE, |list|, i)
  {
    hide Hits, CounterOf, InClass;
    var c, n := CounterOf(counters, ctx.serviceName), |list|;
    HitsAcrossWrap(counters, ctx, list, i, k * n);
    InClassWindows(c, k, n, i);
    InClassSplit(c, USIZE, c + k * n, n, i);
  }

  lemma SameCountAt(w: nat, b: nat, n: nat, i: nat)
    requires i < n
    ensures SameCount(w, b, n, i) <==> (i < b % n <==> (i - w % n) % n < b % n)
  {
    hide InClass;
    InClassExactly(0, b, n, i);
    InClassExactly(w, b, n, i);
    ShiftKeepsResidue(i - w % n, w / n, n);
    assert (i - w % n) - (w / n) * n == i - w;
    SmallResidue(i, n);
  }

  lemma SameCountsExactly(w: nat, b: nat, n: nat)
    requires n > 0
    ensures SameCounts(w, b, n) <==> w % n == 0 || b % n == 0
  {
    hide SameCount;
    var r, t := w % n, b % n;
    if r > 0 && t > 0 {
      if r + t <= n {
        BelowResidue(r, n);
        SameCountAt(w, b, n, 0);
      } else {
        SmallResidue(t, n);
        MultipleNegated(n, n);
        ShiftKeepsResidue(t, 1, n);
        SameCountAt(w, b, n, r + t - n);
      }
    } else {
      forall i | 0 <= i < n
        ensures SameCount(w, b, n, i)
      {
        SameCountAt(w, b, n, i);
        SmallResidue(i, n);
      }
    }
  }

  lemma BelowResidue(r: nat, n: nat)
    requires 0 < r < n
    ensures (0 - r) % n == n - r
  {
    ResidueOf(0 - r, n - r, n);
    MultipleNegated(n, n);
  }

  lemma WrapRemainder(c: nat, k: nat, n: nat)
    requires n > 0 && c < USIZE < c + k * n
    ensures (c + k * n - USIZE) % n == 0 <==> (USIZE - c) % n == 0
  {
    var x: int := USIZE - c;
    ShiftKeepsResidue(-x, 0 - k, n);
    assert -x - (0 - k) * n == c + k * n - USIZE;
    if x % n == 0 {
      MultipleNegated(x, n);
    }
    if (-x) % n == 0 {
      MultipleNegated(-x, n);
    }
  }

  /** No unevenness can come from a wrap: there is none, or the word size is a multiple of the number
    * of instances, or the wrap falls between two rounds. */
  predicate EvenRun(counter: nat, n: nat, k: nat)
    requires n > 0
  {
    counter + k * n <= USIZE || USIZE % n == 0 || (USIZE - counter) % n == 0
  }

  lemma SameCountsOfRun(c: nat, n: nat, k: nat)
    requires n > 0 && c < USIZE < c + k * n
    ensures SameCounts(USIZE, c + k * n - USIZE, n) <==> EvenRun(c, n, k)
  {
    hide SameCounts;
    WrapRemainder(c, k, n);
    SameCountsExactly(USIZE, c + k * n - USIZE, n);
  }

  lemma WrappedRun(counters: Counters, ctx: SelectContext, list: seq<ServiceInstance>, k: nat)
    requires |list| >= 2 && k * |list| <= USIZE
    requires CounterOf(counters, ctx.serviceName) < USIZE < CounterOf(counters, ctx.serviceName) + k * |list|
    ensures EachHit(counters, ctx, list, k * |list|, k)
            <==> EvenRun(CounterOf(counters, ctx.serviceName), |list|, k)
  {
    hide Hits, CounterOf, SameCount, EvenRun;
    var c, n, t := CounterOf(counters, ctx.serviceName), |list|, k * |list|;
    var beyond := c + t - USIZE;
    SameCountsOfRun(c, n, k);
    forall i | 0 <= i < n
      ensures Hits(counters, ctx, list, i, t) == k <==> SameCount(USIZE, beyond, n, i)
    {
      WrappedHits(counters, ctx, list, i, k);
    }
    if SameCounts(USIZE, beyond, n) {
      assert forall i :: 0 <= i < n ==> SameCount(USIZE, beyond, n, i);
    } else {
      var i :| 0 <= i < n && !SameCount(USIZE, beyond, n, i);
      assert Hits(counters, ctx, list, i, t) != k;
    }
  }

  /** Evenness, exactly: k * n calls on n instances choose each k times if and only if no wrap falls
    * inside a round of a number of instances that does not divide the word size. */
  lemma FairExactly(counters: Counters, ctx: SelectContext, list: seq<ServiceInstance>, k: nat)
    requires list != [] && k * |list| <= USIZE && CounterOf(counters, ctx.serviceName) < USIZE
    ensures EachHit(counters, ctx, list, k * |list|, k)
            <==> EvenRun(CounterOf(counters, ctx.serviceName), |list|, k)
  {
    hide Hits, CounterOf;
    if |list| == 1 {
      AloneAlwaysHit(counters, ctx, list, k);
    } else if CounterOf(counters, ctx.serviceName) + k * |list| <= USIZE {
      forall i | 0 <= i < |list|
        ensures Hits(counters, ctx, list, i, k * |list|) == k
      {
        ExactlyFair(counters, ctx, list, i, k);
      }
    } else {
      WrappedRun(counters, ctx, list, k);
    }
  }

  // ---- Other services in between ----

  datatype Request = Request(ctx: SelectContext, list: seq<ServiceInstance>)

  /** The counters after requests for any services. */
  function AfterAll(counters: Counters, requests: seq<Request>): Counters {
    if requests == [] then counters else
    var last := requests[|requests| - 1];
    Called(AfterAll(counters, requests[..|requests| - 1]), last.ctx, last.list).0
  }

  /** How many of the requests were for a service. */
  function Asked(requests: seq<Request>, svc: Text): nat {
    if requests == [] then 0 else
    Asked(requests[..|requests| - 1], svc) + (if requests[|requests| - 1].ctx.serviceName == svc then 1 else 0)
  }

  /** How many of the requests for a service were answered with position i. */
  function HitsAmong(counters: Counters, requests: seq<Request>, svc: Text, i: nat): nat {
    if requests == [] then 0 else
    var front, last := requests[..|requests| - 1], requests[|requests| - 1];
    HitsAmong(counters, front, svc, i)
    + (if last.ctx.serviceName == svc && Called(AfterAll(counters, front), last.ctx, last.list).1 == Some(i)
       then 1 else 0)
  }

  lemma CalledByName(counters: Counters, others: Counters, ctx: SelectContext, other: SelectContext,
                     list: seq<ServiceInstance>)
    requires ctx.serviceName == other.serviceName
    requires CounterOf(counters, ctx.serviceName) == CounterOf(others, ctx.serviceName)
    ensures Called(counters, ctx, list).1 == Called(others, other, list).1
    ensures CounterOf(Called(counters, ctx, list).0, ctx.serviceName)
            == CounterOf(Called(others, other, list).0, ctx.serviceName)
  {
  }

  lemma CalledLeavesOthers(counters: Counters, ctx: SelectContext, list: seq<ServiceInstance>, svc: Text)
    requires svc != ctx.serviceName
    ensures CounterOf(Called(counters, ctx, list).0, svc) == CounterOf(counters, svc)
  {
  }

  /** Requests for other services do not count: a service is answered as if it were alone. */
  lemma {:induction false} ServicesIndependent(counters: Counters, requests: seq<Request>, ctx: SelectContext,
                                               list: seq<ServiceInstance>, i: nat)
    requires forall r :: 0 <= r < |requests| && requests[r].ctx.serviceName == ctx.serviceName ==>
               requests[r].list == list
    ensures var t := Asked(requests, ctx.serviceName);
            && CounterOf(AfterAll(counters, requests), ctx.serviceName)
               == CounterOf(After(counters, ctx, list, t), ctx.serviceName)
            && HitsAmong(counters, requests, ctx.serviceName, i) == Hits(counters, ctx, list, i, t)
  {
    hide Called, CounterOf;
    if requests != [] {
      var front, last := requests[..|requests| - 1], requests[|requests| - 1];
      ServicesIndependent(counters, front, ctx, list, i);
      var alone := After(counters, ctx, list, Asked(front, ctx.serviceName));
      if last.ctx.serviceName == ctx.serviceName {
        CalledByName(AfterAll(counters, front), alone, last.ctx, ctx, list);
      } else {
        CalledLeavesOthers(AfterAll(counters, front), last.ctx, last.list, ctx.serviceName);
      }
    }
  }

  /** So evenness is exact for a service whatever is asked of the others in between. */
  lemma FairAmongOthers(counters: Counters, requests: seq<Request>, ctx: SelectContext,
                        list: seq<ServiceInstance>, k: nat)
    requires list != [] && k * |list| <= USIZE && CounterOf(counters, ctx.serviceName) < USIZE
    requires Asked(requests, ctx.serviceName) == k * |list|
    requires forall r :: 0 <= r < |requests| && requests[r].ctx.serviceName == ctx.serviceName ==>
               requests[r].list == list
    ensures (forall i :: 0 <= i < |list| ==> HitsAmong(counters, requests, ctx.serviceName, i) == k)
            <==> EvenRun(CounterOf(counters, ctx.serviceName), |list|, k)
  {
    hide CounterOf, HitsAmong, Hits, EvenRun, Asked;
    var t := Asked(requests, ctx.serviceName);
    FairExactly(counters, ctx, list, k);
    forall i | 0 <= i < |list|
      ensures HitsAmong(counters, requests, ctx.serviceName, i) == Hits(counters, ctx, list, i, t)
    {
      ServicesIndependent(counters, requests, ctx, list, i);
    }
    assert EachHit(counters, ctx, list, t, k) <==> EvenRun(CounterOf(counters, ctx.serviceName), |list|, k);
    if !EachHit(counters, ctx, list, t, k) {
      var i :| 0 <= i < |list| && Hits(counters, ctx, list, i, t) != k;
      assert HitsAmong(counters, requests, ctx.serviceName, i) != k;
    }
  }

  /** An uneven run: with three instances the last counter value and the first choose the same
    * position twice in a row. */
  lemma WrapRepeatsAPosition(ctx: SelectContext, list: seq<ServiceInstance>)
    requires |list| == 3
    ensures var counters := map[ctx.serviceName := USIZE - 1];
            Pick(counters, ctx, list, 0) == Pick(counters, ctx, list, 1) == Some(0)
  {
    var counters := map[ctx.serviceName := USIZE - 1];
    assert After(counters, ctx, list, 1) == map[ctx.serviceName := 0];
  }
}
