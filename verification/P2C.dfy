/** Power of two choices (src/selector/p2c.rs): index arithmetic, the comparison of load scores, and
  * the accounting of requests in flight. */
module P2C {
  import opened Arithmetic
  import opened Types

  // ---- Two different indices from a seed ----

  const USIZE: nat := 0x1_0000_0000_0000_0000

  function First(seed: nat, len: nat): nat
    requires len >= 2
  {
    seed % len
  }

  function Offset(seed: nat, len: nat): nat
    requires len >= 2
  {
    1 + (seed / len) % (len - 1)
  }

  function Second(seed: nat, len: nat): nat
    requires len >= 2
  {
    (First(seed, len) + Offset(seed, len)) % len
  }

  /** Adding less than len to an index below len wraps at most once. */
  lemma WrapOnce(a: nat, b: nat, len: nat)
    requires a < len && b < len
    ensures (a + b) % len == if a + b < len then a + b else a + b - len
  {
    if a + b >= len {
      assert a + b == len + (a + b - len);
      QuotientRemainder(1, a + b - len, len);
    } else {
      QuotientRemainder(0, a + b, len);
    }
  }

  /** The positions a choice compares: both of two, else the pair the wrapped seed picks. */
  function Compared(len: nat, nowNanos: nat, ticket: nat): (pair: (nat, nat))
    requires len >= 2
    ensures pair.0 < len && pair.1 < len && pair.0 != pair.1
  {
    if len == 2 then (0, 1) else
    var seed := (nowNanos + ticket) % USIZE;
    TwoDistinctIndices(seed, len);
    (First(seed, len), Second(seed, len))
  }

  /** For two or more instances the indices are in range and different. */
  lemma TwoDistinctIndices(seed: nat, len: nat)
    requires len >= 2
    ensures First(seed, len) < len && Second(seed, len) < len && First(seed, len) != Second(seed, len)
  {
    WrapOnce(First(seed, len), Offset(seed, len), len);
  }

  /** The seed class, modulo len * (len - 1), that yields the ordered pair (i, j). */
  function SeedOf(i: nat, j: nat, len: nat): nat
    requires i < len && j < len && i != j
  {
    i + len * Gap(i, j, len)
  }

  lemma Regroup(a: nat, c: nat, d: nat, len: nat)
    requires len >= 2
    ensures a + len * (c + (len - 1) * d) == d * (len * (len - 1)) + (a + len * c)
  {
    assert len * (c + (len - 1) * d) == len * c + len * ((len - 1) * d);
    assert len * ((len - 1) * d) == (len * (len - 1)) * d;
  }

  lemma DigitsBound(a: nat, c: nat, len: nat)
    requires a < len && c < len - 1
    ensures a + len * c < len * (len - 1)
  {
    AwayFromZero(len, len - 1 - c);
    assert len * (len - 1 - c) == len * (len - 1) - len * c;
  }

  lemma QuotientAndRest(x: nat, m: nat)
    requires m > 0
    ensures x == x % m + m * (x / m) && x % m < m
  {
  }

  /** The two digits of a seed in the mixed base len, len - 1 are its residue modulo their product. */
  lemma SplitSeed(seed: nat, len: nat)
    requires len >= 2
    ensures len * (len - 1) > 0
    ensures seed % (len * (len - 1)) == seed % len + len * ((seed / len) % (len - 1))
    ensures seed % (len * (len - 1)) < len * (len - 1)
  {
    var a, b := seed % len, seed / len;
    var c, d := b % (len - 1), b / (len - 1);
    QuotientAndRest(seed, len);
    QuotientAndRest(b, len - 1);
    DigitsBound(a, c, len);
    Regroup(a, c, d, len);
    SplitDigits(seed, len, a, b, c, d);
  }

  lemma SplitDigits(seed: nat, len: nat, a: nat, b: nat, c: nat, d: nat)
    requires len >= 2 && seed == a + len * b && b == c + (len - 1) * d
    requires a + len * c < len * (len - 1)
    requires a + len * (c + (len - 1) * d) == d * (len * (len - 1)) + (a + len * c)
    ensures len * (len - 1) > 0 && seed % (len * (len - 1)) == a + len * c
  {
    QuotientRemainder(d, a + len * c, len * (len - 1));
  }

  /** How far j lies behind i, less one. */
  function Gap(i: nat, j: nat, len: nat): (k: nat)
    requires i < len && j < len && i != j
    ensures k < len - 1
  {
    (if j > i then j - i else j + len - i) - 1
  }

  lemma SecondByGap(seed: nat, j: nat, len: nat)
    requires len >= 2 && j < len
    ensures Second(seed, len) == j
            <==> First(seed, len) != j && (seed / len) % (len - 1) == Gap(First(seed, len), j, len)
  {
    WrapOnce(First(seed, len), Offset(seed, len), len);
  }

  /** A seed yields (i, j) exactly when it is in that pair's class. */
  lemma PairOfSeed(seed: nat, i: nat, j: nat, len: nat)
    requires len >= 2 && i < len && j < len && i != j
    ensures len * (len - 1) > 0
    ensures First(seed, len) == i && Second(seed, len) == j <==> seed % (len * (len - 1)) == SeedOf(i, j, len)
    ensures SeedOf(i, j, len) < len * (len - 1)
  {
    hide Second;
    var k, q := Gap(i, j, len), (seed / len) % (len - 1);
    SplitSeed(seed, len);
    SecondByGap(seed, j, len);
    DigitsBound(i, k, len);
    assert SeedOf(i, j, len) == i + len * k;
    if First(seed, len) + len * q == i + len * k {
      SameDigits(First(seed, len), q, i, k, len);
    }
  }

  lemma SameDigits(a: nat, q: nat, i: nat, k: nat, len: nat)
    requires a < len && i < len && a + len * q == i + len * k
    ensures a == i && q == k
  {
    assert len * (q - k) == i - a;
    AwayFromZero(len, q - k);
  }

  /** Any len * (len - 1) consecutive seeds pick every ordered pair of different indices exactly once. */
  lemma EveryPairOnce(from: nat, len: nat, i: nat, j: nat) returns (seed: nat)
    requires len >= 2 && i < len && j < len && i != j
    ensures from <= seed < from + len * (len - 1) && First(seed, len) == i && Second(seed, len) == j
    ensures forall other | from <= other < from + len * (len - 1) ::
              First(other, len) == i && Second(other, len) == j ==> other == seed
  {
    PairOfSeed(from, i, j, len);
    seed := OneInWindow(from, len * (len - 1), SeedOf(i, j, len));
    PairOfSeed(seed, i, j, len);
    forall other | from <= other < from + len * (len - 1) && First(other, len) == i && Second(other, len) == j
      ensures other == seed
    {
      PairOfSeed(other, i, j, len);
    }
  }

  // ---- Scores ----

  /** (inflight + 1) / weight, with weights below a tenth counted as a tenth. */
  function Score(inflight: nat, weight: real): real {
    (inflight as real + 1.0) / Effective(weight)
  }

  function Effective(weight: real): (w: real)
    ensures w >= 0.1
  {
    if weight < 0.1 then 0.1 else weight
  }

  /** Comparing scores is comparing (inflight + 1) * weight crosswise. */
  lemma ScoresCompareCrosswise(a: nat, w: real, b: nat, v: real)
    ensures Score(a, w) <= Score(b, v)
            <==> (a as real + 1.0) * Effective(v) <= (b as real + 1.0) * Effective(w)
  {
    hide Effective;
    QuotientsCompare(a as real + 1.0, Effective(w), b as real + 1.0, Effective(v));
  }

  /** On equal weights the busier instance scores strictly higher. */
  lemma BusierScoresHigher(a: nat, b: nat, w: real)
    requires a < b
    ensures Score(a, w) < Score(b, w)
  {
    hide Effective, Score;
    ScoresCompareCrosswise(b, w, a, w);
    ScaleCompare(b as real + 1.0, a as real + 1.0, Effective(w));
  }

  /** On equal load the heavier instance scores strictly lower, unless both weigh at most a tenth. */
  lemma HeavierScoresLower(a: nat, w: real, v: real)
    requires w < v
    ensures Score(a, v) < Score(a, w) <==> v > 0.1
  {
    hide Effective, Score;
    EffectiveGrows(w, v);
    ScoresCompareCrosswise(a, w, a, v);
    var m := a as real + 1.0;
    ScaleCompare(Effective(w), Effective(v), m);
    ScaleCompare(Effective(v), Effective(w), m);
    assert m * Effective(v) == Effective(v) * m && m * Effective(w) == Effective(w) * m;
  }

  lemma EffectiveGrows(w: real, v: real)
    requires w < v
    ensures Effective(w) < Effective(v) <==> v > 0.1
  {
  }

  lemma QuotientsCompare(x: real, p: real, y: real, q: real)
    requires x > 0.0 && p > 0.0 && y > 0.0 && q > 0.0
    ensures x / p <= y / q <==> x * q <= y * p
  {
    var s, t := x / p, y / q;
    assert s * p == x && t * q == y;
    assert x * q == s * (p * q) && y * p == t * (p * q);
    ScaleCompare(s, t, p * q);
  }

  lemma ScaleCompare(s: real, t: real, m: real)
    requires m > 0.0
    ensures s <= t <==> s * m <= t * m
  {
    assert (t - s) * m == t * m - s * m;
    if s <= t {
      assert (t - s) * m >= 0.0;
    } else {
      assert (s - t) * m > 0.0;
    }
  }

  // ---- Requests in flight ----

  /** A shared counter. */
  class Counter {
    var value: nat

    constructor ()
      ensures value == 0
    {
      value := 0;
    }
  }

  class Guard {
    const counter: Counter
    ghost const id: Text

    constructor (counter: Counter, ghost id: Text)
      ensures this.counter == counter && this.id == id
    {
      this.counter := counter;
      this.id := id;
    }
  }

  ghost function HeldOn(live: set<Guard>, id: Text): set<Guard> {
    set g | g in live && g.id == id
  }

  lemma OneMore(live: set<Guard>, g: Guard, id: Text)
    requires g !in live
    ensures |HeldOn(live + {g}, id)| == |HeldOn(live, id)| + (if g.id == id then 1 else 0)
  {
    if g.id == id {
      assert HeldOn(live + {g}, id) == HeldOn(live, id) + {g};
    } else {
      assert HeldOn(live + {g}, id) == HeldOn(live, id);
    }
  }

  lemma OneLess(live: set<Guard>, g: Guard, id: Text)
    requires g in live
    ensures |HeldOn(live, id)| == |HeldOn(live - {g}, id)| + (if g.id == id then 1 else 0)
  {
    OneMore(live - {g}, g, id);
    assert live - {g} + {g} == live;
  }

  class P2CSelector {
    var inflight: map<Text, Counter>
    var seedCounter: nat
    ghost var live: set<Guard>   // guards handed out and not yet dropped

    ghost function Repr(): set<object>
      reads this
    {
      {this} + set id | id in inflight :: inflight[id]
    }

    /** Each id has a counter of its own, which counts exactly its outstanding guards. */
    ghost predicate Valid()
      reads this, Repr()
    {
      && seedCounter < USIZE
      && (forall id, other :: id in inflight && other in inflight && inflight[id] == inflight[other] ==> id == other)
      && (forall g :: g in live ==> g.id in inflight && inflight[g.id] == g.counter)
      && (forall id :: id in inflight ==> inflight[id].value == |HeldOn(live, id)|)
    }

    /** Outstanding guards of an id. */
    ghost function Outstanding(id: Text): nat
      reads this`live
    {
      |HeldOn(live, id)|
    }

    constructor ()
      ensures Valid() && inflight == map[] && live == {} && seedCounter == 0
    {
      inflight, seedCounter, live := map[], 0, {};
    }

    /** The number of requests in flight for an id is the number of its outstanding guards. */
    function Inflight(id: Text): (n: nat)
      requires Valid()
      reads this, Repr()
      ensures n == Outstanding(id)
    {
      NoneOutstanding(id);
      if id in inflight then inflight[id].value else 0
    }

    lemma NoneOutstanding(id: Text)
      requires Valid()
      ensures id !in inflight ==> HeldOn(live, id) == {}
    {
    }

    function LoadScore(inst: ServiceInstance): real
      requires Valid()
      reads this, Repr()
    {
      Score(Inflight(inst.serviceId), inst.weight)
    }

    /** a is no more loaded than b: (outstanding + 1) / weight is no greater, compared crosswise. */
    ghost predicate NoBusier(a: ServiceInstance, b: ServiceInstance)
      reads this`live
    {
      (Outstanding(a.serviceId) as real + 1.0) * Effective(b.weight)
      <= (Outstanding(b.serviceId) as real + 1.0) * Effective(a.weight)
    }

    /** The score compared is that of the outstanding guards and the weight. */
    lemma ScoresCompareLoads(a: ServiceInstance, b: ServiceInstance)
      requires Valid()
      ensures LoadScore(a) <= LoadScore(b) <==> NoBusier(a, b)
    {
      hide Score, Effective;
      ScoresCompareCrosswise(Outstanding(a.serviceId), a.weight, Outstanding(b.serviceId), b.weight);
    }

    /** On equal weights no busier means no more outstanding guards. */
    lemma EqualWeightsCompareGuards(a: ServiceInstance, b: ServiceInstance)
      requires a.weight == b.weight
      ensures NoBusier(a, b) <==> Outstanding(a.serviceId) <= Outstanding(b.serviceId)
    {
      hide Effective;
      var x, y := Outstanding(a.serviceId) as real + 1.0, Outstanding(b.serviceId) as real + 1.0;
      ScaleCompare(x, y, Effective(a.weight));
    }

    /** Creates a counter at most once per id and never replaces one. */
    method GetInflightCounter(id: Text) returns (counter: Counter)
      requires Valid()
      modifies this`inflight
      ensures Valid() && id in inflight && counter == inflight[id]
      ensures id in old(inflight) ==> inflight == old(inflight)
      ensures id !in old(inflight) ==> fresh(counter) && counter.value == 0 && inflight == old(inflight)[id := counter]
      ensures forall other :: Outstanding(other) == old(Outstanding(other))
    {
      if id in inflight {
        return inflight[id];
      }
      NoneOutstanding(id);
      counter := new Counter();
      inflight := inflight[id := counter];
    }

    method Acquire(id: Text) returns (guard: Guard)
      requires Valid()
      modifies this`inflight, this`live, Repr() - {this}
      ensures Valid() && fresh(guard) && live == old(live) + {guard}
      ensures id in inflight && guard.id == id && guard.counter == inflight[id]
      ensures forall other :: other in old(inflight) ==> other in inflight && inflight[other] == old(inflight)[other]
      ensures forall other :: Outstanding(other) == old(Outstanding(other)) + (if other == id then 1 else 0)
    {
      var counter := GetInflightCounter(id);
      guard := new Guard(counter, id);
      forall other
        ensures |HeldOn(live + {guard}, other)| == |HeldOn(live, other)| + (if other == id then 1 else 0)
      {
        OneMore(live, guard, other);
      }
      live := live + {guard};
      counter.value := counter.value + 1;
    }

    /** Dropping a guard gives back exactly what it took; the counter cannot underflow. */
    method Drop(guard: Guard)
      requires Valid() && guard in live
      modifies this`live, guard.counter
      ensures Valid() && live == old(live) - {guard} && inflight == old(inflight)
      ensures forall id :: Outstanding(id) == old(Outstanding(id)) - (if id == guard.id then 1 else 0)
    {
      forall id
        ensures |HeldOn(live, id)| == |HeldOn(live - {guard}, id)| + (if id == guard.id then 1 else 0)
      {
        OneLess(live, guard, id);
      }
      live := live - {guard};
      guard.counter.value := guard.counter.value - 1;
    }

    method PickTwo(len: nat, nowNanos: nat) returns (i: nat, j: nat)
      requires Valid() && 2 <= len && nowNanos < USIZE
      modifies this`seedCounter
      ensures Valid() && seedCounter == (old(seedCounter) + 1) % USIZE
      ensures var seed := (nowNanos + old(seedCounter)) % USIZE;
              && i == First(seed, len) && j == Second(seed, len)
              && i == seed % len && j == (i + 1 + (seed / len) % (len - 1)) % len
      ensures i < len && j < len && i != j
    {
      var ticket := seedCounter;
      seedCounter := (seedCounter + 1) % USIZE;
      var seed := (nowNanos + ticket) % USIZE;
      i := seed % len;
      var offset := 1 + (seed / len) % (len - 1);
      j := (i + offset) % len;
      TwoDistinctIndices(seed, len);
    }

    /** The choice and the instance it was compared with: the other of two, or the other of the pair that
      * the seed picked from more. The choice is no busier, and the first of the pair wins a tie. */
    ghost predicate Beats(list: seq<ServiceInstance>, nowNanos: nat, ticket: nat, chosen: Option<nat>)
      reads this`live
    {
      |list| >= 2 ==>
        var (i, j) := Compared(|list|, nowNanos, ticket);
        && (chosen == Some(i) <==> NoBusier(list[i], list[j]))
        && (chosen == Some(j) <==> !NoBusier(list[i], list[j]))
    }

    /** Of a compared pair with equal weights the one with strictly more guards outstanding loses. */
    lemma BusierOfEqualsLoses(list: seq<ServiceInstance>, nowNanos: nat, ticket: nat, chosen: Option<nat>)
      requires |list| >= 2 && Beats(list, nowNanos, ticket, chosen)
      ensures var (i, j) := Compared(|list|, nowNanos, ticket);
              list[i].weight == list[j].weight ==>
                && (Outstanding(list[i].serviceId) > Outstanding(list[j].serviceId) ==> chosen == Some(j))
                && (Outstanding(list[i].serviceId) < Outstanding(list[j].serviceId) ==> chosen == Some(i))
    {
      hide NoBusier;
      var (i, j) := Compared(|list|, nowNanos, ticket);
      if list[i].weight == list[j].weight {
        EqualWeightsCompareGuards(list[i], list[j]);
      }
    }

    /** Returns the position of the chosen instance. With two or more instances the choice beats some
      * other one, so the unique instance with the strictly highest score is never returned. */
    method Select(list: seq<ServiceInstance>, nowNanos: nat) returns (chosen: Option<nat>)
      requires Valid() && nowNanos < USIZE
      modifies this`seedCounter
      ensures Valid()
      ensures chosen == None <==> list == []
      ensures chosen.Some? ==> chosen.value < |list|
      ensures |list| >= 2 ==> exists k :: 0 <= k < |list| && k != chosen.value
                                           && LoadScore(list[chosen.value]) <= LoadScore(list[k])
      ensures |list| == 2 ==> forall k :: 0 <= k < 2 ==> LoadScore(list[chosen.value]) <= LoadScore(list[k])
      ensures |list| > 2 ==> var seed := (nowNanos + old(seedCounter)) % USIZE;
                             var i, j := First(seed, |list|), Second(seed, |list|);
                             i < |list| && j < |list|
                             && chosen.value == if LoadScore(list[i]) <= LoadScore(list[j]) then i else j
      ensures |list| <= 2 ==> seedCounter == old(seedCounter)
      ensures live == old(live)
      ensures Beats(list, nowNanos, old(seedCounter), chosen)
    {
      hide NoBusier, LoadScore, Score, Effective, First, Second;
      if list == [] {
        return None;
      }
      if |list| == 1 {
        return Some(0);
      }
      if |list| == 2 {
        var score0, score1 := LoadScore(list[0]), LoadScore(list[1]);
        var k := if score0 <= score1 then 1 else 0;
        assert LoadScore(list[1 - k]) <= LoadScore(list[k]);
        ScoresCompareLoads(list[0], list[1]);
        return Some(if score0 <= score1 then 0 else 1);
      }
      var i, j := PickTwo(|list|, nowNanos);
      var score1, score2 := LoadScore(list[i]), LoadScore(list[j]);
      assert score1 <= score2 || LoadScore(list[j]) <= LoadScore(list[i]);
      ScoresCompareLoads(list[i], list[j]);
      ScoresCompareLoads(list[j], list[i]);
      chosen := Some(if score1 <= score2 then i else j);
    }

    /** Selects and counts the request against the chosen instance. */
    method SelectWithGuard(list: seq<ServiceInstance>, nowNanos: nat)
      returns (chosen: Option<nat>, guard: Option<Guard>)
      requires Valid() && nowNanos < USIZE
      modifies this, Repr() - {this}
      ensures Valid()
      ensures list == [] <==> chosen == None
      ensures chosen == None <==> guard == None
      ensures chosen == None ==> live == old(live) && inflight == old(inflight)
      ensures chosen.Some? ==>
                && chosen.value < |list| && fresh(guard.value) && guard.value.id == list[chosen.value].serviceId
                && live == old(live) + {guard.value}
                && old(Beats(list, nowNanos, seedCounter, chosen))
                && forall id :: Outstanding(id)
                                == old(Outstanding(id)) + (if id == list[chosen.value].serviceId then 1 else 0)
    {
      hide NoBusier, LoadScore, Score, Effective, First, Second, Beats;
      chosen := Select(list, nowNanos);
      assert old(Beats(list, nowNanos, seedCounter, chosen));
      guard := None;
      if chosen.Some? {
        var g := Acquire(list[chosen.value].serviceId);
        guard := Some(g);
      }
    }
  }
}
