/** Smooth weighted round robin (src/selector/weighted.rs).
  *
  * The selector keeps one signed running weight per service and id. A call raises every listed id by
  * its weight, picks the first id with the highest running weight and charges it the total. The
  * class at the end is the selector; the functions before it say what one call does, and the
  * lemmas say what any number of calls do.
  */
module Weighted {
  import opened Arithmetic
  import opened Types

  const ISIZE_MIN: int := -0x8000_0000_0000_0000
  const ISIZE_MAX: int := 0x7fff_ffff_ffff_ffff

  /** Running weights of one service, by id. */
  type Weights = map<Text, int>

  function Current(ws: Weights, id: Text): int {
    if id in ws then ws[id] else 0
  }

  /** The weight of an instance: at least 1, in hundredths, truncated. */
  function Scaled(inst: ServiceInstance): (w: int)
    ensures w >= 100
    ensures inst.weight >= 1.0 ==> w as real <= inst.weight * 100.0 < w as real + 1.0
    ensures inst.weight < 1.0 ==> w == 100
  {
    ((if inst.weight < 1.0 then 1.0 else inst.weight) * 100.0).Floor
  }

  function Total(list: seq<ServiceInstance>): (w: int)
    ensures w >= 100 * |list|
  {
    if list == [] then 0 else Total(list[..|list| - 1]) + Scaled(list[|list| - 1])
  }

  /** The running weights once every listed id has been raised by its weight, in list order. */
  function Raised(ws: Weights, list: seq<ServiceInstance>): Weights {
    if list == [] then ws else
    var before := Raised(ws, list[..|list| - 1]);
    var inst := list[|list| - 1];
    before[inst.serviceId := Current(before, inst.serviceId) + Scaled(inst)]
  }

  /** The running weight the scan compares at position i. */
  function Candidate(ws: Weights, list: seq<ServiceInstance>, i: nat): int
    requires i < |list|
  {
    Current(Raised(ws, list[..i + 1]), list[i].serviceId)
  }

  /** k is the first position whose candidate is the greatest. */
  ghost predicate FirstGreatest(ws: Weights, list: seq<ServiceInstance>, k: nat) {
    && k < |list|
    && (forall i :: 0 <= i < |list| ==> Candidate(ws, list, i) <= Candidate(ws, list, k))
    && (forall i :: 0 <= i < k ==> Candidate(ws, list, i) < Candidate(ws, list, k))
  }

  /** The position the scan leaves behind, if any candidate exceeds the initial maximum. */
  function Winner(ws: Weights, list: seq<ServiceInstance>): (best: Option<nat>)
    ensures best.Some? ==> best.value < |list|
  {
    if list == [] then None else
    var last := |list| - 1;
    var best := Winner(ws, list[..last]);
    var threshold := if best.Some? then Candidate(ws, list[..last], best.value) else ISIZE_MIN;
    if Candidate(ws, list, last) > threshold then Some(last) else best
  }

  function Next(ws: Weights, list: seq<ServiceInstance>): Weights {
    var raised := Raised(ws, list);
    match Winner(ws, list)
    case None => raised
    case Some(k) => raised[list[k].serviceId := Current(raised, list[k].serviceId) - Total(list)]
  }

  /** The position a call returns for a non-empty list. */
  function Picked(ws: Weights, list: seq<ServiceInstance>): (k: nat)
    requires list != []
    ensures k < |list|
  {
    var best := Winner(ws, list);
    if best.Some? then best.value else 0
  }

  // ---- What one call does ----

  lemma CandidatePrefix(ws: Weights, list: seq<ServiceInstance>, n: nat, i: nat)
    requires i < n <= |list|
    ensures Candidate(ws, list[..n], i) == Candidate(ws, list, i)
  {
    assert list[..n][..i + 1] == list[..i + 1];
  }

  function Threshold(ws: Weights, list: seq<ServiceInstance>, best: Option<nat>): int
    requires best.Some? ==> best.value < |list|
  {
    if best.Some? then Candidate(ws, list, best.value) else ISIZE_MIN
  }

  lemma ScanStart(ws: Weights, list: seq<ServiceInstance>)
    ensures Raised(ws, list[..0]) == ws && Winner(ws, list[..0]) == None && Total(list[..0]) == 0
    ensures Threshold(ws, list, None) == ISIZE_MIN
  {
  }

  /** What one turn of the scan does to its four variables. */
  lemma ScanStep(ws: Weights, list: seq<ServiceInstance>, i: nat)
    requires i < |list|
    ensures Total(list[..i + 1]) == Total(list[..i]) + Scaled(list[i])
    ensures Candidate(ws, list, i) == Current(Raised(ws, list[..i]), list[i].serviceId) + Scaled(list[i])
    ensures Raised(ws, list[..i + 1]) == Raised(ws, list[..i])[list[i].serviceId := Candidate(ws, list, i)]
    ensures Threshold(ws, list, Some(i)) == Candidate(ws, list, i)
    ensures Winner(ws, list[..i + 1])
            == if Candidate(ws, list, i) > Threshold(ws, list, Winner(ws, list[..i])) then Some(i)
               else Winner(ws, list[..i])
  {
    var prefix := list[..i + 1];
    assert prefix[..i] == list[..i] && prefix[i] == list[i];
    CandidatePrefix(ws, list, i + 1, i);
    var best := Winner(ws, list[..i]);
    if best.Some? {
      CandidatePrefix(ws, list, i, best.value);
    }
  }

  /** What is left to do after the scan. */
  lemma ScanEnd(ws: Weights, list: seq<ServiceInstance>)
    requires list != []
    ensures list[..|list|] == list
    ensures match Winner(ws, list)
            case None => Next(ws, list) == Raised(ws, list) && Picked(ws, list) == 0
            case Some(k) =>
              && Picked(ws, list) == k
              && var id := list[k].serviceId;
                 Next(ws, list) == Raised(ws, list)[id := Current(Raised(ws, list), id) - Total(list)]
  {
    hide Raised, Winner, Total;
  }

  /** Among the first n positions the scan has found the first greatest candidate. */
  lemma {:induction false} WinnerOfPrefix(ws: Weights, list: seq<ServiceInstance>, n: nat)
    requires 0 < n <= |list| && Current(ws, list[0].serviceId) >= ISIZE_MIN
    ensures Winner(ws, list[..n]).Some? && Winner(ws, list[..n]).value < n
    ensures var k := Winner(ws, list[..n]).value;
            && (forall i :: 0 <= i < n ==> Candidate(ws, list, i) <= Candidate(ws, list, k))
            && (forall i :: 0 <= i < k ==> Candidate(ws, list, i) < Candidate(ws, list, k))
            && Candidate(ws, list, k) > ISIZE_MIN
  {
    hide Raised, Winner, Total, Candidate;
    ScanStep(ws, list, n - 1);
    if n == 1 {
      ScanStart(ws, list);
    } else {
      WinnerOfPrefix(ws, list, n - 1);
    }
  }

  /** The scan finds exactly the first greatest candidate as soon as a candidate is above the
    * smallest machine integer, which a stored machine integer raised by a weight always is. */
  lemma WinnerIsFirstGreatest(ws: Weights, list: seq<ServiceInstance>)
    requires list != [] && Current(ws, list[0].serviceId) >= ISIZE_MIN
    ensures Winner(ws, list).Some? && FirstGreatest(ws, list, Winner(ws, list).value)
    ensures Winner(ws, list) == Some(Picked(ws, list))
    ensures Candidate(ws, list, Picked(ws, list)) > ISIZE_MIN
  {
    WinnerOfPrefix(ws, list, |list|);
    assert list[..|list|] == list;
  }

  lemma {:induction false} RaisedDistinct(ws: Weights, list: seq<ServiceInstance>, id: Text)
    requires DistinctIds(list)
    ensures forall i :: 0 <= i < |list| && list[i].serviceId == id ==>
              Current(Raised(ws, list), id) == Current(ws, id) + Scaled(list[i])
    ensures (forall i :: 0 <= i < |list| ==> list[i].serviceId != id) ==>
              Current(Raised(ws, list), id) == Current(ws, id)
  {
    if list != [] {
      var last := |list| - 1;
      RaisedDistinct(ws, list[..last], id);
      assert forall i :: 0 <= i < last ==> list[..last][i] == list[i];
    }
  }

  // ---- Lists of distinct ids: running weights as a vector ----

  function View(ws: Weights, list: seq<ServiceInstance>): (v: seq<int>)
    ensures |v| == |list|
    ensures forall i :: 0 <= i < |list| ==> v[i] == Current(ws, list[i].serviceId)
  {
    seq(|list|, i requires 0 <= i < |list| => Current(ws, list[i].serviceId))
  }

  function Sum(v: seq<int>): int {
    if v == [] then 0 else Sum(v[..|v| - 1]) + v[|v| - 1]
  }

  /** One call on a vector of running weights. */
  function Stepped(v: seq<int>, list: seq<ServiceInstance>, k: nat): (r: seq<int>)
    requires |v| == |list| && k < |list|
    ensures |r| == |v|
  {
    seq(|v|, i requires 0 <= i < |v| => v[i] + Scaled(list[i]) - (if i == k then Total(list) else 0))
  }

  lemma CandidateDistinct(ws: Weights, list: seq<ServiceInstance>, i: nat)
    requires DistinctIds(list) && i < |list|
    ensures Candidate(ws, list, i) == Current(ws, list[i].serviceId) + Scaled(list[i])
  {
    RaisedDistinct(ws, list[..i + 1], list[i].serviceId);
    assert list[..i + 1][i] == list[i];
  }

  lemma NextCurrent(ws: Weights, list: seq<ServiceInstance>, i: nat)
    requires DistinctIds(list) && i < |list| && Winner(ws, list) == Some(Picked(ws, list))
    ensures Current(Next(ws, list), list[i].serviceId)
            == Current(ws, list[i].serviceId) + Scaled(list[i]) - (if i == Picked(ws, list) then Total(list) else 0)
  {
    var raised := Raised(ws, list);
    RaisedDistinct(ws, list, list[i].serviceId);
    assert Current(raised, list[i].serviceId) == Current(ws, list[i].serviceId) + Scaled(list[i]);
  }

  /** Position k has the highest raised weight. */
  ghost predicate Leads(v: seq<int>, list: seq<ServiceInstance>, k: nat) {
    && |v| == |list|
    && k < |list|
    && forall i :: 0 <= i < |list| ==> v[i] + Scaled(list[i]) <= v[k] + Scaled(list[k])
  }

  lemma PickedLeads(ws: Weights, list: seq<ServiceInstance>)
    requires DistinctIds(list) && list != [] && Current(ws, list[0].serviceId) >= ISIZE_MIN
    ensures Winner(ws, list) == Some(Picked(ws, list))
    ensures Leads(View(ws, list), list, Picked(ws, list))
  {
    WinnerIsFirstGreatest(ws, list);
    var k := Picked(ws, list);
    CandidateDistinct(ws, list, k);
    forall i | 0 <= i < |list|
      ensures Current(ws, list[i].serviceId) + Scaled(list[i]) <= Current(ws, list[k].serviceId) + Scaled(list[k])
    {
      CandidateDistinct(ws, list, i);
    }
  }

  /** With distinct ids one call raises every id by its weight and charges the total to the first
    * id with the highest raised weight. */
  lemma NextView(ws: Weights, list: seq<ServiceInstance>)
    requires DistinctIds(list) && list != [] && Current(ws, list[0].serviceId) >= ISIZE_MIN
    ensures View(Next(ws, list), list) == Stepped(View(ws, list), list, Picked(ws, list))
    ensures Leads(View(ws, list), list, Picked(ws, list))
  {
    PickedLeads(ws, list);
    var u, r := View(Next(ws, list), list), Stepped(View(ws, list), list, Picked(ws, list));
    forall i | 0 <= i < |list|
      ensures u[i] == r[i]
    {
      NextCurrent(ws, list, i);
    }
  }

  /** Two states that agree on the listed ids behave alike. */
  lemma {:induction false} SameViewSameCall(ws: Weights, us: Weights, list: seq<ServiceInstance>)
    requires DistinctIds(list) && list != []
    requires View(ws, list) == View(us, list)
    requires Current(ws, list[0].serviceId) >= ISIZE_MIN
    ensures Picked(ws, list) == Picked(us, list)
    ensures View(Next(ws, list), list) == View(Next(us, list), list)
  {
    assert View(ws, list)[0] == View(us, list)[0];
    WinnerIsFirstGreatest(ws, list);
    WinnerIsFirstGreatest(us, list);
    forall i | 0 <= i < |list|
      ensures Candidate(ws, list, i) == Candidate(us, list, i)
    {
      CandidateDistinct(ws, list, i);
      CandidateDistinct(us, list, i);
      assert View(ws, list)[i] == View(us, list)[i];
    }
    NextView(ws, list);
    NextView(us, list);
  }

  // ---- Runs on a fixed list ----

  /** The running weights after t calls on the same list. */
  function After(ws: Weights, list: seq<ServiceInstance>, t: nat): Weights {
    if t == 0 then ws else Next(After(ws, list, t - 1), list)
  }

  /** How often position i was picked by calls number from .. to - 1. */
  function Hits(ws: Weights, list: seq<ServiceInstance>, i: nat, from: nat, to: nat): (h: nat)
    requires list != [] && from <= to
  {
    if from == to then 0
    else Hits(ws, list, i, from, to - 1) + (if Picked(After(ws, list, to - 1), list) == i then 1 else 0)
  }

  lemma {:induction false} HitsSplit(ws: Weights, list: seq<ServiceInstance>, i: nat, a: nat, b: nat, c: nat)
    requires list != [] && a <= b <= c
    ensures Hits(ws, list, i, a, c) == Hits(ws, list, i, a, b) + Hits(ws, list, i, b, c)
  {
    if b < c {
      HitsSplit(ws, list, i, a, b, c - 1);
    }
  }

  lemma {:induction false} SumOfSums(u: seq<int>, v: seq<int>, r: seq<int>)
    requires |u| == |v| == |r| && forall i :: 0 <= i < |u| ==> r[i] == u[i] + v[i]
    ensures Sum(r) == Sum(u) + Sum(v)
  {
    if u != [] {
      var last := |u| - 1;
      SumOfSums(u[..last], v[..last], r[..last]);
    }
  }

  lemma {:induction false} SumAtPoint(v: seq<int>, k: nat, x: int)
    requires k < |v| && v[k] == x && forall i :: 0 <= i < |v| && i != k ==> v[i] == 0
    ensures Sum(v) == x
  {
    var last := |v| - 1;
    if k == last {
      SumZero(v[..last]);
    } else {
      SumAtPoint(v[..last], k, x);
    }
  }

  lemma {:induction false} SumZero(v: seq<int>)
    requires forall i :: 0 <= i < |v| ==> v[i] == 0
    ensures Sum(v) == 0
  {
    if v != [] {
      SumZero(v[..|v| - 1]);
    }
  }

  function ScaledAll(list: seq<ServiceInstance>): (v: seq<int>)
    ensures |v| == |list|
  {
    seq(|list|, i requires 0 <= i < |list| => Scaled(list[i]))
  }

  lemma {:induction false} SumScaled(list: seq<ServiceInstance>)
    ensures Sum(ScaledAll(list)) == Total(list)
  {
    if list != [] {
      var last := |list| - 1;
      SumScaled(list[..last]);
      assert ScaledAll(list)[..last] == ScaledAll(list[..last]);
    }
  }

  lemma SteppedKeepsSum(v: seq<int>, list: seq<ServiceInstance>, k: nat)
    requires |v| == |list| && k < |list|
    ensures Sum(Stepped(v, list, k)) == Sum(v)
  {
    var raised := seq(|v|, i requires 0 <= i < |v| => v[i] + Scaled(list[i]));
    var charge := seq(|v|, i => if i == k then -Total(list) else 0);
    SumScaled(list);
    SumOfSums(v, ScaledAll(list), raised);
    SumAtPoint(charge, k, -Total(list));
    SumOfSums(raised, charge, Stepped(v, list, k));
  }

  lemma {:induction false} SumAtMost(v: seq<int>, top: int)
    requires forall i :: 0 <= i < |v| ==> v[i] <= top
    ensures Sum(v) <= |v| * top
  {
    if v != [] {
      SumAtMost(v[..|v| - 1], top);
      assert |v| * top == (|v| - 1) * top + top;
    }
  }

  lemma {:induction false} SumAtLeastBut(v: seq<int>, low: int, k: nat)
    requires k < |v| && forall i :: 0 <= i < |v| ==> v[i] >= low
    ensures Sum(v) >= (|v| - 1) * low + v[k]
  {
    var last := |v| - 1;
    if k == last {
      SumAtLeast(v[..last], low);
    } else {
      SumAtLeastBut(v[..last], low, k);
      assert (|v| - 1) * low == (last - 1) * low + low;
    }
  }

  lemma {:induction false} SumAtLeast(v: seq<int>, low: int)
    requires forall i :: 0 <= i < |v| ==> v[i] >= low
    ensures Sum(v) >= |v| * low
  {
    if v != [] {
      SumAtLeast(v[..|v| - 1], low);
      assert |v| * low == (|v| - 1) * low + low;
    }
  }

  /** low is a floor of the running weights from which no call can fall through: every listed
    * weight is at or above it, and low + W is at most the average of the raised weights. */
  ghost predicate IsFloor(v: seq<int>, list: seq<ServiceInstance>, low: int) {
    && |v| == |list|
    && (forall i :: 0 <= i < |v| ==> v[i] >= low)
    && |v| * (low + Total(list)) <= Sum(v) + Total(list)
  }

  lemma LeaderAboveAverage(v: seq<int>, list: seq<ServiceInstance>, k: nat, low: int)
    requires Leads(v, list, k) && IsFloor(v, list, low)
    ensures v[k] + Scaled(list[k]) >= low + Total(list)
  {
    var raised := seq(|v|, i requires 0 <= i < |v| => v[i] + Scaled(list[i]));
    SumScaled(list);
    SumOfSums(v, ScaledAll(list), raised);
    SumAtMost(raised, raised[k]);
    MultiplyCancel(|v|, low + Total(list), raised[k]);
  }

  /** One call keeps the floor and the sum. */
  lemma FloorStep(v: seq<int>, list: seq<ServiceInstance>, k: nat, low: int)
    requires Leads(v, list, k) && IsFloor(v, list, low)
    ensures IsFloor(Stepped(v, list, k), list, low)
    ensures Sum(Stepped(v, list, k)) == Sum(v)
  {
    SteppedKeepsSum(v, list, k);
    LeaderAboveAverage(v, list, k, low);
  }

  /** One more call of a run, in vectors. */
  lemma AfterStep(ws: Weights, list: seq<ServiceInstance>, low: int, t: nat)
    requires DistinctIds(list) && list != [] && low >= ISIZE_MIN && IsFloor(View(After(ws, list, t), list), list, low)
    ensures View(After(ws, list, t + 1), list)
            == Stepped(View(After(ws, list, t), list), list, Picked(After(ws, list, t), list))
    ensures IsFloor(View(After(ws, list, t + 1), list), list, low)
    ensures Sum(View(After(ws, list, t + 1), list)) == Sum(View(After(ws, list, t), list))
  {
    var before := After(ws, list, t);
    assert View(before, list)[0] >= low;
    NextView(before, list);
    FloorStep(View(before, list), list, Picked(before, list), low);
  }

  /** The books of a run on a fixed list of distinct ids: an id gains its weight at every call and
    * pays the total for every hit, the sum never moves, and the floor is kept. */
  lemma {:induction false} Ledger(ws: Weights, list: seq<ServiceInstance>, low: int, t: nat)
    requires DistinctIds(list) && list != [] && low >= ISIZE_MIN && IsFloor(View(ws, list), list, low)
    ensures IsFloor(View(After(ws, list, t), list), list, low)
    ensures Sum(View(After(ws, list, t), list)) == Sum(View(ws, list))
    ensures forall i :: 0 <= i < |list| ==>
              View(After(ws, list, t), list)[i]
              == View(ws, list)[i] + t * Scaled(list[i]) - Total(list) * Hits(ws, list, i, 0, t)
  {
    hide Next, Winner, Raised, Picked, Total, Sum, Scaled;
    if t > 0 {
      Ledger(ws, list, low, t - 1);
      AfterStep(ws, list, low, t - 1);
      var before, after := View(After(ws, list, t - 1), list), View(After(ws, list, t), list);
      forall i | 0 <= i < |list|
        ensures after[i] == View(ws, list)[i] + t * Scaled(list[i]) - Total(list) * Hits(ws, list, i, 0, t)
      {
        LedgerLine(t, Scaled(list[i]), Total(list), Hits(ws, list, i, 0, t - 1), Hits(ws, list, i, 0, t));
      }
    }
  }

  lemma LedgerLine(t: nat, w: int, total: int, before: nat, after: nat)
    requires t > 0
    ensures t * w == (t - 1) * w + w
    ensures after == before + 1 ==> total * after == total * before + total
  {
  }

  /** The floor that the starting weights alone determine. */
  ghost function StartFloor(ws: Weights, list: seq<ServiceInstance>): int
    requires list != []
  {
    var low := Least(View(ws, list));
    var average := (Sum(View(ws, list)) + Total(list)) / |list| - Total(list);
    if low < average then low else average
  }

  ghost function Least(v: seq<int>): (m: int)
    requires v != []
    ensures forall i :: 0 <= i < |v| ==> m <= v[i]
  {
    if |v| == 1 then v[0] else
    var m := Least(v[..|v| - 1]);
    if v[|v| - 1] < m then v[|v| - 1] else m
  }

  lemma StartFloorIsFloor(ws: Weights, list: seq<ServiceInstance>)
    requires list != []
    ensures IsFloor(View(ws, list), list, StartFloor(ws, list))
  {
    DivisionBelow(|list|, Sum(View(ws, list)) + Total(list), StartFloor(ws, list) + Total(list));
  }

  /** How far any listed weight can ever be from where it started: a number fixed by the starting
    * weights and the list. */
  ghost function Spread(ws: Weights, list: seq<ServiceInstance>): int
    requires list != []
  {
    var low := StartFloor(ws, list);
    Sum(View(ws, list)) - |list| * low
  }

  lemma {:induction false} ScaledAtMostTotal(list: seq<ServiceInstance>, i: nat)
    requires i < |list|
    ensures Scaled(list[i]) <= Total(list)
  {
    if i < |list| - 1 {
      ScaledAtMostTotal(list[..|list| - 1], i);
    }
  }

  /** The starting weights leave room for the whole run: at the bottom for the floor, at the top for
    * all the others at the floor and one more raise. */
  ghost predicate Roomy(ws: Weights, list: seq<ServiceInstance>)
    requires list != []
  {
    && StartFloor(ws, list) >= ISIZE_MIN
    && Sum(View(ws, list)) - (|list| - 1) * StartFloor(ws, list) + Total(list) <= ISIZE_MAX
  }

  lemma ApartAtMost(n: nat, low: int, sum: int, x: int, y: int)
    requires n >= 1 && x >= low && y >= low
    requires sum >= (n - 1) * low + x && sum >= (n - 1) * low + y
    ensures -(sum - n * low) <= x - y <= sum - n * low
  {
    assert (n - 1) * low == n * low - low;
  }

  /** From any starting weights, whatever earlier lists left behind: over t calls on a fixed list of
    * distinct ids the picks of each id stay proportional to its weight up to an error that does not
    * grow with t. */
  lemma {:induction false} BoundedError(ws: Weights, list: seq<ServiceInstance>, t: nat, i: nat)
    requires DistinctIds(list) && i < |list| && Roomy(ws, list)
    ensures -Spread(ws, list) <= t * Scaled(list[i]) - Total(list) * Hits(ws, list, i, 0, t) <= Spread(ws, list)
  {
    hide Next, Winner, Raised, Picked, Total, Sum, Scaled, StartFloor;
    var low := StartFloor(ws, list);
    StartFloorIsFloor(ws, list);
    Ledger(ws, list, low, t);
    var v, u := View(ws, list), View(After(ws, list, t), list);
    SumAtLeastBut(v, low, i);
    SumAtLeastBut(u, low, i);
    ApartAtMost(|list|, low, Sum(v), v[i], u[i]);
    assert u[i] == v[i] + t * Scaled(list[i]) - Total(list) * Hits(ws, list, i, 0, t);
  }

  /** And no machine integer overflows in that run: no stored weight, no raised weight, no total. */
  lemma {:induction false} RoomyNeverOverflows(ws: Weights, list: seq<ServiceInstance>, t: nat, i: nat)
    requires DistinctIds(list) && i < |list| && Roomy(ws, list)
    ensures ISIZE_MIN <= Current(After(ws, list, t), list[i].serviceId) <= ISIZE_MAX
    ensures ISIZE_MIN < Candidate(After(ws, list, t), list, i) <= ISIZE_MAX
    ensures |list| >= 2 ==> Total(list) <= ISIZE_MAX
  {
    hide Next, Winner, Raised, Picked, Total, Sum, Scaled, Candidate, StartFloor;
    var low, n := StartFloor(ws, list), |list|;
    StartFloorIsFloor(ws, list);
    Ledger(ws, list, low, t);
    var u := View(After(ws, list, t), list);
    SumAtLeastBut(u, low, i);
    CandidateDistinct(After(ws, list, t), list, i);
    ScaledAtMostTotal(list, i);
    if n >= 2 {
      TotalUnderRoom(n, low, Sum(View(ws, list)), Total(list));
    }
  }

  lemma TotalUnderRoom(n: nat, low: int, sum: int, total: int)
    requires n >= 2 && total >= 0 && low >= ISIZE_MIN
    requires n * (low + total) <= sum + total && sum - (n - 1) * low + total <= ISIZE_MAX
    ensures total <= ISIZE_MAX
  {
    assert n * (low + total) == (n - 1) * low + low + n * total;
    assert n * total >= 2 * total;
  }

  // ---- From fresh weights ----

  ghost predicate Fresh(ws: Weights, list: seq<ServiceInstance>) {
    forall i :: 0 <= i < |list| ==> Current(ws, list[i].serviceId) == 0
  }

  lemma MultiplyAtLeast(n: nat, x: nat)
    requires n > 0
    ensures n * x >= x
  {
  }

  lemma FreshFloor(ws: Weights, list: seq<ServiceInstance>)
    requires list != [] && Fresh(ws, list)
    ensures IsFloor(View(ws, list), list, 1 - Total(list)) && Sum(View(ws, list)) == 0
    ensures |list| * Total(list) <= ISIZE_MAX ==> 1 - Total(list) >= ISIZE_MIN
  {
    MultiplyAtLeast(|list|, Total(list));
    SumZero(View(ws, list));
  }

  lemma BelowCeiling(n: nat, total: int, x: int)
    requires n >= 2 && x + (n - 1) * (1 - total) <= 0
    ensures x < (n - 1) * total
  {
    assert (n - 1) * (1 - total) == (n - 1) - (n - 1) * total;
  }

  /** From fresh weights every stored weight stays strictly between -W and (n - 1) * W. */
  lemma {:induction false} FreshBounds(ws: Weights, list: seq<ServiceInstance>, t: nat, i: nat)
    requires DistinctIds(list) && i < |list| && |list| >= 2 && Fresh(ws, list)
    requires |list| * Total(list) <= ISIZE_MAX
    ensures -Total(list) < Current(After(ws, list, t), list[i].serviceId) < (|list| - 1) * Total(list)
  {
    hide Next, Winner, Raised, Picked, Total, Sum, Scaled;
    var low := 1 - Total(list);
    FreshFloor(ws, list);
    Ledger(ws, list, low, t);
    var u := View(After(ws, list, t), list);
    SumAtLeastBut(u, low, i);
    BelowCeiling(|list|, Total(list), u[i]);
    assert u[i] == Current(After(ws, list, t), list[i].serviceId);
  }

  lemma OneLessThanAll(n: nat, total: int)
    requires n >= 2 && total >= 0
    ensures total <= (n - 1) * total == n * total - total
  {
    MultiplyAtLeast(n - 1, total);
  }

  /** Hence no machine integer overflows when n * W fits: neither a stored weight nor a raised one. */
  lemma FreshNeverOverflows(ws: Weights, list: seq<ServiceInstance>, t: nat, i: nat)
    requires DistinctIds(list) && i < |list| && |list| >= 2 && Fresh(ws, list)
    requires |list| * Total(list) <= ISIZE_MAX
    ensures ISIZE_MIN < Current(After(ws, list, t), list[i].serviceId) <= ISIZE_MAX
    ensures ISIZE_MIN < Candidate(After(ws, list, t), list, i) <= ISIZE_MAX
  {
    hide Next, Winner, Raised, Picked, Total, Sum, Scaled, Candidate;
    OneLessThanAll(|list|, Total(list));
    FreshBounds(ws, list, t, i);
    CandidateDistinct(After(ws, list, t), list, i);
    ScaledAtMostTotal(list, i);
  }

  ghost predicate CommonDivisor(list: seq<ServiceInstance>, g: int) {
    g > 0 && forall i :: 0 <= i < |list| ==> Scaled(list[i]) % g == 0
  }

  lemma {:induction false} DividesTotal(list: seq<ServiceInstance>, g: int)
    requires CommonDivisor(list, g)
    ensures Total(list) % g == 0
  {
    if list != [] {
      var last := |list| - 1;
      DividesTotal(list[..last], g);
      ModuloSum(Total(list[..last]), Scaled(list[last]), g);
    }
  }

  /** The calls after which the schedule starts again. */
  function Period(list: seq<ServiceInstance>, g: int): nat
    requires g > 0
  {
    Total(list) / g
  }

  /** t calls worth exactly q hits each: with t * w == W * q the ledger leaves a multiple of W. */
  lemma MultipleAboveMinusOne(x: int, total: int, q: int, hits: int)
    requires total > 0 && x == total * q - total * hits && x > -total
    ensures q >= hits && (x == 0 ==> q == hits) && x >= 0
  {
    assert x == total * (q - hits);
    AwayFromZero(total, q - hits);
  }

  lemma ProductsMeet(w: int, total: int, g: int)
    requires g > 0 && w % g == 0 && total % g == 0
    ensures (total / g) * w == total * (w / g)
  {
    var a, b := total / g, w / g;
    assert total == g * a && w == g * b;
    assert a * (g * b) == (g * a) * b;
  }

  lemma {:induction false} NonNegativeSumZero(v: seq<int>)
    requires Sum(v) == 0 && forall i :: 0 <= i < |v| ==> v[i] >= 0
    ensures forall i :: 0 <= i < |v| ==> v[i] == 0
  {
    forall i | 0 <= i < |v|
      ensures v[i] == 0
    {
      SumAtLeastBut(v, 0, i);
    }
  }

  lemma ViewZero(ws: Weights, list: seq<ServiceInstance>)
    requires forall i :: 0 <= i < |list| ==> View(ws, list)[i] == 0
    ensures Fresh(ws, list)
  {
    forall i | 0 <= i < |list|
      ensures Current(ws, list[i].serviceId) == 0
    {
      assert View(ws, list)[i] == 0;
    }
  }

  /** After one period from fresh weights every running weight is back at zero. */
  lemma {:induction false} PeriodReturnsToZero(ws: Weights, list: seq<ServiceInstance>, g: int)
    requires DistinctIds(list) && list != [] && Fresh(ws, list)
    requires |list| * Total(list) <= ISIZE_MAX && CommonDivisor(list, g)
    ensures Period(list, g) > 0 && Fresh(After(ws, list, Period(list, g)), list)
  {
    hide Next, Winner, Raised, Picked, Total, Sum, Scaled;
    DividesTotal(list, g);
    var t, low, total := Period(list, g), 1 - Total(list), Total(list);
    assert t > 0 by {
      assert total == g * t;
    }
    FreshFloor(ws, list);
    Ledger(ws, list, low, t);
    var u := View(After(ws, list, t), list);
    forall i | 0 <= i < |list|
      ensures u[i] >= 0
    {
      ProductsMeet(Scaled(list[i]), total, g);
      MultipleAboveMinusOne(u[i], total, Scaled(list[i]) / g, Hits(ws, list, i, 0, t));
    }
    NonNegativeSumZero(u);
    ViewZero(After(ws, list, t), list);
  }

  /** Two runs whose running weights agree once agree ever after. */
  lemma RepeatStep(ws: Weights, list: seq<ServiceInstance>, a: nat, b: nat)
    requires DistinctIds(list) && list != [] && Current(After(ws, list, a), list[0].serviceId) >= ISIZE_MIN
    requires View(After(ws, list, a), list) == View(After(ws, list, b), list)
    ensures Picked(After(ws, list, a), list) == Picked(After(ws, list, b), list)
    ensures View(After(ws, list, a + 1), list) == View(After(ws, list, b + 1), list)
  {
    SameViewSameCall(After(ws, list, a), After(ws, list, b), list);
  }

  lemma FreshRunAboveMinimum(ws: Weights, list: seq<ServiceInstance>, t: nat)
    requires DistinctIds(list) && list != [] && Fresh(ws, list) && |list| * Total(list) <= ISIZE_MAX
    ensures Current(After(ws, list, t), list[0].serviceId) >= ISIZE_MIN
  {
    FreshFloor(ws, list);
    Ledger(ws, list, 1 - Total(list), t);
    assert View(After(ws, list, t), list)[0] >= 1 - Total(list);
  }

  /** The schedule repeats: one period later the running weights and the pick are the same. */
  lemma {:induction false} Periodic(ws: Weights, list: seq<ServiceInstance>, g: int, s: nat)
    requires DistinctIds(list) && list != [] && Fresh(ws, list)
    requires |list| * Total(list) <= ISIZE_MAX && CommonDivisor(list, g)
    ensures Period(list, g) > 0
    ensures View(After(ws, list, s + Period(list, g)), list) == View(After(ws, list, s), list)
    ensures Picked(After(ws, list, s + Period(list, g)), list) == Picked(After(ws, list, s), list)
  {
    hide Next, Winner, Raised, Picked, Total, Sum, Scaled;
    var p := Period(list, g);
    PeriodReturnsToZero(ws, list, g);
    FreshRunAboveMinimum(ws, list, s);
    if s == 0 {
      assert View(After(ws, list, p), list) == View(ws, list);
    } else {
      Periodic(ws, list, g, s - 1);
      FreshRunAboveMinimum(ws, list, s - 1);
      RepeatStep(ws, list, s - 1, s - 1 + p);
    }
    RepeatStep(ws, list, s, s + p);
  }

  /** Exact fairness: every window of W / g consecutive calls picks id i exactly w_i / g times. */
  lemma {:induction false} ExactFairness(ws: Weights, list: seq<ServiceInstance>, g: int, s: nat, i: nat)
    requires DistinctIds(list) && i < |list| && Fresh(ws, list)
    requires |list| * Total(list) <= ISIZE_MAX && CommonDivisor(list, g)
    ensures Period(list, g) > 0
    ensures Hits(ws, list, i, s, s + Period(list, g)) == Scaled(list[i]) / g
  {
    hide Next, Winner, Raised, Picked, Total, Sum, Scaled;
    var p, total, w := Period(list, g), Total(list), Scaled(list[i]);
    Periodic(ws, list, g, s);
    FreshFloor(ws, list);
    Ledger(ws, list, 1 - total, s);
    Ledger(ws, list, 1 - total, s + p);
    HitsSplit(ws, list, i, 0, s, s + p);
    assert View(After(ws, list, s + p), list)[i] == View(After(ws, list, s), list)[i];
    DividesTotal(list, g);
    ProductsMeet(w, total, g);
    WindowHits(s, p, w, total, w / g, Hits(ws, list, i, 0, s), Hits(ws, list, i, s, s + p));
  }

  lemma WindowHits(s: nat, p: nat, w: int, total: int, q: int, before: nat, inside: nat)
    requires total > 0 && p * w == total * q
    requires (s + p) * w - total * (before + inside) == s * w - total * before
    ensures inside == q
  {
    assert (s + p) * w == s * w + p * w;
    assert total * (before + inside) == total * before + total * inside;
    assert total * (q - inside) == 0;
  }

  // ---- Conservation over any lists ----

  /** The sum of all weights stored for a service, departed ids included. */
  ghost function Stored(ws: Weights): int {
    if ws == map[] then 0 else
    var id :| id in ws;
    ws[id] + Stored(ws - {id})
  }

  lemma {:induction false} StoredWithout(ws: Weights, id: Text)
    requires id in ws
    ensures Stored(ws) == ws[id] + Stored(ws - {id})
    decreases |ws|
  {
    var first :| first in ws && Stored(ws) == ws[first] + Stored(ws - {first});
    if first != id {
      StoredWithout(ws - {first}, id);
      StoredWithout(ws - {id}, first);
      assert ws - {first} - {id} == ws - {id} - {first};
    }
  }

  lemma StoredUpdate(ws: Weights, id: Text, x: int)
    ensures Stored(ws[id := x]) == Stored(ws) - Current(ws, id) + x
  {
    StoredWithout(ws[id := x], id);
    if id in ws {
      StoredWithout(ws, id);
      assert ws[id := x] - {id} == ws - {id};
    } else {
      assert ws[id := x] - {id} == ws;
    }
  }

  lemma {:induction false} StoredRaised(ws: Weights, list: seq<ServiceInstance>)
    ensures Stored(Raised(ws, list)) == Stored(ws) + Total(list)
  {
    if list != [] {
      var last := |list| - 1;
      StoredRaised(ws, list[..last]);
      var before, inst := Raised(ws, list[..last]), list[last];
      StoredUpdate(before, inst.serviceId, Current(before, inst.serviceId) + Scaled(inst));
    }
  }

  /** A call moves weight between ids and creates none, whatever the list, duplicate ids included. */
  lemma NextConserves(ws: Weights, list: seq<ServiceInstance>)
    requires list != [] && Current(ws, list[0].serviceId) >= ISIZE_MIN
    ensures Stored(Next(ws, list)) == Stored(ws)
  {
    WinnerIsFirstGreatest(ws, list);
    StoredRaised(ws, list);
    var raised, id := Raised(ws, list), list[Picked(ws, list)].serviceId;
    StoredUpdate(raised, id, Current(raised, id) - Total(list));
  }

  /** One call of the selector on the weights of a service: short lists leave them alone. */
  function Called(ws: Weights, list: seq<ServiceInstance>): Weights {
    if |list| < 2 then ws else Next(ws, list)
  }

  function CalledAll(ws: Weights, lists: seq<seq<ServiceInstance>>): Weights {
    if lists == [] then ws else Called(CalledAll(ws, lists[..|lists| - 1]), lists[|lists| - 1])
  }

  /** What the calls of a run raise altogether. */
  function Work(lists: seq<seq<ServiceInstance>>): int {
    if lists == [] then 0
    else var last := lists[|lists| - 1];
      Work(lists[..|lists| - 1]) + if |last| < 2 then 0 else Total(last)
  }

  lemma {:induction false} RaisedWithin(ws: Weights, list: seq<ServiceInstance>, id: Text)
    ensures Current(ws, id) <= Current(Raised(ws, list), id) <= Current(ws, id) + Total(list)
  {
    if list != [] {
      RaisedWithin(ws, list[..|list| - 1], id);
    }
  }

  lemma {:induction false} TotalOfPrefix(list: seq<ServiceInstance>, n: nat)
    requires n <= |list|
    ensures Total(list[..n]) <= Total(list)
  {
    if n < |list| {
      TotalOfPrefix(list[..|list| - 1], n);
      assert list[..|list| - 1][..n] == list[..n];
    } else {
      assert list[..n] == list;
    }
  }

  /** Over any sequence of lists no weight is ever further from zero than all that was raised. */
  lemma {:induction false} RunWithin(lists: seq<seq<ServiceInstance>>, id: Text)
    ensures -Work(lists) <= Current(CalledAll(map[], lists), id) <= Work(lists)
  {
    if lists != [] {
      var last := |lists| - 1;
      RunWithin(lists[..last], id);
      RaisedWithin(CalledAll(map[], lists[..last]), lists[last], id);
    }
  }

  /** So no machine integer overflows while the totals of a run sum to one: no stored weight, and no
    * raised weight of the latest call, repeated ids included. */
  lemma RunNeverOverflows(lists: seq<seq<ServiceInstance>>, list: seq<ServiceInstance>, i: nat, id: Text)
    requires |list| >= 2 && i < |list| && Work(lists + [list]) <= ISIZE_MAX
    ensures ISIZE_MIN < Current(CalledAll(map[], lists), id) <= ISIZE_MAX
    ensures ISIZE_MIN < Candidate(CalledAll(map[], lists), list, i) <= ISIZE_MAX
    ensures ISIZE_MIN < Current(CalledAll(map[], lists + [list]), id) <= ISIZE_MAX
  {
    assert (lists + [list])[..|lists|] == lists;
    RunWithin(lists, id);
    RunWithin(lists, list[i].serviceId);
    RunWithin(lists + [list], id);
    RaisedWithin(CalledAll(map[], lists), list[..i + 1], list[i].serviceId);
    TotalOfPrefix(list, i + 1);
  }

  /** Call t starts with its first listed weight representable. */
  ghost predicate StartsInRange(lists: seq<seq<ServiceInstance>>, t: int) {
    0 <= t < |lists|
    && (|lists[t]| >= 2 ==> Current(CalledAll(map[], lists[..t]), lists[t][0].serviceId) >= ISIZE_MIN)
  }

  /** Over every sequence of lists, however long - instances joining, leaving, repeated - the stored
    * weights of a service always sum to zero while every call finds its first weight representable. */
  lemma {:induction false} RunConservesInRange(lists: seq<seq<ServiceInstance>>)
    requires forall t :: 0 <= t < |lists| ==> StartsInRange(lists, t)
    ensures Stored(CalledAll(map[], lists)) == 0
  {
    hide Next;
    if lists != [] {
      var last := |lists| - 1;
      forall t | 0 <= t < last
        ensures StartsInRange(lists[..last], t)
      {
        assert StartsInRange(lists, t) && lists[..last][..t] == lists[..t];
      }
      RunConservesInRange(lists[..last]);
      assert StartsInRange(lists, last);
      if |lists[last]| >= 2 {
        NextConserves(CalledAll(map[], lists[..last]), lists[last]);
      }
    }
  }

  lemma {:induction false} WorkOfPrefix(lists: seq<seq<ServiceInstance>>, t: nat)
    requires t <= |lists|
    ensures Work(lists[..t]) <= Work(lists)
  {
    if t < |lists| {
      WorkOfPrefix(lists[..|lists| - 1], t);
      assert lists[..|lists| - 1][..t] == lists[..t];
    } else {
      assert lists[..t] == lists;
    }
  }

  /** In particular while the totals of the run sum to a machine integer, which the lists alone tell. */
  lemma RunConserves(lists: seq<seq<ServiceInstance>>)
    requires Work(lists) <= ISIZE_MAX
    ensures Stored(CalledAll(map[], lists)) == 0
  {
    forall t | 0 <= t < |lists|
      ensures StartsInRange(lists, t)
    {
      if |lists[t]| >= 2 {
        RunWithin(lists[..t], lists[t][0].serviceId);
        WorkOfPrefix(lists, t);
      }
    }
    RunConservesInRange(lists);
  }

  // ---- What the selector answers over its whole life ----

  /** One call for a service: the list it was given and the position it answered with. */
  datatype Call = Call(list: seq<ServiceInstance>, chosen: Option<nat>)

  function ListsOf(calls: seq<Call>): (r: seq<seq<ServiceInstance>>)
    ensures |r| == |calls|
    ensures forall k :: 0 <= k < |calls| ==> r[k] == calls[k].list
  {
    seq(|calls|, k requires 0 <= k < |calls| => calls[k].list)
  }

  /** The weights that the calls so far leave behind. */
  function WeightsAfter(calls: seq<Call>): Weights {
    CalledAll(map[], ListsOf(calls))
  }

  function Answer(ws: Weights, list: seq<ServiceInstance>): Option<nat> {
    if list == [] then None
    else if |list| == 1 then Some(0)
    else Some(Picked(ws, list))
  }

  /** Every answer was given from the weights that the calls before it left behind. */
  ghost predicate Recorded(calls: seq<Call>) {
    forall t :: 0 <= t < |calls| ==> calls[t].chosen == Answer(WeightsAfter(calls[..t]), calls[t].list)
  }

  lemma WeightsAfterOneMore(calls: seq<Call>, c: Call)
    ensures WeightsAfter(calls + [c]) == Called(WeightsAfter(calls), c.list)
  {
    var lists := ListsOf(calls + [c]);
    assert lists[..|calls|] == ListsOf(calls) && lists[|calls|] == c.list;
  }

  lemma RecordedOneMore(calls: seq<Call>, c: Call)
    requires Recorded(calls) && c.chosen == Answer(WeightsAfter(calls), c.list)
    ensures Recorded(calls + [c])
  {
    hide WeightsAfter, Answer;
    var longer := calls + [c];
    forall t | 0 <= t < |longer|
      ensures longer[t].chosen == Answer(WeightsAfter(longer[..t]), longer[t].list)
    {
      assert longer[..t] == calls[..t];
      if t == |calls| {
        assert calls[..t] == calls;
      }
    }
  }

  /** How many of calls from .. to - 1 answered position i. */
  function Times(calls: seq<Call>, i: nat, from: nat, to: nat): nat
    requires from <= to <= |calls|
  {
    if from == to then 0
    else Times(calls, i, from, to - 1) + (if calls[to - 1].chosen == Some(i) then 1 else 0)
  }

  /** Calls from .. to - 1 were all given this list. */
  ghost predicate AllGiven(calls: seq<Call>, list: seq<ServiceInstance>, from: nat, to: nat) {
    to <= |calls| && forall k :: from <= k < to ==> calls[k].list == list
  }

  lemma {:induction false} CallsAreRun(calls: seq<Call>, list: seq<ServiceInstance>, from: nat, t: nat)
    requires |list| >= 2 && AllGiven(calls, list, from, from + t)
    ensures WeightsAfter(calls[..from + t]) == After(WeightsAfter(calls[..from]), list, t)
  {
    hide WeightsAfter, Next;
    if t > 0 {
      CallsAreRun(calls, list, from, t - 1);
      var front := calls[..from + t - 1];
      assert calls[..from + t] == front + [calls[from + t - 1]];
      WeightsAfterOneMore(front, calls[from + t - 1]);
    }
  }

  lemma {:induction false} TimesAreHits(calls: seq<Call>, list: seq<ServiceInstance>, from: nat, i: nat, a: nat, b: nat)
    requires |list| >= 2 && a <= b && AllGiven(calls, list, from, from + b) && Recorded(calls)
    ensures Times(calls, i, from + a, from + b) == Hits(WeightsAfter(calls[..from]), list, i, a, b)
  {
    hide WeightsAfter, After, Picked;
    if a < b {
      TimesAreHits(calls, list, from, i, a, b - 1);
      CallsAreRun(calls, list, from, b - 1);
      var k := from + b - 1;
      assert calls[k].chosen == Answer(WeightsAfter(calls[..k]), calls[k].list);
    }
  }

  lemma {:induction false} OnlyOneAlwaysTimes(calls: seq<Call>, list: seq<ServiceInstance>, from: nat, to: nat)
    requires |list| == 1 && from <= to && AllGiven(calls, list, from, to) && Recorded(calls)
    ensures Times(calls, 0, from, to) == to - from
  {
    hide WeightsAfter;
    if from < to {
      OnlyOneAlwaysTimes(calls, list, from, to - 1);
      assert calls[to - 1].chosen == Answer(WeightsAfter(calls[..to - 1]), calls[to - 1].list);
    }
  }

  /** Exact fairness of what the selector answered: if a service was always given the same list, every
    * window of W / g of its answers holds position i exactly w_i / g times. */
  lemma AnswersExactlyFair(calls: seq<Call>, list: seq<ServiceInstance>, g: int, s: nat, i: nat)
    requires Recorded(calls) && DistinctIds(list) && i < |list|
    requires |list| * Total(list) <= ISIZE_MAX && CommonDivisor(list, g)
    requires AllGiven(calls, list, 0, s + Period(list, g))
    ensures Period(list, g) > 0 && Times(calls, i, s, s + Period(list, g)) == Scaled(list[i]) / g
  {
    hide Times, Recorded, WeightsAfter, Hits, Scaled, Next;
    var p := Period(list, g);
    assert calls[..0] == [];
    FreshStart(list);
    ExactFairness(map[], list, g, s, i);
    if |list| == 1 {
      OnlyOneAlwaysTimes(calls, list, s, s + p);
      TotalOfOne(list);
    } else {
      TimesAreHits(calls, list, 0, i, s, s + p);
    }
  }

  lemma FreshStart(list: seq<ServiceInstance>)
    ensures Fresh(map[], list) && WeightsAfter([]) == map[]
  {
  }

  lemma TotalOfOne(list: seq<ServiceInstance>)
    requires |list| == 1
    ensures Total(list) == Scaled(list[0])
  {
    assert list[..0] == [];
  }

  /** Bounded error of what the selector answered: after any calls whatever, T answers on one list hold
    * position i in proportion to w_i up to an error fixed by the weights found at the start. */
  lemma AnswersBoundedError(calls: seq<Call>, list: seq<ServiceInstance>, from: nat, t: nat, i: nat)
    requires Recorded(calls) && DistinctIds(list) && i < |list| && |list| >= 2
    requires AllGiven(calls, list, from, from + t) && Roomy(WeightsAfter(calls[..from]), list)
    ensures -Spread(WeightsAfter(calls[..from]), list)
            <= t * Scaled(list[i]) - Total(list) * Times(calls, i, from, from + t)
            <= Spread(WeightsAfter(calls[..from]), list)
  {
    hide Times, Recorded, WeightsAfter, Hits, Scaled, Total, Roomy, Spread;
    TimesAreHits(calls, list, from, i, 0, t);
    BoundedError(WeightsAfter(calls[..from]), list, t, i);
  }

  // ---- The selector ----

  class WeightedRoundRobinSelector {
    var state: map<Text, Weights>
    ghost var calls: map<Text, seq<Call>>   // every call so far, by service

    ghost function CallsOf(serviceName: Text): seq<Call>
      reads this
    {
      if serviceName in calls then calls[serviceName] else []
    }

    function WeightsOf(serviceName: Text): Weights
      reads this
    {
      if serviceName in state then state[serviceName] else map[]
    }

    /** What is stored for a service is what its own calls left behind, and its answers came from that. */
    ghost predicate Valid()
      reads this
    {
      forall svc :: WeightsOf(svc) == WeightsAfter(CallsOf(svc)) && Recorded(CallsOf(svc))
    }

    constructor ()
      ensures Valid() && state == map[] && calls == map[]
    {
      state, calls := map[], map[];
    }

    /** Returns the position of the chosen instance. */
    method Select(ctx: SelectContext, list: seq<ServiceInstance>) returns (chosen: Option<nat>)
      requires Valid()
      modifies this
      ensures Valid()
      ensures calls == old(calls)[ctx.serviceName := old(CallsOf(ctx.serviceName)) + [Call(list, chosen)]]
      ensures forall other :: other != ctx.serviceName ==> WeightsOf(other) == old(WeightsOf(other))
      ensures list == [] ==> chosen == None
      ensures |list| == 1 ==> chosen == Some(0)
      ensures |list| < 2 ==> state == old(state)
      ensures |list| >= 2 ==>
                && chosen == Some(Picked(old(WeightsOf(ctx.serviceName)), list))
                && state == old(state)[ctx.serviceName := Next(old(WeightsOf(ctx.serviceName)), list)]
    {
      hide WeightsAfter, Recorded, Next, Picked, Raised, Winner, Total;
      ghost var before := CallsOf(ctx.serviceName);
      if list == [] {
        chosen := None;
      } else if |list| == 1 {
        chosen := Some(0);
      } else {
        var weights := if ctx.serviceName in state then state[ctx.serviceName] else map[];
        ScanEnd(weights, list);
        var raised, total, best := Scan(weights, list);
        if best.Some? {
          var id := list[best.value].serviceId;
          raised := raised[id := Current(raised, id) - total];
        }
        state := state[ctx.serviceName := raised];
        chosen := Some(if best.Some? then best.value else 0);
      }
      RecordedOneMore(before, Call(list, chosen));
      WeightsAfterOneMore(before, Call(list, chosen));
      calls := calls[ctx.serviceName := before + [Call(list, chosen)]];
      forall svc
        ensures WeightsOf(svc) == WeightsAfter(CallsOf(svc)) && Recorded(CallsOf(svc))
      {
        assert old(WeightsOf(svc)) == WeightsAfter(old(CallsOf(svc))) && Recorded(old(CallsOf(svc)));
      }
    }

    /** So the object itself is exactly fair: if a service was only ever given this list, every W / g
      * consecutive calls for it returned position i exactly w_i / g times, whatever was asked for other
      * services in between. */
    lemma ExactlyFair(serviceName: Text, list: seq<ServiceInstance>, g: int, s: nat, i: nat)
      requires Valid() && DistinctIds(list) && i < |list|
      requires |list| * Total(list) <= ISIZE_MAX && CommonDivisor(list, g)
      requires AllGiven(CallsOf(serviceName), list, 0, s + Period(list, g))
      ensures Period(list, g) > 0
      ensures Times(CallsOf(serviceName), i, s, s + Period(list, g)) == Scaled(list[i]) / g
    {
      AnswersExactlyFair(CallsOf(serviceName), list, g, s, i);
    }
  }

  /** The loop: raises every listed id and remembers the first greatest running weight. */
  method Scan(ws: Weights, list: seq<ServiceInstance>)
    returns (weights: Weights, total: int, best: Option<nat>)
    ensures weights == Raised(ws, list) && total == Total(list) && best == Winner(ws, list)
  {
    hide *;
    weights, total, best := ws, 0, None;
    var greatest := ISIZE_MIN;
    ScanStart(ws, list);
    for i := 0 to |list|
      invariant weights == Raised(ws, list[..i])
      invariant total == Total(list[..i])
      invariant best == Winner(ws, list[..i])
      invariant best.Some? ==> best.value < |list|
      invariant greatest == Threshold(ws, list, best)
    {
      ScanStep(ws, list, i);
      var inst := list[i];
      var weight := Scaled(inst);
      total := total + weight;
      weights := weights[inst.serviceId := Current(weights, inst.serviceId) + weight];
      if weights[inst.serviceId] > greatest {
        greatest := weights[inst.serviceId];
        best := Some(i);
      }
    }
    assert list[..|list|] == list;
  }
}
