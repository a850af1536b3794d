/** The discovery search of `RdmApi::discoverDevices` as a transition system over abstract device
    sets (section 7 of ANSI E1.20): what every step keeps, how many requests a run needs, and exactly
    when it finds every device. */
module DiscoverySearch {

  /** An inclusive range of UIDs; empty when hi < lo. */
  datatype Range = Range(lo: nat, hi: nat)

  ghost function Within(devices: set<nat>, r: Range): set<nat> {
    set u | u in devices && r.lo <= u <= r.hi
  }

  function Mid(r: Range): nat {
    (r.lo + r.hi) / 2
  }

  function Lower(r: Range): Range
    requires Mid(r) >= 1
  {
    Range(r.lo, Mid(r) - 1)
  }

  function Upper(r: Range): Range {
    Range(Mid(r), r.hi)
  }

  datatype Search = Search(unmuted: set<nat>, pending: seq<Range>, found: seq<nat>,
                           requests: nat, collisions: nat)

  ghost function Start(devices: set<nat>, r: Range): Search {
    Search(devices, [r], [], 0, 0)
  }

  lemma TwoMembers(devices: set<nat>, r: Range) returns (u: nat, v: nat)
    requires |Within(devices, r)| >= 2
    ensures u in Within(devices, r) && v in Within(devices, r) && u < v
  {
    var hits := Within(devices, r);
    var a :| a in hits;
    assert |hits - {a}| >= 1;
    var b :| b in hits - {a};
    u, v := if a < b then a else b, if a < b then b else a;
  }

  /** A collision never makes the split underflow, because no device has UID 0. */
  lemma CollisionMid(devices: set<nat>, r: Range)
    requires 0 !in devices && |Within(devices, r)| >= 2
    ensures Mid(r) >= 1 && r.lo < Mid(r) + 1 <= r.hi && r.lo < r.hi
  {
    var u, v := TwoMembers(devices, r);
  }

  ghost function Lone(hits: set<nat>): (u: nat)
    requires |hits| == 1
    ensures hits == {u}
  {
    var u :| u in hits;
    assert |hits - {u}| == 0;
    u
  }

  /** One turn of the loop: ask about the oldest pending range and act on the answer. */
  ghost function Step(s: Search): Search
    requires s.pending != [] && 0 !in s.unmuted
  {
    var r, rest := s.pending[0], s.pending[1..];
    var hits := Within(s.unmuted, r);
    if |hits| == 0 then
      s.(pending := rest, requests := s.requests + 1)
    else if |hits| == 1 then
      var u := Lone(hits);
      s.(unmuted := s.unmuted - {u}, pending := rest + [r],
         found := if u in s.found then s.found else s.found + [u], requests := s.requests + 1)
    else
      CollisionMid(s.unmuted, r);
      s.(pending := rest + [Lower(r), Upper(r)], requests := s.requests + 1, collisions := s.collisions + 1)
  }

  /** The turn by what is in the oldest pending range: nobody, and it is done with; one device, which is muted,
      reported last, and the range is asked again after all others; several, and the range is split in the middle,
      the halves being asked after all others. */
  lemma StepMeans(s: Search)
    requires s.pending != [] && 0 !in s.unmuted
    ensures var t, r, rest := Step(s), s.pending[0], s.pending[1..];
            var hits := Within(s.unmuted, r);
            && t.requests == s.requests + 1
            && (hits == {} ==> t.unmuted == s.unmuted && t.found == s.found && t.pending == rest)
            && (forall u :: hits == {u} ==>
                  t.unmuted == s.unmuted - {u} && t.pending == rest + [r] && (u !in s.found ==> t.found == s.found + [u]))
            && (|hits| >= 2 ==>
                  && t.unmuted == s.unmuted && t.found == s.found && 1 <= (r.lo + r.hi) / 2
                  && t.pending == rest + [Range(r.lo, (r.lo + r.hi) / 2 - 1), Range((r.lo + r.hi) / 2, r.hi)])
  {
    var hits := Within(s.unmuted, s.pending[0]);
    if |hits| >= 2 {
      CollisionMid(s.unmuted, s.pending[0]);
    } else {
      assert |hits| == 0 <==> hits == {};
    }
  }

  ghost function Run(s: Search, budget: nat): Search
    requires 0 !in s.unmuted
    decreases budget
  {
    if budget == 0 || s.pending == [] then s else Run(Step(s), budget - 1)
  }

  lemma RunEnds(s: Search, budget: nat)
    requires 0 !in s.unmuted
    ensures budget == 0 || s.pending == [] ==> Run(s, budget) == s
    ensures budget > 0 && s.pending != [] ==> Run(s, budget) == Run(Step(s), budget - 1)
  {
  }

  // ----- coverage ---------------------------------------------------------------------------

  ghost predicate Pending(s: Search, u: nat) {
    exists i :: 0 <= i < |s.pending| && s.pending[i].lo <= u <= s.pending[i].hi
  }

  /** No device is lost, none is invented, none is reported twice, and every request is accounted for. */
  ghost predicate Covers(s: Search, devices: set<nat>, r: Range) {
    && (forall u | u in Within(s.unmuted, r) :: Pending(s, u))
    && s.unmuted == devices - (set u | u in s.found)
    && (forall u | u in s.found :: u in Within(devices, r))
    && (forall i, j | 0 <= i < j < |s.found| :: s.found[i] != s.found[j])
    && (forall i | 0 <= i < |s.pending| :: r.lo <= s.pending[i].lo && s.pending[i].hi <= r.hi)
    && s.requests + |s.pending| == 1 + 2 * s.collisions + |s.found|
  }

  lemma CoversStart(devices: set<nat>, r: Range)
    ensures Covers(Start(devices, r), devices, r)
  {
    var s := Start(devices, r);
    assert s.pending[0] == r;
  }

  lemma CoversStep(s: Search, devices: set<nat>, r: Range)
    requires 0 !in devices && Covers(s, devices, r) && s.pending != []
    ensures Covers(Step(s), devices, r)
  {
    var t, front := Step(s), s.pending[0];
    var hits := Within(s.unmuted, front);
    forall u | u in Within(t.unmuted, r)
      ensures Pending(t, u)
    {
      assert u in Within(s.unmuted, r) && Pending(s, u);
      var i :| 0 <= i < |s.pending| && s.pending[i].lo <= u <= s.pending[i].hi;
      if i > 0 {
        assert t.pending[i - 1] == s.pending[i];
      } else {
        assert u in hits;
        var last := |t.pending| - 1;
        CollisionMid(s.unmuted, front);
        assert t.pending[last] == Upper(front) && t.pending[last - 1] == Lower(front);
      }
    }
    if |hits| == 1 {
      assert Lone(hits) in hits;
    } else if |hits| > 1 {
      CollisionMid(s.unmuted, front);
    }
  }

  /** The coverage invariant holds after any number of requests. */
  lemma {:induction false} CoversRun(s: Search, budget: nat, devices: set<nat>, r: Range)
    requires 0 !in devices && Covers(s, devices, r)
    ensures Covers(Run(s, budget), devices, r)
    ensures Run(s, budget).requests <= s.requests + budget
    ensures Run(s, budget).pending == [] || Run(s, budget).requests == s.requests + budget
    decreases budget
  {
    if budget > 0 && s.pending != [] {
      CoversStep(s, devices, r);
      CoversRun(Step(s), budget - 1, devices, r);
    }
  }

  /** An empty work list means that every device of the range was found. */
  lemma EmptyMeansComplete(s: Search, devices: set<nat>, r: Range)
    requires Covers(s, devices, r) && s.pending == []
    ensures (set u | u in s.found) == Within(devices, r)
  {
    forall u | u in Within(devices, r)
      ensures u in s.found
    {
      assert u in Within(s.unmuted, r) ==> Pending(s, u);
    }
  }

  // ----- the request bound --------------------------------------------------------------------

  function BitLength(n: nat): nat {
    if n == 0 then 0 else 1 + BitLength(n / 2)
  }

  /** Bits of the number of UIDs in the range minus two. */
  function Depth(r: Range): nat {
    if r.hi <= r.lo then 0 else BitLength(r.hi - r.lo - 1)
  }

  /** Requests that suffice for a range with `k` unmuted devices. */
  function Cost(r: Range, k: nat): nat {
    1 + k + 2 * Depth(r) * (k / 2)
  }

  ghost function Potential(devices: set<nat>, pending: seq<Range>): nat {
    if pending == [] then 0
    else Cost(pending[0], |Within(devices, pending[0])|) + Potential(devices, pending[1..])
  }

  /** The range [u, u+1] is one of those that repeated splitting of `r` asks about. */
  predicate SplitReaches(r: Range, u: nat)
    decreases r.hi - r.lo
  {
    if r.hi <= r.lo + 1 then r.lo == u && r.hi == u + 1
    else if u + 1 < Mid(r) then SplitReaches(Lower(r), u)
    else if Mid(r) <= u then SplitReaches(Upper(r), u)
    else false
  }

  /** Two neighbouring UIDs that the search of `r` can never tell apart. */
  ghost predicate StuckPair(devices: set<nat>, r: Range, u: nat) {
    u in devices && u + 1 in devices && SplitReaches(r, u)
  }

  ghost predicate Separable(devices: set<nat>, r: Range) {
    forall u: nat :: !StuckPair(devices, r, u)
  }

  lemma {:induction false} SplitReachesWithin(r: Range, u: nat)
    requires SplitReaches(r, u)
    ensures r.lo <= u && u + 1 <= r.hi
    decreases r.hi - r.lo
  {
    if r.hi > r.lo + 1 {
      SplitReachesWithin(if u + 1 < Mid(r) then Lower(r) else Upper(r), u);
    }
  }

  /** Without neighbouring UIDs nothing can get stuck. */
  lemma NoNeighboursSeparable(devices: set<nat>, r: Range)
    requires forall u | u in devices :: u + 1 !in devices
    ensures Separable(devices, r)
  {
  }

  lemma SplitKeepsSeparable(devices: set<nat>, r: Range)
    requires Separable(devices, r) && r.lo + 1 < r.hi
    ensures Separable(devices, Lower(r)) && Separable(devices, Upper(r))
  {
    forall u: nat
      ensures !StuckPair(devices, Lower(r), u) && !StuckPair(devices, Upper(r), u)
    {
      if StuckPair(devices, Lower(r), u) {
        SplitReachesWithin(Lower(r), u);
        assert StuckPair(devices, r, u);
      }
      if StuckPair(devices, Upper(r), u) {
        SplitReachesWithin(Upper(r), u);
        assert StuckPair(devices, r, u);
      }
    }
  }

  /** A separable range with a collision spans at least three UIDs. */
  lemma SeparableCollisionWide(devices: set<nat>, r: Range)
    requires Separable(devices, r) && |Within(devices, r)| >= 2
    ensures r.lo + 1 < r.hi
  {
    var u, v := TwoMembers(devices, r);
    if r.hi == r.lo + 1 {
      assert StuckPair(devices, r, u);
    }
  }

  lemma SplitCounts(devices: set<nat>, r: Range)
    requires r.lo + 1 < r.hi
    ensures |Within(devices, Lower(r))| + |Within(devices, Upper(r))| == |Within(devices, r)|
  {
    var a, b := Within(devices, Lower(r)), Within(devices, Upper(r));
    assert a !! b && a + b == Within(devices, r);
  }

  lemma DepthHalves(r: Range)
    requires r.lo + 1 < r.hi
    ensures Depth(Upper(r)) == Depth(r) - 1 && Depth(Lower(r)) <= Depth(r) - 1
  {
    var n := r.hi - r.lo - 1;
    assert BitLength(n) == 1 + BitLength(n / 2);
    assert Mid(r) == r.lo + (r.hi - r.lo) / 2;
    if Upper(r).hi > Upper(r).lo {
      assert Upper(r).hi - Upper(r).lo - 1 == n / 2;
    }
    if Lower(r).hi > Lower(r).lo {
      BitLengthMonotone(Lower(r).hi - Lower(r).lo - 1, n / 2);
    }
  }

  lemma {:induction false} BitLengthMonotone(m: nat, n: nat)
    requires m <= n
    ensures BitLength(m) <= BitLength(n)
  {
    if m > 0 {
      BitLengthMonotone(m / 2, n / 2);
    }
  }

  lemma MulMonotone(a: nat, b: nat, x: nat, y: nat)
    requires a <= b && x <= y
    ensures a * x <= b * y
  {
    assert b * y == a * x + a * (y - x) + (b - a) * y;
  }

  /** Splitting pays for itself: the two halves together cost less than the whole. */
  lemma SplitCost(r: Range, lower: Range, upper: Range, i: nat, j: nat)
    requires i + j >= 2 && Depth(r) >= 1
    requires Depth(lower) <= Depth(r) - 1 && Depth(upper) <= Depth(r) - 1
    ensures Cost(lower, i) + Cost(upper, j) + 1 <= Cost(r, i + j)
  {
    SplitProducts(Depth(lower), Depth(upper), Depth(r) - 1, i / 2, j / 2, (i + j) / 2);
  }

  lemma SplitProducts(dl: nat, du: nat, d: nat, x: nat, y: nat, h: nat)
    requires dl <= d && du <= d && x + y <= h
    ensures 2 * dl * x + 2 * du * y + 2 * h <= 2 * (d + 1) * h
  {
    MulMonotone(dl, d, x, x);
    MulMonotone(du, d, y, y);
    MulMonotone(d, d, x + y, h);
    assert d * (x + y) == d * x + d * y;
  }

  lemma CostMonotone(r: Range, k: nat, l: nat)
    requires k <= l
    ensures Cost(r, k) <= Cost(r, l)
  {
    MulMonotone(2 * Depth(r), 2 * Depth(r), k / 2, l / 2);
  }

  lemma {:induction false} PotentialConcat(devices: set<nat>, a: seq<Range>, b: seq<Range>)
    ensures Potential(devices, a + b) == Potential(devices, a) + Potential(devices, b)
  {
    if a == [] {
      assert a + b == b;
    } else {
      assert (a + b)[1..] == a[1..] + b;
      PotentialConcat(devices, a[1..], b);
    }
  }

  lemma {:induction false} PotentialMonotone(fewer: set<nat>, devices: set<nat>, pending: seq<Range>)
    requires fewer <= devices
    ensures Potential(fewer, pending) <= Potential(devices, pending)
  {
    if pending != [] {
      var r := pending[0];
      SubsetSize(Within(fewer, r), Within(devices, r));
      CostMonotone(r, |Within(fewer, r)|, |Within(devices, r)|);
      PotentialMonotone(fewer, devices, pending[1..]);
    }
  }

  lemma SubsetSize(a: set<nat>, b: set<nat>)
    requires a <= b
    ensures |a| <= |b|
  {
    assert b == a + (b - a);
  }

  lemma PotentialOne(devices: set<nat>, r: Range)
    ensures Potential(devices, [r]) == Cost(r, |Within(devices, r)|)
  {
    assert [r][1..] == [];
  }

  /** Every request on separable ranges lowers the potential. */
  lemma PotentialStep(s: Search)
    requires 0 !in s.unmuted && s.pending != []
    requires forall i | 0 <= i < |s.pending| :: Separable(s.unmuted, s.pending[i])
    ensures Potential(Step(s).unmuted, Step(s).pending) < Potential(s.unmuted, s.pending)
    ensures forall i | 0 <= i < |Step(s).pending| :: Separable(Step(s).unmuted, Step(s).pending[i])
  {
    var t, r, rest := Step(s), s.pending[0], s.pending[1..];
    var k := |Within(s.unmuted, r)|;
    assert Separable(s.unmuted, r);
    if k == 1 {
      PotentialConcat(t.unmuted, rest, [r]);
      PotentialMonotone(t.unmuted, s.unmuted, rest);
      PotentialOne(t.unmuted, r);
      assert Within(t.unmuted, r) == {};
      forall i | 0 <= i < |t.pending|
        ensures Separable(t.unmuted, t.pending[i])
      {
        var q := t.pending[i];
        assert Separable(s.unmuted, q) by {
          if i < |rest| { assert q == s.pending[i + 1]; }
        }
        forall u: nat
          ensures !StuckPair(t.unmuted, q, u)
        {
          assert !StuckPair(s.unmuted, q, u);
        }
      }
    } else if k >= 2 {
      CollisionMid(s.unmuted, r);
      SeparableCollisionWide(s.unmuted, r);
      SplitKeepsSeparable(s.unmuted, r);
      PotentialConcat(s.unmuted, rest, [Lower(r), Upper(r)]);
      assert [Lower(r), Upper(r)][1..] == [Upper(r)];
      PotentialOne(s.unmuted, Upper(r));
      SplitCounts(s.unmuted, r);
      DepthHalves(r);
      SplitCost(r, Lower(r), Upper(r), |Within(s.unmuted, Lower(r))|, |Within(s.unmuted, Upper(r))|);
    }
  }

  lemma {:induction false} PotentialRun(s: Search, budget: nat)
    requires 0 !in s.unmuted && budget >= Potential(s.unmuted, s.pending)
    requires forall i | 0 <= i < |s.pending| :: Separable(s.unmuted, s.pending[i])
    ensures Run(s, budget).pending == []
    ensures Run(s, budget).requests <= s.requests + Potential(s.unmuted, s.pending)
    decreases budget
  {
    if s.pending != [] {
      assert Potential(s.unmuted, s.pending) >= 1;
      PotentialStep(s);
      PotentialRun(Step(s), budget - 1);
    }
  }

  // ----- the other direction: a stuck pair is never resolved -------------------------------------

  predicate Contains(r: Range, u: nat) {
    r.lo <= u <= r.hi
  }

  /** Range `i` is the only pending one that touches the pair, and splitting it keeps the pair together. */
  ghost predicate Trapped(s: Search, u: nat, i: nat) {
    && u in s.unmuted && u + 1 in s.unmuted
    && i < |s.pending| && SplitReaches(s.pending[i], u)
    && forall j | 0 <= j < |s.pending| && j != i ::
         !Contains(s.pending[j], u) && !Contains(s.pending[j], u + 1)
  }

  lemma TrappedStep(s: Search, u: nat, i: nat) returns (i': nat)
    requires 0 !in s.unmuted && Trapped(s, u, i)
    ensures Trapped(Step(s), u, i')
  {
    var t, r, rest := Step(s), s.pending[0], s.pending[1..];
    var hits := Within(s.unmuted, r);
    if i > 0 {
      i' := i - 1;
      assert !Contains(r, u) && !Contains(r, u + 1);
      assert forall j | 0 <= j < |rest| :: t.pending[j] == s.pending[j + 1];
      if |hits| == 1 {
        assert Lone(hits) in hits;
      } else if |hits| >= 2 {
        CollisionMid(s.unmuted, r);
      }
    } else {
      SplitReachesWithin(r, u);
      assert {u, u + 1} <= hits;
      SubsetSize({u, u + 1}, hits);
      CollisionMid(s.unmuted, r);
      i' := |rest| + if r.hi <= r.lo + 1 || Mid(r) <= u then 1 else 0;
      assert forall j | 0 <= j < |rest| :: t.pending[j] == s.pending[j + 1];
      assert t.pending[|rest|] == Lower(r) && t.pending[|rest| + 1] == Upper(r);
    }
  }

  lemma {:induction false} TrappedRun(s: Search, budget: nat, u: nat, i: nat)
    requires 0 !in s.unmuted && Trapped(s, u, i)
    ensures u in Run(s, budget).unmuted && u + 1 in Run(s, budget).unmuted && Run(s, budget).pending != []
    decreases budget
  {
    if budget > 0 {
      var i' := TrappedStep(s, u, i);
      TrappedRun(Step(s), budget - 1, u, i');
    }
  }

  // ----- main results ------------------------------------------------------------------------------

  /** With k devices in range and a budget of 1 + k + 2·L·floor(k/2) requests, discovery returns exactly
      the devices of the range if and only if no neighbouring pair of them is one that splitting reaches. */
  lemma DiscoveryComplete(devices: set<nat>, r: Range, budget: nat)
    requires 0 !in devices && budget >= Cost(r, |Within(devices, r)|)
    ensures var t := Run(Start(devices, r), budget);
            && ((set u | u in t.found) == Within(devices, r) <==> Separable(devices, r))
            && (t.pending == [] <==> Separable(devices, r))
            && (Separable(devices, r) ==> t.requests <= Cost(r, |Within(devices, r)|))
  {
    var s := Start(devices, r);
    var t := Run(s, budget);
    CoversStart(devices, r);
    CoversRun(s, budget, devices, r);
    if Separable(devices, r) {
      PotentialOne(devices, r);
      PotentialRun(s, budget);
      EmptyMeansComplete(t, devices, r);
    } else {
      var u: nat :| StuckPair(devices, r, u);
      TrappedRun(s, budget, u, 0);
      SplitReachesWithin(r, u);
      assert u in Within(devices, r) && u !in t.found;
    }
  }

  /** A stuck pair defeats every budget: neither of its two devices is ever reported. */
  lemma StuckPairNeverFound(devices: set<nat>, r: Range, u: nat, budget: nat)
    requires 0 !in devices && StuckPair(devices, r, u)
    ensures var t := Run(Start(devices, r), budget);
            u !in t.found && u + 1 !in t.found && t.pending != []
  {
    CoversStart(devices, r);
    CoversRun(Start(devices, r), budget, devices, r);
    TrappedRun(Start(devices, r), budget, u, 0);
  }

  /** The range that `startDiscovery` searches by default is 48 bits deep. */
  lemma DefaultRangeDepth()
    ensures Depth(Range(1, 0xFFFF_FFFF_FFFE)) == 48
    ensures forall k: nat {:trigger Cost(Range(1, 0xFFFF_FFFF_FFFE), k)} ::
              Cost(Range(1, 0xFFFF_FFFF_FFFE), k) == 1 + k + 96 * (k / 2)
  {
    BitLength48(0xFFFF_FFFF_FFFC);
  }

  function Pow2(n: nat): nat {
    if n == 0 then 1 else 2 * Pow2(n - 1)
  }

  lemma {:induction false} BitLengthBetween(n: nat, b: nat)
    requires b > 0 && Pow2(b - 1) <= n < Pow2(b)
    ensures BitLength(n) == b
  {
    if b == 1 {
      assert Pow2(0) == 1 && Pow2(1) == 2;
      assert n == 1 && BitLength(1) == 1 + BitLength(0);
    } else {
      BitLengthBetween(n / 2, b - 1);
    }
  }

  lemma BitLength48(n: nat)
    requires 0x8000_0000_0000 <= n < 0x1_0000_0000_0000
    ensures BitLength(n) == 48
  {
    assert Pow2(12) == 4096;
    Pow2Sum(12, 12);
    Pow2Sum(24, 23);
    Pow2Sum(12, 11);
    Pow2Sum(24, 24);
    BitLengthBetween(n, 48);
  }

  lemma TwiceProduct(x: nat, y: nat)
    ensures 2 * x * y == 2 * (x * y)
  {
  }

  lemma {:induction false} Pow2Sum(a: nat, b: nat)
    ensures Pow2(a + b) == Pow2(a) * Pow2(b)
  {
    if a > 0 {
      Pow2Sum(a - 1, b);
      assert Pow2(a) == 2 * Pow2(a - 1) && Pow2(a + b) == 2 * Pow2(a - 1 + b);
      hide Pow2;
      TwiceProduct(Pow2(a - 1), Pow2(b));
    }
  }

  // ----- a reply that goes astray -----------------------------------------------------------------------

  /** Discovery by a controller that is free of unanswered requests, or is not: then the reply to the first
      request goes to an older one, its range is dropped, and the search is over. */
  ghost function Discover(devices: set<nat>, r: Range, budget: nat, clean: bool): Search
    requires 0 !in devices
  {
    if clean || budget == 0 then Run(Start(devices, r), budget)
    else Start(devices, r).(pending := [], requests := 1)
  }

  /** Exactly when a sufficient budget finds all devices of the range. Without a clean start the empty work
      list says nothing. */
  lemma DiscoverComplete(devices: set<nat>, r: Range, budget: nat, clean: bool)
    requires 0 !in devices && budget >= Cost(r, |Within(devices, r)|)
    ensures var t := Discover(devices, r, budget, clean);
            && ((set u | u in t.found) == Within(devices, r) <==> (clean && Separable(devices, r)) || Within(devices, r) == {})
            && (t.pending == [] <==> !clean || Separable(devices, r))
  {
    DiscoveryComplete(devices, r, budget);
    if Within(devices, r) == {} {
      NobodySeparable(devices, r);
    }
    CostPositive(r, |Within(devices, r)|);
    hide Run, Separable, Within, Cost;
    if !clean {
      assert (set u | u in Discover(devices, r, budget, clean).found) == {};
    }
  }

  lemma CostPositive(r: Range, k: nat)
    ensures Cost(r, k) >= 1
  {
  }

  lemma NobodySeparable(devices: set<nat>, r: Range)
    requires Within(devices, r) == {}
    ensures Separable(devices, r)
  {
    forall u: nat ensures !StuckPair(devices, r, u) {
      if StuckPair(devices, r, u) {
        StuckPairWithin(devices, r, u);
        assert false;
      }
    }
  }

  lemma StuckPairWithin(devices: set<nat>, r: Range, u: nat)
    requires StuckPair(devices, r, u)
    ensures u in Within(devices, r)
  {
    SplitReachesWithin(r, u);
  }

  /** A failing bus: devices 4 and 5 in the range 1..8 are never found, while 3 and 4 can be told apart. */
  lemma StuckExample(budget: nat)
    ensures var t := Run(Start({4, 5}, Range(1, 8)), budget); 4 !in t.found && 5 !in t.found
    ensures Separable({3, 4}, Range(1, 8))
  {
    assert SplitReaches(Range(1, 8), 4) by {
      assert SplitReaches(Range(4, 5), 4);
      assert SplitReaches(Range(4, 8), 4);
    }
    StuckPairNeverFound({4, 5}, Range(1, 8), 4, budget);
  }
}
