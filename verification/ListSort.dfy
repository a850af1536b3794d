/** `list_sort` of `list.h`: a merge sort that keeps sorted runs like the digits of a binary counter. */
module ListSort {
  import opened Sequences
  import opened ListEntry
  import opened StableMerge
  import opened KernelList

  const SLOTS := 21              // part[], whose last slot stays empty
  const CUR := 21                // the run being carried
  const REST := 22               // what has not been looked at yet
  const PLACES := 23

  // ----- runs as values -----------------------------------------------------------------------------------

  /** Older entries are in higher slots. */
  function Flat<T>(g: seq<seq<T>>): seq<T> {
    if g == [] then [] else Flat(g[1..]) + g[0]
  }

  /** Slots below `lev` are empty; the higher slots and the carried run hold `prefix` in sorted runs. */
  ghost predicate Counter<K(!new, 0)>(cmp: Cmp<K>, g: seq<seq<Node<K>>>, lev: nat, prefix: seq<Node<K>>) {
    && |g| == PLACES && lev < SLOTS && g[SLOTS - 1] == []
    && (forall k | 0 <= k <= CUR :: Sorted(cmp, g[k]))
    && (forall k | 0 <= k < lev :: g[k] == [])
    && Same(cmp, Flat(g[lev..SLOTS]) + g[CUR], prefix)
  }

  lemma FlatStep<T>(g: seq<seq<T>>, lev: nat)
    requires |g| == PLACES && lev < SLOTS
    ensures Flat(g[lev..SLOTS]) == Flat(g[lev + 1..SLOTS]) + g[lev]
  {
    assert g[lev..SLOTS][1..] == g[lev + 1..SLOTS];
  }

  lemma {:induction false} FlatEmpty<T>(g: seq<seq<T>>)
    requires forall k | 0 <= k < |g| :: g[k] == []
    ensures Flat(g) == []
  {
    if g != [] {
      FlatEmpty(g[1..]);
    }
  }

  /** The digit at `lev` is merged into the carry; it holds the older entries. */
  lemma CarryStep<K(!new, 0)>(cmp: Cmp<K>, g: seq<seq<Node<K>>>, lev: nat, prefix: seq<Node<K>>)
    requires TotalPreorder(cmp) && Counter(cmp, g, lev, prefix) && lev < SLOTS - 1
    ensures Counter(cmp, g[lev := []][CUR := Merge(cmp, g[lev], g[CUR])], lev + 1, prefix)
  {
    var h := g[lev := []][CUR := Merge(cmp, g[lev], g[CUR])];
    FlatStep(g, lev);
    assert h[lev + 1..SLOTS] == g[lev + 1..SLOTS];
    hide Flat, Merge, TotalPreorder, Sorted, Same;
    MergeSorted(cmp, g[lev], g[CUR]);
    MergeSame(cmp, Flat(g[lev + 1..SLOTS]), g[lev], g[CUR], prefix);
    EmptySorted(cmp);
  }

  lemma EmptySorted<K(!new, 0)>(cmp: Cmp<K>)
    ensures Sorted<K>(cmp, [])
  {
  }

  /** An empty digit needs no merge. */
  lemma CarrySkip<K(!new, 0)>(cmp: Cmp<K>, g: seq<seq<Node<K>>>, lev: nat, prefix: seq<Node<K>>)
    requires Counter(cmp, g, lev, prefix) && lev < SLOTS - 1 && g[lev] == []
    ensures Counter(cmp, g, lev + 1, prefix)
  {
    FlatStep(g, lev);
    assert Flat(g[lev + 1..SLOTS]) + g[lev] == Flat(g[lev + 1..SLOTS]);
  }

  lemma CarryBack<K(!new, 0)>(cmp: Cmp<K>, g: seq<seq<Node<K>>>, lev: nat, prefix: seq<Node<K>>)
    requires Counter(cmp, g, lev + 1, prefix)
    ensures Counter(cmp, g, lev, prefix)
  {
    FlatStep(g, lev);
    assert Flat(g[lev + 1..SLOTS]) + g[lev] == Flat(g[lev + 1..SLOTS]);
  }

  lemma {:induction false} CarryDown<K(!new, 0)>(cmp: Cmp<K>, g: seq<seq<Node<K>>>, lev: nat, prefix: seq<Node<K>>)
    requires Counter(cmp, g, lev, prefix)
    ensures Counter(cmp, g, 0, prefix)
  {
    if lev > 0 {
      CarryBack(cmp, g, lev - 1, prefix);
      CarryDown(cmp, g, lev - 1, prefix);
    }
  }

  /** The carry is put down in an empty slot. */
  lemma PutDown<K(!new, 0)>(cmp: Cmp<K>, g: seq<seq<Node<K>>>, lev: nat, prefix: seq<Node<K>>)
    requires Counter(cmp, g, lev, prefix) && lev < SLOTS - 1 && g[lev] == []
    ensures Counter(cmp, g[lev := g[CUR]][CUR := []], 0, prefix)
  {
    var h := g[lev := g[CUR]][CUR := []];
    FlatStep(g, lev);
    FlatStep(h, lev);
    assert h[lev + 1..SLOTS] == g[lev + 1..SLOTS];
    assert Flat(h[lev..SLOTS]) + h[CUR] == Flat(g[lev..SLOTS]) + g[CUR];
    EmptySorted(cmp);
    assert Counter(cmp, h, lev, prefix);
    CarryDown(cmp, h, lev, prefix);
  }

  /** One more entry to carry. */
  lemma PickUp<K(!new, 0)>(cmp: Cmp<K>, g: seq<seq<Node<K>>>, prefix: seq<Node<K>>, n: Node<K>, rest: seq<Node<K>>)
    requires Counter(cmp, g, 0, prefix) && g[CUR] == []
    ensures Counter(cmp, g[CUR := [n]][REST := rest], 0, prefix + [n])
  {
    var h := g[CUR := [n]][REST := rest];
    assert h[0..SLOTS] == g[0..SLOTS];
    assert Flat(g[0..SLOTS]) + g[CUR] == Flat(g[0..SLOTS]);
    SameSnoc(cmp, Flat(g[0..SLOTS]), prefix, n);
  }

  /** All that is left is one slot and the carry. */
  lemma LastMerge<K(!new, 0)>(cmp: Cmp<K>, g: seq<seq<Node<K>>>, lev: nat, prefix: seq<Node<K>>)
    requires TotalPreorder(cmp) && Counter(cmp, g, lev, prefix) && forall k | lev < k < SLOTS :: g[k] == []
    ensures StableSortOf(cmp, Merge(cmp, g[lev], g[CUR]), prefix)
  {
    FlatStep(g, lev);
    FlatEmpty(g[lev + 1..SLOTS]);
    assert [] + g[lev] + g[CUR] == Flat(g[lev..SLOTS]) + g[CUR];
    MergeSorted(cmp, g[lev], g[CUR]);
    MergeSame(cmp, [], g[lev], g[CUR], prefix);
    assert [] + Merge(cmp, g[lev], g[CUR]) == Merge(cmp, g[lev], g[CUR]);
  }

  // ----- runs as lists ------------------------------------------------------------------------------------

  ghost predicate Within<T>(s: seq<T>, t: seq<T>) {
    forall i | 0 <= i < |s| :: s[i] in t
  }

  /** The lists at `ps` are the runs `g`, no entry in two of them. */
  ghost predicate Lists<K(!new, 0)>(nodes: seq<Node<K>>, ps: seq<Node?<K>>, g: seq<seq<Node<K>>>)
    reads nodes`next
  {
    && |ps| == |g|
    && (forall k | 0 <= k < |g| :: Within(g[k], nodes) && Distinct(g[k]) && Chain(ps[k], g[k]))
    && (forall i, j | 0 <= i < |g| && 0 <= j < |g| && i != j :: Apart(g[i], g[j]))
  }

  /** The list at `i` is merged in front of the one at `j`. */
  method MergeAt<K(!new, 0)>(cmp: Cmp<K>, a: Node?<K>, b: Node?<K>, ghost nodes: seq<Node<K>>, ghost ps: seq<Node?<K>>,
                             ghost g: seq<seq<Node<K>>>, ghost i: nat, ghost j: nat)
    returns (r: Node?<K>)
    requires Lists(nodes, ps, g) && i < |g| && j < |g| && i != j && a == ps[i] && b == ps[j]
    modifies nodes`next
    ensures Lists(nodes, ps[i := null][j := r], g[i := []][j := Merge(cmp, g[i], g[j])])
  {
    hide Merge;
    r := MergeLists(cmp, a, b, g[i], g[j]);
    ghost var m := Merge(cmp, g[i], g[j]);
    MergeMembers(cmp, g[i], g[j]);
    WithinMerge(cmp, g[i], g[j], nodes);
    forall k | 0 <= k < |g| && k != i && k != j ensures Chain(ps[k], g[k]) && Apart(g[k], m) && Apart(m, g[k]) {
      assert Apart(g[k], g[i]) && Apart(g[k], g[j]);
      assert forall x | 0 <= x < |g[k]| :: g[k][x] in g[k];
    }
    hide Apart, Chain, Distinct, Within, Lists;
    Merged(nodes, ps, g, i, j, r, m);
  }

  lemma Merged<K(!new, 0)>(nodes: seq<Node<K>>, ps: seq<Node?<K>>, g: seq<seq<Node<K>>>, i: nat, j: nat, r: Node?<K>, m: seq<Node<K>>)
    requires |ps| == |g| && i < |g| && j < |g| && i != j
    requires forall k | 0 <= k < |g| && k != i && k != j ::
               Within(g[k], nodes) && Distinct(g[k]) && Chain(ps[k], g[k]) && Apart(g[k], m) && Apart(m, g[k])
    requires forall x, y | 0 <= x < |g| && 0 <= y < |g| && x != y :: Apart(g[x], g[y])
    requires Within(m, nodes) && Distinct(m) && Chain(r, m)
    ensures Lists(nodes, ps[i := null][j := r], g[i := []][j := m])
  {
    assert Chain<K>(null, []);
  }

  lemma WithinMerge<K(!new, 0)>(cmp: Cmp<K>, a: seq<Node<K>>, b: seq<Node<K>>, nodes: seq<Node<K>>)
    requires Within(a, nodes) && Within(b, nodes)
    ensures Within(Merge(cmp, a, b), nodes)
  {
    var m := Merge(cmp, a, b);
    forall i | 0 <= i < |m| ensures m[i] in nodes {
      MergeMember(cmp, a, b, m[i]);
    }
  }

  /** The first entry of the rest becomes a list of its own. */
  method Detach<K(!new, 0)>(list: Node<K>, ghost nodes: seq<Node<K>>, ghost ps: seq<Node?<K>>, ghost g: seq<seq<Node<K>>>)
    returns (rest: Node?<K>)
    requires Lists(nodes, ps, g) && |g| == PLACES && g[CUR] == [] && list == ps[REST]
    modifies list`next
    ensures g[REST] != [] && list == g[REST][0]
    ensures Lists(nodes, ps[CUR := list][REST := rest], g[CUR := [list]][REST := g[REST][1..]])
  {
    rest := list.next;
    list.next := null;
    forall k | 0 <= k < CUR ensures Chain(ps[k], g[k]) && Apart(g[k], [list]) && Apart([list], g[k]) {
      assert Apart(g[REST], g[k]);
      assert forall x | 0 <= x < |g[k]| :: g[k][x] in g[k];
    }
    assert Chain(rest, g[REST][1..]);
  }

  /** The carry is put into the empty slot `lev`. */
  lemma MoveList<K(!new, 0)>(nodes: seq<Node<K>>, ps: seq<Node?<K>>, g: seq<seq<Node<K>>>, lev: nat)
    requires Lists(nodes, ps, g) && |g| == PLACES && lev < SLOTS && g[lev] == []
    ensures Lists(nodes, ps[lev := ps[CUR]][CUR := null], g[lev := g[CUR]][CUR := []])
  {
  }

  // ----- the sort -----------------------------------------------------------------------------------------

  /** `part` and `cur` are the lists of all slots and of the carry. */
  ghost predicate Stored<K(!new, 0)>(part: seq<Node?<K>>, cur: Node?<K>, list: Node?<K>, ps: seq<Node?<K>>) {
    |ps| == PLACES && |part| == SLOTS && part == ps[..SLOTS] && ps[CUR] == cur && ps[REST] == list
  }

  lemma NullIsEmpty<K(!new, 0)>(nodes: seq<Node<K>>, ps: seq<Node?<K>>, g: seq<seq<Node<K>>>, k: nat)
    requires Lists(nodes, ps, g) && k < |g|
    ensures ps[k] == null <==> g[k] == []
  {
  }

  lemma CounterShape<K(!new, 0)>(cmp: Cmp<K>, g: seq<seq<Node<K>>>, lev: nat, prefix: seq<Node<K>>)
    requires Counter(cmp, g, lev, prefix)
    ensures |g| == PLACES && g[SLOTS - 1] == []
  {
  }

  /** The inner loop: merges full slots into the carry until it meets an empty one. */
  method Carry<K(!new, 0)>(cmp: Cmp<K>, part: array<Node?<K>>, single: Node<K>, ghost list: Node?<K>, ghost nodes: seq<Node<K>>,
                           ghost ps0: seq<Node?<K>>, ghost g0: seq<seq<Node<K>>>, ghost prefix: seq<Node<K>>)
    returns (cur: Node?<K>, lev: nat, ghost ps: seq<Node?<K>>, ghost g: seq<seq<Node<K>>>)
    requires TotalPreorder(cmp) && Lists(nodes, ps0, g0) && Counter(cmp, g0, 0, prefix) && Stored(part[..], single, list, ps0)
    modifies part, nodes`next
    ensures Lists(nodes, ps, g) && Counter(cmp, g, lev, prefix) && Stored(part[..], cur, list, ps) && g[lev] == []
    ensures forall k | 0 <= k < lev :: g0[k] != []
    ensures forall k | lev <= k < SLOTS :: g[k] == g0[k]
    ensures g[REST] == g0[REST] && g[CUR] != []
  {
    hide Lists, Counter, TotalPreorder;
    cur, lev, ps, g := single, 0, ps0, g0;
    CounterShape(cmp, g, 0, prefix);
    NullIsEmpty(nodes, ps, g, CUR);
    while part[lev] != null
      invariant lev < SLOTS && |g| == PLACES && g[SLOTS - 1] == []
      invariant Lists(nodes, ps, g) && Counter(cmp, g, lev, prefix) && Stored(part[..], cur, list, ps)
      invariant forall k | 0 <= k < lev :: g0[k] != []
      invariant forall k | lev <= k < SLOTS :: g[k] == g0[k]
      invariant g[REST] == g0[REST] && g[CUR] != []
      decreases SLOTS - lev
    {
      NullIsEmpty(nodes, ps, g, lev);
      CarryStep(cmp, g, lev, prefix);
      cur := MergeAt(cmp, part[lev], cur, nodes, ps, g, lev, CUR);
      g := g[lev := []][CUR := Merge(cmp, g[lev], g[CUR])];
      ps := ps[lev := null][CUR := cur];
      part[lev] := null;
      lev := lev + 1;
    }
    NullIsEmpty(nodes, ps, g, lev);
  }

  /** Nothing above slot `maxLev`, which is in use once there is anything. */
  ghost predicate Topped<T>(g: seq<seq<T>>, maxLev: nat, empty: bool) {
    && |g| == PLACES && maxLev < SLOTS - 1
    && (forall k | maxLev < k < SLOTS :: g[k] == [])
    && (if empty then maxLev == 0 && g[0] == [] else g[maxLev] != [])
  }

  /** Between two turns of the outer loop: `prefix` has been taken in, the rest is still in the list. */
  ghost predicate Between<K(!new, 0)>(cmp: Cmp<K>, part: seq<Node?<K>>, list: Node?<K>, nodes: seq<Node<K>>,
                                      ps: seq<Node?<K>>, g: seq<seq<Node<K>>>, prefix: seq<Node<K>>)
    reads nodes`next
  {
    && Lists(nodes, ps, g) && Counter(cmp, g, 0, prefix) && Stored(part, null, list, ps)
    && g[CUR] == [] && prefix + g[REST] == nodes
  }

  /** Where the carry is put: a carry beyond the top slot goes back into it. */
  lemma PlaceForCarry<K(!new, 0)>(cmp: Cmp<K>, g0: seq<seq<Node<K>>>, g: seq<seq<Node<K>>>, lev: nat, prefix: seq<Node<K>>, maxLev: nat, empty: bool)
    requires Topped(g0, maxLev, empty) && Counter(cmp, g, lev, prefix) && g[lev] == [] && g[CUR] != []
    requires forall k | 0 <= k < lev :: g0[k] != []
    requires forall k | lev <= k < SLOTS :: g[k] == g0[k]
    ensures var place := if lev > maxLev && lev >= SLOTS - 1 then lev - 1 else lev;
            && place < SLOTS - 1 && g[place] == [] && Counter(cmp, g, place, prefix)
            && Topped(g[place := g[CUR]][CUR := []], if lev > maxLev then place else maxLev, false)
  {
    assert g0[maxLev + 1] == [];
    assert lev <= maxLev + 1;
    if lev > maxLev && lev >= SLOTS - 1 {
      CarryBack(cmp, g, lev - 1, prefix);
    }
  }

  /** One turn of the outer loop. */
  method TakeIn<K(!new, 0)>(cmp: Cmp<K>, part: array<Node?<K>>, list: Node<K>, maxLev: nat, ghost nodes: seq<Node<K>>,
                            ghost ps0: seq<Node?<K>>, ghost g0: seq<seq<Node<K>>>, ghost prefix: seq<Node<K>>)
    returns (rest: Node?<K>, top: nat, ghost ps: seq<Node?<K>>, ghost g: seq<seq<Node<K>>>)
    requires TotalPreorder(cmp) && Between(cmp, part[..], list, nodes, ps0, g0, prefix) && Topped(g0, maxLev, prefix == [])
    modifies part, nodes`next
    ensures Between(cmp, part[..], rest, nodes, ps, g, prefix + [list]) && Topped(g, top, false)
    ensures |g[REST]| < |g0[REST]|
  {
    hide Lists, Counter, TotalPreorder;
    ListWithin(nodes, ps0, g0, list);
    rest := Detach(list, nodes, ps0, g0);
    PickUp(cmp, g0, prefix, list, g0[REST][1..]);
    ghost var ps1, g1 := ps0[CUR := list][REST := rest], g0[CUR := [list]][REST := g0[REST][1..]];
    var cur, lev;
    cur, lev, ps, g := Carry(cmp, part, list, rest, nodes, ps1, g1, prefix + [list]);
    PlaceForCarry(cmp, g1, g, lev, prefix + [list], maxLev, prefix == []);
    top := maxLev;
    if lev > top {
      if lev >= part.Length - 1 {
        lev := lev - 1;
      }
      top := lev;
    }
    PutDown(cmp, g, lev, prefix + [list]);
    MoveList(nodes, ps, g, lev);
    part[lev] := cur;
    ps, g := ps[lev := cur][CUR := null], g[lev := g[CUR]][CUR := []];
    assert prefix + [list] + g[REST] == nodes;
  }

  lemma ListWithin<K(!new, 0)>(nodes: seq<Node<K>>, ps: seq<Node?<K>>, g: seq<seq<Node<K>>>, list: Node<K>)
    requires Lists(nodes, ps, g) && |g| == PLACES && ps[REST] == list
    ensures list in nodes && g[REST] != [] && list == g[REST][0]
  {
  }

  /** The final merges: all lower slots, each in front of what has been collected. */
  method Collect<K(!new, 0)>(cmp: Cmp<K>, part: array<Node?<K>>, maxLev: nat, ghost nodes: seq<Node<K>>,
                             ghost ps0: seq<Node?<K>>, ghost g0: seq<seq<Node<K>>>, ghost prefix: seq<Node<K>>)
    returns (list: Node?<K>, ghost ps: seq<Node?<K>>, ghost g: seq<seq<Node<K>>>)
    requires TotalPreorder(cmp) && Between(cmp, part[..], null, nodes, ps0, g0, prefix) && Topped(g0, maxLev, false)
    modifies nodes`next
    ensures Lists(nodes, ps, g) && Counter(cmp, g, maxLev, prefix) && Topped(g, maxLev, false)
    ensures ps[maxLev] == part[maxLev] && ps[CUR] == list
  {
    hide Lists, Counter, TotalPreorder;
    ps, g, list := ps0, g0, null;
    var lev := 0;
    while lev < maxLev
      invariant lev <= maxLev < SLOTS - 1 && |ps| == PLACES && ps[CUR] == list && part.Length == SLOTS
      invariant forall k | lev <= k < SLOTS :: ps[k] == part[k]
      invariant Lists(nodes, ps, g) && Counter(cmp, g, lev, prefix) && Topped(g, maxLev, false)
    {
      NullIsEmpty(nodes, ps, g, lev);
      if part[lev] != null {
        CarryStep(cmp, g, lev, prefix);
        list := MergeAt(cmp, part[lev], list, nodes, ps, g, lev, CUR);
        ps, g := ps[lev := null][CUR := list], g[lev := []][CUR := Merge(cmp, g[lev], g[CUR])];
      } else {
        CarrySkip(cmp, g, lev, prefix);
      }
      lev := lev + 1;
    }
  }

  function Start<K(!new, 0)>(list: Node?<K>): seq<Node?<K>> {
    seq(PLACES, k => if k == REST then list else null)
  }

  function StartRuns<K(!new, 0)>(s: seq<Node<K>>): seq<seq<Node<K>>> {
    seq(PLACES, k => if k == REST then s else [])
  }

  lemma StartLists<K(!new, 0)>(list: Node?<K>, s: seq<Node<K>>)
    requires Chain(list, s) && Distinct(s)
    ensures Lists(s, Start(list), StartRuns(s))
  {
    var g := StartRuns(s);
    assert Within(g[REST], s);
  }

  lemma StartCounter<K(!new, 0)>(cmp: Cmp<K>, s: seq<Node<K>>)
    ensures Counter(cmp, StartRuns(s), 0, [])
  {
    var g := StartRuns(s);
    FlatEmpty(g[0..SLOTS]);
    assert Flat(g[0..SLOTS]) + g[CUR] == [];
  }

  lemma StartBetween<K(!new, 0)>(cmp: Cmp<K>, part: seq<Node?<K>>, list: Node?<K>, s: seq<Node<K>>)
    requires |part| == SLOTS && (forall k | 0 <= k < SLOTS :: part[k] == null) && Chain(list, s) && Distinct(s)
    ensures Between(cmp, part, list, s, Start(list), StartRuns(s), []) && Topped(StartRuns(s), 0, true)
  {
    hide Lists, Counter, Chain;
    StartLists(list, s);
    StartCounter(cmp, s);
    assert part == Start(list)[..SLOTS];
    assert [] + StartRuns(s)[REST] == s;
  }

  lemma AllTaken<K(!new, 0)>(cmp: Cmp<K>, part: seq<Node?<K>>, nodes: seq<Node<K>>, ps: seq<Node?<K>>,
                             g: seq<seq<Node<K>>>, prefix: seq<Node<K>>)
    requires Between(cmp, part, null, nodes, ps, g, prefix)
    ensures prefix == nodes
  {
    NullIsEmpty(nodes, ps, g, REST);
    assert prefix + [] == prefix;
  }

  /** What the last merge needs to know of the two lists that are left. */
  lemma LastTwo<K(!new, 0)>(head: Node<K>, nodes: seq<Node<K>>, ps: seq<Node?<K>>, g: seq<seq<Node<K>>>, maxLev: nat)
    requires Lists(nodes, ps, g) && Topped(g, maxLev, false) && head !in nodes
    ensures var a, b := g[maxLev], g[CUR];
            && Chain(ps[maxLev], a) && Chain(ps[CUR], b) && Distinct(a) && Distinct(b) && Apart(a, b)
            && head !in a && head !in b && a != [] && Within(a, nodes) && Within(b, nodes)
  {
    assert Within(g[maxLev], nodes) && Within(g[CUR], nodes);
  }

  lemma EmptyRing<K(!new, 0)>(head: Node<K>, cmp: Cmp<K>, s: seq<Node<K>>)
    requires Ring(head, s) && head.next == head
    ensures s == [] && StableSortOf(cmp, [], s)
  {
    NextOfHead(head, s);
  }

  /** The ring is cut open behind its last entry. */
  method Open<K(!new, 0)>(head: Node<K>, ghost s: seq<Node<K>>) returns (list: Node?<K>)
    requires Ring(head, s) && head.next != head
    modifies s`next
    ensures s != [] && Chain(list, s) && Distinct(s) && head !in s
  {
    ghost var p: seq<Node<K>> := [head] + s;
    assert Closed(p) && p[0] == head;
    assert s != [];
    assert forall i | 0 <= i < |s| :: s[i] == p[i + 1];
    assert head.prev == s[|s| - 1];
    head.prev.next := null;
    list := head.next;
    assert Linked(s);
  }

  /** `list_sort`: the list becomes the stable sort of what it held, as a well-formed circular list. */
  method Sort<K(!new, 0)>(head: Node<K>, cmp: Cmp<K>, ghost s: seq<Node<K>>) returns (ghost t: seq<Node<K>>)
    requires TotalPreorder(cmp) && Ring(head, s)
    modifies head, s
    ensures Ring(head, t) && StableSortOf(cmp, t, s) && multiset(t) == multiset(s)
    ensures forall i, j | 0 <= i < j < |t| :: cmp(t[i].key, t[j].key) <= 0
  {
    hide *;
    if head.next == head {
      EmptyRing(head, cmp, s);
      InOrder(cmp, s, s);
      return s;
    }
    var list := Open(head, s);
    t := SortChain(head, cmp, list, s);
    SortPermutes(cmp, t, s);
    InOrder(cmp, t, s);
  }

  lemma InOrder<K(!new, 0)>(cmp: Cmp<K>, t: seq<Node<K>>, s: seq<Node<K>>)
    requires StableSortOf(cmp, t, s)
    ensures forall i, j | 0 <= i < j < |t| :: cmp(t[i].key, t[j].key) <= 0
  {
  }

  method SortChain<K(!new, 0)>(head: Node<K>, cmp: Cmp<K>, first: Node?<K>, ghost s: seq<Node<K>>) returns (ghost t: seq<Node<K>>)
    requires TotalPreorder(cmp) && Chain(first, s) && Distinct(s) && s != [] && head !in s
    modifies head, s
    ensures Ring(head, t) && StableSortOf(cmp, t, s)
  {
    hide Between, Topped, Chain, Distinct, Lists, Counter, TotalPreorder, Ring, StableSortOf, Start, StartRuns;
    var part := new Node?<K>[SLOTS](_ => null);
    StartBetween(cmp, part[..], first, s);
    ToppedShape(StartRuns(s), 0, true);
    var list := first;
    var maxLev: nat := 0;
    ghost var ps: seq<Node?<K>>, g: seq<seq<Node<K>>>, prefix: seq<Node<K>> := Start(first), StartRuns(s), [];
    while list != null
      invariant part.Length == SLOTS && |g| == PLACES
      invariant Between(cmp, part[..], list, s, ps, g, prefix) && Topped(g, maxLev, prefix == [])
      decreases |g[REST]|
    {
      ghost var taken: Node<K> := list;
      list, maxLev, ps, g := TakeIn(cmp, part, list, maxLev, s, ps, g, prefix);
      ToppedShape(g, maxLev, false);
      prefix := prefix + [taken];
    }
    AllTaken(cmp, part[..], s, ps, g, prefix);
    list, ps, g := Collect(cmp, part, maxLev, s, ps, g, prefix);
    ToppedShape(g, maxLev, false);
    t := Finish(head, cmp, part[maxLev], list, s, ps, g, maxLev);
  }

  lemma ToppedShape<T>(g: seq<seq<T>>, maxLev: nat, empty: bool)
    requires Topped(g, maxLev, empty)
    ensures |g| == PLACES && maxLev < SLOTS - 1
  {
  }

  method Finish<K(!new, 0)>(head: Node<K>, cmp: Cmp<K>, a: Node?<K>, b: Node?<K>, ghost s: seq<Node<K>>,
                            ghost ps: seq<Node?<K>>, ghost g: seq<seq<Node<K>>>, ghost maxLev: nat)
    returns (ghost t: seq<Node<K>>)
    requires TotalPreorder(cmp) && head !in s && Lists(s, ps, g) && Counter(cmp, g, maxLev, s) && Topped(g, maxLev, false)
    requires a == ps[maxLev] && b == ps[CUR]
    modifies head, s
    ensures Ring(head, t) && StableSortOf(cmp, t, s)
  {
    ToppedShape(g, maxLev, false);
    LastMerge(cmp, g, maxLev, s);
    t := Merge(cmp, g[maxLev], g[CUR]);
    hide Lists, Counter, Topped, TotalPreorder, Ring, StableSortOf, Merge, Chain, Distinct, Apart;
    LastTwo(head, s, ps, g, maxLev);
    MergeAndRestoreBackLinks(cmp, head, a, b, g[maxLev], g[CUR]);
  }
}
