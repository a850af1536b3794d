/** The intrusive doubly linked list of `list.h`: circular with a head, and null-terminated while sorting. */
module KernelList {
  import opened Sequences
  import opened ListEntry
  import opened StableMerge

  ghost predicate Apart<T>(s: seq<T>, t: seq<T>) {
    forall x | x in s :: x !in t
  }

  ghost predicate Linked<K(!new, 0)>(s: seq<Node<K>>)
    reads s`next
  {
    forall i | 0 <= i < |s| - 1 :: s[i].next == s[i + 1]
  }

  /** The null-terminated list that starts at `p` consists of `s`. */
  ghost predicate Chain<K(!new, 0)>(p: Node?<K>, s: seq<Node<K>>)
    reads s`next
  {
    if s == [] then p == null else p == s[0] && Linked(s) && s[|s| - 1].next == null
  }

  /** A path being woven from the fronts of two chains. */
  ghost predicate Weave<K(!new, 0)>(path: seq<Node<K>>, a: Node?<K>, ra: seq<Node<K>>, b: Node?<K>, rb: seq<Node<K>>)
    reads path`next, ra`next, rb`next
  {
    && path != [] && Linked(path) && Chain(a, ra) && Chain(b, rb)
    && Distinct(path) && Distinct(ra) && Distinct(rb)
    && Apart(path, ra) && Apart(path, rb) && Apart(ra, rb)
  }

  lemma WeaveSymmetric<K(!new, 0)>(path: seq<Node<K>>, a: Node?<K>, ra: seq<Node<K>>, b: Node?<K>, rb: seq<Node<K>>)
    requires Weave(path, a, ra, b, rb)
    ensures Weave(path, b, rb, a, ra)
  {
  }

  lemma WeaveFronts<K(!new, 0)>(path: seq<Node<K>>, a: Node?<K>, ra: seq<Node<K>>, b: Node?<K>, rb: seq<Node<K>>)
    requires Weave(path, a, ra, b, rb)
    ensures (a == null <==> ra == []) && (b == null <==> rb == [])
    ensures (a != null ==> a == ra[0]) && (b != null ==> b == rb[0])
  {
  }

  lemma WeaveRest<K(!new, 0)>(path: seq<Node<K>>, a: Node?<K>, ra: seq<Node<K>>, b: Node?<K>, rb: seq<Node<K>>)
    requires Weave(path, a, ra, b, rb)
    ensures a == null ==> Weave(path, b, rb, null, [])
    ensures b == null ==> Weave(path, a, ra, null, [])
  {
  }

  /** Moves the first entry of one chain to the end of the path. */
  method Hook<K(!new, 0)>(tail: Node<K>, a: Node<K>, b: Node?<K>, ghost path: seq<Node<K>>, ghost ra: seq<Node<K>>, ghost rb: seq<Node<K>>)
    requires Weave(path, a, ra, b, rb) && tail == path[|path| - 1]
    modifies tail`next
    ensures ra != [] && a == ra[0] && Weave(path + [a], a.next, ra[1..], b, rb)
  {
    assert forall i | 0 <= i < |ra| :: ra[i] in ra;
    assert forall i | 0 <= i < |rb| :: rb[i] in rb;
    tail.next := a;
    assert Chain(b, rb);
    assert Chain(a.next, ra[1..]);
    assert Linked(path + [a]);
    assert Distinct(path + [a]);
  }

  /** The rest of a chain becomes the end of the path. */
  method HookRest<K(!new, 0)>(tail: Node<K>, a: Node?<K>, ghost path: seq<Node<K>>, ghost ra: seq<Node<K>>)
    requires Weave(path, a, ra, null, []) && tail == path[|path| - 1]
    modifies tail`next
    ensures Linked(path + ra) && (path + ra)[|path + ra| - 1].next == null && Distinct(path + ra)
  {
    assert forall i | 0 <= i < |ra| :: ra[i] in ra;
    tail.next := a;
    assert Chain(a, ra);
  }

  lemma MergeTakesA<K(!new, 0)>(cmp: Cmp<K>, done: seq<Node<K>>, a: seq<Node<K>>, b: seq<Node<K>>, r: seq<Node<K>>)
    requires a != [] && b != [] && cmp(a[0].key, b[0].key) <= 0 && done + Merge(cmp, a, b) == r
    ensures done + [a[0]] + Merge(cmp, a[1..], b) == r
  {
    Assoc(done, [a[0]], Merge(cmp, a[1..], b));
  }

  lemma MergeTakesB<K(!new, 0)>(cmp: Cmp<K>, done: seq<Node<K>>, a: seq<Node<K>>, b: seq<Node<K>>, r: seq<Node<K>>)
    requires a != [] && b != [] && cmp(a[0].key, b[0].key) > 0 && done + Merge(cmp, a, b) == r
    ensures done + [b[0]] + Merge(cmp, a, b[1..]) == r
  {
    Assoc(done, [b[0]], Merge(cmp, a, b[1..]));
  }

  /** The smaller of two first entries goes to the end of the path. */
  method MergeStep<K(!new, 0)>(cmp: Cmp<K>, tail: Node<K>, a: Node<K>, b: Node<K>, ghost path: seq<Node<K>>, ghost ra: seq<Node<K>>, ghost rb: seq<Node<K>>)
    returns (a': Node?<K>, b': Node?<K>, tail': Node<K>, ghost path': seq<Node<K>>, ghost ra': seq<Node<K>>, ghost rb': seq<Node<K>>)
    requires Weave(path, a, ra, b, rb) && tail == path[|path| - 1]
    modifies tail`next
    ensures Weave(path', a', ra', b', rb') && path' != [] && tail' == path'[|path'| - 1] && (tail' == a || tail' == b)
    ensures path' + Merge(cmp, ra', rb') == path + Merge(cmp, ra, rb) && |ra'| + |rb'| < |ra| + |rb|
    ensures forall n | n in ra' :: n in ra
    ensures forall n | n in rb' :: n in rb
  {
    hide *;
    WeaveFronts(path, a, ra, b, rb);
    a', b', ra', rb' := a, b, ra, rb;
    if cmp(a.key, b.key) <= 0 {
      MergeTakesA(cmp, path, ra, rb, path + Merge(cmp, ra, rb));
      Hook(tail, a, b, path, ra, rb);
      a', ra', tail', path' := a.next, ra[1..], a, path + [a];
    } else {
      MergeTakesB(cmp, path, ra, rb, path + Merge(cmp, ra, rb));
      WeaveSymmetric(path, a, ra, b, rb);
      Hook(tail, b, a, path, rb, ra);
      b', rb', tail', path' := b.next, rb[1..], b, path + [b];
      WeaveSymmetric(path', b', rb', a', ra');
    }
  }

  /** `merge`: two null-terminated sorted lists become one, by relinking. */
  method MergeLists<K(!new, 0)>(cmp: Cmp<K>, first: Node?<K>, second: Node?<K>, ghost sa: seq<Node<K>>, ghost sb: seq<Node<K>>)
    returns (r: Node?<K>)
    requires Chain(first, sa) && Chain(second, sb) && Distinct(sa) && Distinct(sb) && Apart(sa, sb)
    modifies sa`next, sb`next
    ensures Chain(r, Merge(cmp, sa, sb)) && Distinct(Merge(cmp, sa, sb))
  {
    var head := new Node<K>();
    var tail: Node<K> := head;
    var a, b := first, second;
    ghost var path: seq<Node<K>>, ra: seq<Node<K>>, rb: seq<Node<K>> := [head], sa, sb;
    ghost var merged: seq<Node<K>> := [head] + Merge(cmp, sa, sb);
    assert Weave(path, a, ra, b, rb);
    hide *;
    while a != null && b != null
      invariant Weave(path, a, ra, b, rb) && path != [] && tail == path[|path| - 1]
      invariant path + Merge(cmp, ra, rb) == merged
      invariant tail == head || tail in sa || tail in sb
      invariant forall n | n in ra :: n in sa
      invariant forall n | n in rb :: n in sb
      decreases |ra| + |rb|
    {
      WeaveFronts(path, a, ra, b, rb);
      assert a in sa && b in sb;
      a, b, tail, path, ra, rb := MergeStep(cmp, tail, a, b, path, ra, rb);
    }
    WeaveFronts(path, a, ra, b, rb);
    MergeEnds(cmp, ra, rb);
    WeaveRest(path, a, ra, b, rb);
    HookRest(tail, if a != null then a else b, path, if a != null then ra else rb);
    ChainAfter(head, Merge(cmp, sa, sb));
    r := head.next;
  }

  lemma MergeEnds<K(!new, 0)>(cmp: Cmp<K>, a: seq<Node<K>>, b: seq<Node<K>>)
    requires a == [] || b == []
    ensures Merge(cmp, a, b) == if a != [] then a else b
  {
  }

  lemma ChainAfter<K(!new, 0)>(head: Node<K>, s: seq<Node<K>>)
    requires Linked([head] + s) && ([head] + s)[|s|].next == null && Distinct([head] + s)
    ensures Chain(head.next, s) && Distinct(s)
  {
    var p := [head] + s;
    assert forall i | 0 <= i < |s| :: s[i] == p[i + 1];
    assert p[0] == head;
  }

  // ----- the circular list ---------------------------------------------------------------------------------

  ghost predicate Backed<K(!new, 0)>(s: seq<Node<K>>)
    reads s`prev
  {
    forall i | 0 < i < |s| :: s[i].prev == s[i - 1]
  }

  /** A closed path: next links lead around it one way and prev links the other. */
  ghost predicate Closed<K(!new, 0)>(p: seq<Node<K>>)
    reads p
  {
    p != [] && Distinct(p) && Linked(p) && Backed(p) && p[|p| - 1].next == p[0] && p[0].prev == p[|p| - 1]
  }

  /** The circular doubly linked list with head `head` holds `s`. */
  ghost predicate Ring<K(!new, 0)>(head: Node<K>, s: seq<Node<K>>)
    reads [head] + s
  {
    Closed([head] + s)
  }

  /** From the head the next links lead through the entries in order and back to it, and the prev links the other
      way round. */
  lemma RingLinks<K(!new, 0)>(head: Node<K>, s: seq<Node<K>>, i: nat)
    requires Ring(head, s) && i <= |s|
    ensures (if i == 0 then head else s[i - 1]).next == if i < |s| then s[i] else head
    ensures (if i < |s| then s[i] else head).prev == if i == 0 then head else s[i - 1]
    ensures head !in s
  {
    var p := [head] + s;
    assert Closed(p);
    assert p[i] == (if i == 0 then head else s[i - 1]) && p[0] == head;
    if i < |s| {
      assert p[i + 1] == s[i] && p[i].next == p[i + 1];
    }
    assert forall k | 0 <= k < |s| :: s[k] == p[k + 1];
  }

  method Close<K(!new, 0)>(head: Node<K>, tail: Node<K>, ghost p: seq<Node<K>>)
    requires p != [] && Distinct(p) && Linked(p) && Backed(p) && head == p[0] && tail == p[|p| - 1]
    modifies head`prev, tail`next
    ensures Closed(p)
  {
    tail.next := head;
    head.prev := tail;
  }

  method SetPrev<K(!new, 0)>(n: Node<K>, tail: Node<K>, ghost p: seq<Node<K>>, ghost i: nat)
    requires i + 1 < |p| && Distinct(p) && Backed(p[..i + 1]) && tail == p[i] && n == p[i + 1]
    modifies n`prev
    ensures Backed(p[..i + 2])
  {
    n.prev := tail;
  }

  /** Back links for the part of the path that was taken over in one piece. In `list.h` the first
      turn is not guarded, so there has to be such a part. */
  method RestoreRest<K(!new, 0)>(last: Node<K>, ghost p: seq<Node<K>>, ghost k: nat) returns (tail: Node<K>)
    requires k + 1 < |p| && Linked(p) && p[|p| - 1].next == null && Distinct(p)
    requires Backed(p[..k + 1]) && last == p[k]
    modifies p`prev
    ensures Linked(p) && Backed(p) && tail == p[|p| - 1]
  {
    hide *;
    ghost var i := k + 1;
    tail := StepBack(last, p, k);
    while tail.next != null
      invariant k < i < |p| && tail == p[i] && Backed(p[..i + 1]) && Linked(p) && p[|p| - 1].next == null
      invariant tail.next == if i < |p| - 1 then p[i + 1] else null
      decreases |p| - i
    {
      tail := StepBack(tail, p, i);
      i := i + 1;
    }
    assert p[..i + 1] == p;
  }

  /** One turn: the next entry gets its back link and becomes the tail. */
  method StepBack<K(!new, 0)>(tail: Node<K>, ghost p: seq<Node<K>>, ghost i: nat) returns (next: Node<K>)
    requires i + 1 < |p| && Linked(p) && p[|p| - 1].next == null && Distinct(p) && Backed(p[..i + 1]) && tail == p[i]
    modifies p`prev
    ensures Linked(p) && p[|p| - 1].next == null
    ensures next == p[i + 1] && Backed(p[..i + 1 + 1]) && next.next == if i + 1 < |p| - 1 then p[i + 2] else null
  {
    NextOnPath(p, i);
    NextOnPath(p, i + 1);
    hide Backed, Linked, Distinct;
    next := tail.next;
    SetPrev(next, tail, p, i);
  }

  lemma NextOnPath<K(!new, 0)>(p: seq<Node<K>>, i: nat)
    requires i < |p| && Linked(p) && p[|p| - 1].next == null
    ensures p[i].next == if i < |p| - 1 then p[i + 1] else null
  {
  }

  method RestoreAndClose<K(!new, 0)>(head: Node<K>, last: Node<K>, ghost p: seq<Node<K>>, ghost k: nat)
    requires k + 1 < |p| && Linked(p) && p[|p| - 1].next == null && Distinct(p)
    requires Backed(p[..k + 1]) && last == p[k] && head == p[0]
    modifies p
    ensures Closed(p)
  {
    hide Linked, Backed, Distinct, Closed;
    var tail := RestoreRest(last, p, k);
    Close(head, tail, p);
  }

  /** As `Hook`, with the back link. */
  method HookBack<K(!new, 0)>(tail: Node<K>, a: Node<K>, b: Node?<K>, ghost path: seq<Node<K>>, ghost ra: seq<Node<K>>, ghost rb: seq<Node<K>>)
    requires Weave(path, a, ra, b, rb) && Backed(path) && tail == path[|path| - 1]
    modifies tail`next, a`prev
    ensures ra != [] && a == ra[0] && Weave(path + [a], a.next, ra[1..], b, rb) && Backed(path + [a])
  {
    WeaveFronts(path, a, ra, b, rb);
    WeaveApart(path, a, ra, b, rb);
    Hook(tail, a, b, path, ra, rb);
    a.prev := tail;
  }

  /** `merge_and_restore_back_links`. */
  method MergeAndRestoreBackLinks<K(!new, 0)>(cmp: Cmp<K>, head: Node<K>, first: Node?<K>, second: Node?<K>,
                                              ghost sa: seq<Node<K>>, ghost sb: seq<Node<K>>)
    requires Chain(first, sa) && Chain(second, sb) && Distinct(sa) && Distinct(sb) && Apart(sa, sb)
    requires head !in sa && head !in sb && sa != []
    modifies head, sa, sb
    ensures Ring(head, Merge(cmp, sa, sb))
  {
    ghost var merged: seq<Node<K>> := [head] + Merge(cmp, sa, sb);
    hide *;
    MergeWithin(cmp, head, sa, sb);
    var last, k := WeaveBack(cmp, head, first, second, sa, sb);
    RestoreAndClose(head, last, merged, k);
    RingIsClosed(head, Merge(cmp, sa, sb));
  }

  method WeaveStep<K(!new, 0)>(cmp: Cmp<K>, tail: Node<K>, a: Node<K>, b: Node<K>, ghost path: seq<Node<K>>, ghost ra: seq<Node<K>>, ghost rb: seq<Node<K>>)
    returns (a': Node?<K>, b': Node?<K>, tail': Node<K>, ghost path': seq<Node<K>>, ghost ra': seq<Node<K>>, ghost rb': seq<Node<K>>)
    requires Weave(path, a, ra, b, rb) && Backed(path) && tail == path[|path| - 1]
    modifies tail`next, a`prev, b`prev
    ensures Weave(path', a', ra', b', rb') && Backed(path') && path' != [] && tail' == path'[|path'| - 1] && (tail' == a || tail' == b)
    ensures path' + Merge(cmp, ra', rb') == path + Merge(cmp, ra, rb) && |ra'| + |rb'| + 1 == |ra| + |rb|
    ensures forall n | n in ra' :: n in ra
    ensures forall n | n in rb' :: n in rb
  {
    hide *;
    WeaveFronts(path, a, ra, b, rb);
    a', b', ra', rb' := a, b, ra, rb;
    if cmp(a.key, b.key) <= 0 {
      MergeTakesA(cmp, path, ra, rb, path + Merge(cmp, ra, rb));
      HookBack(tail, a, b, path, ra, rb);
      a', ra', tail', path' := a.next, ra[1..], a, path + [a];
    } else {
      MergeTakesB(cmp, path, ra, rb, path + Merge(cmp, ra, rb));
      WeaveSymmetric(path, a, ra, b, rb);
      HookBack(tail, b, a, path, rb, ra);
      b', rb', tail', path' := b.next, rb[1..], b, path + [b];
      WeaveSymmetric(path', b', rb', a', ra');
    }
  }

  /** One chain is used up; the rest of the other ends the path. */
  method TakeRest<K(!new, 0)>(cmp: Cmp<K>, tail: Node<K>, a: Node?<K>, b: Node?<K>, ghost path: seq<Node<K>>,
                              ghost ra: seq<Node<K>>, ghost rb: seq<Node<K>>, ghost merged: seq<Node<K>>)
    requires Weave(path, a, ra, b, rb) && Backed(path) && tail == path[|path| - 1] && (a == null || b == null)
    requires ra != [] || rb != []
    requires path + Merge(cmp, ra, rb) == merged
    modifies tail`next
    ensures Linked(merged) && |merged| > |path| && merged[|merged| - 1].next == null && Distinct(merged)
    ensures tail == merged[|path| - 1] && Backed(merged[..|path| - 1 + 1])
  {
    hide *;
    WeaveFronts(path, a, ra, b, rb);
    MergeEnds(cmp, ra, rb);
    WeaveRest(path, a, ra, b, rb);
    HookRest(tail, if a != null then a else b, path, if a != null then ra else rb);
    assert merged[..|path| - 1 + 1] == path;
  }

  lemma StartWeave<K(!new, 0)>(head: Node<K>, a: Node?<K>, sa: seq<Node<K>>, b: Node?<K>, sb: seq<Node<K>>)
    requires Chain(a, sa) && Chain(b, sb) && Distinct(sa) && Distinct(sb) && Apart(sa, sb) && head !in sa && head !in sb
    ensures Weave([head], a, sa, b, sb) && Backed([head])
  {
  }

  /** The part of `merge_and_restore_back_links` that compares: links forward all the way, back up to `tail`. */
  method WeaveBack<K(!new, 0)>(cmp: Cmp<K>, head: Node<K>, first: Node?<K>, second: Node?<K>, ghost sa: seq<Node<K>>, ghost sb: seq<Node<K>>)
    returns (tail: Node<K>, ghost k: nat)
    requires Chain(first, sa) && Chain(second, sb) && Distinct(sa) && Distinct(sb) && Apart(sa, sb)
    requires head !in sa && head !in sb && sa != []
    modifies head, sa, sb
    ensures var p := [head] + Merge(cmp, sa, sb);
            k + 1 < |p| && Linked(p) && p[|p| - 1].next == null && Distinct(p) && tail == p[k] && Backed(p[..k + 1])
  {
    tail := head;
    var a, b := first, second;
    ghost var path: seq<Node<K>>, ra: seq<Node<K>>, rb: seq<Node<K>> := [head], sa, sb;
    ghost var merged: seq<Node<K>> := [head] + Merge(cmp, sa, sb);
    hide *;
    StartWeave(head, a, ra, b, rb);
    while a != null && b != null
      invariant Weave(path, a, ra, b, rb) && Backed(path) && path != [] && tail == path[|path| - 1]
      invariant path + Merge(cmp, ra, rb) == merged
      invariant tail == head || tail in sa || tail in sb
      invariant |ra| + |rb| > 0
      invariant forall n | n in ra :: n in sa
      invariant forall n | n in rb :: n in sb
      decreases |ra| + |rb|
    {
      WeaveFronts(path, a, ra, b, rb);
      assert a in sa && b in sb;
      a, b, tail, path, ra, rb := WeaveStep(cmp, tail, a, b, path, ra, rb);
    }
    TakeRest(cmp, tail, a, b, path, ra, rb, merged);
    k := |path| - 1;
  }

  lemma RingIsClosed<K(!new, 0)>(head: Node<K>, s: seq<Node<K>>)
    requires Closed([head] + s)
    ensures Ring(head, s)
  {
  }

  lemma WeaveApart<K(!new, 0)>(path: seq<Node<K>>, a: Node?<K>, ra: seq<Node<K>>, b: Node?<K>, rb: seq<Node<K>>)
    requires Weave(path, a, ra, b, rb)
    ensures a != null ==> a !in path
    ensures b != null ==> b !in path
  {
    assert a != null ==> a in ra;
    assert b != null ==> b in rb;
  }

  lemma MergeWithin<K(!new, 0)>(cmp: Cmp<K>, head: Node<K>, a: seq<Node<K>>, b: seq<Node<K>>)
    ensures var p := [head] + Merge(cmp, a, b);
            forall i | 0 <= i < |p| :: p[i] == head || p[i] in a || p[i] in b
  {
    MergeMembers(cmp, a, b);
  }

  lemma MergeMembers<K(!new, 0)>(cmp: Cmp<K>, a: seq<Node<K>>, b: seq<Node<K>>)
    ensures forall n | n in Merge(cmp, a, b) :: n in a || n in b
  {
    forall n | n in Merge(cmp, a, b) ensures n in a || n in b {
      MergeMember(cmp, a, b, n);
    }
  }

  lemma NextOfHead<K(!new, 0)>(head: Node<K>, s: seq<Node<K>>)
    requires Ring(head, s)
    ensures head !in s && head.next == if s == [] then head else s[0]
  {
    var p := [head] + s;
    assert Closed(p) && p[0] == head;
    assert forall i | 0 <= i < |s| :: s[i] == p[i + 1];
  }
}
