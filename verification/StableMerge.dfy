/** A list entry: its links and what it is compared by. */
module ListEntry {
  class Node<K(!new, 0)> {
    var next: Node?<K>
    var prev: Node?<K>
    const key: K

    constructor ()
      ensures next == null && prev == null
    {
      next, prev := null, null;
    }

    constructor Of(key: K)
      ensures this.key == key && next == null && prev == null
    {
      this.key := key;
      next, prev := null, null;
    }
  }
}

/** Merging sorted sequences of list entries under a three-way comparison, and what makes the outcome a
    stable sort. */
module StableMerge {
  import opened ListEntry

  type Cmp<!K(!new)> = (K, K) -> int

  ghost predicate TotalPreorder<K(!new, 0)>(cmp: Cmp<K>) {
    && (forall x, y :: cmp(x, y) <= 0 || cmp(y, x) <= 0)
    && (forall x, y, z :: cmp(x, y) <= 0 && cmp(y, z) <= 0 ==> cmp(x, z) <= 0)
  }

  ghost predicate Sorted<K(!new, 0)>(cmp: Cmp<K>, s: seq<Node<K>>) {
    forall i, j | 0 <= i < j < |s| :: cmp(s[i].key, s[j].key) <= 0
  }

  predicate Equal<K(!new)>(cmp: Cmp<K>, x: K, y: K) {
    cmp(x, y) <= 0 && cmp(y, x) <= 0
  }

  /** The entries that compare equal to `x`, in their order. */
  function Peers<K(!new, 0)>(cmp: Cmp<K>, x: K, s: seq<Node<K>>): seq<Node<K>> {
    if s == [] then [] else (if Equal(cmp, x, s[0].key) then [s[0]] else []) + Peers(cmp, x, s[1..])
  }

  /** The same entries, with equal ones in the same order. */
  ghost predicate Same<K(!new, 0)>(cmp: Cmp<K>, s: seq<Node<K>>, t: seq<Node<K>>) {
    forall x :: Peers(cmp, x, s) == Peers(cmp, x, t)
  }

  ghost predicate StableSortOf<K(!new, 0)>(cmp: Cmp<K>, t: seq<Node<K>>, s: seq<Node<K>>) {
    Sorted(cmp, t) && Same(cmp, t, s)
  }

  /** On equal entries `a` goes first. */
  function Merge<K(!new, 0)>(cmp: Cmp<K>, a: seq<Node<K>>, b: seq<Node<K>>): (r: seq<Node<K>>)
    ensures |r| == |a| + |b|
  {
    if a == [] then b
    else if b == [] then a
    else if cmp(a[0].key, b[0].key) <= 0 then [a[0]] + Merge(cmp, a[1..], b)
    else [b[0]] + Merge(cmp, a, b[1..])
  }

  // ----- peers ------------------------------------------------------------------------------------------

  lemma PeersCons<K(!new, 0)>(cmp: Cmp<K>, x: K, n: Node<K>, s: seq<Node<K>>)
    ensures Peers(cmp, x, [n] + s) == (if Equal(cmp, x, n.key) then [n] else []) + Peers(cmp, x, s)
  {
    assert ([n] + s)[1..] == s;
  }

  lemma Assoc<T>(a: seq<T>, b: seq<T>, c: seq<T>)
    ensures (a + b) + c == a + (b + c)
  {
  }

  lemma {:induction false} PeersConcat<K(!new, 0)>(cmp: Cmp<K>, x: K, a: seq<Node<K>>, b: seq<Node<K>>)
    ensures Peers(cmp, x, a + b) == Peers(cmp, x, a) + Peers(cmp, x, b)
  {
    if a == [] {
      assert a + b == b;
      assert Peers(cmp, x, a) == [];
    } else {
      HeadTail(a);
      Assoc([a[0]], a[1..], b);
      hide Peers, Equal;
      PeersConcat(cmp, x, a[1..], b);
      PeersCons(cmp, x, a[0], a[1..] + b);
      PeersCons(cmp, x, a[0], a[1..]);
      Assoc(if Equal(cmp, x, a[0].key) then [a[0]] else [], Peers(cmp, x, a[1..]), Peers(cmp, x, b));
    }
  }

  lemma {:induction false} NoPeers<K(!new, 0)>(cmp: Cmp<K>, x: K, s: seq<Node<K>>)
    requires forall i | 0 <= i < |s| :: !Equal(cmp, x, s[i].key)
    ensures Peers(cmp, x, s) == []
  {
    if s != [] {
      NoPeers(cmp, x, s[1..]);
    }
  }

  /** A sorted sequence above `b` has nothing equal to what `b` equals. */
  lemma StrictlyAbove<K(!new, 0)>(cmp: Cmp<K>, x: K, a: seq<Node<K>>, b: K)
    requires TotalPreorder(cmp) && Sorted(cmp, a) && a != [] && cmp(a[0].key, b) > 0 && Equal(cmp, x, b)
    ensures Peers(cmp, x, a) == []
  {
    forall i | 0 <= i < |a|
      ensures !Equal(cmp, x, a[i].key)
    {
      assert cmp(a[0].key, a[i].key) <= 0 || i == 0;
    }
    NoPeers(cmp, x, a);
  }

  // ----- merging ----------------------------------------------------------------------------------------

  lemma HeadTail<K(!new, 0)>(s: seq<Node<K>>)
    requires s != []
    ensures s == [s[0]] + s[1..] && multiset(s) == multiset{s[0]} + multiset(s[1..])
  {
    assert s == [s[0]] + s[1..];
  }

  lemma {:induction false} MergeElements<K(!new, 0)>(cmp: Cmp<K>, a: seq<Node<K>>, b: seq<Node<K>>)
    ensures multiset(Merge(cmp, a, b)) == multiset(a) + multiset(b)
  {
    if a != [] && b != [] {
      ghost var r := Merge(cmp, a, b);
      HeadTail(r);
      if cmp(a[0].key, b[0].key) <= 0 {
        assert r[0] == a[0] && r[1..] == Merge(cmp, a[1..], b);
        hide Merge;
        MergeElements(cmp, a[1..], b);
        HeadTail(a);
      } else {
        assert r[0] == b[0] && r[1..] == Merge(cmp, a, b[1..]);
        hide Merge;
        MergeElements(cmp, a, b[1..]);
        HeadTail(b);
      }
    }
  }

  lemma MergeMember<K(!new, 0)>(cmp: Cmp<K>, a: seq<Node<K>>, b: seq<Node<K>>, n: Node<K>)
    ensures n in Merge(cmp, a, b) <==> n in a || n in b
  {
    MergeElements(cmp, a, b);
    hide Merge;
    assert n in Merge(cmp, a, b) <==> n in multiset(Merge(cmp, a, b));
    assert n in a <==> n in multiset(a);
    assert n in b <==> n in multiset(b);
  }

  lemma SortedCons<K(!new, 0)>(cmp: Cmp<K>, n: Node<K>, s: seq<Node<K>>)
    requires Sorted(cmp, s) && forall y | y in s :: cmp(n.key, y.key) <= 0
    ensures Sorted(cmp, [n] + s)
  {
  }

  lemma SortedTail<K(!new, 0)>(cmp: Cmp<K>, s: seq<Node<K>>)
    requires TotalPreorder(cmp) && Sorted(cmp, s) && s != []
    ensures Sorted(cmp, s[1..]) && forall y | y in s :: cmp(s[0].key, y.key) <= 0
  {
  }

  lemma {:induction false} MergeSorted<K(!new, 0)>(cmp: Cmp<K>, a: seq<Node<K>>, b: seq<Node<K>>)
    requires TotalPreorder(cmp) && Sorted(cmp, a) && Sorted(cmp, b)
    ensures Sorted(cmp, Merge(cmp, a, b))
  {
    if a != [] && b != [] {
      SortedTail(cmp, a);
      SortedTail(cmp, b);
      if cmp(a[0].key, b[0].key) <= 0 {
        MergeSorted(cmp, a[1..], b);
        forall y | y in Merge(cmp, a[1..], b) ensures cmp(a[0].key, y.key) <= 0 {
          MergeMember(cmp, a[1..], b, y);
        }
        SortedCons(cmp, a[0], Merge(cmp, a[1..], b));
      } else {
        MergeSorted(cmp, a, b[1..]);
        forall y | y in Merge(cmp, a, b[1..]) ensures cmp(b[0].key, y.key) <= 0 {
          MergeMember(cmp, a, b[1..], y);
        }
        SortedCons(cmp, b[0], Merge(cmp, a, b[1..]));
      }
    }
  }

  lemma {:induction false} MergePeers<K(!new, 0)>(cmp: Cmp<K>, x: K, a: seq<Node<K>>, b: seq<Node<K>>)
    requires TotalPreorder(cmp) && Sorted(cmp, a) && Sorted(cmp, b)
    ensures Peers(cmp, x, Merge(cmp, a, b)) == Peers(cmp, x, a) + Peers(cmp, x, b)
  {
    hide TotalPreorder, Sorted, Equal;
    if a != [] && b != [] {
      HeadTail(a);
      HeadTail(b);
      SortedTail(cmp, a);
      SortedTail(cmp, b);
      if cmp(a[0].key, b[0].key) <= 0 {
        assert Merge(cmp, a, b) == [a[0]] + Merge(cmp, a[1..], b);
        hide Peers, Merge;
        MergePeers(cmp, x, a[1..], b);
        PeersCons(cmp, x, a[0], a[1..]);
        PeersCons(cmp, x, a[0], Merge(cmp, a[1..], b));
        Assoc(if Equal(cmp, x, a[0].key) then [a[0]] else [], Peers(cmp, x, a[1..]), Peers(cmp, x, b));
      } else {
        assert Merge(cmp, a, b) == [b[0]] + Merge(cmp, a, b[1..]);
        hide Peers, Merge;
        MergePeers(cmp, x, a, b[1..]);
        PeersCons(cmp, x, b[0], b[1..]);
        PeersCons(cmp, x, b[0], Merge(cmp, a, b[1..]));
        if Equal(cmp, x, b[0].key) {
          StrictlyAbove(cmp, x, a, b[0].key);
        }
      }
    }
  }

  /** Merging two neighbouring sorted runs after `before` changes nothing but the order of unequal ones. */
  lemma MergeSame<K(!new, 0)>(cmp: Cmp<K>, before: seq<Node<K>>, a: seq<Node<K>>, b: seq<Node<K>>, s: seq<Node<K>>)
    requires TotalPreorder(cmp) && Sorted(cmp, a) && Sorted(cmp, b) && Same(cmp, before + a + b, s)
    ensures Same(cmp, before + Merge(cmp, a, b), s)
  {
    hide Peers, Merge, Sorted, TotalPreorder;
    forall x ensures Peers(cmp, x, before + Merge(cmp, a, b)) == Peers(cmp, x, s) {
      PeersConcat(cmp, x, before, Merge(cmp, a, b));
      PeersConcat(cmp, x, before + a, b);
      PeersConcat(cmp, x, before, a);
      MergePeers(cmp, x, a, b);
      assert Peers(cmp, x, before + a + b) == Peers(cmp, x, s);
    }
  }

  lemma SameSnoc<K(!new, 0)>(cmp: Cmp<K>, s: seq<Node<K>>, t: seq<Node<K>>, n: Node<K>)
    requires Same(cmp, s, t)
    ensures Same(cmp, s + [n], t + [n])
  {
    hide Peers;
    forall x ensures Peers(cmp, x, s + [n]) == Peers(cmp, x, t + [n]) {
      PeersConcat(cmp, x, s, [n]);
      PeersConcat(cmp, x, t, [n]);
      assert Peers(cmp, x, s) == Peers(cmp, x, t);
    }
  }

  // ----- what a stable sort is ----------------------------------------------------------------------------

  lemma {:induction false} PeersCount<K(!new, 0)>(cmp: Cmp<K>, n: Node<K>, s: seq<Node<K>>)
    requires TotalPreorder(cmp)
    ensures multiset(Peers(cmp, n.key, s))[n] == multiset(s)[n]
  {
    if s != [] {
      PeersCount(cmp, n, s[1..]);
      HeadTail(s);
      assert Equal(cmp, n.key, n.key);
    }
  }

  lemma SamePermutes<K(!new, 0)>(cmp: Cmp<K>, s: seq<Node<K>>, t: seq<Node<K>>)
    requires TotalPreorder(cmp) && Same(cmp, s, t)
    ensures multiset(s) == multiset(t)
  {
    forall n | n in multiset(s) || n in multiset(t) ensures multiset(s)[n] == multiset(t)[n] {
      PeersCount(cmp, n, s);
      PeersCount(cmp, n, t);
      assert Peers(cmp, n.key, s) == Peers(cmp, n.key, t);
    }
  }

  lemma SortPermutes<K(!new, 0)>(cmp: Cmp<K>, t: seq<Node<K>>, s: seq<Node<K>>)
    requires TotalPreorder(cmp) && StableSortOf(cmp, t, s)
    ensures multiset(t) == multiset(s)
  {
    SamePermutes(cmp, t, s);
  }

  lemma PeersOfFirst<K(!new, 0)>(cmp: Cmp<K>, s: seq<Node<K>>)
    requires TotalPreorder(cmp) && s != []
    ensures Peers(cmp, s[0].key, s) != [] && Peers(cmp, s[0].key, s)[0] == s[0]
  {
    assert Equal(cmp, s[0].key, s[0].key);
  }

  lemma {:induction false} PeersMembers<K(!new, 0)>(cmp: Cmp<K>, x: K, s: seq<Node<K>>)
    ensures forall y | y in Peers(cmp, x, s) :: y in s && Equal(cmp, x, y.key)
  {
    if s != [] {
      PeersMembers(cmp, x, s[1..]);
    }
  }

  lemma {:induction false} PeersOfEqual<K(!new, 0)>(cmp: Cmp<K>, x: K, y: K, s: seq<Node<K>>)
    requires TotalPreorder(cmp) && Equal(cmp, x, y)
    ensures Peers(cmp, x, s) == Peers(cmp, y, s)
  {
    if s != [] {
      PeersOfEqual(cmp, x, y, s[1..]);
      assert Equal(cmp, x, s[0].key) <==> Equal(cmp, y, s[0].key);
    }
  }

  lemma FirstEqual<K(!new, 0)>(cmp: Cmp<K>, t: seq<Node<K>>, u: seq<Node<K>>)
    requires TotalPreorder(cmp) && Sorted(cmp, t) && Sorted(cmp, u) && Same(cmp, t, u) && t != [] && u != []
    ensures t[0] == u[0]
  {
    PeersOfFirst(cmp, t);
    PeersOfFirst(cmp, u);
    assert Peers(cmp, t[0].key, t) == Peers(cmp, t[0].key, u);
    assert Peers(cmp, u[0].key, t) == Peers(cmp, u[0].key, u);
    PeersMembers(cmp, t[0].key, u);
    PeersMembers(cmp, u[0].key, t);
    SortedTail(cmp, t);
    SortedTail(cmp, u);
    assert t[0] in Peers(cmp, t[0].key, u) && u[0] in Peers(cmp, u[0].key, t);
    PeersOfEqual(cmp, t[0].key, u[0].key, u);
  }

  /** A sequence has only one stable sort. */
  lemma {:induction false} StableSortUnique<K(!new, 0)>(cmp: Cmp<K>, t: seq<Node<K>>, u: seq<Node<K>>)
    requires TotalPreorder(cmp) && Sorted(cmp, t) && Sorted(cmp, u) && Same(cmp, t, u)
    ensures t == u
    decreases |t|
  {
    SamePermutes(cmp, t, u);
    assert |t| == |multiset(t)| == |multiset(u)| == |u|;
    if t != [] {
      FirstEqual(cmp, t, u);
      SortedTail(cmp, t);
      SortedTail(cmp, u);
      SameTail(cmp, t, u);
      StableSortUnique(cmp, t[1..], u[1..]);
      HeadTail(t);
      HeadTail(u);
    }
  }

  lemma SameTail<K(!new, 0)>(cmp: Cmp<K>, t: seq<Node<K>>, u: seq<Node<K>>)
    requires Same(cmp, t, u) && t != [] && u != [] && t[0] == u[0]
    ensures Same(cmp, t[1..], u[1..])
  {
    HeadTail(t);
    HeadTail(u);
    forall x ensures Peers(cmp, x, t[1..]) == Peers(cmp, x, u[1..]) {
      PeersCons(cmp, x, t[0], t[1..]);
      PeersCons(cmp, x, u[0], u[1..]);
      assert Peers(cmp, x, t) == Peers(cmp, x, u);
      hide Peers;
      PrefixCancels(if Equal(cmp, x, t[0].key) then [t[0]] else [], Peers(cmp, x, t[1..]), Peers(cmp, x, u[1..]));
    }
  }

  lemma PrefixCancels<T>(p: seq<T>, a: seq<T>, b: seq<T>)
    requires p + a == p + b
    ensures a == b
  {
    assert a == (p + a)[|p|..] && b == (p + b)[|p|..];
  }
}
