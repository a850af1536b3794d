/** The frame queue of `dmx512framequeue.c` on the circular list of `list.h`. */
module FrameQueue {
  import opened Sequences
  import opened ListEntry
  import opened StableMerge
  import opened KernelList

  // ----- linking and unlinking ------------------------------------------------------------------------------

  /** `__list_add` between the end of a ring and its head. */
  method ListAddTail<K(!new, 0)>(add: Node<K>, head: Node<K>, ghost s: seq<Node<K>>)
    requires Ring(head, s) && add != head && add !in s
    modifies add, head`prev, head.prev`next
    ensures Ring(head, s + [add])
  {
    ghost var p: seq<Node<K>> := [head] + s;
    assert Closed(p) && p[0] == head;
    var prev := head.prev;
    head.prev := add;
    add.next := head;
    add.prev := prev;
    prev.next := add;
    assert [head] + (s + [add]) == p + [add];
  }

  lemma Neighbours<K(!new, 0)>(p: seq<Node<K>>, i: nat)
    requires Closed(p) && i < |p|
    ensures p[i].next == if i + 1 < |p| then p[i + 1] else p[0]
    ensures p[i].prev == if i > 0 then p[i - 1] else p[|p| - 1]
  {
  }

  /** The path without its j-th entry. */
  ghost function Without<T>(p: seq<T>, j: nat): seq<T>
    requires j < |p|
  {
    p[..j] + p[j + 1..]
  }

  lemma WithoutDistinct<T>(p: seq<T>, j: nat)
    requires j < |p| && Distinct(p)
    ensures Distinct(Without(p, j))
  {
    var q := Without(p, j);
    forall x, y | 0 <= x < y < |q| ensures q[x] != q[y] {
      assert q[x] == p[if x < j then x else x + 1] && q[y] == p[if y < j then y else y + 1];
    }
  }

  /** `__list_del` around the j-th entry of a closed path, which is not its head. */
  method Unlink<K(!new, 0)>(entry: Node<K>, ghost p: seq<Node<K>>, ghost j: nat)
    requires Closed(p) && 0 < j < |p| && entry == p[j]
    modifies p
    ensures Closed(Without(p, j)) && entry.next == old(entry.next) && entry.prev == old(entry.prev)
  {
    Neighbours(p, j);
    var prev, next := entry.prev, entry.next;
    next.prev := prev;
    prev.next := next;
    ghost var q: seq<Node<K>> := Without(p, j);
    WithoutDistinct(p, j);
    forall k | 0 <= k < |q| - 1 ensures q[k].next == q[k + 1] {
      if k + 1 < j {
        assert q[k] == p[k] && q[k + 1] == p[k + 1] && p[k] != prev;
      } else if k + 1 > j {
        assert q[k] == p[k + 1] && q[k + 1] == p[k + 2] && p[k + 1] != prev;
      }
    }
    forall k | 0 < k < |q| ensures q[k].prev == q[k - 1] {
      if k < j {
        assert q[k] == p[k] && q[k - 1] == p[k - 1] && p[k] != next;
      } else if k > j {
        assert q[k] == p[k + 1] && q[k - 1] == p[k] && p[k + 1] != next;
      }
    }
    assert q[0] == p[0] && q[|q| - 1] == if j < |p| - 1 then p[|p| - 1] else p[j - 1];
  }

  /** `list_del` of the i-th entry, whose own links stay as they are. */
  method ListDel<K(!new, 0)>(entry: Node<K>, ghost head: Node<K>, ghost s: seq<Node<K>>, ghost i: nat)
    requires Ring(head, s) && i < |s| && entry == s[i]
    modifies head, s
    ensures Ring(head, s[..i] + s[i + 1..]) && entry.next == old(entry.next) && entry.prev == old(entry.prev)
  {
    ghost var p: seq<Node<K>> := [head] + s;
    assert Closed(p) && p[i + 1] == entry;
    assert forall k | 0 <= k < |p| :: p[k] == head || p[k] in s;
    hide Closed;
    Unlink(entry, p, i + 1);
    assert Without(p, i + 1) == [head] + (s[..i] + s[i + 1..]);
  }

  // ----- the queue ----------------------------------------------------------------------------------------

  /** Entries are list nodes; what they carry is the node's key. */
  class Queue<F(!new, 0)> {
    const head: Node<F>
    ghost var entries: seq<Node<F>>

    /** `dmx512_framequeue_init`. */
    constructor ()
      ensures Valid() && entries == [] && fresh(head)
    {
      head := new Node<F>();
      entries := [];
      new;
      head.next := head;
      head.prev := head;
    }

    ghost predicate Valid()
      reads this, head, entries
    {
      Ring(head, entries)
    }

    /** `dmx512_framequeue_isempty`. */
    method IsEmpty() returns (r: bool)
      requires Valid()
      ensures r <==> entries == []
    {
      NextOfHead(head, entries);
      r := head.next == head;
    }

    /** `dmx512_framequeue_front`. */
    method Front() returns (e: Node?<F>)
      requires Valid()
      ensures e == if entries == [] then null else entries[0]
    {
      NextOfHead(head, entries);
      hide Ring;
      e := null;
      if head.next != head {
        e := head.next;
      }
    }

    /** `dmx512_framequeue_get`. */
    method Get() returns (e: Node?<F>)
      requires Valid()
      modifies this, head, entries
      ensures Valid() && e == (if old(entries) == [] then null else old(entries)[0])
      ensures entries == if old(entries) == [] then [] else old(entries)[1..]
    {
      NextOfHead(head, entries);
      hide Ring;
      e := null;
      if head.next != head {
        e := head.next;
        ListDel(e, head, entries, 0);
        assert entries[..0] + entries[0 + 1..] == entries[1..];
        entries := entries[1..];
      }
    }

    /** `dmx512_framequeue_put`. */
    method Put(e: Node<F>)
      requires Valid() && e != head && e !in entries
      modifies this, head, entries, e
      ensures Valid() && entries == old(entries) + [e]
    {
      RingLast(head, entries);
      ListAddTail(e, head, entries);
      entries := entries + [e];
    }

    /** `dmx512_framequeue_cleanup`; the entries are freed in order. */
    method Cleanup() returns (ghost freed: seq<Node<F>>)
      requires Valid()
      modifies this, head, entries
      ensures Valid() && entries == [] && freed == old(entries)
    {
      hide Ring;
      ghost var all, n := entries, if entries == [] then 0 else 1;
      freed := [];
      var e := Get();
      while e != null
        invariant Valid() && n <= |all| && entries == all[n..]
        invariant if e == null then n == |all| && freed == all else n > 0 && e == all[n - 1] && freed == all[..n - 1]
        decreases |all| - n, e != null
      {
        freed := freed + [e];
        assert freed == all[..n];
        e := Get();
        n := if e == null then n else n + 1;
      }
    }
  }

  lemma RingLast<K(!new, 0)>(head: Node<K>, s: seq<Node<K>>)
    requires Ring(head, s)
    ensures head.prev == if s == [] then head else s[|s| - 1]
  {
    Neighbours([head] + s, 0);
  }
}
