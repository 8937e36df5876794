/** Circular doubly linked lists, and moving an entry to the front. */
module Lists {

  function Remove<T(==)>(s: seq<T>, x: T): (r: seq<T>)
    ensures x !in s ==> r == s
  {
    if s == [] then [] else if s[0] == x then s[1..] else [s[0]] + Remove(s[1..], x)
  }

  function MoveToFront<T(==)>(s: seq<T>, x: T): seq<T> {
    [x] + Remove(s, x)
  }

  lemma {:induction false} RemoveAt<T>(s: seq<T>, k: nat)
    requires k < |s| && s[k] !in s[..k]
    ensures Remove(s, s[k]) == s[..k] + s[k + 1..]
  {
    if k == 0 {
      assert s[..0] + s[1..] == s[1..];
    } else {
      assert s[0] in s[..k] && s[1..][..k - 1] == s[..k][1..];
      RemoveAt(s[1..], k - 1);
      assert [s[0]] + (s[1..][..k - 1] + s[k + 1..]) == s[..k] + s[k + 1..];
    }
  }

  /** An entry that was on the list is still there once; nothing else changes. */
  lemma {:induction false} MoveToFrontPermutes<T>(s: seq<T>, x: T)
    requires x in s
    ensures multiset(MoveToFront(s, x)) == multiset(s)
  {
    assert s == [s[0]] + s[1..];
    if s[0] != x {
      MoveToFrontPermutes(s[1..], x);
      assert MoveToFront(s, x) == [x] + ([s[0]] + Remove(s[1..], x));
      assert multiset(MoveToFront(s[1..], x)) == multiset{x} + multiset(Remove(s[1..], x));
    }
  }

  /** `struct list_head` */
  class ListHead {
    var next: ListHead
    var prev: ListHead

    constructor ()
      ensures next == this && prev == this
    {
      next, prev := this, this;
    }
  }

  function Next(i: nat, n: nat): nat
    requires i < n
  {
    if i + 1 == n then 0 else i + 1
  }

  predicate Distinct<T(==)>(s: seq<T>) {
    forall i, j :: 0 <= i < j < |s| ==> s[i] != s[j]
  }

  function Without<T>(s: seq<T>, k: nat): (r: seq<T>)
    requires k < |s|
    ensures |r| == |s| - 1
    ensures forall i :: 0 <= i < |r| ==> r[i] == s[if i < k then i else i + 1]
  {
    s[..k] + s[k + 1..]
  }

  lemma WithoutDistinct<T>(s: seq<T>, k: nat)
    requires Distinct(s) && k < |s|
    ensures Distinct(Without(s, k))
  {
  }

  /** The neighbours on the ring without node k, in terms of the ring with it. */
  lemma NextWithout<T>(s: seq<T>, k: nat, i: nat)
    requires 0 < k < |s| && i < |s| - 1
    ensures var rest, j := Without(s, k), if i < k then i else i + 1;
      && rest[i] == s[j]
      && rest[Next(i, |rest|)] == s[Next(if i == k - 1 then k else j, |s|)]
  {
  }

  /** The nodes form a ring in this order; the first one is the list head. */
  ghost predicate Ring(nodes: seq<ListHead>)
    reads nodes
  {
    && nodes != []
    && Distinct(nodes)
    && (forall i :: 0 <= i < |nodes| ==> nodes[i].next == nodes[Next(i, |nodes|)])
    && (forall i :: 0 <= i < |nodes| ==> nodes[Next(i, |nodes|)].prev == nodes[i])
  }

  /** `__list_del_entry` */
  method ListDel(entry: ListHead, ghost nodes: seq<ListHead>, ghost k: nat)
    requires Ring(nodes) && 0 < k < |nodes| && nodes[k] == entry
    modifies nodes
    ensures Ring(Without(nodes, k))
  {
    ghost var n, rest := |nodes|, Without(nodes, k);
    assert nodes[Next(k - 1, n)] == entry;
    entry.next.prev := entry.prev;
    entry.prev.next := entry.next;
    WithoutDistinct(nodes, k);
    hide Without;
    forall i | 0 <= i < |rest|
      ensures rest[i].next == rest[Next(i, |rest|)] && rest[Next(i, |rest|)].prev == rest[i]
    {
      NextWithout(nodes, k, i);
    }
  }

  /** `list_add` */
  method ListAdd(entry: ListHead, head: ListHead, ghost nodes: seq<ListHead>)
    requires Ring(nodes) && nodes[0] == head && entry !in nodes
    modifies nodes, entry
    ensures Ring([head, entry] + nodes[1..])
  {
    ghost var n := |nodes|;
    ghost var more := [head, entry] + nodes[1..];
    var next := head.next;
    assert next == nodes[Next(0, n)];
    next.prev := entry;
    entry.next := next;
    entry.prev := head;
    head.next := entry;
    forall i | 0 <= i < |more|
      ensures more[i].next == more[Next(i, |more|)] && more[Next(i, |more|)].prev == more[i]
    {
      if i > 1 {
        assert more[i] == nodes[i - 1] && more[Next(i, |more|)] == nodes[Next(i - 1, n)];
      }
    }
  }

  /** `list_move`: the entry goes to the front, the others keep their order. */
  method ListMove(entry: ListHead, head: ListHead, ghost nodes: seq<ListHead>) returns (ghost nodes': seq<ListHead>)
    requires Ring(nodes) && nodes[0] == head && entry in nodes[1..]
    modifies nodes
    ensures Ring(nodes') && nodes' == [head] + MoveToFront(nodes[1..], entry)
  {
    ghost var k :| 0 < k < |nodes| && nodes[k] == entry;
    Moved(nodes, k);
    ListDel(entry, nodes, k);
    ListAdd(entry, head, Without(nodes, k));
    nodes' := [head, entry] + Without(nodes, k)[1..];
  }

  lemma Moved<T>(s: seq<T>, k: nat)
    requires Distinct(s) && 0 < k < |s|
    ensures s[k] !in Without(s, k) && Without(s, k)[0] == s[0]
    ensures [s[0], s[k]] + Without(s, k)[1..] == [s[0]] + MoveToFront(s[1..], s[k])
  {
    var tail := s[1..];
    assert tail[k - 1] == s[k];
    RemoveAt(tail, k - 1);
    assert Without(s, k)[1..] == tail[..k - 1] + tail[k..];
  }
}
