/** The intrusive circular list: `list.h` and the macros of `server/list.h`, on the heap.

    `Ring(head, s)` says that the nodes `s` hang on `head` in that order. Every operation relinks the
    nodes it must and turns one ring into another; its `modifies` clause names every node it touches. */
module IntrusiveList {
  import opened Sequences

  class ListHead {
    var next: ListHead?
    var prev: ListHead?

    constructor () {
      next, prev := null, null;
    }
  }

  /** The node that follows position `i` of the ring, and the one before it. */
  ghost function After(head: ListHead, s: seq<ListHead>, i: nat): ListHead
    requires i <= |s|
  {
    if i < |s| then s[i] else head
  }

  ghost function Before(head: ListHead, s: seq<ListHead>, i: nat): ListHead
    requires i <= |s|
  {
    if i > 0 then s[i - 1] else head
  }

  ghost predicate Ring(head: ListHead, s: seq<ListHead>)
    reads head, s
  {
    && head !in s && Distinct(s)
    && head.next == After(head, s, 0) && head.prev == Before(head, s, |s|)
    && forall i :: 0 <= i < |s| ==> s[i].next == After(head, s, i + 1) && s[i].prev == Before(head, s, i)
  }

  // ---------------------------------------------------------------- what a ring determines

  /** `next` and `prev` are inverses of each other all around the ring. */
  lemma LinksInverse(head: ListHead, s: seq<ListHead>, n: ListHead)
    requires Ring(head, s) && (n == head || n in s)
    ensures n.next != null && (n.next == head || n.next in s) && n.next.prev == n
    ensures n.prev != null && (n.prev == head || n.prev in s) && n.prev.next == n
  {
    if n in s {
      var i :| 0 <= i < |s| && s[i] == n;
    }
  }

  /** The links determine the sequence: one head carries one ring. */
  lemma RingUnique(head: ListHead, s: seq<ListHead>, t: seq<ListHead>)
    requires Ring(head, s) && Ring(head, t)
    ensures s == t
  {
    if |s| <= |t| { NotLonger(head, s, t); } else { NotLonger(head, t, s); }
  }

  lemma NotLonger(head: ListHead, s: seq<ListHead>, t: seq<ListHead>)
    requires Ring(head, s) && Ring(head, t) && |s| <= |t|
    ensures s == t
  {
    SamePrefix(head, s, t, |s|);
    hide Ring;
    HeadNotIn(head, t);
    assert |s| == |t|;
    assert s == s[..|s|] && t == t[..|t|];
  }

  lemma HeadNotIn(head: ListHead, t: seq<ListHead>)
    requires Ring(head, t)
    ensures head !in t
  {
  }

  lemma NextInRing(head: ListHead, s: seq<ListHead>, k: nat)
    requires Ring(head, s) && k <= |s|
    ensures Before(head, s, k).next == After(head, s, k)
  {
  }

  lemma {:induction false} SamePrefix(head: ListHead, s: seq<ListHead>, t: seq<ListHead>, k: nat)
    requires Ring(head, s) && Ring(head, t) && k <= |s| <= |t|
    ensures s[..k] == t[..k] && After(head, s, k) == After(head, t, k)
  {
    hide Ring;
    NextInRing(head, s, k);
    NextInRing(head, t, k);
    if k == 0 {
    } else {
      SamePrefix(head, s, t, k - 1);
      assert s[..k] == s[..k - 1] + [s[k - 1]] && t[..k] == t[..k - 1] + [t[k - 1]];
    }
  }

  // ---------------------------------------------------------------- list.h

  method ListInit(list: ListHead)
    modifies list
    ensures Ring(list, [])
  {
    list.next := list;
    list.prev := list;
  }

  /** `__list_add`: the order of the assignments does not matter, even when `prev` is `next`. */
  method LinkBetween(list: ListHead, prev: ListHead, next: ListHead)
    requires list != prev && list != next
    modifies list, prev, next
    ensures list.prev == prev && list.next == next && prev.next == list && next.prev == list
    ensures prev != next ==> prev.prev == old(prev.prev) && next.next == old(next.next)
  {
    next.prev := list;
    list.next := next;
    list.prev := prev;
    prev.next := list;
  }

  /** `list_add`: in front of the first node. */
  method ListAdd(list: ListHead, head: ListHead, ghost s: seq<ListHead>)
    requires Ring(head, s) && list !in s && list != head
    modifies list, head, head.next
    ensures Ring(head, [list] + s)
  {
    LinkBetween(list, head, head.next);
    ghost var t := [list] + s;
    assert forall i :: 1 <= i < |t| ==> t[i] == s[i - 1];
  }

  /** `list_add_tail`: behind the last node. */
  method ListAddTail(list: ListHead, head: ListHead, ghost s: seq<ListHead>)
    requires Ring(head, s) && list !in s && list != head
    modifies list, head, head.prev
    ensures Ring(head, s + [list])
  {
    LinkBetween(list, head.prev, head);
    ghost var t := s + [list];
    assert forall i :: 0 <= i < |s| ==> t[i] == s[i];
  }

  function Removed<T>(s: seq<T>, i: nat): (r: seq<T>)
    requires i < |s|
    ensures |r| == |s| - 1
  {
    s[..i] + s[i + 1..]
  }

  lemma RemovedNeighbours(head: ListHead, s: seq<ListHead>, i: nat, k: nat)
    requires i < |s| && k < |s|
    ensures After(head, Removed(s, i), k) == After(head, s, if k < i then k else k + 1)
    ensures Before(head, Removed(s, i), k) == Before(head, s, if k <= i then k else k + 1)
  {
  }

  lemma RemovedNodes(head: ListHead, s: seq<ListHead>, i: nat)
    requires i < |s| && head !in s && Distinct(s)
    ensures head !in Removed(s, i) && s[i] !in Removed(s, i) && Distinct(Removed(s, i))
    ensures forall k :: 0 <= k < |s| - 1 ==> Removed(s, i)[k] == s[if k < i then k else k + 1]
  {
  }

  /** `__list_del`. */
  method UnlinkBetween(prev: ListHead, next: ListHead)
    modifies prev, next
    ensures prev.next == next && next.prev == prev
    ensures prev != next ==> prev.prev == old(prev.prev) && next.next == old(next.next)
  {
    next.prev := prev;
    prev.next := next;
  }

  /** Positions other than `i` lose nothing but their link to the node at `i`. */
  ghost predicate Bypassed(head: ListHead, s: seq<ListHead>, i: nat)
    requires i < |s|
    reads head, s
  {
    && (forall k :: 0 <= k < |s| && k != i ==>
          && s[k].next == (if k + 1 == i then After(head, s, i + 1) else After(head, s, k + 1))
          && s[k].prev == (if k == i + 1 then Before(head, s, i) else Before(head, s, k)))
    && head.next == (if i == 0 then After(head, s, 1) else After(head, s, 0))
    && head.prev == (if i + 1 == |s| then Before(head, s, i) else Before(head, s, |s|))
  }

  lemma BypassedNode(head: ListHead, s: seq<ListHead>, i: nat, k: nat)
    requires i < |s| && head !in s && Distinct(s) && Bypassed(head, s, i) && k < |s| - 1
    ensures var t := Removed(s, i); t[k].next == After(head, t, k + 1) && t[k].prev == Before(head, t, k)
  {
    RemovedNodes(head, s, i);
    RemovedNeighbours(head, s, i, k);
    RemovedNeighbours(head, s, i, k + 1);
    hide Removed, Distinct;
  }

  lemma BypassedRing(head: ListHead, s: seq<ListHead>, i: nat)
    requires i < |s| && head !in s && Distinct(s) && Bypassed(head, s, i)
    ensures Ring(head, Removed(s, i))
  {
    hide Removed, Distinct, After, Before;
    var t := Removed(s, i);
    RemovedNodes(head, s, i);
    RemovedNeighbours(head, s, i, 0);
    RemovedNeighbours(head, s, i, |t|);
    forall k | 0 <= k < |t| ensures t[k].next == After(head, t, k + 1) && t[k].prev == Before(head, t, k) {
      BypassedNode(head, s, i, k);
    }
  }

  lemma NeighbourPositions(head: ListHead, s: seq<ListHead>, i: nat)
    requires i < |s| && head !in s && Distinct(s)
    ensures s[i] != Before(head, s, i) && s[i] != After(head, s, i + 1) && s[i] != head
    ensures forall k :: 0 <= k < |s| ==> (s[k] == Before(head, s, i) <==> k + 1 == i)
    ensures forall k :: 0 <= k < |s| ==> (s[k] == After(head, s, i + 1) <==> k == i + 1)
    ensures forall k :: 0 <= k < |s| && k != i ==> s[k] != s[i]
    ensures (head == Before(head, s, i) <==> i == 0) && (head == After(head, s, i + 1) <==> i + 1 == |s|)
  {
  }

  /** `list_del` of the node at position `i`: it touches that node and its two neighbours only. */
  method ListDel(entry: ListHead, ghost head: ListHead, ghost s: seq<ListHead>, ghost i: nat)
    requires Ring(head, s) && i < |s| && s[i] == entry
    modifies entry, entry.prev, entry.next
    ensures Ring(head, Removed(s, i))
    ensures entry.next == null && entry.prev == null
  {
    hide Distinct, Removed, After, Before;
    NeighbourPositions(head, s, i);
    UnlinkBetween(entry.prev, entry.next);
    entry.next := null;
    entry.prev := null;
    BypassedRing(head, s, i);
  }

  method ListEmpty(head: ListHead, ghost s: seq<ListHead>) returns (empty: bool)
    requires Ring(head, s)
    ensures empty <==> s == []
  {
    empty := head.next == head;
  }

  /** `list_remove`: the first node, or null. */
  method ListRemove(head: ListHead, ghost s: seq<ListHead>) returns (entry: ListHead?)
    requires Ring(head, s)
    modifies head, head.next, if s == [] then {} else {After(head, s, 1)}
    ensures s == [] ==> entry == null && Ring(head, [])
    ensures s != [] ==> entry == s[0] && Ring(head, s[1..]) && entry.next == null && entry.prev == null
  {
    var empty := ListEmpty(head, s);
    if empty {
      return null;
    }
    entry := head.next;
    ListDel(entry, head, s, 0);
    assert Removed(s, 0) == s[1..];
  }

  /** `list_remove_tail`: the last node, or null. */
  method ListRemoveTail(head: ListHead, ghost s: seq<ListHead>) returns (entry: ListHead?)
    requires Ring(head, s)
    modifies head, head.prev, if s == [] then {} else {Before(head, s, |s| - 1)}
    ensures s == [] ==> entry == null && Ring(head, [])
    ensures s != [] ==> entry == s[|s| - 1] && Ring(head, s[..|s| - 1]) && entry.next == null && entry.prev == null
  {
    var empty := ListEmpty(head, s);
    if empty {
      return null;
    }
    entry := head.prev;
    ListDel(entry, head, s, |s| - 1);
    assert Removed(s, |s| - 1) == s[..|s| - 1];
  }

  /** The loop of `main` that empties the done list while walking it: every node is visited once, in
      order, and each is already unlinked when it is handed on. */
  method Drain(head: ListHead, ghost s: seq<ListHead>) returns (visited: seq<ListHead>)
    requires Ring(head, s)
    modifies head, s
    ensures visited == s && Ring(head, [])
    ensures forall n :: n in s ==> n.next == null && n.prev == null
  {
    hide Ring, Distinct, Removed;
    visited := [];
    var p := head.next;
    ghost var k := 0;
    assert s[0..] == s;
    RingStart(head, s);
    while p != head
      invariant k <= |s| && visited == s[..k]
      invariant Ring(head, s[k..]) && p == After(head, s, k)
      invariant forall j :: 0 <= j < k ==> s[j].next == null && s[j].prev == null
      decreases |s| - k
    {
      var entry := p;
      FrontOfRest(head, s, k);
      RingStart(head, s[k..]);
      p := p.next;
      ListDel(entry, head, s[k..], 0);
      visited := visited + [entry];
      k := k + 1;
    }
    RestEmpty(head, s, k);
  }

  lemma RingStart(head: ListHead, s: seq<ListHead>)
    requires Ring(head, s)
    ensures head !in s && Distinct(s) && head.next == After(head, s, 0)
    ensures s != [] ==> s[0].prev == head && s[0].next == After(head, s, 1)
  {
  }

  lemma FrontOfRest(head: ListHead, s: seq<ListHead>, k: nat)
    requires head !in s && Distinct(s) && k < |s|
    ensures Removed(s[k..], 0) == s[k + 1..] && s[..k + 1] == s[..k] + [s[k]]
    ensures After(head, s[k..], 0) == s[k] && After(head, s[k..], 1) == After(head, s, k + 1)
    ensures forall j :: 0 <= j < k ==> s[j] != s[k] && s[j] != head && s[j] != After(head, s, k + 1)
  {
  }

  lemma RestEmpty(head: ListHead, s: seq<ListHead>, k: nat)
    requires head !in s && k <= |s| && After(head, s, k) == head
    ensures k == |s| && s[k..] == [] && s[..k] == s
  {
  }

  // ---------------------------------------------------------------- server/list.h

  /** `LIST_INIT` */
  method MacroInit(head: ListHead)
    modifies head
    ensures Ring(head, [])
  {
    head.prev := head;
    head.next := head;
  }

  /** `LIST_NOT_EMPTY`, and `LIST_EMPTY` as its negation. */
  method MacroNotEmpty(head: ListHead, ghost s: seq<ListHead>) returns (notEmpty: bool)
    requires Ring(head, s)
    ensures notEmpty <==> s != []
  {
    notEmpty := head.next != head;
  }

  /** `LIST_ADD` */
  method MacroAdd(head: ListHead, entry: ListHead, ghost s: seq<ListHead>)
    requires Ring(head, s) && entry !in s && entry != head
    modifies entry, head, head.next
    ensures Ring(head, [entry] + s)
  {
    entry.prev := head;
    entry.next := head.next;
    head.next.prev := entry;
    head.next := entry;
    ghost var t := [entry] + s;
    assert forall i :: 1 <= i < |t| ==> t[i] == s[i - 1];
  }

  /** `LIST_ADD_TAIL` */
  method MacroAddTail(head: ListHead, entry: ListHead, ghost s: seq<ListHead>)
    requires Ring(head, s) && entry !in s && entry != head
    modifies entry, head, head.prev
    ensures Ring(head, s + [entry])
  {
    entry.prev := head.prev;
    entry.next := head;
    head.prev.next := entry;
    head.prev := entry;
    ghost var t := s + [entry];
    assert forall i :: 0 <= i < |s| ==> t[i] == s[i];
  }

  /** `LIST_DEL` */
  method MacroDel(entry: ListHead, ghost head: ListHead, ghost s: seq<ListHead>, ghost i: nat)
    requires Ring(head, s) && i < |s| && s[i] == entry
    modifies entry, entry.prev, entry.next
    ensures Ring(head, Removed(s, i))
    ensures entry.next == null && entry.prev == null
  {
    hide Distinct, Removed, After, Before;
    NeighbourPositions(head, s, i);
    entry.prev.next := entry.next;
    entry.next.prev := entry.prev;
    entry.prev := null;
    entry.next := null;
    BypassedRing(head, s, i);
  }

  lemma RemovedFirst(s: seq<ListHead>)
    requires s != []
    ensures Removed(s, 0) == s[1..]
  {
  }

  lemma RestWithoutFirst(head: ListHead, s: seq<ListHead>)
    requires Ring(head, s) && s != []
    ensures s[0] !in s[1..] && s[0] != head && head.next == s[0]
    ensures s[0].prev == head && s[0].next == After(head, s, 1)
    ensures forall n :: n in s[1..] ==> n in s
  {
  }

  /** The front of a list, unlinked with the macro. */
  method TakeFirst(head: ListHead, ghost s: seq<ListHead>) returns (entry: ListHead)
    requires Ring(head, s) && s != []
    modifies head, s[0], After(head, s, 1)
    ensures entry == s[0] && Ring(head, s[1..])
  {
    entry := head.next;
    RestWithoutFirst(head, s);
    RemovedFirst(s);
    hide Removed, Distinct, Ring;
    MacroDel(entry, head, s, 0);
  }

  /** What a worker does to the two lists of the pool: it takes the front of one, and later puts the same
      node at the back of the other. Two rings without a common node do not disturb each other. */
  method MoveFirst(from: ListHead, to: ListHead, ghost s: seq<ListHead>, ghost t: seq<ListHead>)
    returns (entry: ListHead)
    requires Ring(from, s) && Ring(to, t) && s != []
    requires from != to && from !in t && to !in s && forall n :: n in s ==> n !in t
    modifies from, s, to, t
    ensures entry == s[0] && Ring(from, s[1..]) && Ring(to, t + [entry])
  {
    hide Removed, Distinct;
    RestWithoutFirst(from, s);
    entry := TakeFirst(from, s);
    assert Ring(to, t);
    assert to.prev == Before(to, t, |t|);
    MacroAddTail(to, entry, t);
  }

  // ---------------------------------------------------------------- list_for_each

  /** `list_for_each`: stops at the head again, having passed every node once, in order, changing none. */
  method ForEach(head: ListHead, ghost s: seq<ListHead>) returns (visited: seq<ListHead>)
    requires Ring(head, s)
    ensures visited == s
  {
    visited := [];
    var entry := head.next;
    ghost var k := 0;
    while entry != head
      invariant k <= |s| && entry == After(head, s, k) && visited == s[..k]
      decreases |s| - k
    {
      visited := visited + [entry];
      entry := entry.next;
      k := k + 1;
    }
  }
}
