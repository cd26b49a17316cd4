/** The LRU cache: nodes linked both ways, found through a searcher keyed by the node's key. */
module LruCache {

  import opened Wrappers
  import opened Recency

  class ListNode<K, V> {
    const key: K
    var value: V
    var prev: ListNode?<K, V>
    var next: ListNode?<K, V>

    constructor (key: K, value: V)
      ensures this.key == key && this.value == value && prev == null && next == null
    {
      this.key, this.value, prev, next := key, value, null, null;
    }
  }

  /** The node at `i`, or none past either end. */
  ghost function At<K, V>(nodes: seq<ListNode<K, V>>, i: int): ListNode?<K, V> {
    if 0 <= i < |nodes| then nodes[i] else null
  }

  /** Each node points to its neighbours, the first and the last past the ends. */
  ghost predicate Linked<K, V>(nodes: seq<ListNode<K, V>>)
    reads nodes`prev, nodes`next
  {
    && (forall i {:trigger nodes[i].prev} :: 0 <= i < |nodes| ==> nodes[i].prev == At(nodes, i - 1))
    && (forall i {:trigger nodes[i].next} :: 0 <= i < |nodes| ==> nodes[i].next == At(nodes, i + 1))
  }

  /** The nodes under their keys, which never change. */
  ghost function Keyed<K, V>(nodes: seq<ListNode<K, V>>): (s: seq<(K, ListNode<K, V>)>)
    ensures |s| == |nodes| && forall i {:trigger s[i]} :: 0 <= i < |s| ==> s[i] == (nodes[i].key, nodes[i])
  {
    seq(|nodes|, i requires 0 <= i < |nodes| => (nodes[i].key, nodes[i]))
  }

  /** The searcher holds the list's nodes and no others, each under its own key. */
  ghost predicate Indexes<K, V>(searcher: map<K, ListNode<K, V>>, nodes: seq<ListNode<K, V>>) {
    DistinctKeys(Keyed(nodes)) && searcher == AsMap(Keyed(nodes))
  }

  lemma NodesDiffer<K, V>(nodes: seq<ListNode<K, V>>, i: int)
    requires DistinctKeys(Keyed(nodes)) && 0 <= i < |nodes|
    ensures forall j :: 0 <= j < |nodes| && j != i ==> nodes[j] != nodes[i]
  {
    forall j | 0 <= j < |nodes| && j != i ensures nodes[j] != nodes[i] {
      assert Keyed(nodes)[i].0 != Keyed(nodes)[j].0;
    }
  }

  /** The nodes beside the one at `i` occur once in the list. */
  ghost predicate NeighboursApart<T>(nodes: seq<T>, i: nat)
    requires i < |nodes|
  {
    forall j :: 0 <= j < |nodes| ==>
      && (0 < i && j != i - 1 ==> nodes[j] != nodes[i - 1])
      && (i + 1 < |nodes| && j != i + 1 ==> nodes[j] != nodes[i + 1])
  }

  lemma NeighboursDiffer<K, V>(nodes: seq<ListNode<K, V>>, i: nat)
    requires DistinctKeys(Keyed(nodes)) && i < |nodes|
    ensures NeighboursApart(nodes, i)
  {
    if i > 0 { NodesDiffer(nodes, i - 1); }
    if i + 1 < |nodes| { NodesDiffer(nodes, i + 1); }
  }

  lemma EndsDiffer<K, V>(nodes: seq<ListNode<K, V>>, i: nat)
    requires DistinctKeys(Keyed(nodes)) && i < |nodes|
    ensures (nodes[0] == nodes[i] <==> i == 0) && (nodes[|nodes| - 1] == nodes[i] <==> i == |nodes| - 1)
  {
    NodesDiffer(nodes, i);
  }

  /** `s` is what the nodes hold. */
  ghost predicate Holds<K, V>(nodes: seq<ListNode<K, V>>, s: seq<(K, V)>)
    reads nodes`value
  {
    && |s| == |nodes|
    && forall i {:trigger s[i]} {:trigger nodes[i].value} ::
         0 <= i < |s| ==> s[i] == (nodes[i].key, nodes[i].value)
  }

  ghost function Cut<T>(s: seq<T>, i: nat): (r: seq<T>)
    requires i < |s|
    ensures |r| == |s| - 1 && forall j {:trigger r[j]} :: 0 <= j < |r| ==> r[j] == if j < i then s[j] else s[j + 1]
  {
    seq(|s| - 1, j requires 0 <= j < |s| - 1 => if j < i then s[j] else s[j + 1])
  }

  lemma CutIsWithout<K, V>(s: seq<(K, V)>, i: nat)
    requires DistinctKeys(s) && i < |s|
    ensures Cut(s, i) == Without(s, s[i].0)
  {
    WithoutAt(s, i);
    CutIsSlices(s, i);
  }

  lemma CutIsSlices<T>(s: seq<T>, i: nat)
    requires i < |s|
    ensures Cut(s, i) == s[..i] + s[i + 1..]
  {
  }

  lemma KeyedCut<K, V>(nodes: seq<ListNode<K, V>>, i: nat)
    requires i < |nodes|
    ensures Keyed(Cut(nodes, i)) == Cut(Keyed(nodes), i)
    ensures Keyed([nodes[i]] + Cut(nodes, i)) == [(nodes[i].key, nodes[i])] + Cut(Keyed(nodes), i)
  {
  }

  lemma MovedStaysIndexed<K, V>(searcher: map<K, ListNode<K, V>>, nodes: seq<ListNode<K, V>>, i: nat)
    requires Indexes(searcher, nodes) && i < |nodes|
    ensures Indexes(searcher, [nodes[i]] + Cut(nodes, i)) && nodes[i] !in Cut(nodes, i)
  {
    var s := Keyed(nodes);
    CallOnEntry(s, i, s[i].1);
    ApplyIsMap(s, Call.Get(s[i].0));
    KeyedCut(nodes, i);
    NodesDiffer(nodes, i);
  }

  lemma CutStaysIndexed<K, V>(searcher: map<K, ListNode<K, V>>, nodes: seq<ListNode<K, V>>, i: nat)
    requires Indexes(searcher, nodes) && i < |nodes|
    ensures Indexes(searcher - {nodes[i].key}, Cut(nodes, i))
  {
    var s := Keyed(nodes);
    CallOnEntry(s, i, s[i].1);
    ApplyIsMap(s, Call.Remove(s[i].0));
    KeyedCut(nodes, i);
  }

  lemma Removable<K, V>(searcher: map<K, ListNode<K, V>>, nodes: seq<ListNode<K, V>>, i: nat)
    requires Indexes(searcher, nodes) && i < |nodes|
    ensures NeighboursApart(nodes, i) && Indexes(searcher - {nodes[i].key}, Cut(nodes, i))
    ensures (nodes[0] == nodes[i] <==> i == 0) && (nodes[|nodes| - 1] == nodes[i] <==> i == |nodes| - 1)
  {
    NeighboursDiffer(nodes, i);
    EndsDiffer(nodes, i);
    CutStaysIndexed(searcher, nodes, i);
  }

  lemma PushedIsIndexed<K, V>(searcher: map<K, ListNode<K, V>>, nodes: seq<ListNode<K, V>>, node: ListNode<K, V>)
    requires Indexes(searcher, nodes) && node.key !in searcher
    ensures Indexes(searcher[node.key := node], [node] + nodes)
  {
    var s := Keyed(nodes);
    AsMapKeys(s, node.key);
    InFront((node.key, node), s);
    assert Keyed([node] + nodes) == [(node.key, node)] + s;
  }

  lemma EndsAfterMove<T>(nodes: seq<T>, i: nat)
    requires 0 < i < |nodes|
    ensures var rest := Cut(nodes, i);
            |rest| > 0 && ([nodes[i]] + rest)[|rest|] == rest[|rest| - 1] && |[nodes[i]] + rest| == |rest| + 1
  {
  }

  lemma FirstStays<T>(nodes: seq<T>)
    requires nodes != []
    ensures [nodes[0]] + Cut(nodes, 0) == nodes
  {
  }

  /** What each call does to entries that hold its key, at `i`. */
  lemma CallOnEntry<K, V>(s: seq<(K, V)>, i: nat, value: V)
    requires DistinctKeys(s) && i < |s|
    ensures var key := s[i].0;
            && key in AsMap(s) && AsMap(s)[key] == s[i].1
            && Apply(s, Call.Get(key)) == [s[i]] + Cut(s, i)
            && Apply(s, Call.Put(key, value)) == [(key, value)] + Cut(s, i)
            && Apply(s, Call.Remove(key)) == Cut(s, i)
  {
    AsMapAt(s, i);
    CutIsWithout(s, i);
  }

  /** Nodes with keys of their own hold entries with keys of their own. */
  lemma EntriesHaveKeys<K, V>(nodes: seq<ListNode<K, V>>, s: seq<(K, V)>)
    requires DistinctKeys(Keyed(nodes)) && Holds(nodes, s)
    ensures DistinctKeys(s)
  {
    forall i, j | 0 <= i < j < |s| ensures s[i].0 != s[j].0 {
      assert Keyed(nodes)[i].0 != Keyed(nodes)[j].0;
    }
  }

  /** Finding a node through the searcher is finding its entry. */
  lemma Found<K, V>(searcher: map<K, ListNode<K, V>>, nodes: seq<ListNode<K, V>>, s: seq<(K, V)>, key: K, value: V)
    returns (i: nat)
    requires Indexes(searcher, nodes) && key in searcher && Holds(nodes, s)
    ensures i < |nodes| && nodes[i] == searcher[key]
    ensures s[i].0 == key && key in AsMap(s) && AsMap(s)[key] == s[i].1 == nodes[i].value
    ensures Apply(s, Call.Get(key)) == [s[i]] + Cut(s, i)
    ensures Apply(s, Call.Put(key, value)) == [(key, value)] + Cut(s, i)
    ensures Apply(s, Call.Remove(key)) == Cut(s, i)
  {
    AsMapKeys(Keyed(nodes), key);
    i :| i < |nodes| && Keyed(nodes)[i].0 == key;
    AsMapAt(Keyed(nodes), i);
    EntriesHaveKeys(nodes, s);
    CallOnEntry(s, i, value);
  }

  /** And not finding it, that there is none. */
  lemma NotFound<K, V>(searcher: map<K, ListNode<K, V>>, nodes: seq<ListNode<K, V>>, s: seq<(K, V)>, key: K)
    requires Indexes(searcher, nodes) && key !in searcher && Holds(nodes, s)
    ensures key !in AsMap(s)
    ensures Apply(s, Call<K, V>.Get(key)) == s
    ensures forall value: V :: Apply(s, Call.Put(key, value)) == [(key, value)] + s
    ensures Apply(s, Call<K, V>.Remove(key)) == s
  {
    if HasKey(s, key) {
      var i :| 0 <= i < |s| && s[i].0 == key;
      AsMapAt(Keyed(nodes), i);
      assert false;
    }
    AsMapKeys(s, key);
    WithoutNone(s, key);
  }

  lemma MovedHolds<K, V>(nodes: seq<ListNode<K, V>>, s: seq<(K, V)>, i: nat)
    requires i < |nodes| && Holds(nodes, s)
    ensures Holds([nodes[i]] + Cut(nodes, i), [s[i]] + Cut(s, i)) && Holds(Cut(nodes, i), Cut(s, i))
  {
  }

  lemma Movable<K, V>(searcher: map<K, ListNode<K, V>>, nodes: seq<ListNode<K, V>>, s: seq<(K, V)>, i: nat)
    requires Indexes(searcher, nodes) && Holds(nodes, s) && i < |nodes|
    ensures NeighboursApart(nodes, i) && nodes[i] !in Cut(nodes, i)
    ensures Indexes(searcher, [nodes[i]] + Cut(nodes, i))
    ensures Holds([nodes[i]] + Cut(nodes, i), [s[i]] + Cut(s, i))
  {
    NeighboursDiffer(nodes, i);
    MovedStaysIndexed(searcher, nodes, i);
    MovedHolds(nodes, s, i);
  }

  lemma PushedHolds<K, V>(nodes: seq<ListNode<K, V>>, s: seq<(K, V)>, node: ListNode<K, V>)
    requires Holds(nodes, s)
    ensures Holds([node] + nodes, [(node.key, node.value)] + s)
  {
  }

  /** Pointing the neighbours of node `i` past it leaves the others linked. */
  twostate lemma CutKeepsLinks<K, V>(nodes: seq<ListNode<K, V>>, new i: nat)
    requires i < |nodes| && old(Linked(nodes))
    requires forall j {:trigger nodes[j].prev} :: 0 <= j < |nodes| && j != i ==>
               nodes[j].prev == if j == i + 1 then At(nodes, i - 1) else old(nodes[j].prev)
    requires forall j {:trigger nodes[j].next} :: 0 <= j < |nodes| && j != i ==>
               nodes[j].next == if j == i - 1 then At(nodes, i + 1) else old(nodes[j].next)
    ensures Linked(Cut(nodes, i))
  {
  }

  /** A node pointed at the first, and pointed at by it, is linked in front. */
  twostate lemma FrontKeepsLinks<K, V>(nodes: seq<ListNode<K, V>>, new node: ListNode<K, V>)
    requires old(Linked(nodes)) && node.prev == null && node.next == At(nodes, 0)
    requires forall j {:trigger nodes[j].prev} :: 0 <= j < |nodes| ==>
               nodes[j].prev == if j == 0 then node else old(nodes[j].prev)
    requires forall j {:trigger nodes[j].next} :: 0 <= j < |nodes| ==> nodes[j].next == old(nodes[j].next)
    ensures Linked([node] + nodes)
  {
  }

  /** What a plain map answers a call; only `Get` asks. */
  function Answer<K(==), V>(m: map<K, V>, c: Call<K, V>): Option<V> {
    if c.Get? && c.key in m then Some(m[c.key]) else None
  }

  class LruCache<K(==), V> {
    var searcher: map<K, ListNode<K, V>>
    var front: ListNode?<K, V>
    var tail: ListNode?<K, V>
    ghost var nodes: seq<ListNode<K, V>>
    /** The entries, latest used first. */
    ghost var entries: seq<(K, V)>

    ghost predicate Valid()
      reads this, nodes
    {
      && Linked(nodes) && Indexes(searcher, nodes) && Holds(nodes, entries)
      && front == At(nodes, 0) && tail == At(nodes, |nodes| - 1)
    }

    constructor ()
      ensures Valid() && entries == []
    {
      searcher, front, tail, nodes, entries := map[], null, null, [], [];
    }

    method Destroy()
      modifies this
      ensures Valid() && entries == []
    {
      searcher := map[];
      front := null;
      tail := null;
      nodes, entries := [], [];
    }

    /** The neighbours of the node at `i`, not the first, are pointed past it. */
    method LinkPast(node: ListNode<K, V>, ghost i: nat)
      requires Linked(nodes) && tail == At(nodes, |nodes| - 1)
      requires 0 < i < |nodes| && nodes[i] == node && NeighboursApart(nodes, i)
      modifies this`tail, this`nodes, nodes`prev, nodes`next
      ensures nodes == Cut(old(nodes), i) && Linked(nodes)
      ensures tail == At(nodes, |nodes| - 1)
    {
      node.prev.next := node.next;
      if node.next != null {
        node.next.prev := node.prev;
      } else {
        tail := node.prev;
      }
      CutKeepsLinks(nodes, i);
      nodes := Cut(nodes, i);
    }

    /** A node outside the list becomes the front. */
    method LinkFront(node: ListNode<K, V>)
      requires Linked(nodes) && node !in nodes && front == At(nodes, 0)
      modifies this`front, this`nodes, nodes`prev, node`prev, node`next
      ensures nodes == [node] + old(nodes) && Linked(nodes) && front == node
    {
      node.prev := null;
      node.next := front;
      if front != null {
        front.prev := node;
      }
      front := node;
      FrontKeepsLinks(nodes, node);
      nodes := [node] + nodes;
    }

    /** The relinking of `lru_touch`: a node with one before it is taken out and linked in front. */
    method MoveToFront(node: ListNode<K, V>, ghost i: nat)
      requires Linked(nodes) && front == At(nodes, 0) && tail == At(nodes, |nodes| - 1)
      requires 0 < i < |nodes| && nodes[i] == node && NeighboursApart(nodes, i) && node !in Cut(nodes, i)
      modifies this`front, this`tail, this`nodes, nodes`prev, nodes`next
      ensures Linked(nodes) && nodes == [node] + Cut(old(nodes), i)
      ensures front == node && tail == At(nodes, |nodes| - 1)
    {
      EndsAfterMove(nodes, i);
      LinkPast(node, i);
      LinkFront(node);
    }

    /** The same, and its entry. */
    method MoveEntry(node: ListNode<K, V>, ghost i: nat)
      requires Valid() && 0 < i < |nodes| && nodes[i] == node
      modifies this`front, this`tail, this`nodes, this`entries, nodes`prev, nodes`next
      ensures Valid() && nodes == [node] + Cut(old(nodes), i)
      ensures entries == [old(entries[i])] + Cut(old(entries), i)
    {
      Movable(searcher, nodes, entries, i);
      MoveToFront(node, i);
      entries := [entries[i]] + Cut(entries, i);
    }

    /** `lru_touch`: moves the node at `i` to the front. */
    method Touch(node: ListNode<K, V>, ghost i: nat)
      requires Valid() && i < |nodes| && nodes[i] == node
      modifies this`front, this`tail, this`nodes, this`entries, nodes`prev, nodes`next
      ensures Valid() && nodes == [node] + Cut(old(nodes), i)
      ensures entries == [old(entries[i])] + Cut(old(entries), i)
    {
      if node.prev == null {
        FirstStays(nodes);
        FirstStays(entries);
        return;
      }
      MoveEntry(node, i);
    }

    /** `lru_push`, for a node with a key of its own. */
    method Push(node: ListNode<K, V>)
      requires Valid() && node !in nodes && node.key !in searcher
      modifies this, nodes`prev, node`prev, node`next
      ensures Valid() && nodes == [node] + old(nodes)
      ensures entries == [(node.key, node.value)] + old(entries)
    {
      if tail == null {
        tail := node;
      }
      PushedIsIndexed(searcher, nodes, node);
      PushedHolds(nodes, entries, node);
      LinkFront(node);
      searcher := searcher[node.key := node];
      entries := [(node.key, node.value)] + entries;
    }

    /** `lru_remove` */
    method LruRemove(node: ListNode<K, V>, ghost i: nat)
      requires Valid() && i < |nodes| && nodes[i] == node
      modifies this, nodes`prev, nodes`next
      ensures Valid() && nodes == Cut(old(nodes), i) && entries == Cut(old(entries), i)
    {
      Removable(searcher, nodes, i);
      MovedHolds(nodes, entries, i);
      Unlink(node, i);
      searcher := searcher - {node.key};
      entries := Cut(entries, i);
    }

    /** The relinking of `lru_remove`. */
    method Unlink(node: ListNode<K, V>, ghost i: nat)
      requires Linked(nodes) && front == At(nodes, 0) && tail == At(nodes, |nodes| - 1)
      requires i < |nodes| && nodes[i] == node && NeighboursApart(nodes, i)
      requires (front == node <==> i == 0) && (tail == node <==> i == |nodes| - 1)
      modifies this`front, this`tail, this`nodes, nodes`prev, nodes`next
      ensures nodes == Cut(old(nodes), i) && Linked(nodes)
      ensures front == At(nodes, 0) && tail == At(nodes, |nodes| - 1)
    {
      if node.prev != null {
        node.prev.next := node.next;
      }
      if node.next != null {
        node.next.prev := node.prev;
      }
      if front == node {
        front := node.next;
      }
      if tail == node {
        tail := node.prev;
      }
      CutKeepsLinks(nodes, i);
      nodes := Cut(nodes, i);
    }

    method Get(key: K) returns (value: Option<V>)
      requires Valid()
      modifies this, nodes
      ensures Valid() && (forall n :: n in nodes ==> n in old(nodes))
      ensures value == (if key in AsMap(old(entries)) then Some(AsMap(old(entries))[key]) else None)
      ensures entries == Apply(old(entries), Call<K, V>.Get(key))
    {
      if key !in searcher {
        NotFound(searcher, nodes, entries, key);
        return None;
      }
      var node := searcher[key];
      ghost var i := Found(searcher, nodes, entries, key, node.value);
      Touch(node, i);
      value := Some(node.value);
    }

    method Put(key: K, value: V)
      requires Valid()
      modifies this, nodes
      ensures Valid() && (forall n :: n in nodes ==> n in old(nodes) || fresh(n))
      ensures entries == Apply(old(entries), Call.Put(key, value))
    {
      if key !in searcher {
        NotFound(searcher, nodes, entries, key);
        var node := new ListNode(key, value);
        Push(node);
        return;
      }
      var node := searcher[key];
      ghost var i := Found(searcher, nodes, entries, key, value);
      SetValue(node, i, value);
      Touch(node, i);
    }

    /** The node at `i` is given a new value. */
    method SetValue(node: ListNode<K, V>, ghost i: nat, value: V)
      requires Valid() && i < |nodes| && nodes[i] == node
      modifies this`entries, node`value
      ensures Valid() && entries == old(entries)[i := (node.key, value)]
      ensures Cut(entries, i) == Cut(old(entries), i)
    {
      NodesDiffer(nodes, i);
      node.value := value;
      entries := entries[i := (node.key, value)];
    }

    method Remove(key: K)
      requires Valid()
      modifies this, nodes
      ensures Valid() && (forall n :: n in nodes ==> n in old(nodes))
      ensures entries == Apply(old(entries), Call<K, V>.Remove(key))
    {
      if key !in searcher {
        NotFound(searcher, nodes, entries, key);
        return;
      }
      var node := searcher[key];
      ghost var i := Found(searcher, nodes, entries, key, node.value);
      LruRemove(node, i);
    }

    /** Any of the three calls. */
    method Take(c: Call<K, V>) returns (answer: Option<V>)
      requires Valid()
      modifies this, nodes
      ensures Valid() && (forall n :: n in nodes ==> n in old(nodes) || fresh(n))
      ensures entries == Apply(old(entries), c)
      ensures answer == Answer(AsMap(old(entries)), c)
    {
      answer := None;
      match c {
        case Get(key) => answer := Get(key);
        case Put(key, value) => Put(key, value);
        case Remove(key) => Remove(key);
      }
    }

    method Count() returns (n: nat)
      requires Valid()
      ensures n == |entries|
    {
      AsMapSize(Keyed(nodes));
      n := |searcher|;
    }

    /** `foreach`: latest used first, until the visitor says no. */
    method ForEach(func: (K, V) -> bool) returns (seen: seq<(K, V)>)
      requires Valid()
      ensures seen == Visited(entries, func)
    {
      seen := [];
      var node := front;
      ghost var i := 0;
      while node != null
        invariant i <= |nodes| && node == At(nodes, i)
        invariant seen == entries[..i] && Accepts(entries, i, func)
        decreases |nodes| - i
      {
        seen := seen + [(node.key, node.value)];
        var ret := func(node.key, node.value);
        if !ret {
          break;
        }
        node := node.next;
        i := i + 1;
      }
      VisitedUpTo(entries, i, func);
    }

    /** `foreach_reverse`: earliest used first, until the visitor says no. */
    method ForEachReverse(func: (K, V) -> bool) returns (seen: seq<(K, V)>)
      requires Valid()
      ensures seen == Visited(Reversed(entries), func)
    {
      seen := [];
      var node := tail;
      ghost var i := 0;
      ghost var back := Reversed(entries);
      while node != null
        invariant i <= |nodes| && node == At(nodes, |nodes| - 1 - i)
        invariant seen == back[..i] && Accepts(back, i, func)
        decreases |nodes| - i
      {
        seen := seen + [(node.key, node.value)];
        var ret := func(node.key, node.value);
        if !ret {
          break;
        }
        node := node.prev;
        i := i + 1;
      }
      VisitedUpTo(back, i, func);
    }
  }

  /** What a plain map answers to each of the calls. */
  function Answers<K(==), V>(calls: seq<Call<K, V>>): seq<Option<V>> {
    if calls == [] then []
    else
      var before := calls[..|calls| - 1];
      Answers(before) + [Answer(RunMap(before), calls[|calls| - 1])]
  }

  lemma OneCallMore<K, V>(calls: seq<Call<K, V>>, i: nat)
    requires i < |calls|
    ensures Run(calls[..i + 1]) == Apply(Run(calls[..i]), calls[i])
    ensures Answers(calls[..i + 1]) == Answers(calls[..i]) + [Answer(AsMap(Run(calls[..i])), calls[i])]
  {
    RunRefines(calls[..i]);
    assert calls[..i + 1][..i] == calls[..i];
  }

  /** A new cache under any calls: it answers every one as a plain map does, and with `RunRefines`
      it holds what the map holds, in order of last use. */
  method Perform<K(==), V>(calls: seq<Call<K, V>>) returns (c: LruCache<K, V>, answers: seq<Option<V>>)
    ensures fresh(c) && c.Valid() && c.entries == Run(calls)
    ensures answers == Answers(calls)
  {
    c := new LruCache();
    answers := [];
    for i := 0 to |calls|
      invariant fresh(c) && fresh(set n | n in c.nodes)
      invariant c.Valid() && c.entries == Run(calls[..i]) && answers == Answers(calls[..i])
    {
      OneCallMore(calls, i);
      var answer := c.Take(calls[i]);
      answers := answers + [answer];
    }
    assert calls[..|calls|] == calls;
  }
}
