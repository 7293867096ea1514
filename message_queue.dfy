/**
 * The per-connection outbound message queue: a singly linked list with
 * `first`/`last` pointers and a counter that tags every enqueued message with
 * a fresh id. Acknowledgment trims a prefix of the list through a given id.
 */
module MessageQueue {
  import opened Values

  /** One element of a `toArray` snapshot. */
  datatype Entry<M> = Entry(id: nat, message: M)

  /** Ids strictly increase along the queue and all lie below the next id to
      be handed out. */
  predicate Ordered<M>(s: seq<Entry<M>>, nextID: nat)
  {
    (forall i, j :: 0 <= i < j < |s| ==> s[i].id < s[j].id) &&
    (forall i :: 0 <= i < |s| ==> s[i].id < nextID)
  }

  /** The position of the first entry at or after `from` that carries `id`,
      if any: where the walk in `clear` stops. */
  function FindId<M>(s: seq<Entry<M>>, id: int, from: nat): (r: Option<nat>)
    requires from <= |s|
    ensures r.Some? ==> from <= r.value < |s| && s[r.value].id == id
    ensures r.Some? ==> forall j :: from <= j < r.value ==> s[j].id != id
    ensures r.None? ==> forall j :: from <= j < |s| ==> s[j].id != id
    decreases |s| - from
  {
    if from == |s| then None
    else if s[from].id == id then Some(from)
    else FindId(s, id, from + 1)
  }

  /** How many entries `clear(id)` removes from the front of `s`: none when
      no entry carries the id, and otherwise every entry up to and including
      the first one that does. */
  function Removed<M>(s: seq<Entry<M>>, id: int): (n: nat)
    ensures n <= |s|
    ensures n == 0 <==> forall j :: 0 <= j < |s| ==> s[j].id != id
    ensures n > 0 ==> s[n - 1].id == id
    ensures forall j :: 0 <= j < n - 1 ==> s[j].id != id
  {
    match FindId(s, id, 0)
    case None => 0
    case Some(k) => k + 1
  }

  /** What `clear(id)` leaves of the queue contents `s`. */
  function ClearThrough<M>(s: seq<Entry<M>>, id: int): seq<Entry<M>>
  {
    s[Removed(s, id)..]
  }

  /** Clearing through the first entry carrying the id removes it and
      everything before it. */
  lemma RemovedFirst<M>(s: seq<Entry<M>>, id: int, k: nat)
    requires k < |s| && s[k].id == id
    requires forall j :: 0 <= j < k ==> s[j].id != id
    ensures Removed(s, id) == k + 1
  {
    assert FindId(s, id, 0) == Some(k);
  }

  lemma SuffixOrdered<M>(s: seq<Entry<M>>, nextID: nat, d: nat)
    requires Ordered(s, nextID) && d <= |s|
    ensures Ordered(s[d..], nextID)
  {
    assert forall i :: 0 <= i < |s| - d ==> s[d..][i] == s[d + i];
  }

  /** An entry tagged with the counter may be appended to an ordered queue. */
  lemma OrderedAppend<M>(s: seq<Entry<M>>, nextID: nat, m: M)
    requires Ordered(s, nextID)
    ensures Ordered(s + [Entry(nextID, m)], nextID + 1)
  {
  }

  /** Trimming keeps the ids in order and below the counter. */
  lemma ClearThroughOrdered<M>(s: seq<Entry<M>>, nextID: nat, id: int)
    requires Ordered(s, nextID)
    ensures Ordered(ClearThrough(s, id), nextID)
  {
    SuffixOrdered(s, nextID, Removed(s, id));
  }

  /** Acknowledging the same id twice is the same as acknowledging it once. */
  lemma ClearIdempotent<M>(s: seq<Entry<M>>, nextID: nat, id: int)
    requires Ordered(s, nextID)
    ensures ClearThrough(ClearThrough(s, id), id) == ClearThrough(s, id)
  {
    var d := Removed(s, id);
    var r := s[d..];
    if d > 0 {
      forall j | 0 <= j < |r| ensures r[j].id != id {
        assert r[j] == s[d + j];
        assert s[d - 1].id < s[d + j].id;
      }
    }
    assert Removed(r, id) == 0;
  }

  /** Clearing through the id of the i-th of n entries leaves n - 1 - i entries,
      namely those after it. */
  lemma ClearAt<M>(s: seq<Entry<M>>, nextID: nat, i: nat)
    requires Ordered(s, nextID) && i < |s|
    ensures ClearThrough(s, s[i].id) == s[i + 1..]
    ensures |ClearThrough(s, s[i].id)| == |s| - 1 - i
  {
    RemovedFirst(s, s[i].id, i);
  }

  /** Acknowledging an id that no entry carries leaves the queue as it was. */
  lemma ClearAbsent<M>(s: seq<Entry<M>>, id: int)
    requires forall j :: 0 <= j < |s| ==> s[j].id != id
    ensures ClearThrough(s, id) == s
  {
  }

  /** An abstract queue: its contents and its id counter. */
  datatype State<M> = State(contents: seq<Entry<M>>, nextID: nat)

  /** The operations that change a queue. */
  datatype Op<M> = Append(message: M) | Ack(through: int)

  /** The effect of one operation on the abstract queue. */
  function Step<M>(st: State<M>, op: Op<M>): State<M>
  {
    match op
    case Append(m) => State(st.contents + [Entry(st.nextID, m)], st.nextID + 1)
    case Ack(id) => State(ClearThrough(st.contents, id), st.nextID)
  }

  /** The abstract queue after running `ops` on a freshly created queue. */
  function Run<M>(ops: seq<Op<M>>): State<M>
  {
    if ops == [] then State([], 0)
    else Step(Run(ops[..|ops| - 1]), ops[|ops| - 1])
  }

  /** The ids handed out while running `ops`, including ones later cleared. */
  function Issued<M>(ops: seq<Op<M>>): set<nat>
  {
    if ops == [] then {}
    else
      var before := ops[..|ops| - 1];
      Issued(before) + (if ops[|ops| - 1].Append? then {Run(before).nextID} else {})
  }

  /** The history invariant: the queue is ordered, every id in it was issued,
      and every id ever issued lies below the counter. */
  predicate HistoryInvariant<M>(st: State<M>, issued: set<nat>)
  {
    Ordered(st.contents, st.nextID) &&
    (forall i :: 0 <= i < |st.contents| ==> st.contents[i].id in issued) &&
    (forall x :: x in issued ==> x < st.nextID)
  }

  /** One operation keeps the history invariant, the issued ids growing by the
      one an enqueue hands out. */
  lemma StepInvariant<M>(st: State<M>, issued: set<nat>, op: Op<M>)
    requires HistoryInvariant(st, issued)
    ensures HistoryInvariant(Step(st, op), issued + if op.Append? then {st.nextID} else {})
  {
    match op
    case Append(m) =>
    case Ack(id) =>
      ClearThroughOrdered(st.contents, st.nextID, id);
      var r := ClearThrough(st.contents, id);
      var d := |st.contents| - |r|;
      assert forall i :: 0 <= i < |r| ==> r[i] == st.contents[d + i];
  }

  /** Whatever the history, the queue is ordered, every id in it was issued,
      and every id ever issued (cleared or not) lies below the counter, so the
      next enqueue never reuses one. */
  lemma {:induction false} RunInvariant<M>(ops: seq<Op<M>>)
    ensures HistoryInvariant(Run(ops), Issued(ops))
  {
    if ops != [] {
      var before := ops[..|ops| - 1];
      RunInvariant(before);
      StepInvariant(Run(before), Issued(before), ops[|ops| - 1]);
    }
  }

  /** The id an enqueue hands out after any history was never handed out
      before, even when every entry that carried an earlier id is cleared. */
  lemma NextIdFresh<M>(ops: seq<Op<M>>, m: M)
    ensures Run(ops).nextID !in Issued(ops)
    ensures Issued(ops + [Append(m)]) == Issued(ops) + {Run(ops).nextID}
    ensures Run(ops + [Append(m)]).nextID == Run(ops).nextID + 1
  {
    RunInvariant(ops);
    assert (ops + [Append(m)])[..|ops|] == ops;
  }

  /** The operations that enqueue `ms` in order, with no acknowledgment. */
  function Appends<M>(ms: seq<M>): (ops: seq<Op<M>>)
    ensures |ops| == |ms| && forall i :: 0 <= i < |ms| ==> ops[i] == Append(ms[i])
  {
    if ms == [] then [] else Appends(ms[..|ms| - 1]) + [Append(ms[|ms| - 1])]
  }

  /** With no acknowledgments the snapshot is exactly the enqueued messages,
      in enqueue order, numbered from zero. */
  lemma {:induction false} RunAppends<M>(ms: seq<M>)
    ensures Run(Appends(ms)).nextID == |ms|
    ensures |Run(Appends(ms)).contents| == |ms|
    ensures forall i :: 0 <= i < |ms| ==> Run(Appends(ms)).contents[i] == Entry(i, ms[i])
  {
    if ms != [] {
      var ops := Appends(ms);
      assert ops[..|ops| - 1] == Appends(ms[..|ms| - 1]);
      RunAppends(ms[..|ms| - 1]);
    }
  }

  /** Each item of `nodes` points to the one after it. */
  ghost predicate Linked<M>(nodes: seq<Node<M>>)
    reads nodes
  {
    forall i, j :: 0 <= i < |nodes| && j == i + 1 < |nodes| ==> nodes[i].next == nodes[j]
  }

  /** `contents` lists the id and message of each item of `nodes`. */
  ghost predicate Tagged<M>(nodes: seq<Node<M>>, contents: seq<Entry<M>>)
  {
    |contents| == |nodes| &&
    forall i {:trigger contents[i]} :: 0 <= i < |nodes| ==> contents[i] == Entry(nodes[i].id, nodes[i].message)
  }

  /** Dropping a prefix of the items keeps the rest linked and tagged. */
  lemma SuffixChain<M>(nodes: seq<Node<M>>, contents: seq<Entry<M>>, d: nat)
    requires Linked(nodes) && Tagged(nodes, contents) && d <= |nodes|
    ensures Linked(nodes[d..]) && Tagged(nodes[d..], contents[d..])
  {
    forall i, j | 0 <= i < |nodes| - d && j == i + 1 < |nodes| - d
      ensures nodes[d..][i].next == nodes[d..][j]
    {
      assert nodes[d..][i] == nodes[d + i] && nodes[d..][j] == nodes[d + j];
    }
    forall i | 0 <= i < |nodes| - d
      ensures contents[d..][i] == Entry(nodes[d..][i].id, nodes[d..][i].message)
    {
      assert nodes[d..][i] == nodes[d + i] && contents[d..][i] == contents[d + i];
    }
  }

  /** A linked-list item. Only `next` is ever updated. */
  class Node<M> {
    const id: nat
    const message: M
    var next: Node?<M>

    constructor (id: nat, message: M)
      ensures this.id == id && this.message == message && next == null
    {
      this.id := id;
      this.message := message;
      next := null;
    }
  }

  class Queue<M> {
    // public view
    ghost var Contents: seq<Entry<M>>
    ghost var Nodes: seq<Node<M>>  // the list items from `first` to `last`
    ghost var Repr: set<object>

    // implementation
    var first: Node?<M>
    var last: Node?<M>
    var nextID: nat

    ghost predicate Valid()
      reads this, Repr
    {
      this in Repr &&
      (forall n :: n in Nodes ==> n in Repr) &&
      Tagged(Nodes, Contents) &&
      Linked(Nodes) &&
      (first == null <==> last == null) &&
      (Nodes == [] ==> first == null) &&
      (Nodes != [] ==> first == Nodes[0] && last == Nodes[|Nodes| - 1] && last.next == null) &&
      Ordered(Contents, nextID)
    }

    ghost function Abstract(): State<M>
      reads this
    {
      State(Contents, nextID)
    }

    constructor ()
      ensures Valid() && fresh(Repr)
      ensures Contents == [] && nextID == 0 && first == null && last == null
    {
      first, last, nextID := null, null, 0;
      Contents, Nodes, Repr := [], [], {this};
    }

    /** Adds `message` at the tail under the next id. */
    method Enqueue(message: M)
      requires Valid()
      modifies Repr
      ensures Valid() && fresh(Repr - old(Repr))
      ensures Contents == old(Contents) + [Entry(old(nextID), message)]
      ensures nextID == old(nextID) + 1
      ensures Abstract() == Step(old(Abstract()), Append(message))
    {
      var item := new Node(nextID, message);
      OrderedAppend(Contents, nextID, message);
      ghost var nodes := Nodes;
      if first == null {
        first, last := item, item;
      } else {
        forall i | 0 <= i < |nodes| - 1 ensures nodes[i] != last {
          assert Contents[i].id < Contents[|nodes| - 1].id;
        }
        last.next := item;
        last := item;
      }
      nextID := nextID + 1;
      Nodes := Nodes + [item];
      Contents := Contents + [Entry(item.id, message)];
      Repr := Repr + {item};
      forall i, j | 0 <= i < |Nodes| && j == i + 1 < |Nodes|
        ensures Nodes[i].next == Nodes[j]
      {
        assert Nodes[i] == nodes[i];
      }
    }

    /** Removes every message up to and including the one with `id`; does
        nothing if no message carries `id`. */
    method Clear(id: int)
      requires Valid()
      modifies this
      ensures Valid() && Repr == old(Repr)
      ensures Contents == ClearThrough(old(Contents), id) && nextID == old(nextID)
      ensures Abstract() == Step(old(Abstract()), Ack(id))
    {
      var clearThrough := first;
      ghost var k := 0;
      while clearThrough != null && clearThrough.id != id
        invariant 0 <= k <= |Nodes|
        invariant clearThrough == if k < |Nodes| then Nodes[k] else null
        invariant forall j :: 0 <= j < k ==> Contents[j].id != id
        decreases |Nodes| - k
      {
        clearThrough := clearThrough.next;
        k := k + 1;
      }
      if clearThrough != null {
        UnlinkThrough(clearThrough, id, k);
      } else {
        assert Removed(Contents, id) == 0;
      }
    }

    /** The second half of `clear`: `item`, the k-th item, is the first that
        carries `id`; the list now starts after it. */
    method UnlinkThrough(item: Node<M>, id: int, ghost k: nat)
      requires Valid()
      requires k < |Nodes| && item == Nodes[k] && item.id == id
      requires forall j :: 0 <= j < k ==> Contents[j].id != id
      modifies this
      ensures Valid() && Repr == old(Repr)
      ensures Contents == ClearThrough(old(Contents), id) && nextID == old(nextID)
    {
      first := item.next;
      if first == null {
        last := null;
      }
      RemovedFirst(Contents, id, k);
      ghost var d := Removed(Contents, id);
      SuffixOrdered(Contents, nextID, d);
      SuffixChain(Nodes, Contents, d);
      ghost var nodes := Nodes;
      Nodes, Contents := Nodes[d..], Contents[d..];
      if d < |nodes| {
        assert nodes[k].next == nodes[d];
        assert first == Nodes[0] && last == Nodes[|Nodes| - 1];
      } else {
        assert first == null && Nodes == [];
      }
    }

    /** A snapshot of the queue, oldest first; the queue is not changed. */
    method ToArray() returns (a: seq<Entry<M>>)
      requires Valid()
      ensures a == Contents
    {
      a := [];
      var item := first;
      ghost var k := 0;
      while item != null
        invariant 0 <= k <= |Nodes|
        invariant item == if k < |Nodes| then Nodes[k] else null
        invariant a == Contents[..k]
        decreases |Nodes| - k
      {
        a := a + [Entry(item.id, item.message)];
        item := item.next;
        k := k + 1;
      }
    }
  }
}
