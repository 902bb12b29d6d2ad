/** The queue of inotify events: entries linked from head to tail, allocated and freed one by one. */
module EventQueue {

  class Entry<T> {
    var next: Entry?<T>
    const event: T

    constructor (event: T)
      ensures this.event == event && next == null
    {
      this.event, next := event, null;
    }
  }

  /** The C allocator as far as queue entries go: what was handed out, what was given back. An entry that
      was never handed out, or was given back before, cannot be given back. */
  class Allocator<T(!new)> {
    ghost var issued: set<Entry<T>>
    ghost var returned: set<Entry<T>>

    ghost predicate Valid()
      reads this
    {
      returned <= issued
    }

    /** Handed out and not yet given back. */
    ghost function Live(): set<Entry<T>>
      reads this
    {
      issued - returned
    }

    constructor ()
      ensures Valid() && Live() == {}
    {
      issued, returned := {}, {};
    }

    method Malloc(event: T) returns (e: Entry<T>)
      requires Valid()
      modifies this
      ensures Valid() && fresh(e) && e.event == event && e !in old(issued)
      ensures issued == old(issued) + {e} && returned == old(returned)
    {
      e := new Entry(event);
      issued := issued + {e};
    }

    method Free(e: Entry<T>)
      requires Valid() && e in Live()
      modifies this
      ensures Valid() && issued == old(issued) && returned == old(returned) + {e}
    {
      returned := returned + {e};
    }
  }

  /** The set of a sequence of entries. */
  ghost function Elements<T(!new)>(nodes: seq<Entry<T>>): set<Entry<T>>
  {
    set n | n in nodes
  }

  ghost function Events<T(!new)>(nodes: seq<Entry<T>>): (es: seq<T>)
    ensures |es| == |nodes|
    ensures forall i :: 0 <= i < |nodes| ==> es[i] == nodes[i].event
  {
    if nodes == [] then [] else [nodes[0].event] + Events(nodes[1..])
  }

  lemma NotBefore<T(!new)>(nodes: seq<Entry<T>>, k: nat)
    requires k < |nodes| && forall i, j :: 0 <= i < j < |nodes| ==> nodes[i] != nodes[j]
    ensures nodes[k] !in Elements(nodes[..k])
  {
  }

  lemma EventsAppend<T(!new)>(nodes: seq<Entry<T>>, d: Entry<T>)
    ensures Events(nodes + [d]) == Events(nodes) + [d.event]
  {
    hide Events;
  }

  class Queue<T(!new)> {
    var head: Entry?<T>
    var tail: Entry?<T>
    /** The entries reachable from head, in order. */
    ghost var nodes: seq<Entry<T>>
    /** The queue itself has been given back: no operation may follow. */
    ghost var freed: bool

    /** Null head iff empty; the links lead from head through every entry once, and end at the last. */
    ghost predicate Linked()
      reads this, nodes
    {
      && head == (if nodes == [] then null else nodes[0])
      && (nodes != [] ==> nodes[|nodes| - 1].next == null)
      && (forall i :: 0 <= i < |nodes| - 1 ==> nodes[i].next == nodes[i + 1])
      && (forall i, j :: 0 <= i < j < |nodes| ==> nodes[i] != nodes[j])
    }

    ghost predicate Valid()
      reads this, nodes
    {
      !freed && Linked() && tail == if nodes == [] then null else nodes[|nodes| - 1]
    }

    lemma Distinct()
      requires Valid()
      ensures forall i, j :: 0 <= i < j < |nodes| ==> nodes[i] != nodes[j]
    {
    }

    /** The FIFO sequence the links stand for. */
    ghost function Contents(): seq<T>
      reads this
    {
      Events(nodes)
    }

    constructor ()
      ensures Valid() && nodes == [] && Contents() == []
    {
      head, tail, nodes, freed := null, null, [], false;
    }

    method IsEmpty() returns (empty: bool)
      requires Valid()
      ensures empty <==> Contents() == []
    {
      empty := head == null;
    }

    method Enqueue(d: Entry<T>)
      requires Valid() && d !in nodes
      modifies this, d`next, if nodes == [] then {} else {nodes[|nodes| - 1]}
      ensures Valid() && nodes == old(nodes) + [d]
      ensures Contents() == old(Contents()) + [d.event]
    {
      hide Events;
      d.next := null;
      if tail != null {
        tail.next := d;
        tail := d;
      } else {
        head, tail := d, d;
      }
      nodes := nodes + [d];
      EventsAppend(old(nodes), d);
    }

    /** Null when the queue is empty; otherwise the first entry, unlinked. */
    method Dequeue() returns (first: Entry?<T>)
      requires Valid()
      modifies this, if nodes == [] then {} else {nodes[0]}
      ensures Valid()
      ensures old(nodes) == [] ==> first == null && nodes == []
      ensures old(nodes) != [] ==>
                && first == old(nodes)[0] && nodes == old(nodes)[1..]
                && first.event == old(Contents())[0] && Contents() == old(Contents())[1..]
                && first.next == null
    {
      first := head;
      if first != null {
        head := first.next;
        if head == null {
          tail := null;
        }
        first.next := null;
        nodes := nodes[1..];
      }
    }

    /** Frees what is left, and the queue. */
    method Destroy(heap: Allocator<T>)
      requires Valid() && heap.Valid() && Elements(nodes) <= heap.Live()
      modifies this, Elements(nodes), heap
      ensures heap.Valid() && heap.issued == old(heap.issued)
      ensures heap.returned == old(heap.returned) + Elements(old(nodes))
      ensures head == null && tail == null && nodes == [] && freed
    {
      ghost var all, k := nodes, 0;
      while head != null
        invariant k <= |all| && nodes == all[k..]
        invariant Linked() && heap.Valid() && heap.issued == old(heap.issued)
        invariant heap.returned == old(heap.returned) + Elements(all[..k])
        decreases |nodes|
      {
        var next := head;
        head := next.next;
        next.next := null;
        nodes := nodes[1..];
        assert next == all[k] && next in Elements(all) && next !in old(heap.returned);
        NotBefore(all, k);
        assert all[..k + 1] == all[..k] + [next];
        heap.Free(next);
        k := k + 1;
      }
      tail := null;
      freed := true;
      assert all[..k] == all;
    }
  }
}
