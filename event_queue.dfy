/**
 * The time-ordered event queue: a singly linked list of (time, data)
 * entries kept in non-decreasing time order. The list is modelled as the
 * sequence of its entries, head first.
 */
module EventQueue {
  import opened Wrappers

  datatype Entry<T> = Entry(time: nat, data: T)

  /** Non-decreasing times from head to tail. */
  ghost predicate Sorted<T>(q: seq<Entry<T>>)
  {
    forall i, j :: 0 <= i < j < |q| ==> q[i].time <= q[j].time
  }

  /** Where the pointer walk of boincQueuePut stops: before the first
   *  entry that is strictly later than `t`, or at the end. */
  function InsertionPoint<T>(q: seq<Entry<T>>, t: nat): (k: nat)
    ensures k <= |q|
    ensures forall i :: 0 <= i < k ==> q[i].time <= t
    ensures k < |q| ==> q[k].time > t
  {
    if |q| == 0 then 0
    else if q[0].time > t then 0
    else 1 + InsertionPoint(q[1..], t)
  }

  /** The queue after boincQueuePut(t, x). */
  function Insert<T>(q: seq<Entry<T>>, t: nat, x: T): seq<Entry<T>>
  {
    var k := InsertionPoint(q, t);
    q[..k] + [Entry(t, x)] + q[k..]
  }

  /** An event is ready when the head is due. */
  predicate Ready<T>(q: seq<Entry<T>>, now: nat)
  {
    |q| > 0 && q[0].time <= now
  }

  /** The stopping point of the walk is the only index with the walk's
   *  stopping property. */
  lemma {:induction false} InsertionPointUnique<T>(q: seq<Entry<T>>, t: nat, k: nat)
    requires k <= |q|
    requires forall i :: 0 <= i < k ==> q[i].time <= t
    requires k < |q| ==> q[k].time > t
    ensures k == InsertionPoint(q, t)
  {
    if k > 0 {
      assert q[0].time <= t;
      InsertionPointUnique(q[1..], t, k - 1);
    }
  }

  /** The queue grows by exactly the new entry and keeps all others, in
   *  their order. */
  lemma InsertContents<T>(q: seq<Entry<T>>, t: nat, x: T)
    ensures var r := Insert(q, t, x); var k := InsertionPoint(q, t);
      && |r| == |q| + 1
      && r[k] == Entry(t, x)
      && r[..k] + r[k + 1..] == q
      && multiset(r) == multiset(q) + multiset{Entry(t, x)}
  {
    var r := Insert(q, t, x);
    var k := InsertionPoint(q, t);
    assert r[..k] == q[..k];
    assert r[k + 1..] == q[k..];
    assert q == q[..k] + q[k..];
  }

  /** Insertion keeps the queue sorted. */
  lemma InsertSorted<T>(q: seq<Entry<T>>, t: nat, x: T)
    requires Sorted(q)
    ensures Sorted(Insert(q, t, x))
  {
    var r := Insert(q, t, x);
    var k := InsertionPoint(q, t);
    forall i, j | 0 <= i < j < |r|
      ensures r[i].time <= r[j].time
    {
      if j < k || i > k {
        var i' := if i < k then i else i - 1;
        var j' := if j < k then j else j - 1;
        assert r[i] == q[i'] && r[j] == q[j'];
      } else if i == k {
        assert r[j] == q[j - 1];
      } else if j == k {
        assert r[i] == q[i];
      } else {
        assert r[i] == q[i] && r[j] == q[j - 1];
      }
    }
  }

  /** FIFO among ties: in a sorted queue the new entry goes after exactly
   *  the entries whose time is not later than its own. */
  lemma InsertAfterTies<T>(q: seq<Entry<T>>, t: nat, x: T)
    requires Sorted(q)
    ensures forall i :: 0 <= i < |q| ==> (q[i].time <= t <==> i < InsertionPoint(q, t))
  {
  }

  /** Removing the ready head keeps the rest sorted. */
  lemma TailSorted<T>(q: seq<Entry<T>>)
    requires Sorted(q) && |q| > 0
    ensures Sorted(q[1..])
  {
  }

  class Queue<T> {
    var entries: seq<Entry<T>>

    ghost predicate Valid()
      reads this
    {
      Sorted(entries)
    }

    /** boincQueueCreate: an empty queue. */
    constructor ()
      ensures Valid() && entries == []
    {
      entries := [];
    }

    /** boincQueuePut: walks past every entry not later than `time` and
     *  links the new entry there. */
    method Put(time: nat, data: T)
      requires Valid()
      modifies this
      ensures Valid()
      ensures entries == Insert(old(entries), time, data)
    {
      var k := 0;
      while k < |entries| && entries[k].time <= time
        invariant k <= |entries|
        invariant forall i :: 0 <= i < k ==> entries[i].time <= time
      {
        k := k + 1;
      }
      InsertionPointUnique(entries, time, k);
      InsertSorted(entries, time, data);
      entries := entries[..k] + [Entry(time, data)] + entries[k..];
    }

    /** boincQueueHasEvent. */
    method HasEvent(now: nat) returns (r: bool)
      ensures r <==> Ready(entries, now)
    {
      r := |entries| > 0 && entries[0].time <= now;
    }

    /** boincQueueGet: the head's data when it is due, and nothing (NULL)
     *  otherwise, with the queue untouched. */
    method Get(now: nat) returns (r: Option<T>)
      requires Valid()
      modifies this
      ensures Valid()
      ensures Ready(old(entries), now) ==> r == Some(old(entries)[0].data) && entries == old(entries)[1..]
      ensures !Ready(old(entries), now) ==> r == None && entries == old(entries)
    {
      if |entries| > 0 && entries[0].time <= now {
        r := Some(entries[0].data);
        entries := entries[1..];
      } else {
        r := None;
      }
    }

    /** boincQueueDestroy: unlinks the head until the list is empty. */
    method Destroy()
      requires Valid()
      modifies this
      ensures Valid() && entries == []
    {
      while |entries| > 0
        invariant Valid()
      {
        entries := entries[1..];
      }
    }
  }
}
