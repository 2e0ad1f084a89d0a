/** The packet queue of ldt-kmod/ldt_queue.c.

    The kernel list is kept newest first: packets enter at the head and leave at the tail.
    `Queue` is the same queue seen oldest first; the class `TpQueue` is the list as the driver
    changes it, and every method is tied to the oldest-first view. */
module TxQueue {
  import opened Basics

  const INF: int := 0
  const LIMIT: int := 1
  const DROP_OLDEST: int := 2
  const DROP_NEWEST: int := 3
  const QUEUE_MAX: int := 3

  datatype Queue<T> = Queue(waiting: seq<T>, maxlen: int, policy: int)

  predicate ValidQueue<T>(q: Queue<T>) {
    0 <= q.policy <= QUEUE_MAX && q.maxlen >= 1
  }

  predicate Full<T>(q: Queue<T>) {
    |q.waiting| >= q.maxlen
  }

  /** The queue after an arrival, and the packet that was given up for it, if any. */
  function Enqueue<T>(q: Queue<T>, x: T): (r: (Queue<T>, Option<T>))
    requires ValidQueue(q)
    ensures ValidQueue(r.0) && r.0.maxlen == q.maxlen && r.0.policy == q.policy
    // a packet is only ever refused or replaced by a drop policy on a full queue
    ensures r.1.Some? <==> (q.policy >= DROP_OLDEST && |q.waiting| >= q.maxlen)
    ensures r.1.None? ==> r.0.waiting == q.waiting + [x]
    // drop oldest: the front of the line goes and the new packet gets in
    ensures q.policy == DROP_OLDEST && r.1.Some? ==> [r.1.value] + r.0.waiting == q.waiting + [x]
    // drop newest: the new packet goes and the line stays
    ensures q.policy == DROP_NEWEST && r.1.Some? ==> r.1.value == x && r.0.waiting == q.waiting
    ensures q.policy >= DROP_OLDEST ==> |r.0.waiting| <= if |q.waiting| >= q.maxlen then |q.waiting| else q.maxlen
  {
    if q.policy < DROP_OLDEST || !Full(q) then (q.(waiting := q.waiting + [x]), None)
    else if q.policy == DROP_OLDEST then (q.(waiting := q.waiting[1..] + [x]), Some(q.waiting[0]))
    else (q, Some(x))
  }

  function Dequeue<T>(q: Queue<T>): (Queue<T>, Option<T>) {
    if q.waiting == [] then (q, None)
    else (q.(waiting := q.waiting[1..]), Some(q.waiting[0]))
  }

  /** A packet that could not be sent goes back in front of everything that waits. */
  function Requeue<T>(q: Queue<T>, x: T): Queue<T> {
    q.(waiting := [x] + q.waiting)
  }

  function WithPolicy<T>(q: Queue<T>, policy: int): Queue<T> {
    if policy < 0 || policy > QUEUE_MAX then q else q.(policy := policy)
  }

  function WithMaxlen<T>(q: Queue<T>, maxlen: int): Queue<T> {
    if maxlen < 1 then q else q.(maxlen := maxlen)
  }

  function Reverse<T>(s: seq<T>): (r: seq<T>)
    ensures |r| == |s|
  {
    if s == [] then [] else Reverse(s[1..]) + [s[0]]
  }

  lemma {:induction false} ReverseSnoc<T>(s: seq<T>, x: T)
    ensures Reverse(s + [x]) == [x] + Reverse(s)
  {
    if s == [] {
      assert [] + [x] == [x];
      assert [x][1..] == [];
    } else {
      assert (s + [x])[1..] == s[1..] + [x];
      ReverseSnoc(s[1..], x);
    }
  }

  /** Undoing the order twice gives it back, so the list and the oldest-first view determine
      each other. */
  lemma {:induction false} ReverseTwice<T>(s: seq<T>)
    ensures Reverse(Reverse(s)) == s
  {
    if s != [] {
      ReverseTwice(s[1..]);
      ReverseSnoc(Reverse(s[1..]), s[0]);
    }
  }

  class TpQueue<T> {
    var list: seq<T>   // newest first
    var maxlen: int
    var policy: int

    ghost function View(): Queue<T>
      reads this
    {
      Queue(Reverse(list), maxlen, policy)
    }

    ghost predicate Valid()
      reads this
    {
      ValidQueue(View())
    }

    constructor (policy: int, maxlen: int)
      ensures Valid() && View() == Queue([], if maxlen >= 1 then maxlen else 1, if 0 <= policy <= 3 then policy else INF)
    {
      this.list, this.maxlen, this.policy := [], 1, INF;
      new;
      SetPolicy(policy);
      SetMaxlen(maxlen);
    }

    method SetPolicy(policy: int)
      requires Valid()
      modifies this
      ensures Valid() && View() == WithPolicy(old(View()), policy)
      ensures this.list == old(this.list) && this.maxlen == old(this.maxlen)
      ensures this.policy == if 0 <= policy <= 3 then policy else old(this.policy)
    {
      if policy < 0 || policy > QUEUE_MAX { return; }
      this.policy := policy;
    }

    method SetMaxlen(maxlen: int)
      requires Valid()
      modifies this
      ensures Valid() && View() == WithMaxlen(old(View()), maxlen)
      ensures this.list == old(this.list) && this.policy == old(this.policy)
      ensures this.maxlen == if maxlen >= 1 then maxlen else old(this.maxlen)
    {
      if maxlen < 1 { return; }
      this.maxlen := maxlen;
    }

    method InfEnqueue(x: T)
      modifies this`list
      ensures View().waiting == old(View().waiting) + [x]
    {
      list := [x] + list;
      assert list[1..] == old(list);
    }

    method InfDequeue() returns (r: Option<T>)
      modifies this`list
      ensures (View(), r) == Dequeue(old(View()))
    {
      if list == [] { return None; }
      var tail := list[|list| - 1];
      ReverseSnoc(list[..|list| - 1], tail);
      assert list == list[..|list| - 1] + [tail];
      list := list[..|list| - 1];
      return Some(tail);
    }

    method InfRequeue(x: T)
      modifies this`list
      ensures View() == Requeue(old(View()), x)
    {
      ReverseSnoc(list, x);
      list := list + [x];
    }

    method LimitIsFull() returns (full: bool)
      ensures full == (|View().waiting| >= maxlen)
    {
      full := |list| >= maxlen;
    }

    /** Enqueue under the current policy; `dropped` is the packet freed on the way. */
    method DoEnqueue(x: T) returns (dropped: Option<T>)
      requires Valid()
      modifies this`list
      ensures Valid() && (View(), dropped) == Enqueue(old(View()), x)
    {
      dropped := None;
      if policy == DROP_OLDEST {
        var full := LimitIsFull();
        if full { dropped := InfDequeue(); }
        InfEnqueue(x);
      } else if policy == DROP_NEWEST {
        var full := LimitIsFull();
        if full { dropped := Some(x); } else { InfEnqueue(x); }
      } else {
        InfEnqueue(x);
      }
    }

    method DoDequeue() returns (r: Option<T>)
      requires Valid()
      modifies this`list
      ensures Valid() && (View(), r) == Dequeue(old(View()))
    {
      r := InfDequeue();
    }

    method DoRequeue(x: T)
      requires Valid()
      modifies this`list
      ensures Valid() && View() == Requeue(old(View()), x)
    {
      InfRequeue(x);
    }

    /** Only the LIMIT policy ever reports a full queue to producers. */
    method IsFull() returns (full: bool)
      requires Valid()
      ensures full == (policy == LIMIT && |View().waiting| >= maxlen)
    {
      full := false;
      if policy == LIMIT { full := LimitIsFull(); }
    }
  }
}
