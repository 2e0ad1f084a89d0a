/** The transmit path of ldt-kmod/ldt_mpdccp.c as an interleaved system.

    Producers put packets on the queue and then, in two further steps, read `has_delayed_work`
    and queue the immediate work item.  A work item that starts runs a transmit handler, which
    clears the flag, sends up to six packets, and either stops on an empty queue, queues the
    immediate item again, or (after a failed send) sets the flag and queues the delayed item.
    Every access to the queue, to the flag and to a pending bit is a step of its own, so any
    number of producers and handlers interleave freely between them.

    Packets are numbered in the order in which producers put them on the queue. */
module TxScheduler {
  import opened Basics
  import opened TxQueue

  // --- state and steps ---

  /** Where a handler is inside do_xmit_handler.  Finished handlers are not in the state. */
  datatype Handler =
    | Starting                        // about to clear has_delayed_work
    | Looping(cnt: nat)               // about to dequeue
    | Sending(pkt: int, cnt: nat)     // dequeued, in mpdccptun_xmit_skb
    | Requeueing(pkt: int)            // EAGAIN, about to requeue
    | Rescheduling                    // sent its share, about to queue_work
    | Flagging                        // send failed, about to set has_delayed_work
    | Delaying                        // about to queue_delayed_work

  /** A producer past its tpq_enqueue: about to read the flag, or about to queue_work. */
  datatype Producer = Checking | Scheduling

  datatype State = State(
    q: Queue<int>,
    flag: bool,                       // has_delayed_work
    workPending: bool,
    delayedPending: bool,
    handlers: seq<Handler>,
    producers: seq<Producer>,
    next: nat,                        // number of the next packet to arrive
    sent: seq<int>,
    dropped: seq<int>,                // by the queue policy
    failed: seq<int>)                 // freed after a send error other than EAGAIN

  /** What the peer's socket answers to a send; read only by a handler that is sending. */
  datatype Outcome = Ok | Again | Error

  datatype Event =
    | Arrive
    | Produce(i: nat)                 // producer i makes its next step
    | StartWork
    | StartDelayed
    | Handle(i: nat, outcome: Outcome) // handler i makes its next step
    | SetPolicy(oldest: bool)
    | SetMaxlen(maxlen: int)

  /** s with element i replaced by the elements of r. */
  function Put<T>(s: seq<T>, i: nat, r: seq<T>): seq<T>
    requires i < |s|
  {
    s[..i] + r + s[i + 1..]
  }

  predicate Enabled(s: State, e: Event) {
    match e
    case Produce(i) => i < |s.producers|
    case StartWork => s.workPending
    case StartDelayed => s.delayedPending
    case Handle(i, _) => i < |s.handlers|
    case _ => true
  }

  /** One step of a handler: its effect on the rest of the state, and what becomes of it
      (nothing, when that was its last step). */
  function Act(s: State, h: Handler, outcome: Outcome): (r: (State, seq<Handler>))
    ensures r.0.handlers == s.handlers && r.0.producers == s.producers && |r.1| <= 1
  {
    match h
    case Starting => (s.(flag := false), [Looping(0)])
    case Looping(cnt) =>
      if s.q.waiting == [] then (s, [])
      else (s.(q := Dequeue(s.q).0), [Sending(Dequeue(s.q).1.value, cnt)])
    case Sending(x, cnt) =>
      (match outcome
       case Ok => (s.(sent := s.sent + [x]), [if cnt + 1 > 5 then Rescheduling else Looping(cnt + 1)])
       case Again => (s, [Requeueing(x)])
       case Error => (s.(failed := s.failed + [x]), [Flagging]))
    case Requeueing(x) => (s.(q := Requeue(s.q, x)), [Flagging])
    case Rescheduling => (s.(workPending := true), [])
    case Flagging => (s.(flag := true), [Delaying])
    case Delaying => (s.(delayedPending := true), [])
  }

  function ArriveStep(s: State): State
    requires ValidQueue(s.q)
  {
    var (q', lost) := Enqueue(s.q, s.next);
    s.(q := q', next := s.next + 1, producers := s.producers + [Checking],
       dropped := s.dropped + if lost.Some? then [lost.value] else [])
  }

  function ProduceStep(s: State, i: nat): State
    requires i < |s.producers|
  {
    match s.producers[i]
    case Checking => s.(producers := Put(s.producers, i, if s.flag then [] else [Scheduling]))
    case Scheduling => s.(producers := Put(s.producers, i, []), workPending := true)
  }

  function HandleStep(s: State, i: nat, outcome: Outcome): State
    requires i < |s.handlers|
  {
    var (s', r) := Act(s, s.handlers[i], outcome);
    s'.(handlers := Put(s.handlers, i, r))
  }

  function Step(s: State, e: Event): State
    requires ValidQueue(s.q) && Enabled(s, e)
  {
    match e
    case Arrive => ArriveStep(s)
    case Produce(i) => ProduceStep(s, i)
    case StartWork => s.(workPending := false, handlers := s.handlers + [Starting])
    case StartDelayed => s.(delayedPending := false, handlers := s.handlers + [Starting])
    case Handle(i, outcome) => HandleStep(s, i, outcome)
    case SetPolicy(oldest) => s.(q := WithPolicy(s.q, if oldest then DROP_OLDEST else DROP_NEWEST))
    case SetMaxlen(maxlen) => s.(q := WithMaxlen(s.q, maxlen))
  }

  /** The queue as tpq_init leaves it, nothing pending, nobody running. */
  predicate Initial(s: State) {
    && s.q == Queue([], s.q.maxlen, DROP_NEWEST) && s.q.maxlen >= 1
    && !s.flag && !s.workPending && !s.delayedPending
    && s.handlers == [] && s.producers == []
    && s.next == 0 && s.sent == [] && s.dropped == [] && s.failed == []
  }

  ghost predicate Follows(s: State, e: Event, s': State) {
    ValidQueue(s.q) && Enabled(s, e) && s' == Step(s, e)
  }

  /** trace is a run: it starts initial and each state is one step after the one before. */
  ghost predicate IsRun(trace: seq<State>, events: seq<Event>) {
    && |trace| == |events| + 1 && Initial(trace[0])
    && forall k :: 0 <= k < |events| ==> Follows(trace[k], events[k], trace[k + 1])
  }

  // --- sums over handlers and producers ---

  function Sum<T>(s: seq<T>, f: T -> nat): nat {
    if s == [] then 0 else f(s[0]) + Sum(s[1..], f)
  }

  lemma {:induction false} SumAppend<T>(a: seq<T>, b: seq<T>, f: T -> nat)
    ensures Sum(a + b, f) == Sum(a, f) + Sum(b, f)
  {
    if a == [] {
      assert a + b == b;
    } else {
      SumAppend(a[1..], b, f);
      assert (a + b)[1..] == a[1..] + b;
    }
  }

  lemma SumPut<T>(s: seq<T>, i: nat, r: seq<T>, f: T -> nat)
    requires i < |s|
    ensures Sum(Put(s, i, r), f) + f(s[i]) == Sum(s, f) + Sum(r, f)
  {
    assert s == s[..i] + ([s[i]] + s[i + 1..]);
    SumAppend(s[..i], [s[i]] + s[i + 1..], f);
    SumAppend([s[i]], s[i + 1..], f);
    SumAppend(s[..i] + r, s[i + 1..], f);
    SumAppend(s[..i], r, f);
  }

  lemma SumReplaced<T>(s: seq<T>, i: nat, r: seq<T>, f: T -> nat)
    requires i < |s| && |r| <= 1
    ensures Sum(Put(s, i, r), f) + f(s[i]) == Sum(s, f) + if r == [] then 0 else f(r[0])
  {
    SumPut(s, i, r, f);
    if r != [] { assert r[1..] == []; }
  }

  lemma SumAppended<T>(s: seq<T>, x: T, f: T -> nat)
    ensures Sum(s + [x], f) == Sum(s, f) + f(x)
  {
    SumAppend(s, [x], f);
    assert [x][1..] == [];
  }

  // --- no lost wakeup ---

  /** has_delayed_work is set only if the delayed item is pending, a handler is about to queue
      it, or a handler has started and will clear the flag before it looks at the queue. */
  predicate FlagBacked(s: State) {
    s.flag ==> (s.delayedPending || exists i :: 0 <= i < |s.handlers| && Backs(s.handlers[i]))
  }

  predicate Backs(h: Handler) {
    h.Delaying? || h.Starting?
  }

  /** Somebody will still look at the queue: a pending item, an unfinished handler, or a producer
      that has not made its scheduling decision. */
  predicate Attended(s: State) {
    s.workPending || s.delayedPending || s.handlers != [] || s.producers != []
  }

  predicate WakeInv(s: State) {
    && ValidQueue(s.q) && s.q.policy >= DROP_OLDEST
    && FlagBacked(s)
    && (s.q.waiting != [] ==> Attended(s))
  }

  lemma PutKeepsOthers<T>(s: seq<T>, i: nat, r: seq<T>, j: nat) returns (k: nat)
    requires i < |s| && j < |s| && i != j
    ensures k < |Put(s, i, r)| && Put(s, i, r)[k] == s[j]
  {
    k := if j < i then j else j - 1 + |r|;
  }

  lemma HandleKeepsFlagBacked(s: State, i: nat, outcome: Outcome)
    requires FlagBacked(s) && i < |s.handlers|
    ensures FlagBacked(HandleStep(s, i, outcome))
  {
    var s' := HandleStep(s, i, outcome);
    var r := Act(s, s.handlers[i], outcome).1;
    if s'.flag && !s'.delayedPending {
      if s.handlers[i].Flagging? {
        assert s'.handlers[i] == Delaying && Backs(s'.handlers[i]);
      } else {
        var j :| 0 <= j < |s.handlers| && Backs(s.handlers[j]);
        var k := PutKeepsOthers(s.handlers, i, r, j);
        assert Backs(s'.handlers[k]);
      }
    }
  }

  lemma StepKeepsFlagBacked(s: State, e: Event)
    requires WakeInv(s) && Enabled(s, e)
    ensures FlagBacked(Step(s, e))
  {
    var s' := Step(s, e);
    match e
    case Handle(i, outcome) => HandleKeepsFlagBacked(s, i, outcome);
    case StartWork => assert Backs(s'.handlers[|s.handlers|]);
    case StartDelayed => assert Backs(s'.handlers[|s.handlers|]);
    case _ =>
  }

  /** A handler ends only on an empty queue or with an item queued. */
  lemma HandleKeepsAttended(s: State, i: nat, outcome: Outcome)
    requires i < |s.handlers|
    ensures var s' := HandleStep(s, i, outcome);
      s'.q.policy == s.q.policy && s'.q.maxlen == s.q.maxlen && (s'.q.waiting != [] ==> Attended(s'))
  {
    var (s1, r) := Act(s, s.handlers[i], outcome);
    if r != [] { assert Put(s.handlers, i, r)[i] == r[0]; }
  }

  /** A producer that does not schedule has seen a flag that is backed. */
  lemma ProduceKeepsAttended(s: State, i: nat)
    requires i < |s.producers| && FlagBacked(s)
    ensures Attended(ProduceStep(s, i))
  {
    if s.producers[i].Checking? && !s.flag {
      assert Put(s.producers, i, [Scheduling])[i] == Scheduling;
    }
  }

  lemma StepKeepsWakeInv(s: State, e: Event)
    requires WakeInv(s) && Enabled(s, e)
    ensures WakeInv(Step(s, e))
  {
    StepKeepsFlagBacked(s, e);
    match e
    case Handle(i, outcome) => HandleKeepsAttended(s, i, outcome);
    case Produce(i) => ProduceKeepsAttended(s, i);
    case _ =>
  }

  lemma {:induction false} RunKeepsWakeInv(trace: seq<State>, events: seq<Event>, k: nat)
    requires IsRun(trace, events) && k < |trace|
    ensures WakeInv(trace[k])
  {
    if k > 0 {
      RunKeepsWakeInv(trace, events, k - 1);
      assert Follows(trace[k - 1], events[k - 1], trace[k]);
      StepKeepsWakeInv(trace[k - 1], events[k - 1]);
    }
  }

  function Carried(h: Handler): seq<int> {
    match h
    case Sending(x, _) => [x]
    case Requeueing(x) => [x]
    case _ => []
  }

  function Load(h: Handler): nat {
    |Carried(h)|
  }

  /** The number of packets in flight: taken off the queue and neither sent nor put back. */
  function InFlight(s: State): nat {
    Sum(s.handlers, Load)
  }

  /** No lost wakeup: in every state of every run, a packet that is queued or in flight is
      attended to, and a set flag is backed. */
  lemma NoLostWakeup(trace: seq<State>, events: seq<Event>, k: nat)
    requires IsRun(trace, events) && k < |trace|
    ensures trace[k].q.waiting != [] || InFlight(trace[k]) > 0 ==> Attended(trace[k])
    ensures FlagBacked(trace[k])
  {
    RunKeepsWakeInv(trace, events, k);
  }

  // --- draining ---

  function HandlerWeight(h: Handler): nat {
    match h
    case Starting => 3
    case Looping(_) => 2
    case Sending(_, _) => 7
    case Requeueing(_) => 13
    case Rescheduling => 5
    case Flagging => 6
    case Delaying => 5
  }

  function ProducerWeight(p: Producer): nat {
    if p.Checking? then 6 else 5
  }

  function Rest(s: State): nat {
    6 * |s.q.waiting| + (if s.workPending then 4 else 0) + (if s.delayedPending then 4 else 0)
  }

  /** A bound on what remains to be done if nothing more arrives. */
  function Remaining(s: State): nat {
    Rest(s) + Sum(s.handlers, HandlerWeight) + Sum(s.producers, ProducerWeight)
  }

  /** A step of the driver's own work, with a peer that accepts or refuses but does not stall. */
  predicate Draining(e: Event) {
    !e.Arrive? && !e.SetPolicy? && !e.SetMaxlen? && !(e.Handle? && e.outcome.Again?)
  }

  lemma ActDecreases(s: State, h: Handler, outcome: Outcome)
    requires !outcome.Again?
    ensures var (s', r) := Act(s, h, outcome);
      Rest(s') + (if r == [] then 0 else HandlerWeight(r[0])) < Rest(s) + HandlerWeight(h)
  {
  }

  lemma HandleDecreases(s: State, i: nat, outcome: Outcome)
    requires i < |s.handlers| && !outcome.Again?
    ensures Remaining(HandleStep(s, i, outcome)) < Remaining(s)
  {
    ActDecreases(s, s.handlers[i], outcome);
    SumReplaced(s.handlers, i, Act(s, s.handlers[i], outcome).1, HandlerWeight);
  }

  lemma ProduceDecreases(s: State, i: nat)
    requires i < |s.producers|
    ensures Remaining(ProduceStep(s, i)) < Remaining(s)
  {
    var r := if s.producers[i].Scheduling? || s.flag then [] else [Scheduling];
    SumReplaced(s.producers, i, r, ProducerWeight);
  }

  lemma DrainingStepDecreases(s: State, e: Event)
    requires ValidQueue(s.q) && Enabled(s, e) && Draining(e)
    ensures Remaining(Step(s, e)) < Remaining(s)
  {
    match e
    case Handle(i, outcome) => HandleDecreases(s, i, outcome);
    case Produce(i) => ProduceDecreases(s, i);
    case _ =>
      SumAppended(s.handlers, Starting, HandlerWeight);
  }

  lemma AttendedCanStep(s: State) returns (e: Event)
    requires Attended(s)
    ensures Enabled(s, e) && Draining(e)
  {
    e := if s.workPending then StartWork
         else if s.delayedPending then StartDelayed
         else if s.producers != [] then Produce(0)
         else Handle(0, Ok);
  }

  /** Every queued packet is dealt with: once arrivals stop and the peer stops stalling, whatever
      order the steps come in, there are at most `Remaining` of them, and when none is left to
      take the queue is empty and nothing is in flight. */
  lemma {:induction false} RunsDrain(trace: seq<State>, events: seq<Event>, m: nat)
    requires IsRun(trace, events) && m < |trace|
    requires forall k :: m <= k < |events| ==> Draining(events[k])
    ensures |events| - m <= Remaining(trace[m])
    ensures var last := trace[|events|];
      !(exists e :: Enabled(last, e) && Draining(e)) ==> (last.q.waiting == [] && InFlight(last) == 0)
    decreases |events| - m
  {
    RunKeepsWakeInv(trace, events, m);
    if m == |events| {
      if Attended(trace[m]) {
        var e := AttendedCanStep(trace[m]);
      }
    } else {
      assert Follows(trace[m], events[m], trace[m + 1]);
      DrainingStepDecreases(trace[m], events[m]);
      RunsDrain(trace, events, m + 1);
    }
  }

  // --- conservation ---

  function Is(x: int): int -> nat {
    (y: int) => if y == x then 1 else 0
  }

  /** How often x occurs in s. */
  function Copies(s: seq<int>, x: int): nat {
    Sum(s, Is(x))
  }

  function CopiesIn(x: int): Handler -> nat {
    (h: Handler) => Copies(Carried(h), x)
  }

  /** How often packet x is accounted for outside the handlers. */
  function Parked(s: State, x: int): nat {
    Copies(s.q.waiting, x) + Copies(s.sent, x) + Copies(s.dropped, x) + Copies(s.failed, x)
  }

  function Accounted(s: State, x: int): nat {
    Parked(s, x) + Sum(s.handlers, CopiesIn(x))
  }

  lemma ActConserves(s: State, h: Handler, outcome: Outcome, x: int)
    ensures var (s', r) := Act(s, h, outcome);
      Parked(s', x) + (if r == [] then 0 else Copies(Carried(r[0]), x)) == Parked(s, x) + Copies(Carried(h), x)
  {
    var w := s.q.waiting;
    match h
    case Looping(_) =>
      if w != [] { CopiesOne(w[0], x); }
    case Sending(_, _) => SendConserves(s, h, outcome, x);
    case Requeueing(y) =>
      CopiesOne(y, x);
      assert ([y] + w)[1..] == w;
    case _ =>
  }

  lemma SendConserves(s: State, h: Handler, outcome: Outcome, x: int)
    requires h.Sending?
    ensures var (s', r) := Act(s, h, outcome);
      r != [] && Parked(s', x) + Copies(Carried(r[0]), x) == Parked(s, x) + Copies([h.pkt], x)
  {
    CopiesOne(h.pkt, x);
    SumAppended(s.sent, h.pkt, Is(x));
    SumAppended(s.failed, h.pkt, Is(x));
  }

  lemma CopiesOne(y: int, x: int)
    ensures Copies([y], x) == Is(x)(y)
  {
    SumAppended([], y, Is(x));
    assert [] + [y] == [y];
  }

  lemma ArriveConserves(s: State, x: int)
    requires ValidQueue(s.q)
    ensures Parked(ArriveStep(s), x) == Parked(s, x) + if x == s.next then 1 else 0
  {
    var w, n := s.q.waiting, s.next;
    SumAppended(w, n, Is(x));
    SumAppended(s.dropped, n, Is(x));
    if Full(s.q) {
      SumAppended(w[1..], n, Is(x));
      SumAppended(s.dropped, w[0], Is(x));
    }
    assert s.dropped + [] == s.dropped;
  }

  lemma StartConserves(hs: seq<Handler>, x: int)
    ensures Sum(hs + [Starting], CopiesIn(x)) == Sum(hs, CopiesIn(x))
  {
    SumAppended(hs, Starting, CopiesIn(x));
  }

  lemma HandleConserves(s: State, i: nat, outcome: Outcome, x: int)
    requires i < |s.handlers|
    ensures Accounted(HandleStep(s, i, outcome), x) == Accounted(s, x)
  {
    ActConserves(s, s.handlers[i], outcome, x);
    SumReplaced(s.handlers, i, Act(s, s.handlers[i], outcome).1, CopiesIn(x));
  }

  lemma StepConserves(s: State, e: Event, x: int)
    requires ValidQueue(s.q) && Enabled(s, e)
    ensures Accounted(Step(s, e), x) == Accounted(s, x) + if e.Arrive? && x == s.next then 1 else 0
  {
    match e
    case Arrive => ArriveConserves(s, x);
    case Handle(i, outcome) => HandleConserves(s, i, outcome, x);
    case StartWork => StartConserves(s.handlers, x);
    case StartDelayed => StartConserves(s.handlers, x);
    case Produce(_) =>
    case SetPolicy(_) =>
    case SetMaxlen(_) =>
  }

  lemma StepCountsArrivals(s: State, e: Event)
    requires ValidQueue(s.q) && Enabled(s, e)
    ensures Step(s, e).next == s.next + if e.Arrive? then 1 else 0
  {
  }

  lemma InitialIsEmpty(s: State, x: int)
    requires Initial(s)
    ensures Accounted(s, x) == 0
  {
  }

  lemma StepAccounts(s: State, e: Event, s': State, x: int)
    requires Follows(s, e, s') && Accounted(s, x) == if 0 <= x < s.next then 1 else 0
    ensures Accounted(s', x) == if 0 <= x < s'.next then 1 else 0
  {
    StepConserves(s, e, x);
    StepCountsArrivals(s, e);
  }

  /** Conservation: in every state of every run, each packet that arrived is in exactly one
      place, once: waiting, in flight, sent, dropped by policy, or failed. */
  lemma {:induction false} PacketsConserved(trace: seq<State>, events: seq<Event>, k: nat, x: int)
    requires IsRun(trace, events) && k < |trace|
    ensures Accounted(trace[k], x) == if 0 <= x < trace[k].next then 1 else 0
  {
    if k == 0 {
      InitialIsEmpty(trace[0], x);
    } else {
      PacketsConserved(trace, events, k - 1, x);
      StepAccounts(trace[k - 1], events[k - 1], trace[k], x);
    }
  }

  // --- order ---

  predicate Increasing(s: seq<int>) {
    forall i, j :: 0 <= i < j < |s| ==> s[i] < s[j]
  }

  /** The packets in flight, handler by handler. */
  function Flight(hs: seq<Handler>): seq<int> {
    if hs == [] then [] else Carried(hs[0]) + Flight(hs[1..])
  }

  lemma {:induction false} FlightAppend(a: seq<Handler>, b: seq<Handler>)
    ensures Flight(a + b) == Flight(a) + Flight(b)
  {
    if a == [] {
      assert a + b == b;
    } else {
      FlightAppend(a[1..], b);
      assert (a + b)[1..] == a[1..] + b && (a + b)[0] == a[0];
      JoinedThree(Carried(a[0]), Flight(a[1..]), Flight(b));
    }
  }

  lemma JoinedThree(a: seq<int>, b: seq<int>, c: seq<int>)
    ensures a + (b + c) == (a + b) + c
  {
  }

  lemma {:induction false} FlightLength(hs: seq<Handler>)
    ensures |Flight(hs)| == Sum(hs, Load)
  {
    if hs != [] { FlightLength(hs[1..]); }
  }

  lemma FlightOne(h: Handler)
    ensures Flight([h]) == Carried(h)
  {
    assert [h][1..] == [];
  }

  /** The flight around one handler, before and after its step. */
  lemma FlightAround(hs: seq<Handler>, i: nat, r: seq<Handler>)
    requires i < |hs|
    ensures Flight(hs) == Flight(hs[..i]) + Carried(hs[i]) + Flight(hs[i + 1..])
    ensures Flight(Put(hs, i, r)) == Flight(hs[..i]) + Flight(r) + Flight(hs[i + 1..])
  {
    assert hs == hs[..i] + [hs[i]] + hs[i + 1..];
    FlightAppend(hs[..i] + [hs[i]], hs[i + 1..]);
    FlightAppend(hs[..i], [hs[i]]);
    FlightOne(hs[i]);
    FlightAppend(hs[..i] + r, hs[i + 1..]);
    FlightAppend(hs[..i], r);
  }

  /** Sent packets, then those in flight, then waiting ones. */
  function Line(s: State): seq<int> {
    s.sent + Flight(s.handlers) + s.q.waiting
  }

  predicate Ordered(line: seq<int>, next: int) {
    Increasing(line) && forall i :: 0 <= i < |line| ==> line[i] < next
  }

  /** What one step of a handler keeps: the line, or the line without the packet that failed. */
  predicate KeepsLine(s: State, h: Handler, outcome: Outcome, s': State, r: seq<Handler>) {
    && s'.next == s.next
    && if h.Sending? && outcome.Error? then Flight(r) == [] && s'.sent == s.sent && s'.q == s.q
       else s'.sent + Flight(r) + s'.q.waiting == s.sent + Carried(h) + s.q.waiting
  }

  lemma ActKeepsLine(s: State, h: Handler, outcome: Outcome)
    ensures var (s', r) := Act(s, h, outcome); KeepsLine(s, h, outcome, s', r)
  {
    if h.Looping? {
      LoopKeepsLine(s, h, outcome);
    } else if Carried(h) != [] {
      CarrierKeepsLine(s, h, outcome);
    } else {
      var r := Act(s, h, outcome).1;
      if r != [] { FlightOne(r[0]); }
    }
  }

  lemma LoopKeepsLine(s: State, h: Handler, outcome: Outcome)
    requires h.Looping?
    ensures var (s', r) := Act(s, h, outcome); KeepsLine(s, h, outcome, s', r)
  {
    var w := s.q.waiting;
    if w != [] {
      FlightOne(Act(s, h, outcome).1[0]);
      Regroup(s.sent, w[0], w[1..]);
    }
  }

  lemma CarrierKeepsLine(s: State, h: Handler, outcome: Outcome)
    requires Carried(h) != []
    ensures var (s', r) := Act(s, h, outcome); KeepsLine(s, h, outcome, s', r)
  {
    FlightOne(Act(s, h, outcome).1[0]);
    Regroup(s.sent, Carried(h)[0], s.q.waiting);
  }

  /** The groupings of a packet between what was sent and what waits. */
  lemma Regroup(a: seq<int>, x: int, b: seq<int>)
    ensures a + [] + ([x] + b) == a + [x] + b
    ensures (a + [x]) + [] + b == a + [x] + b
  {
  }

  lemma OrderedAppend(l: seq<int>, n: int)
    requires Ordered(l, n)
    ensures Ordered(l + [n], n + 1)
  {
  }

  lemma OrderedWithout(a: seq<int>, x: int, b: seq<int>, n: int)
    requires Ordered(a + [x] + b, n)
    ensures Ordered(a + b, n)
  {
    var l, l' := a + [x] + b, a + b;
    assert forall i :: 0 <= i < |l'| ==> l'[i] == l[if i < |a| then i else i + 1];
  }

  lemma ArriveKeepsOrder(s: State)
    requires ValidQueue(s.q) && Ordered(Line(s), s.next)
    ensures Ordered(Line(ArriveStep(s)), s.next + 1)
  {
    var q', n := Enqueue(s.q, s.next).0, s.next;
    var a, w := s.sent + Flight(s.handlers), s.q.waiting;
    OrderedAppend(a + w, n);
    assert a + (w + [n]) == a + w + [n];
    if Full(s.q) {
      assert a + [w[0]] + w[1..] == a + w;
      OrderedWithout(a, w[0], w[1..], n);
      OrderedAppend(a + w[1..], n);
      assert a + (w[1..] + [n]) == a + w[1..] + [n];
    }
    assert Line(ArriveStep(s)) == a + q'.waiting;
  }

  /** A step that neither takes up nor lets go of a packet leaves queue and sent packets alone. */
  lemma IdleAct(s: State, h: Handler, outcome: Outcome)
    requires Carried(h) == [] && Flight(Act(s, h, outcome).1) == []
    ensures var s' := Act(s, h, outcome).0; s'.sent == s.sent && s'.q == s.q && s'.next == s.next
  {
    var r := Act(s, h, outcome).1;
    if r != [] { FlightOne(r[0]); }
  }

  lemma IdleKeepsFlight(hs: seq<Handler>, i: nat, r: seq<Handler>)
    requires i < |hs| && Carried(hs[i]) == [] && Flight(r) == []
    ensures Flight(Put(hs, i, r)) == Flight(hs)
  {
    FlightAround(hs, i, r);
  }

  /** The only handler with a packet, before or after its step. */
  lemma AloneInFlight(hs: seq<Handler>, i: nat, r: seq<Handler>)
    requires i < |hs| && Sum(hs, Load) <= 1 && Sum(Put(hs, i, r), Load) <= 1
    requires Carried(hs[i]) != [] || Flight(r) != []
    ensures Flight(hs) == Carried(hs[i]) && Flight(Put(hs, i, r)) == Flight(r)
  {
    FlightAround(hs, i, r);
    FlightLength(hs);
    FlightLength(Put(hs, i, r));
  }

  /** The packet of the only handler that has one keeps its place in the line, or leaves it. */
  lemma ActKeepsOrder(s: State, h: Handler, outcome: Outcome)
    requires Ordered(s.sent + Carried(h) + s.q.waiting, s.next)
    ensures var (s', r) := Act(s, h, outcome);
      s'.next == s.next && Ordered(s'.sent + Flight(r) + s'.q.waiting, s.next)
  {
    ActKeepsLine(s, h, outcome);
    if h.Sending? && outcome.Error? {
      OrderedWithout(s.sent, h.pkt, s.q.waiting, s.next);
      assert s.sent + [] + s.q.waiting == s.sent + s.q.waiting;
    }
  }

  lemma HandleKeepsOrder(s: State, i: nat, outcome: Outcome)
    requires i < |s.handlers| && InFlight(s) <= 1 && InFlight(HandleStep(s, i, outcome)) <= 1
    requires Ordered(Line(s), s.next)
    ensures var s' := HandleStep(s, i, outcome); s'.next == s.next && Ordered(Line(s'), s.next)
  {
    var h := s.handlers[i];
    var r := Act(s, h, outcome).1;
    if Carried(h) == [] && Flight(r) == [] {
      IdleAct(s, h, outcome);
      IdleKeepsFlight(s.handlers, i, r);
    } else {
      AloneInFlight(s.handlers, i, r);
      ActKeepsOrder(s, h, outcome);
    }
  }

  lemma StartKeepsLine(hs: seq<Handler>)
    ensures Flight(hs + [Starting]) == Flight(hs)
  {
    FlightAppend(hs, [Starting]);
    FlightOne(Starting);
  }

  lemma StepKeepsOrder(s: State, e: Event)
    requires ValidQueue(s.q) && Enabled(s, e) && InFlight(s) <= 1 && InFlight(Step(s, e)) <= 1
    requires Ordered(Line(s), s.next)
    ensures Ordered(Line(Step(s, e)), Step(s, e).next)
  {
    match e
    case Arrive => ArriveKeepsOrder(s);
    case Handle(i, outcome) => HandleKeepsOrder(s, i, outcome);
    case Produce(_) =>
    case StartWork => StartKeepsLine(s.handlers);
    case StartDelayed => StartKeepsLine(s.handlers);
    case SetPolicy(_) =>
    case SetMaxlen(_) =>
  }

  /** Never more than one packet in flight, up to state k. */
  ghost predicate OneAtATime(trace: seq<State>, k: nat) {
    forall j :: 0 <= j <= k && j < |trace| ==> InFlight(trace[j]) <= 1
  }

  /** As long as there is never more than one packet in flight, packets leave in the order in which
      they arrived, across any mix of requeues, drops and send errors and any number of handlers,
      and everything still in the driver is newer than everything sent. */
  lemma {:induction false} OneInFlightKeepsOrder(trace: seq<State>, events: seq<Event>, k: nat)
    requires IsRun(trace, events) && k < |trace| && OneAtATime(trace, k)
    ensures Ordered(Line(trace[k]), trace[k].next) && Increasing(trace[k].sent)
  {
    if k > 0 {
      OneInFlightKeepsOrder(trace, events, k - 1);
      assert Follows(trace[k - 1], events[k - 1], trace[k]);
      StepKeepsOrder(trace[k - 1], events[k - 1]);
    }
    var l, sent := Line(trace[k]), trace[k].sent;
    assert forall i :: 0 <= i < |sent| ==> sent[i] == l[i];
  }

  ghost predicate NeverOverlap(trace: seq<State>) {
    forall k :: 0 <= k < |trace| ==> |trace[k].handlers| <= 1
  }

  /** In particular when transmit handlers do not overlap. */
  lemma SentInArrivalOrder(trace: seq<State>, events: seq<Event>, k: nat)
    requires IsRun(trace, events) && NeverOverlap(trace) && k < |trace|
    ensures Ordered(Line(trace[k]), trace[k].next) && Increasing(trace[k].sent)
  {
    forall j | 0 <= j < |trace| ensures InFlight(trace[j]) <= 1 { LoadBound(trace[j].handlers); }
    OneInFlightKeepsOrder(trace, events, k);
  }

  // --- length ---

  /** At most h handlers at a time, and a queue length that is never lowered. */
  ghost predicate Bounded(trace: seq<State>, h: nat) {
    && (forall k :: 0 <= k < |trace| ==> |trace[k].handlers| <= h)
    && (forall k :: 0 < k < |trace| ==> trace[k - 1].q.maxlen <= trace[k].q.maxlen)
  }

  lemma {:induction false} LoadBound(hs: seq<Handler>)
    ensures Sum(hs, Load) <= |hs|
  {
    if hs != [] { LoadBound(hs[1..]); }
  }

  lemma ActKeepsTotal(s: State, h: Handler, outcome: Outcome)
    ensures var (s', r) := Act(s, h, outcome);
      && |s'.q.waiting| + (if r == [] then 0 else Load(r[0])) <= |s.q.waiting| + Load(h)
      && s'.q.maxlen == s.q.maxlen
  {
  }

  lemma HandleKeepsTotal(s: State, i: nat, outcome: Outcome)
    requires i < |s.handlers|
    ensures var s' := HandleStep(s, i, outcome);
      |s'.q.waiting| + InFlight(s') <= |s.q.waiting| + InFlight(s) && s'.q.maxlen == s.q.maxlen
  {
    ActKeepsTotal(s, s.handlers[i], outcome);
    SumReplaced(s.handlers, i, Act(s, s.handlers[i], outcome).1, Load);
  }

  lemma StepKeepsBound(s: State, e: Event, h: nat)
    requires WakeInv(s) && Enabled(s, e) && |s.handlers| <= h && s.q.maxlen <= Step(s, e).q.maxlen
    requires |s.q.waiting| + InFlight(s) <= s.q.maxlen + h
    ensures |Step(s, e).q.waiting| + InFlight(Step(s, e)) <= Step(s, e).q.maxlen + h
  {
    match e
    case Arrive => LoadBound(s.handlers);
    case Handle(i, outcome) => HandleKeepsTotal(s, i, outcome);
    case StartWork => SumAppended(s.handlers, Starting, Load);
    case StartDelayed => SumAppended(s.handlers, Starting, Load);
    case Produce(_) =>
    case SetPolicy(_) =>
    case SetMaxlen(_) =>
  }

  /** With at most h handlers running, the driver never holds more than q_maxlen + h packets. */
  lemma {:induction false} QueueStaysBounded(trace: seq<State>, events: seq<Event>, h: nat, k: nat)
    requires IsRun(trace, events) && Bounded(trace, h) && k < |trace|
    ensures |trace[k].q.waiting| + InFlight(trace[k]) <= trace[k].q.maxlen + h
  {
    if k > 0 {
      QueueStaysBounded(trace, events, h, k - 1);
      RunKeepsWakeInv(trace, events, k - 1);
      assert Follows(trace[k - 1], events[k - 1], trace[k]);
      assert trace[k - 1].q.maxlen <= trace[k].q.maxlen;
      StepKeepsBound(trace[k - 1], events[k - 1], h);
    }
  }

  // --- what a producer does ---

  /** A producer that reads a set flag ends and queues nothing; one that reads a clear flag goes on, and
      its next step queues the immediate item, whatever happens to the flag. Nothing else changes. */
  lemma ProducerFollowsFlag(s: State, i: nat)
    requires ValidQueue(s.q) && i < |s.producers|
    ensures var s' := Step(s, Produce(i));
      && s' == s.(producers := s'.producers, workPending := s'.workPending)
      && s'.workPending == (s.workPending || s.producers[i].Scheduling?)
      && (s.producers[i].Checking? && !s.flag ==> s'.producers == s.producers[i := Scheduling])
      && (s.producers[i].Scheduling? || s.flag ==> s'.producers == s.producers[..i] + s.producers[i + 1..])
  {
    assert s.producers[i := Scheduling] == s.producers[..i] + [Scheduling] + s.producers[i + 1..];
    assert s.producers[..i] + [] + s.producers[i + 1..] == s.producers[..i] + s.producers[i + 1..];
  }

  // --- which packet a full queue gives up ---

  /** A packet that waits has arrived. */
  lemma WaitingHasArrived(trace: seq<State>, events: seq<Event>, k: nat, i: nat)
    requires IsRun(trace, events) && k < |trace| && i < |trace[k].q.waiting|
    ensures 0 <= trace[k].q.waiting[i] < trace[k].next
  {
    var w := trace[k].q.waiting;
    PacketsConserved(trace, events, k, w[i]);
    SumReplaced(w, i, [], Is(w[i]));
  }

  /** What an arrival does, in every run: the packet joins the end of the line; if the line was full,
      drop oldest gives up its front for it, and drop newest the new packet instead. Either way its
      producer goes on to look at the flag. */
  lemma ArrivalFollowsPolicy(trace: seq<State>, events: seq<Event>, k: nat)
    requires IsRun(trace, events) && k < |events| && events[k].Arrive?
    ensures var s, s' := trace[k], trace[k + 1];
      var full := |s.q.waiting| >= s.q.maxlen;
      && s' == s.(q := s.q.(waiting := s'.q.waiting), next := s.next + 1, dropped := s'.dropped, producers := s.producers + [Checking])
      && (s.q.policy == DROP_OLDEST || s.q.policy == DROP_NEWEST)
      && (!full ==> s'.q.waiting == s.q.waiting + [s.next] && s'.dropped == s.dropped)
      && (full && s.q.policy == DROP_OLDEST ==>
            && s.q.waiting != [] && s'.dropped == s.dropped + [s.q.waiting[0]]
            && [s.q.waiting[0]] + s'.q.waiting == s.q.waiting + [s.next])
      && (full && s.q.policy == DROP_NEWEST ==> s'.dropped == s.dropped + [s.next] && s'.q.waiting == s.q.waiting)
  {
    RunKeepsWakeInv(trace, events, k);
    assert Follows(trace[k], events[k], trace[k + 1]);
    var (q', lost) := Enqueue(trace[k].q, trace[k].next);
    if lost.Some? && trace[k].q.policy == DROP_OLDEST {
      assert ([lost.value] + q'.waiting)[0] == trace[k].q.waiting[0];
    }
  }

  /** Nothing else drops a packet. */
  lemma OnlyArrivalsDrop(s: State, e: Event)
    requires ValidQueue(s.q) && Enabled(s, e) && !e.Arrive?
    ensures Step(s, e).dropped == s.dropped && Step(s, e).next == s.next
  {
  }

  ghost predicate PolicyFrom(trace: seq<State>, j: nat, k: nat, policy: int) {
    k < |trace| && forall i :: j <= i <= k ==> trace[i].q.policy == policy
  }

  /** The packets dropped in between are numbered from lo up to hi. */
  ghost predicate NewDrops(before: seq<int>, after: seq<int>, lo: int, hi: int) {
    before <= after && forall i :: |before| <= i < |after| ==> lo <= after[i] < hi
  }

  lemma NextDrop(before: seq<int>, mid: seq<int>, after: seq<int>, lo: int, hi: int, hi': int)
    requires NewDrops(before, mid, lo, hi) && hi <= hi'
    requires after == mid || (|after| == |mid| + 1 && mid <= after && lo <= after[|mid|] < hi')
    ensures NewDrops(before, after, lo, hi')
  {
  }

  /** Under drop newest no packet is given up that had arrived before; under drop oldest the one that
      arrived last never is. */
  ghost predicate DropsFollow(first: State, s: State, policy: int) {
    && first.next <= s.next
    && (policy == DROP_NEWEST ==> NewDrops(first.dropped, s.dropped, first.next, s.next))
    && (policy == DROP_OLDEST ==> NewDrops(first.dropped, s.dropped, 0, s.next as int - 1))
  }

  /** The step from state i drops at most one packet, under this policy. */
  ghost predicate DropsOneAt(trace: seq<State>, i: nat, policy: int) {
    i + 1 < |trace| && OneDrop(trace[i], trace[i + 1]) && trace[i].q.policy == policy
  }

  lemma {:induction false} DropsAddUp(trace: seq<State>, j: nat, k: nat, policy: int)
    requires j <= k < |trace| && forall i: nat :: j <= i < k ==> DropsOneAt(trace, i, policy)
    ensures DropsFollow(trace[j], trace[k], policy)
    decreases k
  {
    if j == k {
      NoDrops(trace[j], policy);
    } else {
      DropsAddUp(trace, j, k - 1, policy);
      assert DropsOneAt(trace, k - 1, policy);
      DropsGoOn(trace[j], trace[k - 1], trace[k], policy);
    }
  }

  /** So it is for every stretch of a run in which the policy stays the same. */
  lemma DropsFollowPolicy(trace: seq<State>, events: seq<Event>, j: nat, k: nat, policy: int)
    requires IsRun(trace, events) && j <= k && PolicyFrom(trace, j, k, policy)
    ensures DropsFollow(trace[j], trace[k], policy)
  {
    forall i: nat | j <= i < k ensures DropsOneAt(trace, i, policy) {
      StepDrops(trace, events, i);
      SamePolicy(trace, j, k, i, policy);
    }
    DropsAddUp(trace, j, k, policy);
  }

  lemma NoDrops(s: State, policy: int)
    ensures DropsFollow(s, s, policy)
  {
  }

  lemma SamePolicy(trace: seq<State>, j: nat, k: nat, i: nat, policy: int)
    requires PolicyFrom(trace, j, k, policy) && j <= i <= k
    ensures trace[i].q.policy == policy
  {
  }

  lemma DropsGoOn(first: State, s: State, s': State, policy: int)
    requires DropsFollow(first, s, policy) && OneDrop(s, s') && s.q.policy == policy
    ensures DropsFollow(first, s', policy)
  {
    if policy == DROP_NEWEST { NextDrop(first.dropped, s.dropped, s'.dropped, first.next, s.next, s'.next); }
    if policy == DROP_OLDEST { NextDrop(first.dropped, s.dropped, s'.dropped, 0, s.next as int - 1, s'.next as int - 1); }
  }

  /** A step drops at most one packet: the one that arrives, or one that arrived before. */
  predicate OneDrop(s: State, s': State) {
    && s.next <= s'.next
    && (s'.dropped == s.dropped || (
         && |s'.dropped| == |s.dropped| + 1 && s.dropped <= s'.dropped
         && (s.q.policy == DROP_NEWEST ==> s'.dropped[|s.dropped|] == s.next < s'.next)
         && (s.q.policy == DROP_OLDEST ==> 0 <= s'.dropped[|s.dropped|] < s'.next - 1)))
  }

  lemma StepDrops(trace: seq<State>, events: seq<Event>, k: nat)
    requires IsRun(trace, events) && k < |events|
    ensures OneDrop(trace[k], trace[k + 1])
  {
    RunKeepsWakeInv(trace, events, k);
    assert Follows(trace[k], events[k], trace[k + 1]);
    if events[k].Arrive? {
      ArrivalFollowsPolicy(trace, events, k);
      if trace[k].q.waiting != [] { WaitingHasArrived(trace, events, k, 0); }
    } else {
      OnlyArrivalsDrop(trace[k], events[k]);
    }
  }

  /** As long as at most one packet is in flight, what drop oldest gives up is older than all that waits. */
  lemma DropsTheOldest(trace: seq<State>, events: seq<Event>, k: nat, i: nat)
    requires IsRun(trace, events) && k < |events| && events[k].Arrive? && OneAtATime(trace, k)
    requires trace[k].q.policy == DROP_OLDEST && |trace[k].q.waiting| >= trace[k].q.maxlen && i < |trace[k + 1].q.waiting|
    ensures trace[k].q.waiting != [] && trace[k].q.waiting[0] < trace[k + 1].q.waiting[i]
  {
    var w, w' := trace[k].q.waiting, trace[k + 1].q.waiting;
    ArrivalFollowsPolicy(trace, events, k);
    OneInFlightKeepsOrder(trace, events, k);
    WaitingHasArrived(trace, events, k, 0);
    var line, pre := Line(trace[k]), trace[k].sent + Flight(trace[k].handlers);
    assert line[|pre|] == w[0] && w'[i] == (w + [trace[k].next])[i + 1];
    if i + 1 < |w| { assert line[|pre| + i + 1] == w[i + 1]; }
  }

  // --- overlapping handlers ---

  lemma Extend(trace: seq<State>, events: seq<Event>, e: Event, s: State)
      returns (trace': seq<State>, events': seq<Event>)
    requires IsRun(trace, events)
    requires Follows(trace[|events|], e, s)
    ensures IsRun(trace', events') && trace'[|events'|] == s
    ensures Continues(trace, events, trace', events') && trace' == trace + [s] && events' == events + [e]
  {
    trace', events' := trace + [s], events + [e];
  }

  /** A run that goes on from another one. */
  ghost predicate Continues(trace: seq<State>, events: seq<Event>, trace': seq<State>, events': seq<Event>) {
    trace <= trace' && events <= events'
  }

  datatype Item = Work | Delayed

  /** The items that run after a step, one for each handler; none if an item was started while it
      ran, which the kernel's work queues do not do. */
  function ItemsAfter(items: seq<Item>, e: Event, ended: bool): Option<seq<Item>> {
    match e
    case StartWork => if Work in items then None else Some(items + [Work])
    case StartDelayed => if Delayed in items then None else Some(items + [Delayed])
    case Handle(i, _) => Some(if ended && i < |items| then Put(items, i, []) else items)
    case _ => Some(items)
  }

  /** In every state of a run, the item that each handler runs. */
  ghost predicate Tags(trace: seq<State>, events: seq<Event>, tags: seq<seq<Item>>) {
    && |trace| == |events| + 1 == |tags| && tags[0] == []
    && forall k :: 0 <= k < |events| ==>
      ItemsAfter(tags[k], events[k], |trace[k + 1].handlers| < |trace[k].handlers|) == Some(tags[k + 1])
  }

  /** A run in which no item overlaps with itself. */
  ghost predicate NoReentry(trace: seq<State>, events: seq<Event>) {
    exists tags :: Tags(trace, events, tags)
  }

  /** Items are told apart, and there is one for each handler. */
  predicate Tagged(items: seq<Item>, s: State) {
    |items| == |s.handlers| && forall a, b :: 0 <= a < b < |items| ==> items[a] != items[b]
  }

  lemma StepKeepsTags(items: seq<Item>, s: State, e: Event)
    requires ValidQueue(s.q) && Enabled(s, e) && Tagged(items, s)
    ensures var r := ItemsAfter(items, e, |Step(s, e).handlers| < |s.handlers|); r.Some? ==> Tagged(r.value, Step(s, e))
  {
  }

  lemma {:induction false} RunIsTagged(trace: seq<State>, events: seq<Event>, tags: seq<seq<Item>>, k: nat)
    requires IsRun(trace, events) && Tags(trace, events, tags) && k < |trace|
    ensures Tagged(tags[k], trace[k])
  {
    if k > 0 {
      RunIsTagged(trace, events, tags, k - 1);
      assert Follows(trace[k - 1], events[k - 1], trace[k]);
      StepKeepsTags(tags[k - 1], trace[k - 1], events[k - 1]);
    }
  }

  lemma AtMostTwo(trace: seq<State>, events: seq<Event>)
    requires IsRun(trace, events) && NoReentry(trace, events)
    ensures |trace[|events|].handlers| <= 2
  {
    var tags :| Tags(trace, events, tags);
    RunIsTagged(trace, events, tags, |events|);
    var items := tags[|events|];
    assert |items| <= 2 || (items[0] != items[1] && items[0] != items[2] && items[1] != items[2]);
  }

  /** A continuation in which still no item overlaps with itself, if none did. */
  ghost predicate GoesOn(trace: seq<State>, events: seq<Event>, trace': seq<State>, events': seq<Event>) {
    && IsRun(trace, events) && IsRun(trace', events') && Continues(trace, events, trace', events')
    && (NoReentry(trace, events) ==> NoReentry(trace', events'))
  }

  lemma TagsExtend(trace: seq<State>, events: seq<Event>, tags: seq<seq<Item>>, e: Event, s: State, items: seq<Item>)
    requires Tags(trace, events, tags)
    requires ItemsAfter(tags[|events|], e, |s.handlers| < |trace[|events|].handlers|) == Some(items)
    ensures Tags(trace + [s], events + [e], tags + [items])
  {
  }

  /** One more step of handler i. */
  lemma Go(trace: seq<State>, events: seq<Event>, i: nat, outcome: Outcome)
      returns (trace': seq<State>, events': seq<Event>)
    requires IsRun(trace, events) && i < |trace[|events|].handlers|
    ensures GoesOn(trace, events, trace', events')
    ensures trace'[|events'|] == HandleStep(trace[|events|], i, outcome)
  {
    var s := trace[|events|];
    RunKeepsWakeInv(trace, events, |events|);
    trace', events' := Extend(trace, events, Handle(i, outcome), HandleStep(s, i, outcome));
    if tags :| Tags(trace, events, tags) {
      var e, s' := Handle(i, outcome), HandleStep(s, i, outcome);
      TagsExtend(trace, events, tags, e, s', ItemsAfter(tags[|events|], e, |s'.handlers| < |s.handlers|).value);
    }
  }

  /** A handler that is sending may meet EAGAIN. */
  lemma MeetAgain(trace: seq<State>, events: seq<Event>, i: nat)
      returns (trace': seq<State>, events': seq<Event>)
    requires IsRun(trace, events) && i < |trace[|events|].handlers| && Carried(trace[|events|].handlers[i]) != []
    ensures GoesOn(trace, events, trace', events')
    ensures var s, s' := trace[|events|], trace'[|events'|];
      s' == s.(handlers := Put(s.handlers, i, [Requeueing(Carried(s.handlers[i])[0])]))
  {
    var s := trace[|events|];
    trace', events' := trace, events;
    if s.handlers[i].Sending? {
      trace', events' := Go(trace, events, i, Again);
    } else {
      assert Put(s.handlers, i, [s.handlers[i]]) == s.handlers;
    }
  }

  lemma PutTwice<T>(s: seq<T>, i: nat, x: T, r: seq<T>)
    requires i < |s|
    ensures |Put(s, i, [x])| == |s| && Put(s, i, [x])[i] == x && Put(Put(s, i, [x]), i, r) == Put(s, i, r)
  {
  }

  /** A handler with a packet meets EAGAIN, puts the packet back, queues the delayed item and ends. */
  lemma PutBack(trace: seq<State>, events: seq<Event>, i: nat)
      returns (trace': seq<State>, events': seq<Event>)
    requires IsRun(trace, events) && i < |trace[|events|].handlers| && Carried(trace[|events|].handlers[i]) != []
    ensures GoesOn(trace, events, trace', events')
    ensures var s, s' := trace[|events|], trace'[|events'|];
      && s'.sent == s.sent && s'.delayedPending && s'.q.waiting == Carried(s.handlers[i]) + s.q.waiting
      && s'.handlers == Put(s.handlers, i, [])
  {
    var hs := trace[|events|].handlers;
    var x := Carried(hs[i])[0];
    PutTwice(hs, i, Requeueing(x), [Flagging]);
    PutTwice(hs, i, Flagging, [Delaying]);
    PutTwice(hs, i, Delaying, []);
    trace', events' := MeetAgain(trace, events, i);
    trace', events' := Go(trace', events', i, Ok);
    assert trace'[|events'|].handlers == Put(hs, i, [Flagging]);
    trace', events' := Go(trace', events', i, Ok);
    assert trace'[|events'|].handlers == Put(hs, i, [Delaying]);
    trace', events' := Go(trace', events', i, Ok);
  }

  /** The delayed item starts. */
  lemma StartLate(trace: seq<State>, events: seq<Event>)
      returns (trace': seq<State>, events': seq<Event>)
    requires IsRun(trace, events) && trace[|events|].delayedPending
    ensures IsRun(trace', events') && Continues(trace, events, trace', events')
    ensures NoReentry(trace, events) && trace[|events|].handlers == [] ==> NoReentry(trace', events')
    ensures var s := trace[|events|];
      trace'[|events'|] == s.(delayedPending := false, handlers := s.handlers + [Starting])
  {
    var s := trace[|events|];
    RunKeepsWakeInv(trace, events, |events|);
    trace', events' := Extend(trace, events, StartDelayed, Step(s, StartDelayed));
    if tags :| Tags(trace, events, tags) && s.handlers == [] {
      RunIsTagged(trace, events, tags, |events|);
      TagsExtend(trace, events, tags, StartDelayed, Step(s, StartDelayed), tags[|events|] + [Delayed]);
    }
  }

  /** The last handler, about to dequeue, sends the first packet that waits. */
  lemma SendFirst(trace: seq<State>, events: seq<Event>, i: nat)
      returns (trace': seq<State>, events': seq<Event>)
    requires IsRun(trace, events) && |trace[|events|].handlers| == i + 1 && trace[|events|].handlers[i].Looping?
    requires trace[|events|].handlers[i].cnt < 5 && trace[|events|].q.waiting != []
    ensures GoesOn(trace, events, trace', events')
    ensures var s, s' := trace[|events|], trace'[|events'|];
      && s'.sent == s.sent + [s.q.waiting[0]] && s'.q.waiting == s.q.waiting[1..]
      && |s'.handlers| == i + 1 && s'.handlers[i] == Looping(s.handlers[i].cnt + 1)
  {
    trace', events' := Go(trace, events, i, Ok);
    trace', events' := Go(trace', events', i, Ok);
  }

  /** The delayed item sends the two packets at the head of the queue. */
  lemma SendTwo(trace: seq<State>, events: seq<Event>, x: int, y: int)
      returns (trace': seq<State>, events': seq<Event>)
    requires IsRun(trace, events) && trace[|events|].delayedPending && [x, y] <= trace[|events|].q.waiting
    ensures IsRun(trace', events') && Continues(trace, events, trace', events')
    ensures NoReentry(trace, events) && trace[|events|].handlers == [] ==> NoReentry(trace', events')
    ensures trace'[|events'|].sent == trace[|events|].sent + [x, y]
  {
    var i := |trace[|events|].handlers|;
    trace', events' := StartLate(trace, events);
    trace', events' := Go(trace', events', i, Ok);
    trace', events' := SendFirst(trace', events', i);
    trace', events' := SendFirst(trace', events', i);
  }

  lemma {:induction false} SomeCarrier(hs: seq<Handler>) returns (i: nat)
    requires Sum(hs, Load) >= 1
    ensures i < |hs| && Load(hs[i]) == 1
  {
    i := 0;
    if Load(hs[0]) == 0 {
      i := SomeCarrier(hs[1..]);
      i := i + 1;
    }
  }

  lemma TwoCarriers(hs: seq<Handler>) returns (i: nat, j: nat)
    requires Sum(hs, Load) >= 2
    ensures i < |hs| && j < |hs| && i != j && Load(hs[i]) == 1 && Load(hs[j]) == 1
  {
    i := SomeCarrier(hs);
    SumReplaced(hs, i, [], Load);
    j := SomeCarrier(Put(hs, i, []));
    j := if j < i then j else j + 1;
  }

  lemma CountsTwice(hs: seq<Handler>, i: nat, j: nat, x: int)
    requires i < |hs| && j < |hs| && i != j && Carried(hs[i]) == [x] && Carried(hs[j]) == [x]
    ensures Sum(hs, CopiesIn(x)) >= 2
  {
    SumReplaced(hs, i, [], CopiesIn(x));
    var k := PutKeepsOthers(hs, i, [], j);
    SumReplaced(Put(hs, i, []), k, [], CopiesIn(x));
    CopiesOne(x, x);
  }

  /** In a run no two handlers hold the same packet. */
  lemma CarriersDiffer(trace: seq<State>, events: seq<Event>, i: nat, j: nat)
    requires IsRun(trace, events) && i < |trace[|events|].handlers| && j < |trace[|events|].handlers| && i != j
    requires Load(trace[|events|].handlers[i]) == 1 && Load(trace[|events|].handlers[j]) == 1
    ensures Carried(trace[|events|].handlers[i])[0] != Carried(trace[|events|].handlers[j])[0]
  {
    var hs := trace[|events|].handlers;
    var x := Carried(hs[i])[0];
    PacketsConserved(trace, events, |events|, x);
    if Carried(hs[j]) == [x] { CountsTwice(hs, i, j, x); }
  }

  /** Both handlers put their packets back, the older packet first. */
  lemma PutBoth(trace: seq<State>, events: seq<Event>, i: nat, j: nat)
      returns (trace': seq<State>, events': seq<Event>)
    requires IsRun(trace, events) && i < |trace[|events|].handlers| && j < |trace[|events|].handlers| && i != j
    requires Load(trace[|events|].handlers[i]) == 1 && Load(trace[|events|].handlers[j]) == 1
    ensures GoesOn(trace, events, trace', events')
    ensures var s, s' := trace[|events|], trace'[|events'|];
      && s'.sent == s.sent && s'.delayedPending && |s'.handlers| == |s.handlers| - 2
      && s'.q.waiting == Carried(s.handlers[i]) + Carried(s.handlers[j]) + s.q.waiting
  {
    trace', events' := PutBack(trace, events, j);
    var i' := PutKeepsOthers(trace[|events|].handlers, j, [], i);
    trace', events' := PutBack(trace', events', i');
  }

  /** And only then: every run that ends with two packets in flight can go on so that a packet is
      sent after a newer one, and so that no item ever overlaps with itself if none did so far. */
  lemma TwoInFlightCanReorder(trace: seq<State>, events: seq<Event>)
      returns (trace': seq<State>, events': seq<Event>)
    requires IsRun(trace, events) && InFlight(trace[|events|]) >= 2
    ensures IsRun(trace', events') && Continues(trace, events, trace', events')
    ensures NoReentry(trace, events) ==> NoReentry(trace', events')
    ensures !Increasing(trace'[|events'|].sent)
  {
    var hs := trace[|events|].handlers;
    var i, j := TwoCarriers(hs);
    CarriersDiffer(trace, events, i, j);
    if Carried(hs[i])[0] < Carried(hs[j])[0] { i, j := j, i; }
    var x, y := Carried(hs[i])[0], Carried(hs[j])[0];
    trace', events' := NewerFirst(trace, events, i, j);
    LastTwo(trace[|events|].sent, x, y, trace'[|events'|].sent);
  }

  lemma LastTwo(a: seq<int>, x: int, y: int, all: seq<int>)
    requires all == a + [x, y] && x > y
    ensures !Increasing(all)
  {
    assert all[|a|] == x && all[|a| + 1] == y;
  }

  /** The packet of handler i can be sent next, and that of handler j right after it. */
  lemma NewerFirst(trace: seq<State>, events: seq<Event>, i: nat, j: nat)
      returns (trace': seq<State>, events': seq<Event>)
    requires IsRun(trace, events) && i < |trace[|events|].handlers| && j < |trace[|events|].handlers| && i != j
    requires Load(trace[|events|].handlers[i]) == 1 && Load(trace[|events|].handlers[j]) == 1
    ensures GoesOn(trace, events, trace', events')
    ensures var s := trace[|events|];
      trace'[|events'|].sent == s.sent + [Carried(s.handlers[i])[0], Carried(s.handlers[j])[0]]
  {
    var hs := trace[|events|].handlers;
    if NoReentry(trace, events) { AtMostTwo(trace, events); }
    trace', events' := PutBoth(trace, events, i, j);
    trace', events' := SendTwo(trace', events', Carried(hs[i])[0], Carried(hs[j])[0]);
  }

  /** With two packets in flight drop oldest can be wrong: every run that ends so can go on to a state
      with the newer of two packets in front of the older, where an arrival gives up the newer one. */
  lemma TwoInFlightCanDropNewer(trace: seq<State>, events: seq<Event>)
      returns (trace': seq<State>, events': seq<Event>)
    requires IsRun(trace, events) && InFlight(trace[|events|]) >= 2
    ensures IsRun(trace', events') && Continues(trace, events, trace', events')
    ensures NoReentry(trace, events) ==> NoReentry(trace', events')
    ensures var s := trace'[|events'|];
      && s.q.policy == DROP_OLDEST && |s.q.waiting| >= s.q.maxlen >= 1 && |s.q.waiting| > 1
      && Step(s, Arrive).dropped == s.dropped + [s.q.waiting[0]]
      && s.q.waiting[1] in Step(s, Arrive).q.waiting && s.q.waiting[1] < s.q.waiting[0]
  {
    var hs := trace[|events|].handlers;
    var i, j := TwoCarriers(hs);
    CarriersDiffer(trace, events, i, j);
    if Carried(hs[i])[0] < Carried(hs[j])[0] { i, j := j, i; }
    trace', events' := PutBoth(trace, events, i, j);
    assert trace'[|events'|].q.waiting[0] == Carried(hs[i])[0] && trace'[|events'|].q.waiting[1] == Carried(hs[j])[0];
    trace', events' := Configure(trace', events', SetPolicy(true));
    trace', events' := Configure(trace', events', SetMaxlen(1));
    var q := trace'[|events'|].q;
    var w' := Enqueue(q, trace'[|events'|].next).0.waiting;
    assert ([q.waiting[0]] + w')[1] == w'[0];
  }

  /** A change of policy or length. */
  lemma Configure(trace: seq<State>, events: seq<Event>, e: Event)
      returns (trace': seq<State>, events': seq<Event>)
    requires IsRun(trace, events) && (e.SetPolicy? || e.SetMaxlen?)
    ensures GoesOn(trace, events, trace', events')
    ensures ValidQueue(trace[|events|].q) && trace'[|events'|] == Step(trace[|events|], e)
  {
    var s := trace[|events|];
    RunKeepsWakeInv(trace, events, |events|);
    trace', events' := Extend(trace, events, e, Step(s, e));
    if tags :| Tags(trace, events, tags) { TagsExtend(trace, events, tags, e, Step(s, e), tags[|events|]); }
  }

  /** A run to a state in which the handlers run these items. */
  ghost predicate Reaches(trace: seq<State>, events: seq<Event>, tags: seq<seq<Item>>, s: State, items: seq<Item>) {
    IsRun(trace, events) && Tags(trace, events, tags) && trace[|events|] == s && tags[|events|] == items
  }

  /** One more step of such a run. */
  ghost predicate Next(s: State, items: seq<Item>, e: Event, s': State, items': seq<Item>) {
    Follows(s, e, s') && ItemsAfter(items, e, |s'.handlers| < |s.handlers|) == Some(items')
  }

  lemma Then(trace: seq<State>, events: seq<Event>, tags: seq<seq<Item>>, s: State, items: seq<Item>,
             e: Event, s': State, items': seq<Item>)
      returns (trace': seq<State>, events': seq<Event>, tags': seq<seq<Item>>)
    requires Reaches(trace, events, tags, s, items) && Next(s, items, e, s', items')
    ensures Reaches(trace', events', tags', s', items')
  {
    trace', events' := Extend(trace, events, e, s');
    TagsExtend(trace, events, tags, e, s', items');
    tags' := tags + [items'];
  }

  /** Packet 0 arrives and its producer queues the immediate item. */
  lemma FirstQueued(n: int) returns (trace: seq<State>, events: seq<Event>, tags: seq<seq<Item>>)
    requires n >= 2
    ensures Reaches(trace, events, tags, FirstWaiting(n), [])
  {
    var s0 := State(Queue([], n, DROP_NEWEST), false, false, false, [], [], 0, [], [], []);
    trace, events, tags := [s0], [], [[]];
    var s1 := FirstWaiting(n).(workPending := false, producers := [Checking]);
    trace, events, tags := Then(trace, events, tags, s0, [], Arrive, s1, []);
    var s2 := s1.(producers := [Scheduling]);
    trace, events, tags := Then(trace, events, tags, s1, [], Produce(0), s2, []);
    trace, events, tags := Then(trace, events, tags, s2, [], Produce(0), FirstWaiting(n), []);
  }

  function FirstWaiting(n: int): State {
    State(Queue([0], n, DROP_NEWEST), false, true, false, [], [], 1, [], [], [])
  }

  /** The item takes it. */
  lemma FirstSending(n: int) returns (trace: seq<State>, events: seq<Event>, tags: seq<seq<Item>>)
    requires n >= 2
    ensures Reaches(trace, events, tags, FirstSent(n), [Work])
  {
    trace, events, tags := FirstQueued(n);
    var s1 := FirstWaiting(n).(workPending := false, handlers := [Starting]);
    assert [] + [Work] == [Work];
    trace, events, tags := Then(trace, events, tags, FirstWaiting(n), [], StartWork, s1, [Work]);
    var s2 := s1.(handlers := [Looping(0)]);
    trace, events, tags := Then(trace, events, tags, s1, [Work], Handle(0, Ok), s2, [Work]);
    trace, events, tags := Then(trace, events, tags, s2, [Work], Handle(0, Ok), FirstSent(n), [Work]);
  }

  function FirstSent(n: int): State {
    State(Queue([], n, DROP_NEWEST), false, false, false, [Sending(0, 0)], [], 1, [], [], [])
  }

  /** It meets EAGAIN while a second producer is between its flag check and its queue_work. */
  lemma SecondUndecided(n: int) returns (trace: seq<State>, events: seq<Event>, tags: seq<seq<Item>>)
    requires n >= 2
    ensures Reaches(trace, events, tags, SecondScheduling(n), [Work])
  {
    trace, events, tags := FirstSending(n);
    var s0 := FirstSent(n);
    var s1 := s0.(q := Queue([1], n, DROP_NEWEST), producers := [Checking], next := 2);
    trace, events, tags := Then(trace, events, tags, s0, [Work], Arrive, s1, [Work]);
    var s2 := s1.(producers := [Scheduling]);
    trace, events, tags := Then(trace, events, tags, s1, [Work], Produce(0), s2, [Work]);
    trace, events, tags := Then(trace, events, tags, s2, [Work], Handle(0, Again), SecondScheduling(n), [Work]);
  }

  function SecondScheduling(n: int): State {
    State(Queue([1], n, DROP_NEWEST), false, false, false, [Requeueing(0)], [Scheduling], 2, [], [], [])
  }

  /** Both work items end up pending with packets 0 and 1 waiting. */
  lemma BothItemsPending(n: int) returns (trace: seq<State>, events: seq<Event>, tags: seq<seq<Item>>)
    requires n >= 2
    ensures Reaches(trace, events, tags, BothPending(n), [])
  {
    trace, events, tags := SecondUndecided(n);
    var s0 := SecondScheduling(n);
    var s1 := s0.(q := Queue([0, 1], n, DROP_NEWEST), handlers := [Flagging]);
    trace, events, tags := Then(trace, events, tags, s0, [Work], Handle(0, Ok), s1, [Work]);
    var s2 := s1.(flag := true, handlers := [Delaying]);
    trace, events, tags := Then(trace, events, tags, s1, [Work], Handle(0, Ok), s2, [Work]);
    var s3 := s2.(delayedPending := true, handlers := []);
    assert Put([Work], 0, []) == [];
    trace, events, tags := Then(trace, events, tags, s2, [Work], Handle(0, Ok), s3, []);
    trace, events, tags := Then(trace, events, tags, s3, [], Produce(0), BothPending(n), []);
  }

  function BothPending(n: int): State {
    State(Queue([0, 1], n, DROP_NEWEST), true, true, true, [], [], 2, [], [], [])
  }

  /** Both items start. */
  lemma BothStart(n: int) returns (trace: seq<State>, events: seq<Event>, tags: seq<seq<Item>>)
    requires n >= 2
    ensures Reaches(trace, events, tags, BothStarting(n), [Work, Delayed])
  {
    trace, events, tags := BothItemsPending(n);
    var s0 := BothPending(n);
    var s1 := s0.(workPending := false, handlers := [Starting]);
    assert [] + [Work] == [Work] && [Work] + [Delayed] == [Work, Delayed];
    trace, events, tags := Then(trace, events, tags, s0, [], StartWork, s1, [Work]);
    trace, events, tags := Then(trace, events, tags, s1, [Work], StartDelayed, BothStarting(n), [Work, Delayed]);
  }

  function BothStarting(n: int): State {
    State(Queue([0, 1], n, DROP_NEWEST), true, false, false, [Starting, Starting], [], 2, [], [], [])
  }

  /** Both items running: their handlers hold packets 0 and 1. */
  lemma BothSending(n: int) returns (trace: seq<State>, events: seq<Event>, tags: seq<seq<Item>>)
    requires n >= 2
    ensures Reaches(trace, events, tags, TwoSending(n), [Work, Delayed])
  {
    trace, events, tags := BothStart(n);
    var s0, both := BothStarting(n), [Work, Delayed];
    var s1 := s0.(flag := false, handlers := [Looping(0), Starting]);
    trace, events, tags := Then(trace, events, tags, s0, both, Handle(0, Ok), s1, both);
    var s2 := s1.(handlers := [Looping(0), Looping(0)]);
    trace, events, tags := Then(trace, events, tags, s1, both, Handle(1, Ok), s2, both);
    var s3 := s2.(q := Queue([1], n, DROP_NEWEST), handlers := [Sending(0, 0), Looping(0)]);
    trace, events, tags := Then(trace, events, tags, s2, both, Handle(0, Ok), s3, both);
    trace, events, tags := Then(trace, events, tags, s3, both, Handle(1, Ok), TwoSending(n), both);
  }

  function TwoSending(n: int): State {
    State(Queue([], n, DROP_NEWEST), false, false, false, [Sending(0, 0), Sending(1, 0)], [], 2, [], [], [])
  }

  /** Without the no-overlap condition the order can be lost, even though each of the two work
      items runs at most once at a time: the handlers of the two items take packets 0 and 1 and
      finish sending them the other way round. */
  lemma OverlapReorders(n: int) returns (trace: seq<State>, events: seq<Event>)
    requires n >= 2
    ensures IsRun(trace, events) && NoReentry(trace, events)
    ensures trace[|events|].sent == [1, 0] && !Increasing(trace[|events|].sent)
  {
    var tags;
    trace, events, tags := BothSending(n);
    var s0 := TwoSending(n);
    var s1 := s0.(handlers := [Sending(0, 0), Looping(1)], sent := [1]);
    assert [] + [1] == [1] && [1] + [0] == [1, 0];
    trace, events, tags := Then(trace, events, tags, s0, [Work, Delayed], Handle(1, Ok), s1, [Work, Delayed]);
    var s2 := s1.(handlers := [Looping(1), Looping(1)], sent := [1, 0]);
    trace, events, tags := Then(trace, events, tags, s1, [Work, Delayed], Handle(0, Ok), s2, [Work, Delayed]);
    assert s2.sent[0] > s2.sent[1];
  }
}
