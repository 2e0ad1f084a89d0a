/** do_xmit_handler of ldt-kmod/ldt_mpdccp.c as the loop it is, on the fields it changes, and its
    agreement with the step-by-step handler of TxScheduler when nothing interleaves. */
module TxHandler {
  import opened TxQueue
  import opened TxScheduler

  /** More than the number of steps h still makes. */
  function StepsLeft(h: Handler): nat {
    match h
    case Starting => 30
    case Looping(cnt) => 6 + if cnt < 6 then 2 * (6 - cnt) else 0
    case Sending(_, cnt) => 5 + if cnt < 6 then 2 * (6 - cnt) else 0
    case Requeueing(_) => 3
    case Rescheduling => 1
    case Flagging => 2
    case Delaying => 1
  }

  /** h run to its end without interference, the k-th and later sends answered by `answers`. */
  function Finish(s: State, h: Handler, answers: nat -> Outcome, k: nat): State
    decreases StepsLeft(h)
  {
    var (s', r) := Act(s, h, answers(k));
    if r == [] then s' else Finish(s', r[0], answers, if h.Sending? then k + 1 else k)
  }

  /** One call of mpdccptun_elab_xmit: positive after a send, 0 on an empty queue, negative on
      failure; after EAGAIN the packet is back in front. */
  function Elab(s: State, answer: Outcome): (State, int) {
    if s.q.waiting == [] then (s, 0)
    else
      var (q', x) := Dequeue(s.q);
      match answer
      case Ok => (s.(q := q', sent := s.sent + [x.value]), 1)
      case Again => (s.(q := Requeue(q', x.value)), -11)
      case Error => (s.(q := q', failed := s.failed + [x.value]), -1)
  }

  lemma FinishFailed(s: State, answers: nat -> Outcome, k: nat)
    ensures Finish(s, Flagging, answers, k) == s.(flag := true, delayedPending := true)
  {
  }

  /** The steps of a handler from one dequeue to the next, or to its end. */
  lemma FinishLooping(s: State, cnt: nat, answers: nat -> Outcome, k: nat)
    ensures var (s1, ret) := Elab(s, answers(k));
      Finish(s, Looping(cnt), answers, k)
      == if ret == 0 then s1
         else if ret < 0 then s1.(flag := true, delayedPending := true)
         else if cnt + 1 > 5 then s1.(workPending := true)
         else Finish(s1, Looping(cnt + 1), answers, k + 1)
  {
    if s.q.waiting != [] {
      var s', x := s.(q := Dequeue(s.q).0), s.q.waiting[0];
      assert Finish(s, Looping(cnt), answers, k) == Finish(s', Sending(x, cnt), answers, k);
      match answers(k) {
        case Ok =>
          var s1, next := s'.(sent := s'.sent + [x]), if cnt + 1 > 5 then Rescheduling else Looping(cnt + 1);
          assert Finish(s', Sending(x, cnt), answers, k) == Finish(s1, next, answers, k + 1);
        case Again =>
          assert Finish(s', Sending(x, cnt), answers, k) == Finish(s', Requeueing(x), answers, k + 1);
          FinishFailed(s'.(q := Requeue(s'.q, x)), answers, k + 1);
        case Error =>
          FinishFailed(s'.(failed := s'.failed + [x]), answers, k + 1);
      }
    }
  }

  /** The number of packets a handler sends without interference: as many as wait and get through, up to
      six. */
  ghost predicate Sends(s: State, answers: nat -> Outcome, n: nat) {
    && n <= 6 && n <= |s.q.waiting| && (forall i: nat :: i < n ==> answers(i).Ok?)
    && (n == 6 || n == |s.q.waiting| || !answers(n).Ok?)
  }

  /** What a handler that sends n packets leaves: those are sent in order. After six of them the
      immediate item is queued again. With less, the handler ends if nothing waits; if a send failed
      the flag is set and the delayed item queued, and the packet is back in front exactly after EAGAIN. */
  function Left(s: State, answers: nat -> Outcome, n: nat): State
    requires n <= |s.q.waiting|
  {
    var w := s.q.waiting;
    var t := s.(flag := false, sent := s.sent + w[..n], q := s.q.(waiting := w[n..]));
    if n == 6 then t.(workPending := true)
    else if n == |w| then t
    else if answers(n).Again? then t.(flag := true, delayedPending := true)
    else t.(flag := true, delayedPending := true, failed := s.failed + [w[n]], q := s.q.(waiting := w[n + 1..]))
  }

  lemma HandlerOutcome(s: State, answers: nat -> Outcome, n: nat)
    requires Sends(s, answers, n)
    ensures Finish(s, Starting, answers, 0) == Left(s, answers, n)
  {
    var t := s.(flag := false);
    assert t == t.(sent := t.sent + t.q.waiting[..0], q := t.q.(waiting := t.q.waiting[0..]));
    LoopOutcome(s, answers, n, 0);
  }

  /** The same from the point where k of them are sent. */
  lemma {:induction false} LoopOutcome(s: State, answers: nat -> Outcome, n: nat, k: nat)
    requires Sends(s, answers, n) && k <= n && k < 6
    ensures var t := s.(flag := false, sent := s.sent + s.q.waiting[..k], q := s.q.(waiting := s.q.waiting[k..]));
      Finish(t, Looping(k), answers, k) == Left(s, answers, n)
    decreases n - k
  {
    var w := s.q.waiting;
    var t := s.(flag := false, sent := s.sent + w[..k], q := s.q.(waiting := w[k..]));
    FinishLooping(t, k, answers, k);
    if k < n {
      assert w[k..][0] == w[k] && w[k..][1..] == w[k + 1..] && w[..k] + [w[k]] == w[..k + 1];
      assert t.sent + [w[k]] == s.sent + w[..k + 1];
      if k + 1 < 6 { LoopOutcome(s, answers, n, k + 1); }
    } else if k < |w| {
      assert [w[k..][0]] + w[k..][1..] == w[k..] && w[k..][1..] == w[k + 1..];
    }
  }

  class Tunnel {
    const xmitQueue: TpQueue<int>
    var hasDelayedWork: bool
    var workPending: bool
    var delayedPending: bool
    var sent: seq<int>
    var failed: seq<int>

    constructor (q: TpQueue<int>)
      ensures xmitQueue == q && !hasDelayedWork && !workPending && !delayedPending && sent == failed == []
    {
      xmitQueue := q;
      hasDelayedWork, workPending, delayedPending, sent, failed := false, false, false, [], [];
    }

    /** The tunnel's fields laid over those parts of the state that a handler does not touch. */
    ghost function View(rest: State): State
      reads this, xmitQueue
    {
      rest.(q := xmitQueue.View(), flag := hasDelayedWork, workPending := workPending,
            delayedPending := delayedPending, sent := sent, failed := failed)
    }

    method ElabXmit(answer: Outcome, ghost rest: State) returns (ret: int)
      requires xmitQueue.Valid()
      modifies this, xmitQueue
      ensures xmitQueue.Valid() && (View(rest), ret) == Elab(old(View(rest)), answer)
    {
      var skb := xmitQueue.DoDequeue();
      if skb.None? { return 0; }
      var x := skb.value;
      match answer {
        case Ok =>
          sent := sent + [x];
          ret := 1;
        case Again =>
          xmitQueue.DoRequeue(x);
          ret := -11;
        case Error =>
          failed := failed + [x];
          ret := -1;
      }
    }

    /** do_xmit_handler leaves exactly the state the step-by-step handler ends in. */
    method DoXmitHandler(answers: nat -> Outcome, ghost rest: State)
      requires xmitQueue.Valid()
      modifies this, xmitQueue
      ensures xmitQueue.Valid()
      ensures View(rest) == Finish(old(View(rest)), Starting, answers, 0)
      ensures forall n :: Sends(old(View(rest)), answers, n) ==> View(rest) == Left(old(View(rest)), answers, n)
    {
      ghost var before := View(rest);
      forall n | Sends(before, answers, n) ensures Finish(before, Starting, answers, 0) == Left(before, answers, n) {
        HandlerOutcome(before, answers, n);
      }
      ghost var end := Finish(View(rest), Starting, answers, 0);
      hasDelayedWork := false;
      var cnt, ret := 0, 1;
      while true
        invariant 0 <= cnt <= 5 && xmitQueue.Valid()
        invariant Finish(View(rest), Looping(cnt), answers, cnt) == end
        decreases 5 - cnt
      {
        FinishLooping(View(rest), cnt, answers, cnt);
        ret := ElabXmit(answers(cnt), rest);
        if ret <= 0 { break; }
        cnt := cnt + 1;
        if cnt > 5 { break; }
      }
      if ret > 0 {
        workPending := true;
      } else if ret < 0 {
        hasDelayedWork := true;
        delayedPending := true;
      }
    }
  }
}
