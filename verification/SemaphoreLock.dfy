/** The reader/writer lock of ext/frlib/lib/base/mutex.c: three SysV semaphores shared by any
    number of processes.

    Semaphore 0 is the write lock, semaphore 1 the "a writer is inside" check and semaphore 2
    counts readers.  Taking a lock is one atomic `semop`; `mutex_unlock` is two separate system
    calls, a GETALL snapshot from which it guesses what the caller holds and a `semop` that
    releases that.  A run is an arbitrary interleaving of those calls and of process deaths. */
module SemaphoreLock {

  // --- the kernel's side: semop() of POSIX.1-2017 and SEM_UNDO ---

  const SEMVMX: int := 32767

  type SemNum = n: nat | n < 3

  /** One value per semaphore of the set: semaphore values, or a process's undo adjustments. */
  datatype Three = Three(s0: int, s1: int, s2: int) {
    function At(n: SemNum): int {
      if n == 0 then s0 else if n == 1 then s1 else s2
    }

    function With(n: SemNum, v: int): Three {
      if n == 0 then this.(s0 := v) else if n == 1 then this.(s1 := v) else this.(s2 := v)
    }
  }

  datatype SemOp = SemOp(num: SemNum, op: int, undo: bool)

  /** `WouldBlock` stands for sleeping, a timeout or EAGAIN; `TooLarge` for ERANGE. */
  datatype OpResult = Done(sems: Three, adj: Three) | WouldBlock | TooLarge

  function SemopOne(sems: Three, adj: Three, o: SemOp): OpResult {
    var v := sems.At(o.num) + o.op;
    if o.op < 0 && v < 0 then WouldBlock
    else if o.op == 0 && v != 0 then WouldBlock
    else if v > SEMVMX then TooLarge
    else Done(sems.With(o.num, v), if o.undo then adj.With(o.num, adj.At(o.num) - o.op) else adj)
  }

  /** The operations of one `semop`, in order and all or nothing: the caller installs the new
      semaphores and undo adjustments only for `Done`. */
  function Semop(sems: Three, adj: Three, ops: seq<SemOp>): OpResult
    decreases |ops|
  {
    if ops == [] then Done(sems, adj)
    else
      match SemopOne(sems, adj, ops[0])
      case Done(sems', adj') => Semop(sems', adj', ops[1..])
      case failed => failed
  }

  function Clip(v: int): int {
    if v < 0 then 0 else if v > SEMVMX then SEMVMX else v
  }

  /** Process exit: the kernel adds the undo adjustments, clipping at the ends of the range. */
  function UndoOnExit(sems: Three, adj: Three): Three {
    Three(Clip(sems.s0 + adj.s0), Clip(sems.s1 + adj.s1), Clip(sems.s2 + adj.s2))
  }

  // --- the library's side ---

  /** mutex_create: SETALL to (1, 0, 0). */
  const CREATED := Three(1, 0, 0)

  const NO_ADJ := Three(0, 0, 0)

  function RdLockOps(undo: bool): seq<SemOp> {
    [SemOp(1, 0, false), SemOp(2, 1, undo)]
  }

  function WrLockOps(undo: bool): seq<SemOp> {
    [SemOp(0, -1, undo), SemOp(1, 1, undo), SemOp(2, 0, false)]
  }

  /** What a process holds, and what mutex_unlock concludes from its snapshot. */
  datatype Held = Nothing | Reader | Writer

  function Guess(snap: Three): Held {
    if snap.s0 == 1 && snap.s2 == 0 then Nothing
    else if snap.s2 > 0 then Reader
    else Writer
  }

  /** The release chosen for a guess. */
  function ReleaseOps(guess: Held, undo: bool): seq<SemOp> {
    match guess
    case Nothing => []
    case Reader => [SemOp(2, -1, undo)]
    case Writer => [SemOp(0, 1, undo), SemOp(1, -1, undo)]
  }

  /** mutex_islocked. */
  predicate IsLocked(sems: Three) {
    !(sems.s0 == 1 && sems.s2 == 0)
  }

  // --- the interleaved system ---

  /** `held` is what the process is entitled to, not something the library records.
      `Unlocking` is the point between the snapshot and the release. */
  datatype Phase = Running | Unlocking(snap: Three) | Gone

  datatype Process = Process(held: Held, phase: Phase, undo: bool, adj: Three)

  datatype State = State(sems: Three, procs: map<nat, Process>)

  datatype Event =
    | RdLock(p: nat, undo: bool)
    | WrLock(p: nat, undo: bool)
    | Snapshot(p: nat)
    | Release(p: nat)
    | Die(p: nat)

  /** Install the outcome of a `semop` done by p; a failed one changes nothing. */
  function Commit(s: State, p: nat, r: OpResult, next: Process): State {
    if r.Done? then State(r.sems, s.procs[p := next.(adj := r.adj)]) else s
  }

  /** One atomic action.  An event that is not possible in a state leaves it unchanged: a lock
      call is made only without a lock, an unlock call only with one, the dead do nothing. */
  function Step(s: State, e: Event): State {
    if e.p !in s.procs then s
    else
      var q := s.procs[e.p];
      match e
      case RdLock(p, undo) =>
        if q.phase.Running? && q.held.Nothing? then
          Commit(s, p, Semop(s.sems, q.adj, RdLockOps(undo)), q.(held := Reader, undo := undo))
        else s
      case WrLock(p, undo) =>
        if q.phase.Running? && q.held.Nothing? then
          Commit(s, p, Semop(s.sems, q.adj, WrLockOps(undo)), q.(held := Writer, undo := undo))
        else s
      case Snapshot(p) =>
        if q.phase.Running? && !q.held.Nothing? then
          if Guess(s.sems).Nothing? then s.(procs := s.procs[p := q.(held := Nothing)])
          else s.(procs := s.procs[p := q.(phase := Unlocking(s.sems))])
        else s
      case Release(p) =>
        if q.phase.Unlocking? then
          var r := Semop(s.sems, q.adj, ReleaseOps(Guess(q.phase.snap), q.undo));
          var next := q.(held := Nothing, phase := Running);
          // EAGAIN is reported as success: the caller goes on as if it had released
          if r.Done? then Commit(s, p, r, next) else s.(procs := s.procs[p := next])
        else s
      case Die(p) =>
        if q.phase.Gone? then s
        else
          // without SEM_UNDO the adjustments are zero and a held lock stays taken for ever
          State(UndoOnExit(s.sems, q.adj),
                s.procs[p := Process(if q.undo then Nothing else q.held, Gone, q.undo, NO_ADJ)])
  }

  function Run(s: State, events: seq<Event>): State
    decreases |events|
  {
    if events == [] then s
    else Step(Run(s, events[..|events| - 1]), events[|events| - 1])
  }

  predicate Initial(s: State) {
    && s.sems == CREATED
    && forall p :: p in s.procs ==> s.procs[p] == Process(Nothing, Running, s.procs[p].undo, NO_ADJ)
  }

  // --- the invariant ---

  ghost function Holders(procs: map<nat, Process>, h: Held): set<nat> {
    set p | p in procs && procs[p].held == h
  }

  function AdjFor(h: Held, undo: bool): Three {
    if !undo then NO_ADJ
    else match h
      case Nothing => NO_ADJ
      case Reader => Three(0, 0, -1)
      case Writer => Three(1, -1, 0)
  }

  predicate ProcessOk(q: Process) {
    && q.adj == (if q.phase.Gone? then NO_ADJ else AdjFor(q.held, q.undo))
    && (q.phase.Unlocking? ==> (!q.held.Nothing? && Guess(q.phase.snap) == q.held))
    && (q.phase.Gone? && q.undo ==> q.held.Nothing?)
  }

  /** The semaphores are exactly (1 - writers, writers, readers), and a writer is alone. */
  ghost predicate Counts(s: State) {
    var w, r := |Holders(s.procs, Writer)|, |Holders(s.procs, Reader)|;
    s.sems == Three(1 - w, w, r) && w <= 1 && r <= SEMVMX && (w == 1 ==> r == 0)
  }

  ghost predicate Inv(s: State) {
    && Counts(s)
    && forall p :: p in s.procs ==> ProcessOk(s.procs[p])
  }

  function Has(q: Process, h: Held): int {
    if q.held == h then 1 else 0
  }

  /** Changing what one process holds moves it from one holder set to another. */
  lemma MoveHolder(procs: map<nat, Process>, p: nat, q: Process, h: Held)
    requires p in procs
    ensures |Holders(procs[p := q], h)| == |Holders(procs, h)| + Has(q, h) - Has(procs[p], h)
    ensures |Holders(procs, h)| >= Has(procs[p], h)
  {
    OtherHolders(procs, p, h);
    OtherHolders(procs[p := q], p, h);
    assert OthersHolding(procs[p := q], p, h) == OthersHolding(procs, p, h);
  }

  ghost function OthersHolding(procs: map<nat, Process>, p: nat, h: Held): set<nat> {
    set r | r in procs && r != p && procs[r].held == h
  }

  lemma OtherHolders(procs: map<nat, Process>, p: nat, h: Held)
    requires p in procs
    ensures |Holders(procs, h)| == |OthersHolding(procs, p, h)| + Has(procs[p], h)
  {
    var rest := OthersHolding(procs, p, h);
    assert Holders(procs, h) == if procs[p].held == h then rest + {p} else rest;
  }

  lemma MoveBoth(procs: map<nat, Process>, p: nat, q: Process)
    requires p in procs
    ensures |Holders(procs[p := q], Writer)| == |Holders(procs, Writer)| + Has(q, Writer) - Has(procs[p], Writer)
    ensures |Holders(procs[p := q], Reader)| == |Holders(procs, Reader)| + Has(q, Reader) - Has(procs[p], Reader)
    ensures |Holders(procs, Writer)| >= Has(procs[p], Writer)
    ensures |Holders(procs, Reader)| >= Has(procs[p], Reader)
  {
    MoveHolder(procs, p, q, Writer);
    MoveHolder(procs, p, q, Reader);
  }

  /** Exactly when mutex_rdlock succeeds, and what it leaves. */
  lemma RdLockOutcome(sems: Three, adj: Three, undo: bool)
    ensures var r := Semop(sems, adj, RdLockOps(undo));
      && (r.Done? <==> (sems.s1 == 0 && sems.s2 < SEMVMX))
      && (r.Done? ==> r == Done(sems.(s2 := sems.s2 + 1), if undo then adj.(s2 := adj.s2 - 1) else adj))
  {
    var ops := RdLockOps(undo);
    assert ops[1..] == [SemOp(2, 1, undo)] && ops[1..][1..] == [];
    var one := SemopOne(sems, adj, ops[0]);
    if one.Done? {
      assert Semop(sems, adj, ops) == Semop(one.sems, one.adj, ops[1..]);
      var two := SemopOne(one.sems, one.adj, ops[1]);
      if two.Done? { assert Semop(one.sems, one.adj, ops[1..]) == Semop(two.sems, two.adj, []); }
    }
  }

  /** Exactly when mutex_wrlock succeeds, and what it leaves. */
  lemma WrLockOutcome(sems: Three, adj: Three, undo: bool)
    requires sems.s0 <= SEMVMX && sems.s1 < SEMVMX
    ensures var r := Semop(sems, adj, WrLockOps(undo));
      && (r.Done? <==> (1 <= sems.s0 && sems.s2 == 0))
      && (r.Done? ==> r == Done(Three(sems.s0 - 1, sems.s1 + 1, sems.s2),
                                if undo then Three(adj.s0 + 1, adj.s1 - 1, adj.s2) else adj))
  {
    var ops := WrLockOps(undo);
    assert ops[1..] == [SemOp(1, 1, undo), SemOp(2, 0, false)];
    assert ops[1..][1..] == [SemOp(2, 0, false)] && ops[1..][1..][1..] == [];
    var one := SemopOne(sems, adj, ops[0]);
    if one.Done? {
      assert Semop(sems, adj, ops) == Semop(one.sems, one.adj, ops[1..]);
      var two := SemopOne(one.sems, one.adj, ops[1]);
      assert two.Done?;
      assert Semop(one.sems, one.adj, ops[1..]) == Semop(two.sems, two.adj, ops[1..][1..]);
      var three := SemopOne(two.sems, two.adj, ops[2]);
      if three.Done? { assert Semop(two.sems, two.adj, ops[1..][1..]) == Semop(three.sems, three.adj, []); }
    }
  }

  lemma RdReleaseOutcome(sems: Three, adj: Three, undo: bool)
    requires 1 <= sems.s2 <= SEMVMX
    ensures Semop(sems, adj, ReleaseOps(Reader, undo))
         == Done(sems.(s2 := sems.s2 - 1), if undo then adj.(s2 := adj.s2 + 1) else adj)
  {
  }

  lemma WrReleaseOutcome(sems: Three, adj: Three, undo: bool)
    requires 0 <= sems.s0 < SEMVMX && 1 <= sems.s1 <= SEMVMX
    ensures Semop(sems, adj, ReleaseOps(Writer, undo))
         == Done(Three(sems.s0 + 1, sems.s1 - 1, sems.s2),
                 if undo then Three(adj.s0 - 1, adj.s1 + 1, adj.s2) else adj)
  {
    var ops := ReleaseOps(Writer, undo);
    assert ops[1..] == [SemOp(1, -1, undo)] && ops[1..][1..] == [];
    var one := SemopOne(sems, adj, ops[0]);
    assert Semop(sems, adj, ops) == Semop(one.sems, one.adj, ops[1..]);
    var two := SemopOne(one.sems, one.adj, ops[1]);
    assert Semop(one.sems, one.adj, ops[1..]) == Semop(two.sems, two.adj, []);
  }

  /** A holder's snapshot always identifies the lock it holds. */
  lemma SnapshotIdentifies(s: State, p: nat)
    requires Counts(s) && p in s.procs && !s.procs[p].held.Nothing?
    ensures Guess(s.sems) == s.procs[p].held
  {
    MoveBoth(s.procs, p, s.procs[p]);
  }

  /** The release of a process that is past its snapshot succeeds: never EAGAIN, and the
      lock it gives back is its own. */
  lemma ReleaseSucceeds(s: State, p: nat)
    requires Inv(s) && p in s.procs && s.procs[p].phase.Unlocking?
    ensures var q := s.procs[p];
      && Guess(q.phase.snap) == q.held
      && Semop(s.sems, q.adj, ReleaseOps(q.held, q.undo))
         == Done(if q.held.Reader? then s.sems.(s2 := s.sems.s2 - 1) else CREATED, NO_ADJ)
  {
    var q := s.procs[p];
    MoveBoth(s.procs, p, q);
    if q.held.Reader? {
      RdReleaseOutcome(s.sems, q.adj, q.undo);
    } else {
      WrReleaseOutcome(s.sems, q.adj, q.undo);
    }
  }

  lemma RdLockKeepsInv(s: State, p: nat, undo: bool)
    requires Inv(s)
    ensures Inv(Step(s, RdLock(p, undo)))
  {
    if p in s.procs && s.procs[p].phase.Running? && s.procs[p].held.Nothing? {
      RdLockOutcome(s.sems, s.procs[p].adj, undo);
      MoveBoth(s.procs, p, Process(Reader, Running, undo, AdjFor(Reader, undo)));
    }
  }

  lemma WrLockKeepsInv(s: State, p: nat, undo: bool)
    requires Inv(s)
    ensures Inv(Step(s, WrLock(p, undo)))
  {
    if p in s.procs && s.procs[p].phase.Running? && s.procs[p].held.Nothing? {
      WrLockOutcome(s.sems, s.procs[p].adj, undo);
      MoveBoth(s.procs, p, Process(Writer, Running, undo, AdjFor(Writer, undo)));
    }
  }

  lemma SnapshotKeepsInv(s: State, p: nat)
    requires Inv(s)
    ensures Inv(Step(s, Snapshot(p)))
  {
    if p in s.procs && s.procs[p].phase.Running? && !s.procs[p].held.Nothing? {
      SnapshotIdentifies(s, p);
      MoveBoth(s.procs, p, s.procs[p].(phase := Unlocking(s.sems)));
    }
  }

  lemma ReleaseKeepsInv(s: State, p: nat)
    requires Inv(s)
    ensures Inv(Step(s, Release(p)))
  {
    if p in s.procs && s.procs[p].phase.Unlocking? {
      ReleaseSucceeds(s, p);
      MoveBoth(s.procs, p, Process(Nothing, Running, s.procs[p].undo, NO_ADJ));
    }
  }

  lemma DieKeepsInv(s: State, p: nat)
    requires Inv(s)
    ensures Inv(Step(s, Die(p)))
  {
    if p in s.procs && !s.procs[p].phase.Gone? {
      var q := s.procs[p];
      DieKeepsCounts(s, p, q, Process(if q.undo then Nothing else q.held, Gone, q.undo, NO_ADJ));
    }
  }

  lemma DieKeepsCounts(s: State, p: nat, q: Process, r: Process)
    requires Counts(s) && p in s.procs && s.procs[p] == q && q.adj == AdjFor(q.held, q.undo)
    requires r.held == if q.undo then Nothing else q.held
    ensures Counts(State(UndoOnExit(s.sems, q.adj), s.procs[p := r]))
  {
    MoveBoth(s.procs, p, r);
    UndoGivesBack(s.sems, |Holders(s.procs, Writer)|, |Holders(s.procs, Reader)|, q.held, q.undo);
  }

  /** The adjustments of a process give back what it holds. */
  lemma UndoGivesBack(sems: Three, w: nat, r: nat, h: Held, undo: bool)
    requires sems == Three(1 - w, w, r) && w <= 1 && r <= SEMVMX && (h.Writer? ==> w == 1) && (h.Reader? ==> r > 0)
    ensures UndoOnExit(sems, AdjFor(h, undo)) ==
      if undo && h.Writer? then Three(2 - w, w - 1, r) else if undo && h.Reader? then Three(1 - w, w, r - 1) else sems
  {
  }

  lemma StepKeepsInv(s: State, e: Event)
    requires Inv(s)
    ensures Inv(Step(s, e))
  {
    match e
    case RdLock(p, undo) => RdLockKeepsInv(s, p, undo);
    case WrLock(p, undo) => WrLockKeepsInv(s, p, undo);
    case Snapshot(p) => SnapshotKeepsInv(s, p);
    case Release(p) => ReleaseKeepsInv(s, p);
    case Die(p) => DieKeepsInv(s, p);
  }

  lemma {:induction false} RunKeepsInv(s: State, events: seq<Event>)
    requires Initial(s)
    ensures Inv(Run(s, events))
    decreases |events|
  {
    if events == [] {
      assert Holders(s.procs, Writer) == {} && Holders(s.procs, Reader) == {};
    } else {
      RunKeepsInv(s, events[..|events| - 1]);
      StepKeepsInv(Run(s, events[..|events| - 1]), events[|events| - 1]);
    }
  }

  lemma {:induction false} RunKeepsProcesses(s: State, events: seq<Event>)
    ensures Run(s, events).procs.Keys == s.procs.Keys
    decreases |events|
  {
    if events != [] {
      RunKeepsProcesses(s, events[..|events| - 1]);
    }
  }

  lemma WriterIsAlone(t: State, p: nat, q: nat)
    requires Counts(t) && p in t.procs && q in t.procs && p != q && t.procs[p].held.Writer?
    ensures t.procs[q].held.Nothing?
  {
    MoveHolder(t.procs, q, t.procs[q], Reader);
    var w := Holders(t.procs, Writer);
    assert p in w && |w - {p}| == |w| - 1;
    assert q !in w - {p};
  }

  // --- main results ---

  /** Safety over every interleaving: a writer is alone, and the semaphores are exactly
      (1 - writers, writers, readers). */
  lemma MutualExclusion(s: State, events: seq<Event>)
    requires Initial(s)
    ensures var t := Run(s, events);
      && t.sems == Three(1 - |Holders(t.procs, Writer)|, |Holders(t.procs, Writer)|, |Holders(t.procs, Reader)|)
      && forall p, q :: p in t.procs && q in t.procs && p != q && t.procs[p].held.Writer? ==> t.procs[q].held.Nothing?
  {
    RunKeepsInv(s, events);
    var t := Run(s, events);
    forall p, q | p in t.procs && q in t.procs && p != q && t.procs[p].held.Writer?
      ensures t.procs[q].held.Nothing?
    {
      WriterIsAlone(t, p, q);
    }
  }

  /** In every reachable state the two halves of mutex_unlock act on the caller's own lock:
      the snapshot names it, and a release already under way succeeds whatever the other
      processes did since the snapshot was taken. */
  lemma UnlockReleasesOwnLock(s: State, events: seq<Event>, p: nat)
    requires Initial(s) && p in s.procs
    ensures var t := Run(s, events);
      && p in t.procs
      && var q := t.procs[p];
         && (q.phase.Running? && !q.held.Nothing? ==>
               (Guess(t.sems) == q.held && Step(t, Snapshot(p)).procs[p] == q.(phase := Unlocking(t.sems))))
         && (q.phase.Unlocking? ==>
               (&& Guess(q.phase.snap) == q.held
                && Semop(t.sems, q.adj, ReleaseOps(Guess(q.phase.snap), q.undo)).Done?
                && |Holders(Step(t, Release(p)).procs, q.held)| == |Holders(t.procs, q.held)| - 1
                && OthersStay(t, Step(t, Release(p)), p)
                && Step(t, Release(p)).procs[p] == Process(Nothing, Running, q.undo, NO_ADJ)))
  {
    RunKeepsInv(s, events);
    RunKeepsProcesses(s, events);
    var t := Run(s, events);
    var q := t.procs[p];
    if q.phase.Running? && !q.held.Nothing? {
      SnapshotIdentifies(t, p);
    } else if q.phase.Unlocking? {
      ReleaseSucceeds(t, p);
      MoveBoth(t.procs, p, Process(Nothing, Running, q.undo, NO_ADJ));
    }
  }

  ghost predicate Free(t: State) {
    forall p :: p in t.procs ==> t.procs[p].held.Nothing?
  }

  ghost predicate NoWriter(t: State) {
    forall p :: p in t.procs ==> !t.procs[p].held.Writer?
  }

  /** mutex_islocked is exact in every reachable state, and so are the lock calls: a writer gets
      in exactly when nobody holds anything, a reader exactly when no writer holds (and the
      reader count has room). */
  lemma LockStateIsExact(s: State, events: seq<Event>, undo: bool)
    requires Initial(s)
    ensures var t := Run(s, events);
      && (IsLocked(t.sems) <==> !Free(t))
      && (t.sems == CREATED <==> Free(t))
      && (Semop(t.sems, NO_ADJ, WrLockOps(undo)).Done? <==> Free(t))
      && (Semop(t.sems, NO_ADJ, RdLockOps(undo)).Done? <==> (NoWriter(t) && |Holders(t.procs, Reader)| < SEMVMX))
  {
    RunKeepsInv(s, events);
    var t := Run(s, events);
    RdLockOutcome(t.sems, NO_ADJ, undo);
    WrLockOutcome(t.sems, NO_ADJ, undo);
    HoldersDecide(t);
  }

  /** A process that holds nothing and is not unlocking. */
  predicate Idle(t: State, p: nat) {
    p in t.procs && t.procs[p].phase.Running? && t.procs[p].held.Nothing?
  }

  /** Only the process that acts changes. */
  ghost predicate OthersStay(t: State, t': State, p: nat) {
    t'.procs.Keys == t.procs.Keys && forall q :: q in t.procs && q != p ==> t'.procs[q] == t.procs[q]
  }

  /** Who is let in, in every reachable state: a process that calls mutex_rdlock becomes a reader
      exactly when no writer holds the lock (and the reader count has room), one that calls
      mutex_wrlock becomes the writer exactly when nobody holds it. If it is refused nothing changes. */
  lemma LockAdmits(s: State, events: seq<Event>, p: nat, undo: bool)
    requires Initial(s) && Idle(Run(s, events), p)
    ensures var t := Run(s, events); var t' := Step(t, RdLock(p, undo));
      && p in t'.procs && OthersStay(t, t', p)
      && (t'.procs[p].held.Reader? <==> NoWriter(t) && |Holders(t.procs, Reader)| < SEMVMX)
      && (!t'.procs[p].held.Reader? ==> t' == t)
    ensures var t := Run(s, events); var t' := Step(t, WrLock(p, undo));
      && p in t'.procs && OthersStay(t, t', p)
      && (t'.procs[p].held.Writer? <==> Free(t))
      && (!t'.procs[p].held.Writer? ==> t' == t)
  {
    RunKeepsInv(s, events);
    RdLockAdmits(Run(s, events), p, undo);
    WrLockAdmits(Run(s, events), p, undo);
  }

  lemma RdLockAdmits(t: State, p: nat, undo: bool)
    requires Counts(t) && Idle(t, p)
    ensures var t' := Step(t, RdLock(p, undo));
      && p in t'.procs && OthersStay(t, t', p)
      && (t'.procs[p].held.Reader? <==> NoWriter(t) && |Holders(t.procs, Reader)| < SEMVMX)
      && (!t'.procs[p].held.Reader? ==> t' == t)
  {
    RdLockOutcome(t.sems, t.procs[p].adj, undo);
    HoldersDecide(t);
  }

  lemma WrLockAdmits(t: State, p: nat, undo: bool)
    requires Counts(t) && Idle(t, p)
    ensures var t' := Step(t, WrLock(p, undo));
      && p in t'.procs && OthersStay(t, t', p)
      && (t'.procs[p].held.Writer? <==> Free(t))
      && (!t'.procs[p].held.Writer? ==> t' == t)
  {
    WrLockOutcome(t.sems, t.procs[p].adj, undo);
    HoldersDecide(t);
  }

  /** mutex_rdlock by processes 0 to n - 1, one after the other. */
  function RdLocks(n: nat, undo: bool): seq<Event> {
    if n == 0 then [] else RdLocks(n - 1, undo) + [RdLock(n - 1, undo)]
  }

  /** So readers share: on a fresh lock all of them are let in. */
  lemma {:induction false} ReadersShare(s: State, n: nat, undo: bool)
    requires Initial(s) && n <= SEMVMX && forall p: nat :: p < n ==> p in s.procs
    ensures var t := Run(s, RdLocks(n, undo));
      && t.sems == Three(1, 0, n) && t.procs.Keys == s.procs.Keys
      && forall p :: p in s.procs ==> t.procs[p].held == (if p < n then Reader else Nothing) && t.procs[p].phase.Running?
  {
    if n > 0 {
      ReadersShare(s, n - 1, undo);
      LastEvent(s, RdLocks(n - 1, undo), RdLock(n - 1, undo));
      ReaderEnters(Run(s, RdLocks(n - 1, undo)), n - 1, n - 1, undo);
    }
  }

  lemma LastEvent(s: State, events: seq<Event>, e: Event)
    ensures Run(s, events + [e]) == Step(Run(s, events), e)
  {
    assert (events + [e])[..|events|] == events;
  }

  lemma ReaderEnters(t: State, p: nat, readers: nat, undo: bool)
    requires Idle(t, p) && t.sems == Three(1, 0, readers) && readers < SEMVMX
    ensures var t' := Step(t, RdLock(p, undo));
      t'.sems == Three(1, 0, readers + 1) && OthersStay(t, t', p) && t'.procs[p].held.Reader? && t'.procs[p].phase.Running?
  {
    RdLockOutcome(t.sems, t.procs[p].adj, undo);
  }

  lemma HoldersDecide(t: State)
    ensures NoWriter(t) <==> |Holders(t.procs, Writer)| == 0
    ensures Free(t) <==> (|Holders(t.procs, Writer)| == 0 && |Holders(t.procs, Reader)| == 0)
  {
    var w, r := Holders(t.procs, Writer), Holders(t.procs, Reader);
    if |w| == 0 && |r| == 0 {
      forall p | p in t.procs ensures t.procs[p].held.Nothing? {
        assert p !in w && p !in r;
      }
    }
    if w != {} { var p :| p in w; assert p in t.procs; }
    if r != {} { var p :| p in r; assert p in t.procs; }
    forall p | p in t.procs && t.procs[p].held.Writer? ensures |w| != 0 { assert p in w; }
  }

  /** SEM_UNDO makes death as good as unlocking: a process that dies with SEM_UNDO, in any
      reachable state and even between its snapshot and its release, gives back its own lock
      and no other. */
  lemma DeathReleasesOwnLock(s: State, events: seq<Event>, p: nat)
    requires Initial(s) && p in Run(s, events).procs
    ensures var t := Run(s, events); var q := t.procs[p]; var t' := Step(t, Die(p));
      q.undo && !q.phase.Gone? ==>
        (&& t'.procs[p].held.Nothing? && OthersStay(t, t', p)
         && t'.sems == match q.held
                       case Nothing => t.sems
                       case Reader => t.sems.(s2 := t.sems.s2 - 1)
                       case Writer => CREATED)
  {
    RunKeepsInv(s, events);
    var t := Run(s, events);
    MoveBoth(t.procs, p, t.procs[p]);
  }

  /** Without SEM_UNDO a process that dies keeps its lock for ever: the semaphores stay, and so does what
      it holds, whatever it does afterwards. */
  lemma DeathKeepsLockWithoutUndo(s: State, events: seq<Event>, p: nat, e: Event)
    requires Initial(s) && p in Run(s, events).procs && !Run(s, events).procs[p].undo
    ensures var t := Run(s, events); var t' := Step(t, Die(p));
      && t'.sems == t.sems && t'.procs[p].held == t.procs[p].held && t'.procs[p].phase.Gone? && OthersStay(t, t', p)
      && (e.p == p ==> Step(t', e) == t')
  {
    RunKeepsInv(s, events);
    var t := Run(s, events);
    MoveBoth(t.procs, p, t.procs[p]);
  }

  /** The number of locks held. */
  ghost function HolderCount(t: State): nat {
    |Holders(t.procs, Writer)| + |Holders(t.procs, Reader)|
  }

  /** mutex_unlock called by a process that holds nothing: it takes its snapshot of `seen` and releases
      what it guesses when the semaphores are `sems`. */
  function StrayUnlock(seen: Three, sems: Three, undo: bool): OpResult {
    Semop(sems, NO_ADJ, ReleaseOps(Guess(seen), undo))
  }

  /** What a release guessed as g leaves of semaphores that count the holders: it succeeds exactly if
      there is a lock of that kind, and takes it away. */
  lemma GuessedRelease(sems: Three, w: nat, r: nat, g: Held, undo: bool)
    requires sems == Three(1 - w, w, r) && w <= 1 && (w == 1 ==> r == 0) && r <= SEMVMX && !g.Nothing?
    ensures var out := Semop(sems, NO_ADJ, ReleaseOps(g, undo));
      && (if (if g.Reader? then r else w) > 0 then out.Done? else out.WouldBlock?)
      && (out.Done? ==> out.sems == if g.Reader? then sems.(s2 := r - 1) else CREATED)
  {
    var ops := ReleaseOps(g, undo);
    if g.Reader? {
      if r > 0 { RdReleaseOutcome(sems, NO_ADJ, undo); }
    } else if w > 0 {
      WrReleaseOutcome(sems, NO_ADJ, undo);
    } else {
      var one := SemopOne(sems, NO_ADJ, ops[0]);
      assert Semop(sems, NO_ADJ, ops) == Semop(one.sems, one.adj, ops[1..]);
    }
  }

  /** Who gets in after it. */
  lemma AdmittedAfter(sems: Three, w: nat, r: nat, g: Held, undo: bool)
    requires sems == Three(1 - w, w, r) && w <= 1 && (w == 1 ==> r == 0) && r <= SEMVMX && !g.Nothing?
    requires (if g.Reader? then r else w) > 0
    ensures var out := Semop(sems, NO_ADJ, ReleaseOps(g, undo));
      && out.Done? && out.sems != sems && Semop(out.sems, NO_ADJ, RdLockOps(undo)).Done?
      && (Semop(out.sems, NO_ADJ, WrLockOps(undo)).Done? <==> w + r == 1)
  {
    GuessedRelease(sems, w, r, g, undo);
    var out := Semop(sems, NO_ADJ, ReleaseOps(g, undo));
    WrLockOutcome(out.sems, NO_ADJ, undo);
    RdLockOutcome(out.sems, NO_ADJ, undo);
  }

  /** A stray unlock whose snapshot is taken after some run and whose release comes later: it sees nothing to
      release exactly when nobody holds the lock at the snapshot. Otherwise it gives a lock away exactly
      when at the release somebody holds one of the kind it saw, and meets EAGAIN if not. After it
      gave one away, a writer gets in exactly if that was the only lock held, beside the process it
      belongs to; a reader always gets in, also beside a writer. */
  lemma StrayUnlockDecided(s: State, before: seq<Event>, after: seq<Event>, undo: bool)
    requires Initial(s)
    ensures var t1, t2 := Run(s, before), Run(s, before + after);
      var g, r := Guess(t1.sems), StrayUnlock(t1.sems, t2.sems, undo);
      && (g.Nothing? <==> Free(t1))
      && (g.Nothing? ==> r == Done(t2.sems, NO_ADJ))
      && (!g.Nothing? ==> if |Holders(t2.procs, g)| > 0 then r.Done? else r.WouldBlock?)
      && (!g.Nothing? && r.Done? ==>
            && r.sems != t2.sems && Semop(r.sems, NO_ADJ, RdLockOps(undo)).Done?
            && (Semop(r.sems, NO_ADJ, WrLockOps(undo)).Done? <==> HolderCount(t2) == 1))
  {
    RunKeepsInv(s, before);
    RunKeepsInv(s, before + after);
    var t1, t2 := Run(s, before), Run(s, before + after);
    var g := Guess(t1.sems);
    HoldersDecide(t1);
    if !g.Nothing? {
      var w, n := |Holders(t2.procs, Writer)|, |Holders(t2.procs, Reader)|;
      GuessedRelease(t2.sems, w, n, g, undo);
      if (if g.Reader? then n else w) > 0 { AdmittedAfter(t2.sems, w, n, g, undo); }
    }
  }

  /** In particular, with nothing in between, a stray unlock always succeeds and changes the semaphores
      exactly when somebody holds the lock; a writer gets in after it exactly if at most one process did. */
  lemma StrayUnlockHarms(s: State, events: seq<Event>, undo: bool)
    requires Initial(s)
    ensures var t := Run(s, events); var r := StrayUnlock(t.sems, t.sems, undo);
      && r.Done? && (r.sems == t.sems <==> Free(t))
      && (Semop(r.sems, NO_ADJ, WrLockOps(undo)).Done? <==> HolderCount(t) <= 1)
      && Semop(r.sems, NO_ADJ, RdLockOps(undo)).Done?
      && (HolderCount(t) == 0 <==> Free(t))
  {
    RunKeepsInv(s, events);
    assert events + [] == events;
    StrayUnlockDecided(s, events, [], undo);
    var t := Run(s, events);
    HoldersDecide(t);
    WrLockOutcome(t.sems, NO_ADJ, undo);
    RdLockOutcome(t.sems, NO_ADJ, undo);
  }

  lemma RunOfFour(s: State, a: Event, b: Event, c: Event, d: Event)
    ensures Run(s, [a]) == Step(s, a) && Run(s, [a] + [b, c, d]) == Step(Step(Step(Step(s, a), b), c), d)
  {
    var es := [a] + [b, c, d];
    assert es[..3] == [a, b, c] && es[..3][..2] == [a, b] && [a, b][..1] == [a] && [a][..0] == [];
    assert Run(s, [a]) == Step(Run(s, []), a);
    assert Run(s, [a, b]) == Step(Run(s, [a]), b);
    assert Run(s, [a, b, c]) == Step(Run(s, [a, b]), c);
  }

  lemma FirstReads(s: State, p: nat, undo: bool, q: Process)
    requires Initial(s) && p in s.procs && q == Process(Reader, Running, undo, AdjFor(Reader, undo))
    ensures Step(s, RdLock(p, undo)) == State(Three(1, 0, 1), s.procs[p := q])
  {
    RdLockOutcome(s.sems, NO_ADJ, undo);
  }

  lemma WriterEnters(t: State, w: nat, undo: bool)
    requires Idle(t, w) && t.sems == CREATED && t.procs[w].adj == NO_ADJ
    ensures var t' := Step(t, WrLock(w, undo)); t'.sems == Three(0, 1, 0) && w in t'.procs && t'.procs[w].held.Writer?
  {
    WrLockOutcome(t.sems, NO_ADJ, undo);
  }

  lemma OnlyReaderLeaves(t: State, p: nat, undo: bool, q: Process)
    requires p in t.procs && t.procs[p] == q == Process(Reader, Running, undo, AdjFor(Reader, undo)) && t.sems == Three(1, 0, 1)
    ensures Step(Step(t, Snapshot(p)), Release(p)) == State(CREATED, t.procs[p := Process(Nothing, Running, undo, NO_ADJ)])
  {
    var r := q.(phase := Unlocking(t.sems));
    assert Step(t, Snapshot(p)) == State(t.sems, t.procs[p := r]);
    RdReleaseOutcome(t.sems, r.adj, undo);
    assert t.procs[p := r][p := Process(Nothing, Running, undo, NO_ADJ)] == t.procs[p := Process(Nothing, Running, undo, NO_ADJ)];
  }

  /** At an input: the snapshot sees reader p, p leaves, writer w enters, and the release meets
      EAGAIN. Nothing changes although the lock is held. */
  lemma StaleStrayUnlockBlocks(s: State, p: nat, w: nat, undo: bool)
    requires Initial(s) && p in s.procs && w in s.procs && p != w
    ensures var before, after := [RdLock(p, undo)], [Snapshot(p), Release(p), WrLock(w, undo)];
      var t1, t2 := Run(s, before), Run(s, before + after);
      && Guess(t1.sems).Reader? && w in t2.procs && t2.procs[w].held.Writer?
      && StrayUnlock(t1.sems, t2.sems, undo).WouldBlock?
  {
    RunOfFour(s, RdLock(p, undo), Snapshot(p), Release(p), WrLock(w, undo));
    var q, left := Process(Reader, Running, undo, AdjFor(Reader, undo)), Process(Nothing, Running, undo, NO_ADJ);
    var t1 := State(Three(1, 0, 1), s.procs[p := q]);
    FirstReads(s, p, undo, q);
    OnlyReaderLeaves(t1, p, undo, q);
    WriterEnters(State(CREATED, t1.procs[p := left]), w, undo);
    GuessedRelease(Three(0, 1, 0), 1, 0, Reader, undo);
  }

  /** At an input: mutex_unlock called by a process that holds nothing, while p is the first to read,
      gives p's lock away, and a writer is then let in beside p. */
  lemma StrayUnlockAdmitsWriter(s: State, p: nat, undo: bool)
    requires Initial(s) && p in s.procs
    ensures var t := Step(s, RdLock(p, undo));
      && t.procs[p].held.Reader?
      && var stray := StrayUnlock(t.sems, t.sems, undo);
         stray.Done? && Semop(stray.sems, NO_ADJ, WrLockOps(undo)).Done?
  {
    RdLockOutcome(s.sems, s.procs[p].adj, undo);
    RdReleaseOutcome(Three(1, 0, 1), NO_ADJ, undo);
    WrLockOutcome(CREATED, NO_ADJ, undo);
  }
}
