/** Merging one configuration tree into another: insert_list_into_list of
    ext/frlib/lib/base/config.c. Every entry of the source goes below a directory of the
    destination; directories that are there already are shared, new ones get new numbers. */
module ConfigMerge {
  import opened Basics
  import opened ConfigNames
  import opened ConfigList
  import opened ConfigTree

  /** What does not change: the old destination and its largest number, the source, and the
      directory the source goes to. */
  datatype Plan = Plan(dest: Store, max: int, src: Store, father: int)

  /** What does: the source places handled, the number each source directory got, the destination,
      and the next new number. */
  datatype State = State(done: set<Place>, nums: map<int, int>, store: Store, next: int)

  /** No path is a value in one tree and a directory in the other. */
  ghost predicate NoConflict(c: Plan) {
    && (forall path :: Resolve(c.src, 0, path).Some? ==> DirAt(c.dest, c.father, path) == None)
    && (forall path :: DirAt(c.src, 0, path).Some? ==> Resolve(c.dest, c.father, path) == None)
  }

  ghost predicate Sound(c: Plan) {
    && Tree(c.dest, c.max) && 0 <= c.father <= c.max && IsDirNum(c.dest, c.father)
    && (exists max :: Tree(c.src, max)) && NoConflict(c)
  }

  function Target(nums: map<int, int>, p: Place): Place
    requires p.father in nums
  {
    Place(nums[p.father], p.seg)
  }

  function NumOf(s: Slot): int {
    if s.body.Num? then s.body.n else 0
  }

  /** One turn of the inner loop. */
  function Step(c: Plan, st: State, p: Place): State
    requires p in c.src && p.father in st.nums
  {
    var t, s := Target(st.nums, p), c.src[p];
    if s.isDir then
      if t in st.store then st.(done := st.done + {p}, nums := st.nums[NumOf(s) := NumOf(st.store[t])])
      else
        State(st.done + {p}, st.nums[NumOf(s) := st.next], Stored(st.store, t, true, Num(st.next)), st.next + 1)
    else
      st.(done := st.done + {p}, store := Stored(st.store, t, false, s.body))
  }

  // --- What every turn keeps ---

  ghost predicate IsTarget(st: State, k: Place) {
    exists p :: p in st.done && p.father in st.nums && Target(st.nums, p) == k
  }

  /** Numbers are given to the root and to the directories handled, and to no two the same. */
  ghost predicate NumsFor(c: Plan, st: State) {
    && 0 in st.nums && st.nums[0] == c.father
    && (forall n :: n in st.nums && n != 0 ==> exists p :: p in st.done && p in c.src && c.src[p] == DirSlot(n))
    && forall a, b :: a in st.nums && b in st.nums && st.nums[a] == st.nums[b] ==> a == b
  }

  ghost predicate NumsAbove(c: Plan, st: State) {
    forall n :: n in st.nums ==> c.father <= st.nums[n] < st.next && (n != 0 ==> c.father < st.nums[n])
  }

  /** A source place that has been handled is in the destination. */
  ghost predicate CopiedAt(c: Plan, st: State, p: Place)
    requires p in c.src && p.father in st.nums
  {
    var t, s := Target(st.nums, p), c.src[p];
    && t in st.store
    && if s.isDir then
         var n := NumOf(s);
         n in st.nums && st.store[t] == DirSlot(st.nums[n]) && (t in c.dest <==> st.nums[n] <= c.max)
       else st.store[t] == s
  }

  ghost predicate Copied(c: Plan, st: State) {
    forall p :: p in st.done ==> p in c.src && p.father in st.nums && CopiedAt(c, st, p)
  }

  /** What was in the destination is there unchanged, unless it is a value that was replaced. */
  ghost predicate Kept(c: Plan, st: State) {
    forall k :: k in c.dest ==> k in st.store && (st.store[k] == c.dest[k] || (!c.dest[k].isDir && IsTarget(st, k)))
  }

  ghost predicate NothingElse(c: Plan, st: State) {
    forall k :: k in st.store && k !in c.dest ==> IsTarget(st, k)
  }

  /** A source directory that got an old number has the same path as the old directory. */
  ghost predicate SamePath(c: Plan, n: int, d: int) {
    exists x :: DirAt(c.src, 0, x) == Some(n) && DirAt(c.dest, c.father, x) == Some(d)
  }

  ghost predicate OldNumsMatch(c: Plan, st: State) {
    forall n :: n in st.nums && st.nums[n] <= c.max ==> SamePath(c, n, st.nums[n])
  }

  /** New numbers are used up one by one. */
  ghost predicate NextFor(c: Plan, st: State) {
    && c.max < st.next <= c.max + |st.nums|
    && (st.next > c.max + 1 ==> exists n :: n in st.nums && st.nums[n] > c.max)
  }

  ghost predicate Inv(c: Plan, st: State) {
    && NumsFor(c, st) && NumsAbove(c, st) && Copied(c, st) && Kept(c, st) && NothingElse(c, st)
    && OldNumsMatch(c, st) && NextFor(c, st) && Tree(st.store, st.next - 1)
  }

  function Start(c: Plan): State {
    State({}, map[0 := c.father], c.dest, c.max + 1)
  }

  lemma StartInv(c: Plan, st: State)
    requires Sound(c) && st == Start(c)
    ensures Inv(c, st)
  {
    assert DirAt(c.src, 0, []) == Some(0) && DirAt(c.dest, c.father, []) == Some(c.father);
    assert SamePath(c, 0, c.father);
  }

  // --- The place a source entry goes to ---

  /** Different source places go to different places. */
  lemma TargetsDiffer(c: Plan, st: State, p: Place)
    requires NumsFor(c, st) && p.father in st.nums && p !in st.done
    ensures !IsTarget(st, Target(st.nums, p))
  {
  }

  /** No clash at the end of one path. */
  lemma NoClash(c: Plan, x: Path, s: Seg, i: int, d: int)
    requires Sound(c) && DirAt(c.src, 0, x) == Some(i) && DirAt(c.dest, c.father, x) == Some(d)
    requires Place(i, s) in c.src && Place(d, s) in c.dest
    ensures c.src[Place(i, s)].isDir == c.dest[Place(d, s)].isDir
  {
    DirAtSnoc(c.src, 0, x, s);
    DirAtSnoc(c.dest, c.father, x, s);
    assert Proper(c.src[Place(i, s)]) && Proper(c.dest[Place(d, s)]);
    assert Resolve(c.src, 0, x + [s]).Some? ==> DirAt(c.dest, c.father, x + [s]) == None;
    assert DirAt(c.src, 0, x + [s]).Some? ==> Resolve(c.dest, c.father, x + [s]) == None;
  }

  /** For an entry not yet handled, the destination has at its place what it had from the start,
      and that is of the same kind. */
  lemma TargetIsOld(c: Plan, st: State, p: Place)
    requires Sound(c) && Inv(c, st) && p in c.src && p.father in st.nums && p !in st.done
    ensures var t := Target(st.nums, p);
      && (t in st.store <==> t in c.dest)
      && (t in c.dest ==> st.store[t] == c.dest[t] && c.dest[t].isDir == c.src[p].isDir)
  {
    var t := Target(st.nums, p);
    TargetsDiffer(c, st, p);
    if t in c.dest {
      assert st.nums[p.father] <= c.max by { assert Rooted(c.dest, c.max); }
      assert SamePath(c, p.father, st.nums[p.father]);
      var x :| DirAt(c.src, 0, x) == Some(p.father) && DirAt(c.dest, c.father, x) == Some(st.nums[p.father]);
      NoClash(c, x, p.seg, p.father, st.nums[p.father]);
    }
  }

  /** Under one name, directory n of the source and directory d of the destination have indices of
      one kind. */
  ghost predicate AgreeIn(c: Plan, n: int, d: int) {
    forall s, t :: Place(n, s) in c.src && Place(d, t) in c.dest && s.name == t.name ==> SameKind(s.idx, t.idx)
  }

  /** The trees agree in the kinds of their indices: each in itself, and both in common directories. */
  ghost predicate KindsAgree(c: Plan) {
    && Uniform(c.src) && Uniform(c.dest)
    && forall x :: DirAt(c.src, 0, x).Some? && DirAt(c.dest, c.father, x).Some? ==>
      AgreeIn(c, DirAt(c.src, 0, x).value, DirAt(c.dest, c.father, x).value)
  }

  /** Then every source entry fits where it goes. */
  lemma TargetFits(c: Plan, st: State, p: Place)
    requires Sound(c) && KindsAgree(c) && Inv(c, st) && p in c.src && p.father in st.nums
    ensures KindFits(st.store, Target(st.nums, p))
  {
    var t := Target(st.nums, p);
    assert KindFits(c.src, p);
    forall q | q in st.store && q.father == t.father && q.seg.name == t.seg.name ensures SameKind(q.seg.idx, t.seg.idx) {
      if q in c.dest { OldFits(c, st, p, q); }
    }
  }

  lemma OldFits(c: Plan, st: State, p: Place, q: Place)
    requires Sound(c) && KindsAgree(c) && OldNumsMatch(c, st) && p in c.src && p.father in st.nums
    requires q in c.dest && q.father == st.nums[p.father] && q.seg.name == p.seg.name
    ensures SameKind(q.seg.idx, p.seg.idx)
  {
    assert q.father <= c.max by { assert Rooted(c.dest, c.max); }
    assert SamePath(c, p.father, q.father);
    var x :| DirAt(c.src, 0, x) == Some(p.father) && DirAt(c.dest, c.father, x) == Some(q.father);
    assert AgreeIn(c, p.father, q.father);
    assert Place(p.father, p.seg) == p && Place(q.father, q.seg) == q;
  }

  // --- A directory of the source ---

  /** The number v that directory n of the source gets: n had none, nobody has v, and v is old
      exactly if the directory was there. */
  ghost predicate NumberFits(c: Plan, st: State, p: Place, n: int, v: int)
    requires p.father in st.nums
  {
    && n != 0 && n !in st.nums && (forall a :: a in st.nums ==> st.nums[a] != v)
    && c.father <= st.nums[p.father] < v && (Target(st.nums, p) in c.dest <==> v <= c.max)
  }

  ghost predicate DirStep(c: Plan, st: State, p: Place, n: int, v: int, st': State)
    requires p.father in st.nums
  {
    var t := Target(st.nums, p);
    && st'.done == st.done + {p} && st'.nums == st.nums[n := v] && st'.store == st.store[t := DirSlot(v)]
    && (t in st.store ==> st.store[t] == DirSlot(v) && st'.next == st.next)
    && (t !in st.store ==> v == st.next && st'.next == st.next + 1)
  }

  lemma NotNumbered(c: Plan, st: State, p: Place, n: int)
    requires NumsFor(c, st) && p in c.src && c.src[p] == DirSlot(n) && p !in st.done && Unique(c.src) && n != 0
    ensures n !in st.nums
  {
  }

  lemma OldNumberFree(c: Plan, st: State, p: Place, v: int, a: int)
    requires Sound(c) && Inv(c, st) && p in c.src && p.father in st.nums && p !in st.done && a in st.nums
    requires Target(st.nums, p) in st.store && st.store[Target(st.nums, p)] == DirSlot(v)
    ensures st.nums[a] != v && st.nums[p.father] < v
  {
    var t := Target(st.nums, p);
    assert Growing(st.store, st.next - 1);
    if a != 0 {
      var q :| q in st.done && q in c.src && c.src[q] == DirSlot(a);
      assert CopiedAt(c, st, q);
      TargetsDiffer(c, st, p);
      assert IsTarget(st, Target(st.nums, q));
      assert Target(st.nums, q) != t;
      assert Unique(st.store);
    }
  }

  lemma NumberFound(c: Plan, st: State, p: Place, n: int, v: int)
    requires Sound(c) && Inv(c, st) && p in c.src && p.father in st.nums && p !in st.done && c.src[p] == DirSlot(n)
    requires Target(st.nums, p) in st.store && st.store[Target(st.nums, p)] == DirSlot(v)
    ensures NumberFits(c, st, p, n, v)
  {
    TargetIsOld(c, st, p);
    SourceNumber(c, p, n);
    NotNumbered(c, st, p, n);
    forall a | a in st.nums ensures st.nums[a] != v { OldNumberFree(c, st, p, v, a); }
    OldNumberFree(c, st, p, v, p.father);
    assert Growing(c.dest, c.max);
  }

  lemma SourceNumber(c: Plan, p: Place, n: int)
    requires Sound(c) && p in c.src && c.src[p] == DirSlot(n)
    ensures 0 <= p.father < n && Unique(c.src)
  {
  }

  lemma NumberNew(c: Plan, st: State, p: Place, n: int)
    requires Sound(c) && Inv(c, st) && p in c.src && p.father in st.nums && p !in st.done && c.src[p] == DirSlot(n)
    requires Target(st.nums, p) !in st.store
    ensures NumberFits(c, st, p, n, st.next)
  {
  }

  lemma DirStepNums(c: Plan, st: State, p: Place, n: int, v: int, st': State)
    requires NumsFor(c, st) && NumsAbove(c, st) && p in c.src && c.src[p] == DirSlot(n) && p.father in st.nums
    requires NumberFits(c, st, p, n, v) && DirStep(c, st, p, n, v, st') && v < st'.next
    ensures NumsFor(c, st') && NumsAbove(c, st')
  {
  }

  lemma DirStepCopied(c: Plan, st: State, p: Place, n: int, v: int, st': State)
    requires NumsFor(c, st) && Copied(c, st) && p in c.src && c.src[p] == DirSlot(n) && p.father in st.nums && p !in st.done
    requires NumberFits(c, st, p, n, v) && DirStep(c, st, p, n, v, st')
    ensures Copied(c, st')
  {
    forall q | q in st'.done ensures q in c.src && q.father in st'.nums && CopiedAt(c, st', q) {
      if q != p { CopyStays(c, st, p, n, v, st', q); }
    }
  }

  lemma CopyStays(c: Plan, st: State, p: Place, n: int, v: int, st': State, q: Place)
    requires NumsFor(c, st) && p.father in st.nums && q != p && q in c.src && q.father in st.nums && CopiedAt(c, st, q)
    requires NumberFits(c, st, p, n, v) && DirStep(c, st, p, n, v, st')
    ensures q.father in st'.nums && CopiedAt(c, st', q)
  {
    assert Target(st'.nums, q) == Target(st.nums, q) != Target(st.nums, p);
  }

  lemma DirStepKept(c: Plan, st: State, p: Place, n: int, v: int, st': State)
    requires Kept(c, st) && NothingElse(c, st) && p.father in st.nums
    requires NumberFits(c, st, p, n, v) && DirStep(c, st, p, n, v, st')
    requires Target(st.nums, p) in c.dest ==> Target(st.nums, p) in st.store && st.store[Target(st.nums, p)] == c.dest[Target(st.nums, p)]
    ensures Kept(c, st') && NothingElse(c, st')
  {
  }

  lemma DirStepMatch(c: Plan, st: State, p: Place, n: int, v: int, st': State)
    requires OldNumsMatch(c, st) && p in c.src && c.src[p] == DirSlot(n) && p.father in st.nums
    requires NumberFits(c, st, p, n, v) && DirStep(c, st, p, n, v, st') && Tree(c.dest, c.max)
    requires Target(st.nums, p) in c.dest ==> c.dest[Target(st.nums, p)] == DirSlot(v)
    ensures OldNumsMatch(c, st')
  {
    if v <= c.max {
      var i, d := p.father, st.nums[p.father];
      assert SamePath(c, i, d);
      var x :| DirAt(c.src, 0, x) == Some(i) && DirAt(c.dest, c.father, x) == Some(d);
      DirAtSnoc(c.src, 0, x, p.seg);
      DirAtSnoc(c.dest, c.father, x, p.seg);
      assert Place(i, p.seg) == p;
      assert SamePath(c, n, v);
    }
  }

  lemma DirStepNext(c: Plan, st: State, p: Place, n: int, v: int, st': State)
    requires NextFor(c, st) && p.father in st.nums && NumberFits(c, st, p, n, v) && DirStep(c, st, p, n, v, st')
    ensures NextFor(c, st')
  {
    assert st'.nums.Keys == st.nums.Keys + {n};
    assert |st'.nums| == |st.nums| + 1;
    if st'.next > c.max + 1 {
      if v == st.next {
        assert st'.nums[n] > c.max;
      } else {
        var a :| a in st.nums && st.nums[a] > c.max;
        assert st'.nums[a] > c.max;
      }
    }
  }

  /** Every number given is that of a directory. */
  lemma NumsAreDirs(c: Plan, st: State, a: int)
    requires Sound(c) && Inv(c, st) && a in st.nums
    ensures IsDirNum(st.store, st.nums[a])
  {
  }

  lemma DirStepTree(c: Plan, st: State, p: Place, n: int, v: int, st': State)
    requires Sound(c) && Inv(c, st) && p.father in st.nums && DirStep(c, st, p, n, v, st')
    ensures Tree(st'.store, st'.next - 1)
  {
    NumsAreDirs(c, st, p.father);
    TreeWithDir(st.store, st.next - 1, Target(st.nums, p), v, st'.store, st'.next - 1);
  }

  lemma TreeWithDir(m: Store, max: int, t: Place, v: int, m': Store, max': int)
    requires Tree(m, max) && IsDirNum(m, t.father) && 0 <= t.father <= max && m' == m[t := DirSlot(v)]
    requires if t in m then m[t] == DirSlot(v) && max' == max else v == max' == max + 1
    ensures Tree(m', max')
  {
    if t in m {
      assert m' == m;
    } else {
      NewDirKeepsTree(m, max, t);
    }
  }

  lemma DirStepInv(c: Plan, st: State, p: Place, n: int, v: int, st': State)
    requires Sound(c) && Inv(c, st) && p in c.src && p.father in st.nums && p !in st.done && c.src[p] == DirSlot(n)
    requires NumberFits(c, st, p, n, v) && DirStep(c, st, p, n, v, st')
    ensures Inv(c, st')
  {
    TargetIsOld(c, st, p);
    DirStepTree(c, st, p, n, v, st');
    assert v < st'.next by {
      if Target(st.nums, p) in st.store { assert Growing(st.store, st.next - 1); }
    }
    DirStepNums(c, st, p, n, v, st');
    DirStepCopied(c, st, p, n, v, st');
    DirStepKept(c, st, p, n, v, st');
    DirStepMatch(c, st, p, n, v, st');
    DirStepNext(c, st, p, n, v, st');
  }

  // --- A value of the source ---

  ghost predicate ValStep(c: Plan, st: State, p: Place, st': State)
    requires p in c.src && p.father in st.nums
  {
    && st'.done == st.done + {p} && st'.nums == st.nums && st'.next == st.next
    && st'.store == st.store[Target(st.nums, p) := c.src[p]]
  }

  lemma ValStepCopied(c: Plan, st: State, p: Place, st': State)
    requires NumsFor(c, st) && Copied(c, st) && p in c.src && !c.src[p].isDir && p.father in st.nums && p !in st.done
    requires ValStep(c, st, p, st')
    ensures Copied(c, st')
  {
  }

  lemma ValStepKept(c: Plan, st: State, p: Place, st': State)
    requires Kept(c, st) && NothingElse(c, st) && p in c.src && p.father in st.nums && ValStep(c, st, p, st')
    requires Target(st.nums, p) in c.dest ==> !c.dest[Target(st.nums, p)].isDir
    ensures Kept(c, st') && NothingElse(c, st')
  {
  }

  lemma ValStepNums(c: Plan, st: State, p: Place, st': State)
    requires p in c.src && p.father in st.nums && ValStep(c, st, p, st')
    requires NumsFor(c, st) && NumsAbove(c, st) && OldNumsMatch(c, st) && NextFor(c, st)
    ensures NumsFor(c, st') && NumsAbove(c, st') && OldNumsMatch(c, st') && NextFor(c, st')
  {
  }

  lemma TreeWithValue(m: Store, max: int, t: Place, s: Slot, m': Store)
    requires Tree(m, max) && IsDirNum(m, t.father) && 0 <= t.father <= max && m' == m[t := s]
    requires !s.isDir && s.body.Val? && (t in m ==> !m[t].isDir)
    ensures Tree(m', max)
  {
    NewValueKeepsTree(m, max, t, s.body.s);
    assert s == ValSlot(s.body.s);
  }

  lemma ValStepTree(c: Plan, st: State, p: Place, st': State)
    requires Sound(c) && Inv(c, st) && p in c.src && p.father in st.nums && ValStep(c, st, p, st')
    requires !c.src[p].isDir && c.src[p].body.Val?
    requires Target(st.nums, p) in st.store ==> !st.store[Target(st.nums, p)].isDir
    ensures Tree(st'.store, st'.next - 1)
  {
    NumsAreDirs(c, st, p.father);
    TreeWithValue(st.store, st.next - 1, Target(st.nums, p), c.src[p], st'.store);
  }

  lemma ValStepInv(c: Plan, st: State, p: Place, st': State)
    requires Sound(c) && Inv(c, st) && p in c.src && p.father in st.nums && p !in st.done
    requires !c.src[p].isDir && c.src[p].body.Val? && ValStep(c, st, p, st')
    ensures Inv(c, st')
  {
    TargetIsOld(c, st, p);
    ValStepTree(c, st, p, st');
    ValStepCopied(c, st, p, st');
    ValStepKept(c, st, p, st');
    ValStepNums(c, st, p, st');
  }

  // --- Every turn ---

  lemma AgainIsNothing(c: Plan, st: State, p: Place)
    requires p in st.done && p in c.src && p.father in st.nums && CopiedAt(c, st, p) && Proper(c.src[p])
    ensures Step(c, st, p) == st
  {
  }

  /** Every turn keeps the invariant; a directory that is found is one, and a value never goes
      over a directory. */
  lemma StepKeepsInv(c: Plan, st: State, p: Place)
    requires Sound(c) && Inv(c, st) && p in c.src && p.father in st.nums
    ensures Inv(c, Step(c, st, p))
    ensures Target(st.nums, p) in st.store ==> st.store[Target(st.nums, p)].isDir == c.src[p].isDir
  {
    if p in st.done {
      assert CopiedAt(c, st, p);
      SourceProper(c, p);
      AgainIsNothing(c, st, p);
    } else {
      TargetIsOld(c, st, p);
      if c.src[p].isDir { DirStepIs(c, st, p); } else { ValStepIs(c, st, p); }
    }
  }

  lemma SourceProper(c: Plan, p: Place)
    requires Sound(c) && p in c.src
    ensures Proper(c.src[p])
  {
  }

  lemma DirOfTree(m: Store, max: int, p: Place)
    requires Tree(m, max) && p in m && m[p].isDir
    ensures m[p] == DirSlot(NumOf(m[p]))
  {
  }

  lemma StepIsDirStep(c: Plan, st: State, p: Place, n: int, v: int)
    requires p in c.src && p.father in st.nums && c.src[p] == DirSlot(n)
    requires if Target(st.nums, p) in st.store then st.store[Target(st.nums, p)] == DirSlot(v) else v == st.next
    ensures DirStep(c, st, p, n, v, Step(c, st, p))
  {
  }

  lemma StepIsValStep(c: Plan, st: State, p: Place)
    requires p in c.src && p.father in st.nums && !c.src[p].isDir && c.src[p].body.Val?
    requires Target(st.nums, p) in st.store ==> !st.store[Target(st.nums, p)].isDir
    ensures ValStep(c, st, p, Step(c, st, p))
  {
  }

  lemma DirStepIs(c: Plan, st: State, p: Place)
    requires Sound(c) && Inv(c, st) && p in c.src && p.father in st.nums && p !in st.done && c.src[p].isDir
    requires Target(st.nums, p) in st.store ==> st.store[Target(st.nums, p)].isDir
    ensures Inv(c, Step(c, st, p))
  {
    var t, n := Target(st.nums, p), NumOf(c.src[p]);
    SourceProper(c, p);
    var v := if t in st.store then NumOf(st.store[t]) else st.next;
    if t in st.store {
      DirOfTree(st.store, st.next - 1, t);
      NumberFound(c, st, p, n, v);
    } else {
      NumberNew(c, st, p, n);
    }
    StepIsDirStep(c, st, p, n, v);
    DirStepInv(c, st, p, n, v, Step(c, st, p));
  }

  lemma ValStepIs(c: Plan, st: State, p: Place)
    requires Sound(c) && Inv(c, st) && p in c.src && p.father in st.nums && p !in st.done && !c.src[p].isDir
    requires Target(st.nums, p) in st.store ==> !st.store[Target(st.nums, p)].isDir
    ensures Inv(c, Step(c, st, p))
  {
    SourceProper(c, p);
    StepIsValStep(c, st, p);
    ValStepInv(c, st, p, Step(c, st, p));
  }

  // --- What the result means ---

  ghost predicate Complete(c: Plan, st: State) {
    Inv(c, st) && forall p :: p in c.src ==> p in st.done
  }

  /** A directory of the destination that got no source directory has the entries it had. */
  lemma UntouchedPlace(c: Plan, st: State, k: Place)
    requires Inv(c, st) && !IsTarget(st, k)
    ensures At(st.store, k) == At(c.dest, k)
  {
  }

  ghost predicate NoWay(m: Store, d: int, e: int) {
    forall x :: DirAt(m, d, x) != Some(e)
  }

  lemma ChildNoWay(m: Store, d: int, s: Seg, d': int, e: int)
    requires NoWay(m, d, e) && SubDir(m, Place(d, s)) == Some(d')
    ensures NoWay(m, d', e) && d' != e
  {
    forall x ensures DirAt(m, d', x) != Some(e) {
      assert ([s] + x)[1..] == x;
      assert DirAt(m, d, [s] + x) == DirAt(m, d', x);
    }
    assert DirAt(m, d', []) == Some(d');
  }

  /** Neither this directory nor one below it takes part. */
  ghost predicate Apart(c: Plan, st: State, d: int) {
    (forall a :: a in st.nums ==> st.nums[a] != d) && NoWay(c.dest, d, c.father)
  }

  lemma ApartHasNoTarget(c: Plan, st: State, d: int, s: Seg)
    requires forall a :: a in st.nums ==> st.nums[a] != d
    ensures !IsTarget(st, Place(d, s))
  {
  }

  /** An old directory below one that takes no part gets no source directory's number but the root's. */
  lemma ChildTakesNoPart(c: Plan, st: State, k: Place, d: int, a: int)
    requires Inv(c, st) && !IsTarget(st, k) && SubDir(c.dest, k) == Some(d) && a in st.nums && a != 0
    ensures st.nums[a] != d
  {
    var q :| q in st.done && q in c.src && c.src[q] == DirSlot(a);
    assert CopiedAt(c, st, q) && IsTarget(st, Target(st.nums, q));
    UntouchedPlace(c, st, k);
    assert Unique(st.store) && st.store[k] == DirSlot(d);
  }

  lemma ChildApart(c: Plan, st: State, d: int, s: Seg, d': int)
    requires Inv(c, st) && Apart(c, st, d) && SubDir(c.dest, Place(d, s)) == Some(d')
    ensures Apart(c, st, d')
  {
    ApartHasNoTarget(c, st, d, s);
    ChildNoWay(c.dest, d, s, d', c.father);
    forall a | a in st.nums ensures st.nums[a] != d' {
      if a != 0 { ChildTakesNoPart(c, st, Place(d, s), d', a); }
    }
  }

  lemma {:induction false} ApartKeepsValues(c: Plan, st: State, d: int, path: Path)
    requires Inv(c, st) && Apart(c, st, d)
    ensures Resolve(st.store, d, path) == Resolve(c.dest, d, path)
    decreases |path|
  {
    if path != [] {
      var k := Place(d, path[0]);
      ApartHasNoTarget(c, st, d, path[0]);
      UntouchedPlace(c, st, k);
      var sub := SubDir(c.dest, k);
      if |path| > 1 && sub.Some? {
        ChildApart(c, st, d, path[0], sub.value);
        ApartKeepsValues(c, st, sub.value, path[1..]);
      }
    }
  }

  /** The source where it has a value, else the destination. */
  function Override(s: Option<string>, d: Option<string>): Option<string> {
    if s.Some? then s else d
  }

  /** What lies at a place in a directory that takes part. */
  lemma MergedPlace(c: Plan, st: State, n: int, s: Seg)
    requires Sound(c) && Complete(c, st) && n in st.nums
    ensures var t := Place(st.nums[n], s);
      && (Place(n, s) in c.src ==> CopiedAt(c, st, Place(n, s)))
      && (Place(n, s) !in c.src ==> !IsTarget(st, t))
  {
  }

  /** Below a larger number than the father's there is no way to the father. */
  lemma LargerNoWay(m: Store, max: int, d: int, e: int)
    requires Tree(m, max) && e < d
    ensures NoWay(m, d, e)
  {
    forall x ensures DirAt(m, d, x) != Some(e) {
      if DirAt(m, d, x).Some? { DirAtGrows(m, max, d, x); }
    }
  }

  /** A subdirectory that the source does not have, below one that takes part. */
  lemma OwnSubDirApart(c: Plan, st: State, n: int, s: Seg, d: int)
    requires Sound(c) && Inv(c, st) && n in st.nums && !IsTarget(st, Place(st.nums[n], s))
    requires SubDir(c.dest, Place(st.nums[n], s)) == Some(d)
    ensures Apart(c, st, d)
  {
    SubDirGrows(c.dest, c.max, Place(st.nums[n], s));
    LargerNoWay(c.dest, c.max, d, c.father);
    forall a | a in st.nums ensures st.nums[a] != d {
      if a != 0 { ChildTakesNoPart(c, st, Place(st.nums[n], s), d, a); }
    }
  }

  /** The last step of a path, in a directory that takes part. */
  lemma MergedValue(c: Plan, st: State, n: int, s: Seg)
    requires Sound(c) && Complete(c, st) && n in st.nums
    ensures ValueAt(st.store, Place(st.nums[n], s))
         == Override(ValueAt(c.src, Place(n, s)), ValueAt(c.dest, Place(st.nums[n], s)))
  {
    var p, t := Place(n, s), Place(st.nums[n], s);
    MergedPlace(c, st, n, s);
    if p in c.src {
      SourceProper(c, p);
      if t in c.dest { TargetKind(c, st, p); }
      CopiedValue(c, st, p);
    } else {
      UntouchedPlace(c, st, t);
    }
  }

  lemma CopiedValue(c: Plan, st: State, p: Place)
    requires p in c.src && p.father in st.nums && CopiedAt(c, st, p) && Proper(c.src[p])
    requires Target(st.nums, p) in c.dest ==> c.dest[Target(st.nums, p)].isDir == c.src[p].isDir
    ensures ValueAt(st.store, Target(st.nums, p)) == Override(ValueAt(c.src, p), ValueAt(c.dest, Target(st.nums, p)))
  {
  }

  /** A source entry that meets an old one is of the same kind. */
  lemma TargetKind(c: Plan, st: State, p: Place)
    requires Sound(c) && Inv(c, st) && p in c.src && p.father in st.nums && Target(st.nums, p) in c.dest
    ensures c.dest[Target(st.nums, p)].isDir == c.src[p].isDir
  {
    assert st.nums[p.father] <= c.max by { assert Rooted(c.dest, c.max); }
    assert SamePath(c, p.father, st.nums[p.father]);
    var x :| DirAt(c.src, 0, x) == Some(p.father) && DirAt(c.dest, c.father, x) == Some(st.nums[p.father]);
    NoClash(c, x, p.seg, p.father, st.nums[p.father]);
  }

  /** One step down a path, in a directory that takes part: into a directory of both or of the
      source, into one of the destination alone, or nowhere. */
  lemma MergedSubDir(c: Plan, st: State, n: int, s: Seg)
    requires Sound(c) && Complete(c, st) && n in st.nums
    ensures var p, t := Place(n, s), Place(st.nums[n], s);
      if SubDir(c.src, p).Some? then
        var n' := SubDir(c.src, p).value;
        && n' in st.nums && SubDir(st.store, t) == Some(st.nums[n'])
        && SubDir(c.dest, t) == if st.nums[n'] <= c.max then Some(st.nums[n']) else None
      else
        SubDir(st.store, t) == SubDir(c.dest, t) && (SubDir(c.dest, t).Some? ==> Apart(c, st, SubDir(c.dest, t).value))
  {
    var p, t := Place(n, s), Place(st.nums[n], s);
    MergedPlace(c, st, n, s);
    if p in c.src {
      SourceProper(c, p);
      if t in c.dest {
        TargetKind(c, st, p);
        assert st.store[t] == c.dest[t] || !c.dest[t].isDir by { assert Kept(c, st); }
      }
      CopiedSubDir(c, st, p);
    } else {
      UntouchedPlace(c, st, t);
      if SubDir(c.dest, t).Some? { OwnSubDirApart(c, st, n, s, SubDir(c.dest, t).value); }
    }
  }

  lemma CopiedSubDir(c: Plan, st: State, p: Place)
    requires p in c.src && p.father in st.nums && CopiedAt(c, st, p) && Proper(c.src[p])
    requires var t := Target(st.nums, p);
      t in c.dest ==> c.dest[t].isDir == c.src[p].isDir && (st.store[t] == c.dest[t] || !c.dest[t].isDir)
    ensures var t := Target(st.nums, p);
      if SubDir(c.src, p).Some? then
        var n' := SubDir(c.src, p).value;
        && n' in st.nums && SubDir(st.store, t) == Some(st.nums[n'])
        && SubDir(c.dest, t) == if st.nums[n'] <= c.max then Some(st.nums[n']) else None
      else
        SubDir(st.store, t) == None && SubDir(c.dest, t) == None
  {
  }

  /** In a directory that takes part, every path has the value of the source if there is one, else
      the value it had. */
  lemma {:induction false} MergedPath(c: Plan, st: State, n: int, path: Path)
    requires Sound(c) && Complete(c, st) && n in st.nums
    ensures Resolve(st.store, st.nums[n], path) == Override(Resolve(c.src, n, path), Resolve(c.dest, st.nums[n], path))
    decreases |path|
  {
    if path == [] {
    } else if |path| == 1 {
      MergedValue(c, st, n, path[0]);
    } else {
      MergedSubDir(c, st, n, path[0]);
      var p, t := Place(n, path[0]), Place(st.nums[n], path[0]);
      if SubDir(c.src, p).Some? {
        var n' := SubDir(c.src, p).value;
        MergedPath(c, st, n', path[1..]);
        if st.nums[n'] > c.max { NothingInNew(c, st.nums[n'], path[1..]); }
      } else if SubDir(c.dest, t).Some? {
        ApartKeepsValues(c, st, SubDir(c.dest, t).value, path[1..]);
      }
    }
  }

  lemma NothingInNew(c: Plan, d: int, path: Path)
    requires Sound(c) && d > c.max
    ensures Resolve(c.dest, d, path) == None
  {
  }

  /** What merging is for: below the directory merged into, the source overrides. */
  lemma SourceOverrides(c: Plan, st: State, path: Path)
    requires Sound(c) && Complete(c, st)
    ensures Resolve(st.store, c.father, path) == Override(Resolve(c.src, 0, path), Resolve(c.dest, c.father, path))
  {
    MergedPath(c, st, 0, path);
  }

  /** A directory above the one merged into takes no part itself. */
  lemma AboveTakesNoPart(c: Plan, st: State, d: int, s: Seg)
    requires Inv(c, st) && d < c.father
    ensures (forall a :: a in st.nums ==> st.nums[a] != d) && At(st.store, Place(d, s)) == At(c.dest, Place(d, s))
  {
  }

  /** A directory that branches off from the way to the father stays apart. */
  lemma BranchApart(c: Plan, st: State, d: int, f: Path, s: Seg, d': int)
    requires Sound(c) && Inv(c, st) && f != [] && DirAt(c.dest, d, f) == Some(c.father) && s != f[0]
    requires SubDir(c.dest, Place(d, s)) == Some(d')
    ensures Apart(c, st, d')
  {
    DirAtGrows(c.dest, c.max, d, f);
    AboveTakesNoPart(c, st, d, s);
    forall x ensures DirAt(c.dest, d', x) != Some(c.father) {
      var y := [s] + x;
      assert y[1..] == x && DirAt(c.dest, d, y) == DirAt(c.dest, d', x);
      if DirAt(c.dest, d, y) == Some(c.father) { PathIsUnique(c.dest, c.max, d, y, f); }
    }
    assert DirAt(c.dest, d', []) == Some(d');
    ApartHasNoTarget(c, st, d, s);
    forall a | a in st.nums ensures st.nums[a] != d' {
      if a != 0 { ChildTakesNoPart(c, st, Place(d, s), d', a); }
    }
  }

  /** What a path from a directory d finds, when f leads from d to the directory merged into. */
  function Expected(c: Plan, d: int, f: Path, q: Path): Option<string> {
    Override(if f <= q then Resolve(c.src, 0, q[|f|..]) else None, Resolve(c.dest, d, q))
  }

  /** A path that leaves the way to the father at once. */
  lemma OffTheWay(c: Plan, st: State, d: int, f: Path, q: Path)
    requires Sound(c) && Inv(c, st) && f != [] && DirAt(c.dest, d, f) == Some(c.father)
    requires q != [] && (|q| == 1 || q[0] != f[0])
    ensures Resolve(st.store, d, q) == Resolve(c.dest, d, q)
  {
    DirAtGrows(c.dest, c.max, d, f);
    AboveTakesNoPart(c, st, d, q[0]);
    var sub := SubDir(c.dest, Place(d, q[0]));
    if |q| > 1 && sub.Some? {
      BranchApart(c, st, d, f, q[0], sub.value);
      ApartKeepsValues(c, st, sub.value, q[1..]);
    }
  }

  lemma ExpectedOff(c: Plan, d: int, f: Path, q: Path)
    requires f != [] && q != [] && (|q| == 1 || q[0] != f[0])
    ensures Expected(c, d, f, q) == Resolve(c.dest, d, q)
  {
  }

  /** Override-union on paths: a path through the directory merged into finds the source's value
      if the source has one there; every other path finds what it found before. */
  lemma {:induction false} MergeIsOverrideUnion(c: Plan, st: State, d: int, f: Path, q: Path)
    requires Sound(c) && Complete(c, st) && DirAt(c.dest, d, f) == Some(c.father)
    ensures Resolve(st.store, d, q) == Expected(c, d, f, q)
    decreases |q|
  {
    if f == [] {
      assert q[0..] == q;
      SourceOverrides(c, st, q);
    } else if q != [] {
      if |q| == 1 || q[0] != f[0] {
        OffTheWay(c, st, d, f, q);
        ExpectedOff(c, d, f, q);
      } else {
        DirAtGrows(c.dest, c.max, d, f);
        AboveTakesNoPart(c, st, d, q[0]);
        var sub := SubDir(c.dest, Place(d, q[0])).value;
        MergeIsOverrideUnion(c, st, sub, f[1..], q[1..]);
        ExpectedDown(c, d, f, q, sub);
      }
    }
  }

  lemma ExpectedDown(c: Plan, d: int, f: Path, q: Path, d': int)
    requires f != [] && |q| > 1 && q[0] == f[0] && SubDir(c.dest, Place(d, q[0])) == Some(d')
    ensures Expected(c, d, f, q) == Expected(c, d', f[1..], q[1..])
  {
  }

  // --- Directory numbers ---

  /** A path of the source that the destination had leads to the number given. */
  lemma {:induction false} SamePathSameNumber(c: Plan, st: State, n: int, x: Path)
    requires Sound(c) && Complete(c, st) && n in st.nums && DirAt(c.src, n, x).Some?
    ensures DirAt(c.src, n, x).value in st.nums
    ensures DirAt(c.dest, st.nums[n], x).Some? ==> DirAt(c.dest, st.nums[n], x).value == st.nums[DirAt(c.src, n, x).value]
    ensures (forall a :: a in st.nums ==> st.nums[a] <= c.max) ==> DirAt(c.dest, st.nums[n], x).Some?
    decreases |x|
  {
    if x != [] {
      MergedSubDir(c, st, n, x[0]);
      SamePathSameNumber(c, st, SubDir(c.src, Place(n, x[0])).value, x[1..]);
    }
  }

  /** Every directory of a tree has a path. */
  lemma {:induction false} PathTo(m: Store, max: int, d: int) returns (x: Path)
    requires Tree(m, max) && 0 <= d && IsDirNum(m, d)
    ensures DirAt(m, 0, x) == Some(d)
    decreases d
  {
    x := [];
    if d != 0 {
      var p :| p in m && m[p] == DirSlot(d);
      assert Growing(m, max) && Rooted(m, max);
      var y := PathTo(m, max, p.father);
      DirAtSnoc(m, 0, y, p.seg);
      x := y + [p.seg];
    }
  }

  /** The source has no directory that the destination lacks. */
  ghost predicate NoNewDirs(c: Plan) {
    forall x :: DirAt(c.src, 0, x).Some? ==> DirAt(c.dest, c.father, x).Some?
  }

  /** New numbers are used exactly when the source has new directories. */
  lemma NewNumbersForNewDirs(c: Plan, st: State)
    requires Sound(c) && Complete(c, st)
    ensures st.next == c.max + 1 <==> NoNewDirs(c)
  {
    if st.next == c.max + 1 {
      forall x | DirAt(c.src, 0, x).Some? ensures DirAt(c.dest, c.father, x).Some? {
        SamePathSameNumber(c, st, 0, x);
      }
    } else {
      var n :| n in st.nums && st.nums[n] > c.max;
      var p :| p in st.done && p in c.src && c.src[p] == DirSlot(n);
      var max :| Tree(c.src, max);
      SourceNumber(c, p, n);
      var x := PathTo(c.src, max, n);
      SamePathSameNumber(c, st, 0, x);
      if DirAt(c.dest, c.father, x).Some? { DirAtGrows(c.dest, c.max, c.father, x); }
    }
  }

  lemma TreeMono(m: Store, a: int, b: int)
    requires Tree(m, a) && a <= b
    ensures Tree(m, b)
  {
  }

  ghost function UpTo(n: nat): (r: set<int>)
    ensures |r| == n && forall x :: x in r <==> 0 <= x < n
  {
    if n == 0 then {} else UpTo(n - 1) + {n - 1}
  }

  /** Later numbers stay unique if the number counter is moved by the size of the source. */
  lemma CounterMoved(c: Plan, st: State, srcMax: int)
    requires Sound(c) && Inv(c, st) && Tree(c.src, srcMax)
    ensures Tree(st.store, c.max + srcMax + 1)
  {
    forall n | n in st.nums ensures 0 <= n < srcMax + 1 {
      if n != 0 {
        var p :| p in st.done && p in c.src && c.src[p] == DirSlot(n);
        SourceNumber(c, p, n);
        assert Growing(c.src, srcMax);
      }
    }
    var all := UpTo(srcMax + 1);
    assert all == st.nums.Keys + (all - st.nums.Keys);
    assert |st.nums| == |st.nums.Keys| <= |all|;
    TreeMono(st.store, st.next - 1, c.max + srcMax + 1);
  }

  lemma NewNumberInStore(c: Plan, st: State)
    requires Sound(c) && Inv(c, st) && st.next > c.max + 1
    ensures !Growing(st.store, c.max)
  {
  }

  /** If the counter is left where it was, the list is in order exactly if there was no new
      directory. */
  lemma CounterLeft(c: Plan, st: State)
    requires Sound(c) && Complete(c, st)
    ensures Tree(st.store, c.max) <==> NoNewDirs(c)
  {
    NewNumbersForNewDirs(c, st);
    OldCounter(c, st);
  }

  lemma OldCounter(c: Plan, st: State)
    requires Sound(c) && Inv(c, st)
    ensures Tree(st.store, c.max) <==> st.next == c.max + 1
  {
    if st.next > c.max + 1 {
      NewNumberInStore(c, st);
    } else {
      SameCounter(st.store, st.next - 1, c.max);
    }
  }

  lemma SameCounter(m: Store, a: int, b: int)
    requires Tree(m, a) && a == b
    ensures Tree(m, b)
  {
  }
}
