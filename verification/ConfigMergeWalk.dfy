/** What lookups with shrinking indices find after a merge: docf_getarrwithpath of
    ext/frlib/lib/base/config.c on what insert_list_into_list leaves. Part by part the longer of the
    two longest indices stored decides, and where they are the same the lookup goes on in both trees. */
module ConfigMergeWalk {
  import opened Basics
  import opened ConfigNames
  import opened ConfigList
  import opened ConfigTree
  import opened ConfigWalk
  import opened ConfigMerge

  function Min(a: int, b: int): int {
    if a < b then a else b
  }

  /** Whether the source decides what is found: at the first part for which one of the trees has a
      longer index, that is the source; or it has the last part, as far as both go together. */
  function SourceDecides(src: Store, n: int, dest: Store, d: int, q: Query): bool
    decreases |q|
  {
    if q == [] then false
    else
      var i, j := First(src, n, q[0]), First(dest, d, q[0]);
      if i != j then i < j
      else if i == |q[0]| then false
      else if |q| == 1 then true
      else
        var n', d' := SubDir(src, Place(n, q[0][i])), SubDir(dest, Place(d, q[0][i]));
        n'.Some? && d'.Some? && SourceDecides(src, n'.value, dest, d'.value, q[1..])
  }

  // --- A directory that takes part ---

  /** A part finds the longer of what it would find in the two trees. */
  lemma FirstOfBoth(c: Plan, st: State, n: int, cs: seq<Seg>)
    requires Sound(c) && Complete(c, st) && n in st.nums
    ensures First(st.store, st.nums[n], cs) == Min(First(c.src, n, cs), First(c.dest, st.nums[n], cs))
  {
    forall s ensures Place(st.nums[n], s) in st.store <==> Place(n, s) in c.src || Place(st.nums[n], s) in c.dest {
      StoredInEither(c, st, n, s);
    }
    FirstUnion(c.src, n, c.dest, st.nums[n], st.store, cs);
  }

  lemma StoredInEither(c: Plan, st: State, n: int, s: Seg)
    requires Sound(c) && Complete(c, st) && n in st.nums
    ensures Place(st.nums[n], s) in st.store <==> Place(n, s) in c.src || Place(st.nums[n], s) in c.dest
  {
    MergedPlace(c, st, n, s);
    if Place(n, s) !in c.src { UntouchedPlace(c, st, Place(st.nums[n], s)); }
  }

  /** In terms of comma-prefixes: the longest in the merged directory is the longest in either. */
  lemma LongestOfBoth(c: Plan, st: State, n: int, name: string, idx: string, p: string)
    requires Sound(c) && Complete(c, st) && n in st.nums
    ensures Longest(st.store, st.nums[n], name, idx, p) <==>
      && CommaPrefix(p, idx) && InEither(c, n, st.nums[n], name, p)
      && forall q :: CommaPrefix(q, idx) && |q| > |p| ==> !InEither(c, n, st.nums[n], name, q)
  {
    forall q ensures IdxPlace(st.nums[n], name, q) in st.store <==> InEither(c, n, st.nums[n], name, q) {
      StoredInEither(c, st, n, IdxPlace(n, name, q).seg);
    }
  }

  predicate InEither(c: Plan, n: int, d: int, name: string, idx: string) {
    IdxPlace(n, name, idx) in c.src || IdxPlace(d, name, idx) in c.dest
  }

  lemma FirstUnion(a: Store, x: int, b: Store, y: int, m: Store, cs: seq<Seg>)
    requires forall s :: Place(y, s) in m <==> Place(x, s) in a || Place(y, s) in b
    ensures First(m, y, cs) == Min(First(a, x, cs), First(b, y, cs))
  {
    var i, j, k := First(a, x, cs), First(b, y, cs), First(m, y, cs);
    if i < |cs| { assert Place(y, cs[i]) in m; }
    if j < |cs| { assert Place(y, cs[j]) in m; }
    if k < |cs| { assert Place(x, cs[k]) in a || Place(y, cs[k]) in b; }
  }

  /** Apart from the directories that take part nothing changes. */
  lemma {:induction false} ApartKeepsWalks(c: Plan, st: State, d: int, q: Query)
    requires Inv(c, st) && Apart(c, st, d)
    ensures Walk(st.store, d, q) == Walk(c.dest, d, q)
    decreases |q|
  {
    if q != [] {
      SamePart(c, st, d, q[0]);
      var i := First(c.dest, d, q[0]);
      var sub := SubOf(Lookup(c.dest, d, q[0]));
      if |q| > 1 && sub.Some? {
        ChildApart(c, st, d, q[0][i], sub.value);
        ApartKeepsWalks(c, st, sub.value, q[1..]);
      }
    }
  }

  lemma SamePart(c: Plan, st: State, d: int, cs: seq<Seg>)
    requires Inv(c, st) && forall a :: a in st.nums ==> st.nums[a] != d
    ensures Lookup(st.store, d, cs) == Lookup(c.dest, d, cs) && First(st.store, d, cs) == First(c.dest, d, cs)
  {
    forall s ensures At(st.store, Place(d, s)) == At(c.dest, Place(d, s)) {
      ApartHasNoTarget(c, st, d, s);
      UntouchedPlace(c, st, Place(d, s));
    }
    SameLookup(c.dest, st.store, d, cs);
  }

  /** A new directory has nothing from the destination: the source decides, or nothing is found. */
  lemma {:induction false} SourceAlone(src: Store, n: int, dest: Store, d: int, q: Query)
    requires Empty(dest, d) && !SourceDecides(src, n, dest, d, q)
    ensures Walk(src, n, q) == None
  {
    if q != [] { assert First(dest, d, q[0]) == |q[0]|; }
  }

  lemma NewIsEmpty(c: Plan, d: int)
    requires Sound(c) && d > c.max
    ensures Empty(c.dest, d)
  {
  }

  /** The entry that a part finds in the source alone. */
  lemma FoundInSource(c: Plan, st: State, n: int, s: Seg, q: Query)
    requires Sound(c) && Complete(c, st) && n in st.nums && Place(n, s) in c.src && Place(st.nums[n], s) !in c.dest
    requires forall n' :: n' in st.nums ==> MergedWalkIs(c, st, n', q)
    ensures Through(st.store, At(st.store, Place(st.nums[n], s)), q) == Through(c.src, At(c.src, Place(n, s)), q)
  {
    var p := Place(n, s);
    MergedPlace(c, st, n, s);
    SourceProper(c, p);
    if c.src[p].isDir && q != [] {
      var n' := NumOf(c.src[p]);
      assert MergedWalkIs(c, st, n', q);
      NewIsEmpty(c, st.nums[n']);
      EmptyWalk(c.dest, st.nums[n'], q);
      if !SourceDecides(c.src, n', c.dest, st.nums[n'], q) { SourceAlone(c.src, n', c.dest, st.nums[n'], q); }
    }
  }

  /** The entry that a part finds in the destination alone. */
  lemma FoundInDest(c: Plan, st: State, n: int, s: Seg, q: Query)
    requires Sound(c) && Complete(c, st) && n in st.nums && Place(n, s) !in c.src
    ensures Through(st.store, At(st.store, Place(st.nums[n], s)), q) == Through(c.dest, At(c.dest, Place(st.nums[n], s)), q)
  {
    var t := Place(st.nums[n], s);
    MergedPlace(c, st, n, s);
    UntouchedPlace(c, st, t);
    var sub := SubDir(c.dest, t);
    if q != [] && sub.Some? {
      OwnSubDirApart(c, st, n, s, sub.value);
      ApartKeepsWalks(c, st, sub.value, q);
    }
  }

  /** Where both trees have the part, the source decides the rest. */
  function BothDecide(src: Store, p: Place, dest: Store, t: Place, q: Query): bool {
    var n', d' := SubDir(src, p), SubDir(dest, t);
    q == [] || (n'.Some? && d'.Some? && SourceDecides(src, n'.value, dest, d'.value, q))
  }

  ghost predicate BothFound(src: Store, p: Place, dest: Store, t: Place, m: Store, q: Query) {
    Through(m, At(m, t), q) ==
      if BothDecide(src, p, dest, t, q) then Through(src, At(src, p), q) else Through(dest, At(dest, t), q)
  }

  /** The entry that a part finds in both. */
  lemma FoundInBoth(c: Plan, st: State, n: int, s: Seg, q: Query)
    requires Sound(c) && Complete(c, st) && n in st.nums && Place(n, s) in c.src && Place(st.nums[n], s) in c.dest
    requires forall n' :: n' in st.nums ==> MergedWalkIs(c, st, n', q)
    ensures BothFound(c.src, Place(n, s), c.dest, Place(st.nums[n], s), st.store, q)
  {
    var p, t := Place(n, s), Place(st.nums[n], s);
    MergedPlace(c, st, n, s);
    SourceProper(c, p);
    TargetKind(c, st, p);
    if c.src[p].isDir {
      MergedSubDir(c, st, n, s);
      var n' := NumOf(c.src[p]);
      assert MergedWalkIs(c, st, n', q);
      BothDirs(c.src, p, n', c.dest, t, st.nums[n'], st.store, q);
    }
  }

  lemma BothDirs(src: Store, p: Place, n: int, dest: Store, t: Place, d: int, m: Store, q: Query)
    requires SubDir(src, p) == Some(n) && SubDir(dest, t) == Some(d) && SubDir(m, t) == Some(d)
    requires Walk(m, d, q) == if SourceDecides(src, n, dest, d, q) then Walk(src, n, q) else Walk(dest, d, q)
    ensures BothFound(src, p, dest, t, m, q)
  {
  }

  ghost predicate MergedWalkIs(c: Plan, st: State, n: int, q: Query)
    requires n in st.nums
  {
    Walk(st.store, st.nums[n], q) ==
      if SourceDecides(c.src, n, c.dest, st.nums[n], q) then Walk(c.src, n, q) else Walk(c.dest, st.nums[n], q)
  }

  /** In a directory that takes part, every walk finds what it finds in the source, or what it found
      before, as SourceDecides says. */
  lemma {:induction false} MergedWalk(c: Plan, st: State, n: int, q: Query)
    requires Sound(c) && Complete(c, st) && n in st.nums
    ensures MergedWalkIs(c, st, n, q)
    decreases |q|
  {
    if q != [] {
      forall n' | n' in st.nums ensures MergedWalkIs(c, st, n', q[1..]) { MergedWalk(c, st, n', q[1..]); }
      MergedPart(c, st, n, q);
    }
  }

  /** What a walk finds follows from what its first part finds. */
  lemma PartDecides(src: Store, n: int, dest: Store, d: int, m: Store, q: Query, i: nat, j: nat)
    requires q != [] && i == First(src, n, q[0]) && j == First(dest, d, q[0]) && First(m, d, q[0]) == Min(i, j)
    requires i < j ==> Through(m, At(m, Place(d, q[0][i])), q[1..]) == Through(src, At(src, Place(n, q[0][i])), q[1..])
    requires j < i ==> Through(m, At(m, Place(d, q[0][j])), q[1..]) == Through(dest, At(dest, Place(d, q[0][j])), q[1..])
    requires i == j < |q[0]| ==> BothFound(src, Place(n, q[0][i]), dest, Place(d, q[0][i]), m, q[1..])
    ensures Walk(m, d, q) == if SourceDecides(src, n, dest, d, q) then Walk(src, n, q) else Walk(dest, d, q)
  {
  }

  lemma MergedPart(c: Plan, st: State, n: int, q: Query)
    requires Sound(c) && Complete(c, st) && n in st.nums && q != []
    requires forall n' :: n' in st.nums ==> MergedWalkIs(c, st, n', q[1..])
    ensures MergedWalkIs(c, st, n, q)
  {
    var d, cs := st.nums[n], q[0];
    var i, j := First(c.src, n, cs), First(c.dest, d, cs);
    FirstOfBoth(c, st, n, cs);
    if i < j {
      FoundInSource(c, st, n, cs[i], q[1..]);
    } else if j < i {
      FoundInDest(c, st, n, cs[j], q[1..]);
    } else if i < |cs| {
      FoundInBoth(c, st, n, cs[i], q[1..]);
    }
    PartDecides(c.src, n, c.dest, d, st.store, q, i, j);
  }

  // --- From above ---

  /** The parts that are left when a walk comes to directory e; none if it does not. */
  function Arrives(m: Store, d: int, e: int, q: Query): Option<Query>
    decreases |q|
  {
    if d == e then Some(q)
    else if q == [] then None
    else
      var sub := SubOf(Lookup(m, d, q[0]));
      if sub.None? then None else Arrives(m, sub.value, e, q[1..])
  }

  /** What a walk from a directory d finds after the merge. */
  function AfterMerge(c: Plan, d: int, q: Query): Option<string> {
    match Arrives(c.dest, d, c.father, q)
    case None => Walk(c.dest, d, q)
    case Some(rest) =>
      if SourceDecides(c.src, 0, c.dest, c.father, rest) then Walk(c.src, 0, rest) else Walk(c.dest, d, q)
  }

  /** A directory that got no source directory, except that it may be the one merged into. */
  ghost predicate NotBelow(c: Plan, st: State, d: int) {
    forall a :: a in st.nums && a != 0 ==> st.nums[a] != d
  }

  /** After the merge, for every walk from such a directory. */
  lemma {:induction false} MergeWalk(c: Plan, st: State, d: int, q: Query)
    requires Sound(c) && Complete(c, st) && NotBelow(c, st, d)
    ensures Walk(st.store, d, q) == AfterMerge(c, d, q)
    decreases |q|
  {
    if d == c.father {
      AtFather(c, st, q);
    } else if q != [] {
      OnePartDown(c, st, d, q);
      var sub := SubOf(Lookup(c.dest, d, q[0]));
      if sub.Some? { MergeWalk(c, st, sub.value, q[1..]); }
      WentDown(c, st.store, d, q);
    }
  }

  lemma AtFather(c: Plan, st: State, q: Query)
    requires Sound(c) && Complete(c, st)
    ensures Walk(st.store, c.father, q) == AfterMerge(c, c.father, q)
  {
    MergedWalk(c, st, 0, q);
  }

  lemma WentDown(c: Plan, m: Store, d: int, q: Query)
    requires q != [] && Goes(c, m, d, q)
    requires var sub := SubOf(Lookup(c.dest, d, q[0]));
      sub.Some? ==> Walk(m, sub.value, q[1..]) == AfterMerge(c, sub.value, q[1..])
    ensures Walk(m, d, q) == AfterMerge(c, d, q)
  {
  }

  lemma OnePartDown(c: Plan, st: State, d: int, q: Query)
    requires Inv(c, st) && NotBelow(c, st, d) && d != c.father && q != []
    ensures Goes(c, st.store, d, q)
    ensures var sub := SubOf(Lookup(c.dest, d, q[0])); sub.Some? ==> NotBelow(c, st, sub.value)
  {
    SamePart(c, st, d, q[0]);
    PartKeeps(c, st.store, d, q);
    var sub := SubOf(Lookup(c.dest, d, q[0]));
    if sub.Some? { StepNotBelow(c, st, Place(d, q[0][First(c.dest, d, q[0])]), sub.value); }
  }

  /** A walk goes down one directory, or ends. */
  ghost predicate Goes(c: Plan, m: Store, d: int, q: Query)
    requires q != []
  {
    var sub := SubOf(Lookup(c.dest, d, q[0]));
    if |q| > 1 && sub.Some? then
      Walk(m, d, q) == Walk(m, sub.value, q[1..]) && AfterMerge(c, d, q) == AfterMerge(c, sub.value, q[1..])
    else Walk(m, d, q) == AfterMerge(c, d, q)
  }

  lemma PartKeeps(c: Plan, m: Store, d: int, q: Query)
    requires d != c.father && q != [] && Lookup(m, d, q[0]) == Lookup(c.dest, d, q[0])
    ensures Goes(c, m, d, q)
  {
    var s := Lookup(c.dest, d, q[0]);
    var sub := SubOf(s);
    assert Walk(m, d, q) == Through(m, s, q[1..]) && Walk(c.dest, d, q) == Through(c.dest, s, q[1..]);
    if sub.Some? {
      assert Arrives(c.dest, d, c.father, q) == Arrives(c.dest, sub.value, c.father, q[1..]);
      if |q| == 1 { assert q[1..] == [] && AfterMerge(c, d, q) == Walk(c.dest, d, q); }
    }
  }

  lemma StepNotBelow(c: Plan, st: State, k: Place, d: int)
    requires Inv(c, st) && (forall a :: a in st.nums ==> st.nums[a] != k.father) && SubDir(c.dest, k) == Some(d)
    ensures NotBelow(c, st, d)
  {
    ApartHasNoTarget(c, st, k.father, k.seg);
    forall a | a in st.nums && a != 0 ensures st.nums[a] != d { ChildTakesNoPart(c, st, k, d, a); }
  }

  /** From the top, or any directory up to the one merged into, a walk finds what it found before
      exactly if it does not come to the directory merged into, or the source does not decide from there
      on, or finds the same. */
  lemma WalkKeepsResult(c: Plan, st: State, d: int, q: Query)
    requires Sound(c) && Complete(c, st) && d <= c.father
    ensures Walk(st.store, d, q) == AfterMerge(c, d, q)
    ensures Walk(st.store, d, q) == Walk(c.dest, d, q) <==>
      var rest := Arrives(c.dest, d, c.father, q);
      || rest.None? || !SourceDecides(c.src, 0, c.dest, c.father, rest.value)
      || Walk(c.src, 0, rest.value) == Walk(c.dest, c.father, rest.value)
  {
    MergeWalk(c, st, d, q);
    if Arrives(c.dest, d, c.father, q).Some? { ArrivesThere(c.dest, d, c.father, q); }
  }

  lemma {:induction false} ArrivesThere(m: Store, d: int, e: int, q: Query)
    requires Arrives(m, d, e, q).Some?
    ensures Walk(m, d, q) == Walk(m, e, Arrives(m, d, e, q).value)
    decreases |q|
  {
    if d != e { ArrivesThere(m, SubOf(Lookup(m, d, q[0])).value, e, q[1..]); }
  }

  // --- At an input ---

  /** The destination has directory a with x in it, the source only an empty directory b. */
  function EmptyDirInto(a: Seg, b: Seg, x: Seg, v: string): Plan {
    Plan(OneValue(a, x, v), 1, map[Place(0, b) := DirSlot(1)], 0)
  }

  lemma EmptyDirIsSound(a: Seg, b: Seg, x: Seg, v: string)
    requires a != b
    ensures Sound(EmptyDirInto(a, b, x, v))
  {
    var c := EmptyDirInto(a, b, x, v);
    OneValueIsTree(a, x, v);
    assert Tree(c.src, 1);
    forall path | DirAt(c.src, 0, path).Some? ensures Resolve(c.dest, 0, path) == None { EmptyDirPath(a, b, x, v, path); }
    forall path ensures Resolve(c.src, 0, path) == None { EmptyDirPath(a, b, x, v, path); }
  }

  lemma EmptyDirPath(a: Seg, b: Seg, x: Seg, v: string, path: Path)
    requires a != b
    ensures var c := EmptyDirInto(a, b, x, v);
      Resolve(c.src, 0, path) == None && (DirAt(c.src, 0, path).Some? ==> Resolve(c.dest, 0, path) == None)
  {
    var c := EmptyDirInto(a, b, x, v);
    if path != [] {
      NothingBelow(c.src, 1, path[1..]);
    }
  }

  lemma EmptyDirAgrees(a: Seg, b: Seg, x: Seg, v: string)
    requires a != b && SameKind(a.idx, b.idx)
    ensures KindsAgree(EmptyDirInto(a, b, x, v))
  {
    var c := EmptyDirInto(a, b, x, v);
    forall path | DirAt(c.src, 0, path).Some? && DirAt(c.dest, 0, path).Some? ensures path == [] {
    }
    assert AgreeIn(c, 0, 0);
  }

  /** The merge is one step, and leaves the destination with the empty directory. */
  lemma EmptyDirMerged(a: Seg, b: Seg, x: Seg, v: string)
    requires a != b
    ensures var c := EmptyDirInto(a, b, x, v);
      var st := Step(c, Start(c), Place(0, b));
      Sound(c) && Complete(c, st) && st.store == c.dest[Place(0, b) := DirSlot(2)]
  {
    var c := EmptyDirInto(a, b, x, v);
    EmptyDirIsSound(a, b, x, v);
    StartInv(c, Start(c));
    StepKeepsInv(c, Start(c), Place(0, b));
    EmptyDirStep(a, b, x, v);
  }

  lemma EmptyDirStep(a: Seg, b: Seg, x: Seg, v: string)
    requires a != b
    ensures var c := EmptyDirInto(a, b, x, v);
      var st := Step(c, Start(c), Place(0, b));
      st.done == {Place(0, b)} && st.store == c.dest[Place(0, b) := DirSlot(2)]
  {
  }

  /** With a = d[a] and b = d[a,b]: the path d[a,b]/x had a value, and has none after the merge. */
  lemma MergeHidesValue(v: string)
    ensures var a, b, x := SegOf(Key(0, "d", Some("a"))), SegOf(Key(0, "d", Some("a,b"))), SegOf(Key(0, "x", None));
      var c, parts := EmptyDirInto(a, b, x, v), [Part("d", Some("a,b")), Part("x", None)];
      var st := Step(c, Start(c), Place(0, b));
      && Sound(c) && KindsAgree(c) && Complete(c, st)
      && Walks(c.dest, 0, parts, Some(v)) && Walks(st.store, 0, parts, None)
  {
    TriesOfTwo();
    NewDirHidesValue(v);
    var a, b, x := SegOf(Key(0, "d", Some("a"))), SegOf(Key(0, "d", Some("a,b"))), SegOf(Key(0, "x", None));
    EmptyDirMerged(a, b, x, v);
    EmptyDirAgrees(a, b, x, v);
  }
}
