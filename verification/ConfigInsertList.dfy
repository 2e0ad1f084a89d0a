/** insert_list_into_list of ext/frlib/lib/base/config.c on the lists themselves: the loops over
    directory numbers and entries carry out the steps of ConfigMerge. */
module ConfigInsertList {
  import opened Basics
  import opened ConfigNames
  import opened ConfigList
  import opened ConfigTree
  import opened ConfigWalk
  import opened ConfigMerge
  import opened ConfigMergeWalk

  // --- The steps in the order of the loops ---

  function Turn(c: Plan, st: State, p: Place): State {
    if p in c.src && p.father in st.nums then Step(c, st, p) else st
  }

  function Run(c: Plan, st: State, ps: seq<Place>): State {
    if ps == [] then st else Turn(c, Run(c, st, ps[..|ps| - 1]), ps[|ps| - 1])
  }

  /** The places in directory i among the first t entries. */
  function Level(items: seq<Entry>, i: int, t: nat): seq<Place>
    requires t <= |items|
  {
    if t == 0 then []
    else Level(items, i, t - 1) + if items[t - 1].key.father == i then [PlaceAt(items, t - 1)] else []
  }

  ghost predicate LevelOf(c: Plan, i: int, ps: seq<Place>) {
    forall j :: 0 <= j < |ps| ==> ps[j] in c.src && ps[j].father == i
  }

  lemma {:induction false} LevelIs(items: seq<Entry>, c: Plan, i: int, t: nat)
    requires t <= |items| && Represents(items, c.src)
    ensures LevelOf(c, i, Level(items, i, t))
  {
    if t > 0 {
      LevelIs(items, c, i, t - 1);
      assert PlaceAt(items, t - 1) in c.src;
    }
  }

  lemma {:induction false} LevelHas(items: seq<Entry>, i: int, t: nat, u: nat)
    requires u < t <= |items| && items[u].key.father == i
    ensures PlaceAt(items, u) in Level(items, i, t)
  {
    if u < t - 1 { LevelHas(items, i, t - 1, u); }
  }

  /** A run through a level handles its places and takes back nothing. */
  lemma {:induction false} RunHandles(c: Plan, st: State, ps: seq<Place>, i: int)
    requires LevelOf(c, i, ps) && i in st.nums
    ensures st.done <= Run(c, st, ps).done && i in Run(c, st, ps).nums
    ensures forall j :: 0 <= j < |ps| ==> ps[j] in Run(c, st, ps).done
  {
    if ps != [] { RunHandles(c, st, ps[..|ps| - 1], i); }
  }

  lemma {:induction false} RunKeepsInv(c: Plan, st: State, ps: seq<Place>, i: int)
    requires Sound(c) && Inv(c, st) && LevelOf(c, i, ps) && i in st.nums
    ensures Inv(c, Run(c, st, ps))
  {
    if ps != [] {
      var init := ps[..|ps| - 1];
      RunHandles(c, st, init, i);
      RunKeepsInv(c, st, init, i);
      TurnKeepsInv(c, Run(c, st, init), ps[|ps| - 1]);
    }
  }

  lemma TurnKeepsInv(c: Plan, st: State, p: Place)
    requires Sound(c) && Inv(c, st)
    ensures Inv(c, Turn(c, st, p))
  {
    if p in c.src && p.father in st.nums { StepKeepsInv(c, st, p); }
  }

  ghost predicate DoneBelow(c: Plan, st: State, i: int) {
    forall p :: p in c.src && p.father < i ==> p in st.done
  }

  /** The directory at hand has its number: it was handled with the directory it lies in. */
  lemma FatherNumbered(c: Plan, st: State, max: int, p: Place)
    requires Tree(c.src, max) && NumsFor(c, st) && Copied(c, st) && p in c.src && DoneBelow(c, st, p.father)
    ensures p.father in st.nums
  {
    assert Rooted(c.src, max) && Growing(c.src, max);
    if p.father != 0 {
      var q :| q in c.src && c.src[q] == DirSlot(p.father);
      assert CopiedAt(c, st, q);
    }
  }

  lemma NothingBelowRoot(c: Plan, st: State, max: int)
    requires Tree(c.src, max)
    ensures DoneBelow(c, st, 0)
  {
  }

  lemma LevelKeepsInv(c: Plan, items: seq<Entry>, i: nat, max: int, st: State, st': State)
    requires Sound(c) && Represents(items, c.src) && Tree(c.src, max) && Inv(c, st) && DoneBelow(c, st, i)
    requires st' == Run(c, st, Level(items, i, |items|))
    ensures Inv(c, st') && DoneBelow(c, st', i + 1)
  {
    var ps := Level(items, i, |items|);
    LevelIs(items, c, i, |items|);
    if ps != [] {
      FatherNumbered(c, st, max, ps[0]);
      RunHandles(c, st, ps, i);
      RunKeepsInv(c, st, ps, i);
    }
    LevelDone(items, c, st', i, st, ps);
  }

  lemma LevelDone(items: seq<Entry>, c: Plan, st: State, i: nat, before: State, ps: seq<Place>)
    requires Represents(items, c.src) && DoneBelow(c, before, i) && before.done <= st.done
    requires ps == Level(items, i, |items|) && forall j :: 0 <= j < |ps| ==> ps[j] in st.done
    ensures DoneBelow(c, st, i + 1)
  {
    forall p | p in c.src && p.father < i + 1 ensures p in st.done {
      if p.father == i {
        var u :| 0 <= u < |items| && PlaceAt(items, u) == p;
        LevelHas(items, i, |items|, u);
      }
    }
  }

  /** An entry of directory i fits when its turn comes. */
  lemma EntryFits(c: Plan, items: seq<Entry>, i: nat, max: int, st: State, t: nat)
    requires Sound(c) && KindsAgree(c) && Represents(items, c.src) && Tree(c.src, max) && Inv(c, st) && DoneBelow(c, st, i)
    requires t < |items| && items[t].key.father == i
    ensures FitsNow(Run(c, st, Level(items, i, t)), PlaceAt(items, t))
  {
    var p, ps := PlaceAt(items, t), Level(items, i, t);
    assert p in c.src;
    FatherNumbered(c, st, max, p);
    LevelIs(items, c, i, t);
    RunHandles(c, st, ps, i);
    RunKeepsInv(c, st, ps, i);
    TargetFits(c, Run(c, st, ps), p);
  }

  // --- The loops ---

  /** The array d_num_map holds the numbers given so far. */
  ghost predicate Numbered(dnum: array<int>, nums: map<int, int>)
    reads dnum
  {
    forall n :: n in nums ==> 0 <= n < dnum.Length && dnum[n] == nums[n]
  }

  /** The body of the inner loop, for an entry of the directory at hand. */
  method MergeEntry(dest: CvList, e: Entry, myfather: int, dnum: array<int>, next0: int, ghost c: Plan, ghost st: State)
    returns (next: int)
    requires PlaceOf(e.key) in c.src && c.src[PlaceOf(e.key)] == SlotOf(e) && e.key.father in st.nums
    requires e.isDir ==> 0 <= NumOf(SlotOf(e)) < dnum.Length
    requires dest.Valid() && dest.store == st.store && next0 == st.next && Numbered(dnum, st.nums)
    requires myfather == st.nums[e.key.father] && KindFits(st.store, Target(st.nums, PlaceOf(e.key)))
    modifies dest`list, dest`items, dest`store, dest.list, dnum
    ensures dest.Valid() && dest.store == Step(c, st, PlaceOf(e.key)).store
    ensures next == Step(c, st, PlaceOf(e.key)).next && Numbered(dnum, Step(c, st, PlaceOf(e.key)).nums)
    ensures dest.list == old(dest.list) || fresh(dest.list)
    ensures forall n :: 0 <= n < dnum.Length && (e.isDir ==> n != NumOf(SlotOf(e))) ==> dnum[n] == old(dnum[n])
  {
    next := next0;
    var k := Key(myfather, e.key.name, e.key.idx);
    assert PlaceOf(k) == Target(st.nums, PlaceOf(e.key));
    if e.isDir {
      var q := dest.SearchPpos(k);
      if q.Some? {
        dnum[NumOf(SlotOf(e))] := NumOf(q.value);
      } else {
        dnum[NumOf(SlotOf(e))] := next;
        dest.InsertVal(k, true, Num(next));
        next := next + 1;
      }
    } else {
      dest.InsertVal(k, false, e.body);
    }
  }

  /** An entry of the source whose number fits the array. */
  ghost predicate Ready(c: Plan, size: int, e: Entry) {
    && PlaceOf(e.key) in c.src && c.src[PlaceOf(e.key)] == SlotOf(e)
    && (e.isDir ==> 0 <= e.key.father < NumOf(SlotOf(e)) < size)
  }

  ghost predicate AllReady(c: Plan, size: int, items: seq<Entry>) {
    forall u :: 0 <= u < |items| ==> Ready(c, size, items[u])
  }

  lemma SourceIsReady(c: Plan, max: int, items: seq<Entry>)
    requires Represents(items, c.src) && Tree(c.src, max)
    ensures AllReady(c, max + 1, items)
  {
  }

  /** One turn of the inner loop. */
  method MergeNext(dest: CvList, e: Entry, i: nat, myfather: int, dnum: array<int>, next0: int, ghost c: Plan, ghost st: State)
    returns (next: int)
    requires Ready(c, dnum.Length, e) && (e.key.father == i ==> FitsNow(st, PlaceOf(e.key)))
    requires i < dnum.Length && dnum[i] == myfather && dest.Valid() && Carries(dest.store, next0, dnum, st)
    modifies dest`list, dest`items, dest`store, dest.list, dnum
    ensures dest.Valid() && (dest.list == old(dest.list) || fresh(dest.list)) && dnum[i] == myfather
    ensures Carries(dest.store, next, dnum, if e.key.father == i then Turn(c, st, PlaceOf(e.key)) else st)
  {
    next := next0;
    if e.key.father == i {
      next := MergeEntry(dest, e, myfather, dnum, next, c, st);
    }
  }

  /** The variables of the loops hold the state. */
  ghost predicate Carries(m: Store, next: int, dnum: array<int>, st: State)
    reads dnum
  {
    m == st.store && next == st.next && Numbered(dnum, st.nums)
  }

  lemma LevelNext(items: seq<Entry>, c: Plan, st: State, i: int, t: nat, now: State)
    requires t < |items| && now == Run(c, st, Level(items, i, t))
    ensures Run(c, st, Level(items, i, t + 1)) == if items[t].key.father == i then Turn(c, now, PlaceAt(items, t)) else now
  {
    if items[t].key.father == i {
      LevelSnoc(items, c, st, i, t);
    } else {
      assert Level(items, i, t + 1) == Level(items, i, t);
    }
  }

  /** The directory of a source place has its number, and the place fits where it goes. */
  ghost predicate FitsNow(st: State, p: Place) {
    p.father in st.nums && KindFits(st.store, Target(st.nums, p))
  }

  /** So it is for every entry of directory i when its turn comes. */
  ghost predicate LevelFits(c: Plan, st: State, items: seq<Entry>, i: int) {
    forall t :: 0 <= t < |items| && items[t].key.father == i ==> FitsNow(Run(c, st, Level(items, i, t)), PlaceAt(items, t))
  }

  /** The inner loop: all entries of one directory of the source. */
  method MergeLevel(dest: CvList, src: CvList, i: nat, dnum: array<int>, next0: int, ghost c: Plan, ghost st: State,
                    ghost end: State)
    returns (next: int)
    requires dest != src && dest.list != src.list && i < dnum.Length
    requires src.Layout() && AllReady(c, dnum.Length, src.items) && LevelFits(c, st, src.items, i)
    requires dest.Valid() && Carries(dest.store, next0, dnum, st) && end == Run(c, st, Level(src.items, i, |src.items|))
    modifies dest`list, dest`items, dest`store, dest.list, dnum
    ensures dest.Valid() && (dest.list == old(dest.list) || fresh(dest.list))
    ensures Carries(dest.store, next, dnum, end)
  {
    next := next0;
    ghost var now := st;
    var myfather := dnum[i];
    var t := 0;
    while t < src.list.Length && src.list[t].Cv?
      invariant t <= |src.items| && now == Run(c, st, Level(src.items, i, t))
      invariant dest.Valid() && Carries(dest.store, next, dnum, now)
      invariant dest.list == old(dest.list) || fresh(dest.list)
      invariant dnum[i] == myfather
      decreases |src.items| - t
    {
      assert Ready(c, dnum.Length, src.items[t]);
      next := MergeNext(dest, src.list[t].e, i, myfather, dnum, next, c, now);
      LevelNext(src.items, c, st, i, t, now);
      now := if src.items[t].key.father == i then Turn(c, now, PlaceAt(src.items, t)) else now;
      t := t + 1;
    }
  }

  lemma LevelSnoc(items: seq<Entry>, c: Plan, st: State, i: int, t: nat)
    requires t < |items| && items[t].key.father == i
    ensures Run(c, st, Level(items, i, t + 1)) == Turn(c, Run(c, st, Level(items, i, t)), PlaceAt(items, t))
  {
  }

  /** What the outer loop keeps: every directory below number i is merged. */
  ghost predicate MergedBelow(c: Plan, st: State, i: int) {
    Inv(c, st) && DoneBelow(c, st, i)
  }

  /** One turn of the outer loop. */
  method MergeDirectory(dest: CvList, src: CvList, i: nat, dnum: array<int>, next0: int, ghost c: Plan, ghost st: State)
    returns (next: int, ghost st': State)
    requires dest != src && dest.list != src.list && i < dnum.Length
    requires src.Layout() && AllReady(c, dnum.Length, src.items) && Represents(src.items, c.src)
    requires Sound(c) && KindsAgree(c) && Tree(c.src, dnum.Length - 1) && MergedBelow(c, st, i)
    requires dest.Valid() && Carries(dest.store, next0, dnum, st)
    modifies dest`list, dest`items, dest`store, dest.list, dnum
    ensures dest.Valid() && (dest.list == old(dest.list) || fresh(dest.list))
    ensures MergedBelow(c, st', i + 1) && Carries(dest.store, next, dnum, st')
  {
    st' := Run(c, st, Level(src.items, i, |src.items|));
    LevelMerges(c, src.items, i, dnum.Length - 1, st, st');
    next := MergeLevel(dest, src, i, dnum, next0, c, st, st');
  }

  lemma LevelMerges(c: Plan, items: seq<Entry>, i: nat, max: int, st: State, st': State)
    requires Sound(c) && KindsAgree(c) && Represents(items, c.src) && Tree(c.src, max) && MergedBelow(c, st, i)
    requires st' == Run(c, st, Level(items, i, |items|))
    ensures MergedBelow(c, st', i + 1) && LevelFits(c, st, items, i)
  {
    forall t | 0 <= t < |items| && items[t].key.father == i
      ensures FitsNow(Run(c, st, Level(items, i, t)), PlaceAt(items, t))
    {
      EntryFits(c, items, i, max, st, t);
    }
    LevelKeepsInv(c, items, i, max, st, st');
  }

  /** The outer loop: all directories of the source. */
  method MergeAll(dest: CvList, src: CvList, father: int, ghost c: Plan) returns (ghost st: State)
    requires src.Layout() && Represents(src.items, c.src) && KindsAgree(c)
    requires dest != src && dest.list != src.list && 0 <= src.maxnum
    requires Sound(c) && Tree(c.src, src.maxnum) && dest.Valid() && dest.store == c.dest && dest.maxnum == c.max && father == c.father
    modifies dest`list, dest`items, dest`store, dest.list
    ensures dest.Valid() && (dest.list == old(dest.list) || fresh(dest.list))
    ensures Complete(c, st) && dest.store == st.store
  {
    var dnum := new int[src.maxnum + 1](_ => 0);
    dnum[0] := father;
    var next := dest.maxnum + 1;
    st := Start(c);
    MergeStarts(c, st, src.maxnum, src.items);
    for i := 0 to src.maxnum + 1
      invariant dest.Valid() && (dest.list == old(dest.list) || fresh(dest.list))
      invariant MergedBelow(c, st, i) && Carries(dest.store, next, dnum, st)
    {
      next, st := MergeDirectory(dest, src, i, dnum, next, c, st);
    }
    AllDone(c, st, src.maxnum);
  }

  lemma MergeStarts(c: Plan, st: State, max: int, items: seq<Entry>)
    requires Sound(c) && Tree(c.src, max) && st == Start(c) && Represents(items, c.src)
    ensures MergedBelow(c, st, 0) && AllReady(c, max + 1, items)
  {
    StartInv(c, st);
    NothingBelowRoot(c, st, max);
    SourceIsReady(c, max, items);
  }

  lemma AllDone(c: Plan, st: State, max: int)
    requires Tree(c.src, max) && MergedBelow(c, st, max + 1)
    ensures Complete(c, st)
  {
  }

  /** What is promised of the destination when all is merged: in exact lookup the source overrides;
      what walks with shrinking indices find; and the numbers. */
  ghost predicate Merged(c: Plan, m: Store, max: int, moved: bool) {
    && (forall d, q :: d <= c.father ==> Walk(m, d, q) == AfterMerge(c, d, q))
    && (forall path :: Resolve(m, c.father, path) == Override(Resolve(c.src, 0, path), Resolve(c.dest, c.father, path)))
    && (forall f, q :: DirAt(c.dest, 0, f) == Some(c.father) ==> Resolve(m, 0, q) == Expected(c, 0, f, q))
    && Unique(m) && (Tree(m, max) <==> moved || NoNewDirs(c))
  }

  lemma CompleteIsMerged(c: Plan, st: State, srcMax: int, moved: bool, m: Store, max: int)
    requires Sound(c) && Complete(c, st) && Tree(c.src, srcMax)
    requires m == st.store && max == if moved then c.max + srcMax + 1 else c.max
    ensures Merged(c, m, max, moved)
  {
    forall path ensures Resolve(st.store, c.father, path) == Override(Resolve(c.src, 0, path), Resolve(c.dest, c.father, path)) {
      SourceOverrides(c, st, path);
    }
    forall f, q | DirAt(c.dest, 0, f) == Some(c.father) ensures Resolve(st.store, 0, q) == Expected(c, 0, f, q) {
      MergeIsOverrideUnion(c, st, 0, f, q);
    }
    forall d, q | d <= c.father ensures Walk(m, d, q) == AfterMerge(c, d, q) { WalkKeepsResult(c, st, d, q); }
    if moved { CounterMoved(c, st, srcMax); } else { CounterLeft(c, st); }
  }

  /** The loops, and what they make of the destination if the counter is then set to max. */
  method MergeEntries(dest: CvList, src: CvList, father: int, ghost c: Plan, ghost moved: bool, ghost max: int)
    requires dest != src && dest.list != src.list
    requires dest.Valid() && src.Valid() && c == Plan(dest.store, dest.maxnum, src.store, father)
    requires Sound(c) && KindsAgree(c) && Tree(src.store, src.maxnum)
    requires max == if moved then dest.maxnum + src.maxnum + 1 else dest.maxnum
    modifies dest`list, dest`items, dest`store, dest.list
    ensures dest.Valid() && (dest.list == old(dest.list) || fresh(dest.list))
    ensures Merged(c, dest.store, max, moved)
  {
    ghost var st := MergeAll(dest, src, father, c);
    CompleteIsMerged(c, st, src.maxnum, moved, dest.store, max);
  }

  /** insert_list_into_list. The number counter is moved only if the source owns text buffers; the
      list is then in order for later directories, and otherwise only if no directory was new. */
  method InsertList(dest: CvList, src: CvList, father: int, ghost c: Plan)
    requires dest != src && dest.list != src.list
    requires dest.Valid() && src.Valid() && c == Plan(dest.store, dest.maxnum, src.store, father)
    requires Sound(c) && KindsAgree(c) && Tree(src.store, src.maxnum)
    modifies dest`list, dest`items, dest`store, dest`maxnum, dest`numbufs, dest.list
    ensures dest.Valid() && (dest.list == old(dest.list) || fresh(dest.list))
    ensures dest.maxnum == if src.numbufs > 0 then old(dest.maxnum) + src.maxnum + 1 else old(dest.maxnum)
    ensures dest.numbufs == old(dest.numbufs) + src.numbufs
    ensures Merged(c, dest.store, dest.maxnum, src.numbufs > 0)
  {
    var max := if src.numbufs > 0 then dest.maxnum + src.maxnum + 1 else dest.maxnum;
    MergeEntries(dest, src, father, c, src.numbufs > 0, max);
    if src.numbufs > 0 {
      dest.numbufs := dest.numbufs + src.numbufs;
      dest.maxnum := max;
    }
  }

  /** A plan that brings one new directory to an empty list. */
  function OneNewDir(a: Seg): Plan {
    Plan(map[], 0, map[Place(0, a) := DirSlot(1)], 0)
  }

  lemma OneDirIsTree(a: Seg, m: Store)
    requires m == map[Place(0, a) := DirSlot(1)]
    ensures Tree(m, 1)
  {
  }

  lemma OneNewDirIsSound(a: Seg)
    ensures Sound(OneNewDir(a)) && !NoNewDirs(OneNewDir(a))
  {
    var c := OneNewDir(a);
    OneDirIsTree(a, c.src);
    assert NoConflict(c);
    assert DirAt(c.src, 0, [a]).Some?;
  }

  lemma OneNewDirMerges(a: Seg)
    ensures var c := OneNewDir(a); Complete(c, Step(c, Start(c), Place(0, a)))
  {
    var c := OneNewDir(a);
    OneNewDirIsSound(a);
    StartInv(c, Start(c));
    StepKeepsInv(c, Start(c), Place(0, a));
  }

  /** What goes wrong otherwise: a source without buffers brings directory a, the next directory b
      gets the same number, and a value stored in b shows up in a as well. */
  lemma NumberUsedTwice(a: Seg, b: Seg, x: Seg, v: string)
    requires a != b
    ensures var c := OneNewDir(a);
      var merged := Step(c, Start(c), Place(0, a)).store;
      var made := Stored(merged, Place(0, b), true, Num(c.max + 1));
      var m := Stored(made, Place(1, x), false, Val(v));
      && Resolve(made, 0, [a, x]) == None
      && Resolve(m, 0, [b, x]) == Some(v) && Resolve(m, 0, [a, x]) == Some(v)
  {
  }
}
