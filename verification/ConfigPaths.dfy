/** Insertion along a path: insert_dir_into_list and insert_path_into_list of
    ext/frlib/lib/base/config.c. */
module ConfigPaths {
  import opened Basics
  import opened ConfigNames
  import opened ConfigList
  import opened ConfigTree
  import opened ConfigWalk

  /** Nothing is lost and no value changes. */
  ghost predicate Grown(m: Store, max: int, m': Store, max': int) {
    && max <= max'
    && (forall p :: p in m ==> p in m' && m'[p] == m[p])
    && forall e, path :: e <= max ==> Resolve(m', e, path) == Resolve(m, e, path)
  }

  lemma NewDirGrows(m: Store, max: int, p: Place)
    requires Tree(m, max) && p !in m && 0 <= p.father <= max
    ensures Grown(m, max, m[p := DirSlot(max + 1)], max + 1)
  {
    forall e, path | e <= max ensures Resolve(m[p := DirSlot(max + 1)], e, path) == Resolve(m, e, path) {
      NewDirKeepsValues(m, max, p, e, path);
    }
  }

  ghost predicate GoodList(l: CvList)
    reads l`list, l`items, l`store, l`maxnum, l.list
  {
    l.Valid() && Tree(l.store, l.maxnum)
  }

  ghost predicate IsDir(m: Store, max: int, d: int) {
    0 <= d <= max && IsDirNum(m, d)
  }

  /** What making sure of a directory at a place is to do, and the number it gives; none if there
      is a value. */
  ghost predicate Ensured(m: Store, max: int, p: Place, m': Store, max': int, r: Option<int>) {
    && Tree(m', max') && Grown(m, max, m', max')
    && (r.None? <==> ValueAt(m, p).Some?)
    && (r.Some? ==> SubDir(m', p) == r && IsDir(m', max', r.value))
    && OneDir(m, max, p, m', max', r)
  }

  ghost predicate OneDir(m: Store, max: int, p: Place, m': Store, max': int, r: Option<int>) {
    if p in m then m' == m && max' == max else m' == m[p := DirSlot(max')] && max' == max + 1 && r == Some(max')
  }

  lemma FindsDir(m: Store, max: int, p: Place)
    requires Tree(m, max) && p in m
    ensures m[p].isDir ==> m[p].body.Num? && Ensured(m, max, p, m, max, Some(m[p].body.n))
    ensures !m[p].isDir ==> Ensured(m, max, p, m, max, None)
  {
  }

  lemma MakesDir(m: Store, max: int, p: Place, m': Store, d: int)
    requires Tree(m, max) && p !in m && IsDir(m, max, p.father)
    requires d == max + 1 && m' == Stored(m, p, true, Num(d))
    ensures Ensured(m, max, p, m', d, Some(d))
  {
    NewDirKeepsTree(m, max, p);
    NewDirGrows(m, max, p);
  }

  /** The end of insert_dir_into_list: one directory, found or made. A value in its place is an
      invalid path. */
  method EnsureDir(l: CvList, father: int, w: Part) returns (r: Option<int>)
    requires GoodList(l) && IsDir(l.store, l.maxnum, father) && KindFits(l.store, PlaceOf(KeyIn(father, w)))
    modifies l`list, l`items, l`store, l`maxnum, l.list
    ensures l.Valid() && (l.list == old(l.list) || fresh(l.list))
    ensures Ensured(old(l.store), old(l.maxnum), PlaceOf(KeyIn(father, w)), l.store, l.maxnum, r)
  {
    var k := KeyIn(father, w);
    var s := l.SearchPpos(k);
    if s.Some? {
      FindsDir(l.store, l.maxnum, PlaceOf(k));
      return if s.value.isDir then Some(s.value.body.n) else None;
    }
    var d := MakeDir(l, k);
    MakesDir(old(l.store), old(l.maxnum), PlaceOf(k), l.store, d);
    r := Some(d);
  }

  /** The entry of a new directory. */
  method MakeDir(l: CvList, k: Key) returns (d: int)
    requires l.Valid() && KindFits(l.store, PlaceOf(k))
    modifies l`list, l`items, l`store, l`maxnum, l.list
    ensures l.Valid() && (l.list == old(l.list) || fresh(l.list)) && l.maxnum == d == old(l.maxnum) + 1
    ensures l.store == Stored(old(l.store), PlaceOf(k), true, Num(d))
  {
    d := l.maxnum + 1;
    l.InsertVal(k, true, Num(d));
    l.maxnum := l.maxnum + 1;
  }

  /** Some leading piece of the path has a value. */
  ghost predicate Blocked(m: Store, father: int, path: Path) {
    exists j :: 0 < j <= |path| && Resolve(m, father, path[..j]).Some?
  }

  lemma BlockedSnoc(m: Store, father: int, path: Path)
    requires path != []
    ensures Blocked(m, father, path) <==> Blocked(m, father, path[..|path| - 1]) || Resolve(m, father, path).Some?
  {
    var init := path[..|path| - 1];
    assert path[..|path|] == path;
    assert forall j :: 0 < j <= |init| ==> init[..j] == path[..j];
    if Blocked(m, father, init) {
      var j :| 0 < j <= |init| && Resolve(m, father, init[..j]).Some?;
      assert Resolve(m, father, path[..j]).Some?;
    }
    if Blocked(m, father, path) && Resolve(m, father, path).None? {
      var j :| 0 < j <= |path| && Resolve(m, father, path[..j]).Some?;
      assert Resolve(m, father, init[..j]).Some?;
    }
  }

  /** The directory at the end of the path was there, or is new with all that it holds. */
  ghost predicate OldOrNew(m: Store, max: int, m': Store, father: int, path: Path, d: int) {
    && (DirAt(m, father, path) == Some(d) || d > max)
    && forall p :: p in m' && p !in m ==> p.father < d
  }

  lemma OldOrNewSnoc(m: Store, max: int, m1: Store, m2: Store, max2: int, father: int, init: Path, last: Seg, f: int, d: int)
    requires Tree(m, max) && Tree(m2, max2) && OldOrNew(m, max, m1, father, init, f)
    requires (forall p :: p in m ==> p in m1 && m1[p] == m[p]) && (forall p :: p in m1 ==> p in m2 && m2[p] == m1[p])
    requires SubDir(m2, Place(f, last)) == Some(d) && (Place(f, last) !in m1 ==> d > max)
    requires forall q :: q in m2 && q !in m1 ==> q == Place(f, last)
    ensures OldOrNew(m, max, m2, father, init + [last], d)
  {
    SubDirGrows(m2, max2, Place(f, last));
    DirAtSnoc(m, father, init, last);
    if Place(f, last) in m1 { assert Place(f, last) in m; }
  }

  /** Whether the path is a directory can be asked before or after its directories are made. */
  lemma SameSubDir(m: Store, max: int, m1: Store, father: int, init: Path, last: Seg, f: int)
    requires Tree(m, max) && father <= max && OldOrNew(m, max, m1, father, init, f) && DirAt(m1, father, init) == Some(f)
    requires forall p :: p in m ==> p in m1 && m1[p] == m[p]
    ensures SubDir(m1, Place(f, last)) == DirAt(m, father, init + [last])
  {
    DirAtSnoc(m, father, init, last);
    if DirAt(m, father, init).Some? {
      MoreFindsMore(m, m1, father, init);
      DirAtGrows(m, max, father, init);
    }
  }

  // --- What walks with shrinking indices find ---

  /** Where a path begins to be new, or else its last place, and the path behind it; none if a
      value is on the way. */
  function Spot(m: Store, d: int, path: Path): Option<(Place, Path)>
    decreases |path|
  {
    if path == [] then None
    else
      var p := Place(d, path[0]);
      if p !in m || |path| == 1 then Some((p, path[1..]))
      else
        var sub := SubDir(m, p);
        if sub.None? then None else Spot(m, sub.value, path[1..])
  }

  lemma {:induction false} SpotSnoc(m: Store, d: int, init: Path, last: Seg)
    requires init != []
    ensures Spot(m, d, init + [last]) ==
      match Spot(m, d, init)
      case None => None
      case Some((p, rest)) =>
        if p !in m then Some((p, rest + [last]))
        else
          var sub := SubDir(m, p);
          if sub.None? then None else Some((Place(sub.value, last), []))
    ensures DirAt(m, d, init).Some? ==> Spot(m, d, init).Some?
    ensures Spot(m, d, init).Some? && Spot(m, d, init).value.0 in m ==>
      SubDir(m, Spot(m, d, init).value.0) == DirAt(m, d, init)
    decreases |init|
  {
    var p, path := Place(d, init[0]), init + [last];
    assert path[0] == init[0] && path[1..] == init[1..] + [last];
    var sub := SubDir(m, p);
    if p in m && sub.Some? {
      if |init| > 1 {
        SpotSnoc(m, sub.value, init[1..], last);
      } else {
        assert path[1..] == [last] && init[1..] == [] && [last][1..] == [];
        assert DirAt(m, sub.value, []) == sub;
      }
    }
  }

  /** Where the path begins to be new, its index is of the kind that the name has in that directory. */
  ghost predicate SpotFits(m: Store, d: int, path: Path) {
    match Spot(m, d, path)
    case None => true
    case Some((p, _)) => KindFits(m, p)
  }

  lemma InitFits(m: Store, d: int, init: Path, last: Seg)
    requires Uniform(m) && SpotFits(m, d, init + [last])
    ensures SpotFits(m, d, init)
  {
    if init != [] { SpotSnoc(m, d, init, last); }
  }

  /** The directories of a path are made: nothing, or one new line of directories. */
  ghost predicate DirsMade(m: Store, max: int, m': Store, max': int, father: int, path: Path, r: Option<int>) {
    match Spot(m, father, path)
    case None => m' == m && max' == max
    case Some((p, rest)) => DirsMadeAt(m, max, m', max', p, rest, r)
  }

  ghost predicate DirsMadeAt(m: Store, max: int, m': Store, max': int, p: Place, rest: Path, r: Option<int>) {
    if p in m then m' == m && max' == max
    else r.Some? && max < r.value && Empty(m', r.value) && NewBranch(m, max, p, m', rest, DirSlot(r.value))
  }

  /** What a walk then finds: nothing if it takes the first new directory, else what it found. */
  ghost function AfterDirs(m: Store, father: int, path: Path, d: int, q: Query): Option<string> {
    match Spot(m, father, path)
    case None => Walk(m, d, q)
    case Some((p, _)) => if p !in m && Diverted(m, p, d, q).Some? then None else Walk(m, d, q)
  }

  lemma DirsMadeWalk(m: Store, max: int, m': Store, max': int, father: int, path: Path, r: Option<int>, d: int, q: Query)
    requires DirsMade(m, max, m', max', father, path, r) && d <= max
    ensures Walk(m', d, q) == AfterDirs(m, father, path, d, q)
  {
    var spot := Spot(m, father, path);
    if spot.Some? && spot.value.0 !in m {
      var (p, rest) := spot.value;
      NewBranchWalk(m, max, p, m', rest, DirSlot(r.value), d, q);
      var left := Diverted(m, p, d, q);
      if left.Some? && Fits(left.value, rest) { EmptyWalk(m', r.value, left.value[|rest|..]); }
    }
  }

  /** One directory found or made. */
  lemma OneDirMade(m: Store, max: int, p: Place, m': Store, max': int, r: Option<int>)
    requires Rooted(m, max) && Growing(m, max) && p.father <= max && OneDir(m, max, p, m', max', r)
    ensures DirsMadeAt(m, max, m', max', p, [], r)
  {
    if p !in m { assert Differs(m, Some(max), p, m') && Empty(m', max'); }
  }

  /** One more at the end of a new line. */
  lemma NextDirMade(m: Store, max: int, m1: Store, max1: int, m': Store, max': int, p: Place, rest: Path, last: Seg, f: int,
                    r: Option<int>)
    requires Rooted(m1, max1) && f <= max1 && max <= max1 && p !in m && DirsMadeAt(m, max, m1, max1, p, rest, Some(f))
    requires OneDir(m1, max1, Place(f, last), m', max', r)
    ensures DirsMadeAt(m, max, m', max', p, rest + [last], r)
  {
    NewBranchSnoc(m, max, p, m1, rest, f, last, DirSlot(max'), m');
  }

  lemma DirsMadeSnoc(m: Store, max: int, m1: Store, max1: int, m': Store, max': int, father: int, init: Path, last: Seg,
                     f: int, r: Option<int>)
    requires Rooted(m1, max1) && Growing(m1, max1) && f <= max1 && max <= max1 && (init == [] ==> f == father)
    requires DirsMade(m, max, m1, max1, father, init, Some(f)) && DirAt(m1, father, init) == Some(f)
    requires OneDir(m1, max1, Place(f, last), m', max', r)
    ensures DirsMade(m, max, m', max', father, init + [last], r)
  {
    if init == [] {
      assert init + [last] == [last] && [last][1..] == [];
      OneDirMade(m1, max1, Place(f, last), m', max', r);
    } else {
      SpotSnoc(m, father, init, last);
      var spot := Spot(m, father, init);
      if spot.Some? && spot.value.0 !in m {
        NextDirMade(m, max, m1, max1, m', max', spot.value.0, spot.value.1, last, f, r);
      } else {
        OneDirMade(m1, max1, Place(f, last), m', max', r);
      }
    }
  }

  /** The last place then fits too. */
  lemma LastFits(m: Store, max: int, m1: Store, max1: int, father: int, init: Path, last: Seg, f: int)
    requires SpotFits(m, father, init + [last]) && (init == [] ==> f == father)
    requires DirsMade(m, max, m1, max1, father, init, Some(f)) && DirAt(m1, father, init) == Some(f)
    ensures KindFits(m1, Place(f, last))
  {
    if init == [] {
      assert init + [last] == [last];
    } else {
      SpotSnoc(m, father, init, last);
    }
  }

  /** A value is stored along a path: at its last place, or at the end of one new line. */
  ghost predicate ValueMade(m: Store, max: int, m': Store, father: int, path: Path, v: string) {
    match Spot(m, father, path)
    case None => false
    case Some((p, rest)) =>
      if p in m then m' == Stored(m, p, false, Val(v)) else NewBranch(m, max, p, m', rest, ValSlot(v))
  }

  /** What a walk then finds: if it takes the first place of the path that was not there, or the
      last, then the value if its remaining parts fit the rest of the path, and nothing if they do not or
      the value went over a directory; else what it found. */
  ghost function AfterValue(m: Store, father: int, path: Path, v: string, d: int, q: Query): Option<string> {
    match Spot(m, father, path)
    case None => Walk(m, d, q)
    case Some((p, rest)) =>
      match Diverted(m, p, d, q)
      case None => Walk(m, d, q)
      case Some(left) =>
        if |left| == |rest| && Fits(left, rest) && !(p in m && m[p].isDir) then Some(v) else None
  }

  lemma {:induction false} SpotThere(m: Store, d: int, path: Path)
    requires Spot(m, d, path).Some? && Spot(m, d, path).value.0 in m
    ensures Spot(m, d, path).value.1 == []
    decreases |path|
  {
    var p := Place(d, path[0]);
    if |path| > 1 { SpotThere(m, SubDir(m, p).value, path[1..]); }
  }

  lemma ValueMadeWalk(m: Store, max: int, m': Store, father: int, path: Path, v: string, d: int, q: Query)
    requires ValueMade(m, max, m', father, path, v) && d <= max
    ensures Walk(m', d, q) == AfterValue(m, father, path, v, d, q)
  {
    var (p, rest) := Spot(m, father, path).value;
    if p in m {
      SpotThere(m, father, path);
      StoredValueWalk(m, p, v, d, q);
    } else {
      NewBranchWalk(m, max, p, m', rest, ValSlot(v), d, q);
    }
  }

  lemma ValueMadeSnoc(m: Store, max: int, m1: Store, max1: int, m': Store, father: int, init: Path, last: Seg, f: int, v: string)
    requires Tree(m, max) && Tree(m1, max1) && (init == [] ==> f == father && m1 == m)
    requires DirsMade(m, max, m1, max1, father, init, Some(f)) && DirAt(m1, father, init) == Some(f)
    requires m' == Stored(m1, Place(f, last), false, Val(v))
    ensures ValueMade(m, max, m', father, init + [last], v)
  {
    if init == [] {
      assert init + [last] == [last] && [last][1..] == [];
      FirstValue(m, max, Place(f, last), m', v);
    } else {
      SpotSnoc(m, father, init, last);
      var spot := Spot(m, father, init);
      if spot.Some? && spot.value.0 !in m {
        var (p, rest) := spot.value;
        NewBranchSnoc(m, max, p, m1, rest, f, last, ValSlot(v), m');
      } else {
        FirstValue(m, max, Place(f, last), m', v);
      }
    }
  }

  lemma FirstValue(m: Store, max: int, p: Place, m': Store, v: string)
    requires Tree(m, max) && m' == Stored(m, p, false, Val(v))
    ensures p !in m ==> NewBranch(m, max, p, m', [], ValSlot(v))
  {
  }

  /** What making the directories of a path is to do. It fails exactly when a leading piece of the
      path is a value. In exact lookup no value changes. */
  ghost predicate PathMade(m: Store, max: int, m': Store, max': int, father: int, path: Path, r: Option<int>) {
    && Tree(m', max') && Grown(m, max, m', max') && (r.None? <==> Blocked(m, father, path))
    && (r.Some? ==> DirAt(m', father, path) == r && IsDir(m', max', r.value) && OldOrNew(m, max, m', father, path, r.value))
    && DirsMade(m, max, m', max', father, path, r)
  }

  lemma NoPathMade(m: Store, max: int, father: int)
    requires Tree(m, max) && IsDir(m, max, father)
    ensures PathMade(m, max, m, max, father, [], Some(father))
  {
  }

  lemma PathRefused(m: Store, max: int, m1: Store, max1: int, father: int, init: Path, last: Seg)
    requires init != [] && PathMade(m, max, m1, max1, father, init, None)
    ensures PathMade(m, max, m1, max1, father, init + [last], None)
  {
    assert (init + [last])[..|init|] == init;
    BlockedSnoc(m, father, init + [last]);
    SpotSnoc(m, father, init, last);
    if Spot(m, father, init).Some? { SpotBlocked(m, father, init); }
  }

  /** A path that leads through directories to a place that is there has a value only at its end. */
  lemma {:induction false} SpotBlocked(m: Store, d: int, path: Path)
    requires path != [] && Spot(m, d, path).Some? && Spot(m, d, path).value.0 in m && Blocked(m, d, path)
    ensures SubDir(m, Spot(m, d, path).value.0) == None
    decreases |path|
  {
    if SubDir(m, Spot(m, d, path).value.0).Some? {
      SpotSnoc(m, d, path, path[0]);
      var j :| 0 < j <= |path| && Resolve(m, d, path[..j]).Some?;
      NoValueOnTheWay(m, d, path, j);
    }
  }

  lemma GrownTwice(m: Store, max: int, m1: Store, max1: int, m': Store, max': int)
    requires Grown(m, max, m1, max1) && Grown(m1, max1, m', max')
    ensures Grown(m, max, m', max')
  {
  }

  /** The last part fails exactly when the path has a value. */
  lemma LastBlocks(m: Store, max: int, m1: Store, max1: int, m': Store, max': int, father: int, init: Path, last: Seg, f: int,
                   r: Option<int>)
    requires father <= max && Grown(m, max, m1, max1) && DirAt(m1, father, init) == Some(f) && !Blocked(m, father, init)
    requires Ensured(m1, max1, Place(f, last), m', max', r)
    ensures r.None? <==> Blocked(m, father, init + [last])
    ensures r.Some? ==> DirAt(m', father, init + [last]) == r
  {
    var path := init + [last];
    assert path[..|init|] == init;
    BlockedSnoc(m, father, path);
    DirAtSnoc(m1, father, init, last);
    assert Resolve(m1, father, path) == Resolve(m, father, path);
    MoreFindsMore(m1, m', father, init);
    DirAtSnoc(m', father, init, last);
  }

  lemma PathMadeSnoc(m: Store, max: int, m1: Store, max1: int, m': Store, max': int, father: int, init: Path, last: Seg,
                     f: int, r: Option<int>)
    requires Tree(m, max) && father <= max && (init == [] ==> f == father)
    requires PathMade(m, max, m1, max1, father, init, Some(f)) && Ensured(m1, max1, Place(f, last), m', max', r)
    ensures PathMade(m, max, m', max', father, init + [last], r)
  {
    GrownTwice(m, max, m1, max1, m', max');
    LastBlocks(m, max, m1, max1, m', max', father, init, last, f, r);
    DirsMadeSnoc(m, max, m1, max1, m', max', father, init, last, f, r);
    if r.Some? { OldOrNewSnoc(m, max, m1, m', max', father, init, last, f, r.value); }
  }

  /** What every walk from an old directory then finds. */
  ghost predicate WalksAfterDirs(m: Store, max: int, m': Store, father: int, path: Path) {
    forall d, q :: d <= max ==> Walk(m', d, q) == AfterDirs(m, father, path, d, q)
  }

  lemma PathMadeWalks(m: Store, max: int, m': Store, max': int, father: int, path: Path, r: Option<int>)
    requires PathMade(m, max, m', max', father, path, r)
    ensures WalksAfterDirs(m, max, m', father, path)
  {
    forall d, q | d <= max ensures Walk(m', d, q) == AfterDirs(m, father, path, d, q) {
      DirsMadeWalk(m, max, m', max', father, path, r, d, q);
    }
  }

  /** insert_dir_into_list: the directories of a path, found or made. */
  method InsertDir(l: CvList, father: int, parts: seq<Part>) returns (r: Option<int>)
    requires GoodList(l) && IsDir(l.store, l.maxnum, father) && SpotFits(l.store, father, Segs(parts)) && parts != []
    modifies l`list, l`items, l`store, l`maxnum, l.list
    ensures l.Valid() && (l.list == old(l.list) || fresh(l.list))
    ensures PathMade(old(l.store), old(l.maxnum), l.store, l.maxnum, father, Segs(parts), r)
    ensures WalksAfterDirs(old(l.store), old(l.maxnum), l.store, father, Segs(parts))
    decreases |parts|
  {
    var n := |parts| - 1;
    ghost var m, max := l.store, l.maxnum;
    ghost var init, last := Segs(parts[..n]), SegOf(KeyIn(0, parts[n]));
    SegsSplit(parts);
    InitFits(m, father, init, last);
    if n > 0 {
      r := InsertDir(l, father, parts[..n]);
    } else {
      r := Some(father);
      NoPathMade(m, max, father);
    }
    if r.None? {
      PathRefused(m, max, l.store, l.maxnum, father, init, last);
    } else {
      ghost var m1, max1 := l.store, l.maxnum;
      var f := r.value;
      LastPlaceFits(m, max, m1, max1, father, init, last, f);
      r := EnsureDir(l, f, parts[n]);
      PathMadeSnoc(m, max, m1, max1, l.store, l.maxnum, father, init, last, f, r);
    }
    PathMadeWalks(m, max, l.store, l.maxnum, father, Segs(parts), r);
  }

  /** What a value put at a place does to all paths from a directory. */
  lemma ValueOnPath(m: Store, max: int, father: int, init: Path, last: Seg, f: int, v: string)
    requires Tree(m, max) && DirAt(m, father, init) == Some(f) && IsDir(m, max, f)
    requires SubDir(m, Place(f, last)) == None
    ensures var m' := Stored(m, Place(f, last), false, Val(v));
      && Tree(m', max) && Resolve(m', father, init + [last]) == Some(v)
      && forall path :: path != init + [last] ==> Resolve(m', father, path) == Resolve(m, father, path)
  {
    var p := Place(f, last);
    NewValueKeepsTree(m, max, p, v);
    NewValueResolves(m, p, v, father, init, last);
    forall path | path != init + [last]
      ensures Resolve(m[p := ValSlot(v)], father, path) == Resolve(m, father, path)
    {
      OtherPath(m, max, father, init, p, v, path);
    }
  }

  lemma OtherPath(m: Store, max: int, father: int, init: Path, p: Place, v: string, path: Path)
    requires Tree(m, max) && DirAt(m, father, init) == Some(p.father) && (p in m ==> !m[p].isDir)
    requires path != init + [p.seg]
    ensures Resolve(m[p := ValSlot(v)], father, path) == Resolve(m, father, path)
  {
    if path != [] {
      var x, s := path[..|path| - 1], path[|path| - 1];
      assert path == x + [s];
      NewValueResolves(m, p, v, father, x, s);
      if DirAt(m, father, x) == Some(p.father) { PathIsUnique(m, max, father, x, init); }
    }
  }

  /** No leading piece of the path ends at p. */
  ghost predicate Misses(m: Store, p: Place, e: int, path: Path) {
    forall j :: 0 <= j < |path| && path[j] == p.seg ==> DirAt(m, e, path[..j]) != Some(p.father)
  }

  lemma MissesDown(m: Store, p: Place, e: int, path: Path, e': int)
    requires Misses(m, p, e, path) && path != [] && SubDir(m, Place(e, path[0])) == Some(e')
    ensures Misses(m, p, e', path[1..])
  {
    forall j | 0 <= j < |path| - 1 && path[1..][j] == p.seg ensures DirAt(m, e', path[1..][..j]) != Some(p.father) {
      assert path[..j + 1][1..] == path[1..][..j] && path[j + 1] == p.seg;
    }
  }

  /** Such a path has the same value, whatever is put there. */
  lemma {:induction false} MissedStays(m: Store, p: Place, s: Slot, e: int, path: Path)
    requires Misses(m, p, e, path)
    ensures Resolve(m[p := s], e, path) == Resolve(m, e, path)
    decreases |path|
  {
    if path != [] {
      var k := Place(e, path[0]);
      assert k != p by { assert DirAt(m, e, path[..0]) == Some(e); }
      var sub := SubDir(m, k);
      if |path| > 1 && sub.Some? {
        MissesDown(m, p, e, path, sub.value);
        MissedStays(m, p, s, sub.value, path[1..]);
      }
    }
  }

  /** All paths but those that begin with the one to p miss p. */
  lemma OnlyWay(m: Store, max: int, father: int, init: Path, p: Place, path: Path)
    requires Tree(m, max) && DirAt(m, father, init) == Some(p.father) && !(init + [p.seg] <= path)
    ensures Misses(m, p, father, path)
  {
    forall j | 0 <= j < |path| && path[j] == p.seg ensures DirAt(m, father, path[..j]) != Some(p.father) {
      if DirAt(m, father, path[..j]) == Some(p.father) { PathIsUnique(m, max, father, path[..j], init); }
    }
  }

  /** A path through something that is no directory has no value. */
  lemma {:induction false} NoDirNoValue(m: Store, d: int, x: Path, path: Path)
    requires DirAt(m, d, x) == None && x <= path && |x| < |path|
    ensures Resolve(m, d, path) == None
    decreases |x|
  {
    var sub := SubDir(m, Place(d, path[0]));
    assert x != [] && x[0] == path[0];
    if sub.Some? { NoDirNoValue(m, sub.value, x[1..], path[1..]); }
  }

  /** A value put over a directory is lost, what was below can no longer be reached, and all other
      paths have the value they had. */
  lemma ValueOverDirectory(m: Store, max: int, father: int, init: Path, last: Seg, f: int, v: string, x: Path)
    requires Tree(m, max) && DirAt(m, father, init) == Some(f) && SubDir(m, Place(f, last)).Some?
    ensures var m' := Stored(m, Place(f, last), false, Val(v));
      Resolve(m', father, x) == if init + [last] <= x then None else Resolve(m, father, x)
  {
    var p, m' := Place(f, last), Stored(m, Place(f, last), false, Val(v));
    if init + [last] <= x {
      FewerDirs(m, m', father, init);
      DirAtSnoc(m', father, init, last);
      if x != init + [last] { NoDirNoValue(m', father, init + [last], x); }
    } else {
      OnlyWay(m, max, father, init, p, x);
      MissedStays(m, p, Slot(true, Val(v)), father, x);
    }
  }

  lemma {:induction false} FewerDirs(m: Store, m': Store, d: int, path: Path)
    requires forall p :: SubDir(m', p).Some? ==> SubDir(m', p) == SubDir(m, p)
    ensures DirAt(m', d, path).Some? ==> DirAt(m', d, path) == DirAt(m, d, path)
    decreases |path|
  {
    if path != [] && SubDir(m', Place(d, path[0])).Some? {
      FewerDirs(m, m', SubDir(m', Place(d, path[0])).value, path[1..]);
    }
  }

  /** What storing v along a path is to do: if the path is not a directory it then has the value,
      all other paths have the value they had, and there still is a tree; if it is a directory,
      the value is lost and so is all that was below, and all other paths have the value they had. */
  ghost predicate PathStored(m: Store, m': Store, max': int, father: int, path: Path, v: string) {
    if DirAt(m, father, path) == None then
      && Tree(m', max') && Resolve(m', father, path) == Some(v)
      && forall x :: x != path ==> Resolve(m', father, x) == Resolve(m, father, x)
    else
      forall x :: Resolve(m', father, x) == if path <= x then None else Resolve(m, father, x)
  }

  lemma StoresPath(m: Store, max: int, m1: Store, max1: int, m': Store, father: int, init: Path, last: Seg, f: int, v: string)
    requires Tree(m, max) && father <= max && PathMade(m, max, m1, max1, father, init, Some(f))
    requires m' == Stored(m1, Place(f, last), false, Val(v))
    ensures PathStored(m, m', max1, father, init + [last], v)
  {
    SameSubDir(m, max, m1, father, init, last, f);
    if DirAt(m, father, init + [last]) == None {
      ValueOnPath(m1, max1, father, init, last, f, v);
    } else {
      forall x ensures Resolve(m', father, x) == if init + [last] <= x then None else Resolve(m, father, x) {
        ValueOverDirectory(m1, max1, father, init, last, f, v, x);
      }
    }
  }

  /** What every walk from an old directory then finds. */
  ghost predicate WalksAfterValue(m: Store, max: int, m': Store, father: int, path: Path, v: string) {
    forall d, q :: d <= max ==> Walk(m', d, q) == AfterValue(m, father, path, v, d, q)
  }

  lemma StoresForWalks(m: Store, max: int, m1: Store, max1: int, m': Store, father: int, init: Path, last: Seg, f: int,
                       v: string)
    requires Tree(m, max) && PathMade(m, max, m1, max1, father, init, Some(f)) && (init == [] ==> f == father)
    requires m' == Stored(m1, Place(f, last), false, Val(v))
    ensures WalksAfterValue(m, max, m', father, init + [last], v)
  {
    var path := init + [last];
    ValueMadeSnoc(m, max, m1, max1, m', father, init, last, f, v);
    forall d, q | d <= max ensures Walk(m', d, q) == AfterValue(m, father, path, v, d, q) {
      ValueMadeWalk(m, max, m', father, path, v, d, q);
    }
  }

  lemma LastPlaceFits(m: Store, max: int, m1: Store, max1: int, father: int, init: Path, last: Seg, f: int)
    requires SpotFits(m, father, init + [last]) && (init == [] ==> f == father)
    requires PathMade(m, max, m1, max1, father, init, Some(f))
    ensures KindFits(m1, Place(f, last))
  {
    LastFits(m, max, m1, max1, father, init, last, f);
  }

  /** The value of a path may be stored at place p of store m1: that is all that is left to do. */
  ghost predicate Prepared(m: Store, max: int, m1: Store, max1: int, p: Place, father: int, path: Path, v: string) {
    var m' := Stored(m1, p, false, Val(v));
    KindFits(m1, p) && PathStored(m, m', max1, father, path, v) && WalksAfterValue(m, max, m', father, path, v)
  }

  lemma IsPrepared(m: Store, max: int, m1: Store, max1: int, father: int, init: Path, last: Seg, f: int, v: string)
    requires Tree(m, max) && father <= max && SpotFits(m, father, init + [last]) && (init == [] ==> f == father)
    requires PathMade(m, max, m1, max1, father, init, Some(f))
    ensures Prepared(m, max, m1, max1, Place(f, last), father, init + [last], v)
  {
    var m' := Stored(m1, Place(f, last), false, Val(v));
    LastPlaceFits(m, max, m1, max1, father, init, last, f);
    StoresPath(m, max, m1, max1, m', father, init, last, f, v);
    StoresForWalks(m, max, m1, max1, m', father, init, last, f, v);
  }

  lemma Refused(m: Store, max: int, m1: Store, max1: int, father: int, path: Path)
    requires PathMade(m, max, m1, max1, father, path, None)
    ensures m1 == m && max1 == max && Blocked(m, father, path)
  {
  }

  lemma NotRefused(m: Store, max: int, m1: Store, max1: int, father: int, path: Path, f: int)
    requires PathMade(m, max, m1, max1, father, path, Some(f))
    ensures !Blocked(m, father, path)
  {
  }

  /** The directory in which the last part of a path is to lie. */
  method FatherOf(l: CvList, father: int, init: seq<Part>) returns (r: Option<int>)
    requires GoodList(l) && IsDir(l.store, l.maxnum, father) && SpotFits(l.store, father, Segs(init))
    modifies l`list, l`items, l`store, l`maxnum, l.list
    ensures l.Valid() && (l.list == old(l.list) || fresh(l.list)) && (init == [] ==> r == Some(father))
    ensures PathMade(old(l.store), old(l.maxnum), l.store, l.maxnum, father, Segs(init), r)
  {
    if init == [] {
      NoPathMade(l.store, l.maxnum, father);
      return Some(father);
    }
    r := InsertDir(l, father, init);
  }

  /** The same, with what it leaves to do. */
  method Prepare(l: CvList, father: int, parts: seq<Part>, ghost v: string) returns (r: Option<int>)
    requires GoodList(l) && IsDir(l.store, l.maxnum, father) && SpotFits(l.store, father, Segs(parts)) && parts != []
    modifies l`list, l`items, l`store, l`maxnum, l.list
    ensures l.Valid() && (l.list == old(l.list) || fresh(l.list))
    ensures r.Some? <==> !Blocked(old(l.store), father, Segs(parts)[..|parts| - 1])
    ensures r.None? ==> l.store == old(l.store) && l.maxnum == old(l.maxnum)
    ensures r.Some? ==> Prepared(old(l.store), old(l.maxnum), l.store, l.maxnum, PlaceOf(KeyIn(r.value, parts[|parts| - 1])),
                                 father, Segs(parts), v)
  {
    var n := |parts| - 1;
    ghost var m, max := l.store, l.maxnum;
    ghost var init, last := Segs(parts[..n]), SegOf(KeyIn(0, parts[n]));
    SegsSplit(parts);
    InitFits(m, father, init, last);
    r := FatherOf(l, father, parts[..n]);
    if r.Some? {
      NotRefused(m, max, l.store, l.maxnum, father, init, r.value);
      IsPrepared(m, max, l.store, l.maxnum, father, init, last, r.value, v);
    } else {
      Refused(m, max, l.store, l.maxnum, father, init);
    }
  }

  /** insert_path_into_list: it fails exactly when a leading piece of the path is a value, and then
      changes nothing. */
  method InsertPath(l: CvList, father: int, parts: seq<Part>, v: string) returns (ok: bool)
    requires GoodList(l) && IsDir(l.store, l.maxnum, father) && SpotFits(l.store, father, Segs(parts)) && parts != []
    modifies l`list, l`items, l`store, l`maxnum, l.list
    ensures l.Valid() && (l.list == old(l.list) || fresh(l.list))
    ensures ok <==> !Blocked(old(l.store), father, Segs(parts)[..|parts| - 1])
    ensures !ok ==> l.store == old(l.store) && l.maxnum == old(l.maxnum)
    ensures ok ==> PathStored(old(l.store), l.store, l.maxnum, father, Segs(parts), v)
    ensures ok ==> WalksAfterValue(old(l.store), old(l.maxnum), l.store, father, Segs(parts), v)
  {
    var f := Prepare(l, father, parts, v);
    ok := f.Some?;
    if ok { l.InsertVal(KeyIn(f.value, parts[|parts| - 1]), false, Val(v)); }
  }
}
