/** The directory tree that the flat list encodes: an entry of a directory carries a number, and
    the entries below it carry that number as their father. Lookup along a path, and what new
    directories and new values do to it: docf_getarrwithpath, insert_dir_into_list and
    insert_path_into_list of ext/frlib/lib/base/config.c. */
module ConfigTree {
  import opened Basics
  import opened ConfigNames
  import opened ConfigList

  type Path = seq<Seg>

  function DirSlot(n: int): Slot {
    Slot(true, Num(n))
  }

  function ValSlot(v: string): Slot {
    Slot(false, Val(v))
  }

  /** A slot is a directory with a number or a value; a value put over a directory breaks this. */
  predicate Proper(s: Slot) {
    if s.isDir then s.body.Num? else s.body.Val?
  }

  /** The directory a place leads to. */
  function SubDir(m: Store, p: Place): Option<int> {
    if p in m && m[p].isDir && m[p].body.Num? then Some(m[p].body.n) else None
  }

  /** The directory at the end of a path. */
  function DirAt(m: Store, d: int, path: Path): Option<int>
    decreases |path|
  {
    if path == [] then Some(d)
    else
      var sub := SubDir(m, Place(d, path[0]));
      if sub.None? then None else DirAt(m, sub.value, path[1..])
  }

  /** The value at the end of a path. */
  function Resolve(m: Store, d: int, path: Path): Option<string>
    decreases |path|
  {
    if path == [] then None
    else if |path| == 1 then ValueAt(m, Place(d, path[0]))
    else
      var sub := SubDir(m, Place(d, path[0]));
      if sub.None? then None else Resolve(m, sub.value, path[1..])
  }

  ghost predicate IsDirNum(m: Store, d: int) {
    d == 0 || exists p :: p in m && m[p] == DirSlot(d)
  }

  ghost predicate Rooted(m: Store, max: int) {
    forall p :: p in m ==> 0 <= p.father <= max && IsDirNum(m, p.father)
  }

  ghost predicate Growing(m: Store, max: int) {
    forall p :: p in m && m[p].isDir ==> m[p].body.Num? && p.father < m[p].body.n <= max
  }

  ghost predicate Unique(m: Store) {
    forall p, q :: p in m && q in m && m[p].isDir && m[p] == m[q] ==> p == q
  }

  /** Every entry lies in a directory; directory numbers grow downwards, are at most max, and are
      unique. */
  ghost predicate Tree(m: Store, max: int) {
    && 0 <= max && (forall p :: p in m ==> Proper(m[p]))
    && Rooted(m, max) && Growing(m, max) && Unique(m)
  }

  lemma SubDirGrows(m: Store, max: int, p: Place)
    requires Growing(m, max) && SubDir(m, p).Some?
    ensures p.father < SubDir(m, p).value <= max && m[p] == DirSlot(SubDir(m, p).value)
  {
  }

  lemma {:induction false} DirAtGrows(m: Store, max: int, d: int, path: Path)
    requires Growing(m, max) && DirAt(m, d, path).Some?
    ensures DirAt(m, d, path).value >= d && (path != [] ==> d < DirAt(m, d, path).value <= max)
    decreases |path|
  {
    if path != [] {
      SubDirGrows(m, max, Place(d, path[0]));
      DirAtGrows(m, max, SubDir(m, Place(d, path[0])).value, path[1..]);
    }
  }

  lemma {:induction false} DirAtSnoc(m: Store, d: int, path: Path, s: Seg)
    ensures DirAt(m, d, path + [s]) ==
      match DirAt(m, d, path) case None => None case Some(a) => SubDir(m, Place(a, s))
    ensures Resolve(m, d, path + [s]) ==
      match DirAt(m, d, path) case None => None case Some(a) => ValueAt(m, Place(a, s))
    decreases |path|
  {
    if path == [] {
      assert [s][1..] == [] && [] + [s] == [s];
      var sub := SubDir(m, Place(d, s));
      if sub.Some? { assert DirAt(m, sub.value, []) == Some(sub.value); }
    } else {
      var sub := SubDir(m, Place(d, path[0]));
      assert (path + [s])[1..] == path[1..] + [s] && (path + [s])[0] == path[0];
      if sub.Some? { DirAtSnoc(m, sub.value, path[1..], s); }
    }
  }

  lemma SameNumberSamePlace(m: Store, p: Place, q: Place)
    requires Unique(m) && SubDir(m, p).Some? && SubDir(m, p) == SubDir(m, q)
    ensures p == q
  {
  }

  /** Paths to one directory end in the same way. */
  lemma SameLastStep(m: Store, d: int, x: Path, s: Seg, y: Path, t: Seg)
    requires Unique(m) && DirAt(m, d, x + [s]).Some? && DirAt(m, d, x + [s]) == DirAt(m, d, y + [t])
    ensures s == t && DirAt(m, d, x).Some? && DirAt(m, d, x) == DirAt(m, d, y)
  {
    DirAtSnoc(m, d, x, s);
    DirAtSnoc(m, d, y, t);
    SameNumberSamePlace(m, Place(DirAt(m, d, x).value, s), Place(DirAt(m, d, y).value, t));
  }

  /** Only the empty path leads back. */
  lemma NoWayBack(m: Store, max: int, d: int, x: Path)
    requires Growing(m, max) && DirAt(m, d, x) == Some(d)
    ensures x == []
  {
    DirAtGrows(m, max, d, x);
  }

  lemma {:induction false} OnePath(m: Store, max: int, d: int, x: Path, y: Path)
    requires Growing(m, max) && Unique(m) && DirAt(m, d, x).Some? && DirAt(m, d, x) == DirAt(m, d, y)
    ensures x == y
    decreases |x|
  {
    if x == [] {
      NoWayBack(m, max, d, y);
    } else if y == [] {
      NoWayBack(m, max, d, x);
    } else {
      var x', y', s, t := x[..|x| - 1], y[..|y| - 1], x[|x| - 1], y[|y| - 1];
      assert x == x' + [s] && y == y' + [t];
      SameLastStep(m, d, x', s, y', t);
      OnePath(m, max, d, x', y');
    }
  }

  /** One path leads to a directory, and no more. */
  lemma PathIsUnique(m: Store, max: int, d: int, x: Path, y: Path)
    requires Tree(m, max) && DirAt(m, d, x).Some? && DirAt(m, d, x) == DirAt(m, d, y)
    ensures x == y
  {
    OnePath(m, max, d, x, y);
  }

  // --- A new directory, a new value ---

  lemma {:induction false} NothingBelow(m: Store, d: int, path: Path)
    requires forall p :: p in m ==> p.father != d
    ensures Resolve(m, d, path) == None
  {
  }

  lemma RootedStays(m: Store, max: int, p: Place, s: Slot, max': int)
    requires Rooted(m, max) && (p in m ==> !m[p].isDir) && 0 <= p.father <= max <= max' && IsDirNum(m, p.father)
    ensures Rooted(m[p := s], max')
  {
    var m' := m[p := s];
    forall q | q in m' ensures IsDirNum(m', q.father) {
      assert IsDirNum(m, q.father);
      if q.father != 0 {
        var r :| r in m && m[r] == DirSlot(q.father);
        assert m'[r] == DirSlot(q.father);
      }
    }
  }

  /** A new directory with the next number: still a tree. */
  lemma NewDirKeepsTree(m: Store, max: int, p: Place)
    requires Tree(m, max) && p !in m && 0 <= p.father <= max && IsDirNum(m, p.father)
    ensures Tree(m[p := DirSlot(max + 1)], max + 1)
    ensures IsDirNum(m[p := DirSlot(max + 1)], max + 1)
  {
    RootedStays(m, max, p, DirSlot(max + 1), max + 1);
    NextNumberIsNew(m, max, p);
    assert m[p := DirSlot(max + 1)][p] == DirSlot(max + 1);
  }

  lemma NextNumberIsNew(m: Store, max: int, p: Place)
    requires Growing(m, max) && Unique(m) && p !in m && p.father <= max
    ensures Growing(m[p := DirSlot(max + 1)], max + 1) && Unique(m[p := DirSlot(max + 1)])
  {
  }

  /** It changes no value. */
  lemma {:induction false} NewDirKeepsValues(m: Store, max: int, p: Place, e: int, path: Path)
    requires Tree(m, max) && p !in m && 0 <= p.father <= max && e <= max
    ensures Resolve(m[p := DirSlot(max + 1)], e, path) == Resolve(m, e, path)
    decreases |path|
  {
    var m' := m[p := DirSlot(max + 1)];
    if |path| > 1 {
      var k := Place(e, path[0]);
      if k == p {
        NothingBelow(m', max + 1, path[1..]);
      } else if SubDir(m, k).Some? {
        SubDirGrows(m, max, k);
        NewDirKeepsValues(m, max, p, SubDir(m, k).value, path[1..]);
      }
    }
  }

  /** A value at a place that is not a directory: still a tree. */
  lemma NewValueKeepsTree(m: Store, max: int, p: Place, v: string)
    requires Tree(m, max) && (p in m ==> !m[p].isDir) && 0 <= p.father <= max && IsDirNum(m, p.father)
    ensures Stored(m, p, false, Val(v)) == m[p := ValSlot(v)] && Tree(m[p := ValSlot(v)], max)
  {
    RootedStays(m, max, p, ValSlot(v), max);
    ValueKeepsNumbers(m, max, p, v);
  }

  lemma ValueKeepsNumbers(m: Store, max: int, p: Place, v: string)
    requires Growing(m, max) && Unique(m)
    ensures Growing(m[p := ValSlot(v)], max) && Unique(m[p := ValSlot(v)])
  {
  }

  /** It is then found along the path to that place, and every other path finds what it did. */
  lemma {:induction false} NewValueResolves(m: Store, p: Place, v: string, e: int, path: Path, s: Seg)
    requires p in m ==> !m[p].isDir
    ensures Resolve(m[p := ValSlot(v)], e, path + [s])
         == if DirAt(m, e, path) == Some(p.father) && s == p.seg then Some(v) else Resolve(m, e, path + [s])
  {
    DirAtSnoc(m, e, path, s);
    DirAtSnoc(m[p := ValSlot(v)], e, path, s);
    SameDirs(m, p, v, e, path);
  }

  lemma {:induction false} SameDirs(m: Store, p: Place, v: string, e: int, path: Path)
    requires p in m ==> !m[p].isDir
    ensures DirAt(m[p := ValSlot(v)], e, path) == DirAt(m, e, path)
    decreases |path|
  {
    if path != [] {
      var k := Place(e, path[0]);
      assert SubDir(m[p := ValSlot(v)], k) == SubDir(m, k);
      if SubDir(m, k).Some? { SameDirs(m, p, v, SubDir(m, k).value, path[1..]); }
    }
  }

  /** A map that has all that another has finds all its directories. */
  lemma {:induction false} MoreFindsMore(m: Store, m': Store, d: int, path: Path)
    requires (forall p :: p in m ==> p in m' && m'[p] == m[p]) && DirAt(m, d, path).Some?
    ensures DirAt(m', d, path) == DirAt(m, d, path)
    decreases |path|
  {
    if path != [] { MoreFindsMore(m, m', SubDir(m, Place(d, path[0])).value, path[1..]); }
  }

  /** On the way to a directory there is no value. */
  lemma {:induction false} NoValueOnTheWay(m: Store, d: int, path: Path, j: nat)
    requires DirAt(m, d, path).Some? && j <= |path|
    ensures Resolve(m, d, path[..j]) == None && DirAt(m, d, path[..j]).Some?
    decreases |path|
  {
    if path != [] && j > 0 {
      var sub := SubDir(m, Place(d, path[0])).value;
      assert path[..j][1..] == path[1..][..j - 1] && path[..j][0] == path[0];
      NoValueOnTheWay(m, sub, path[1..], j - 1);
    }
  }
}
