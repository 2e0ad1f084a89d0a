/** Lookup along a path with the fallback to shorter indices: docf_getarrwithpath of
    ext/frlib/lib/base/config.c. A path is given as its parts; cutting a text at its slashes and
    brackets is not part of this model. What one new entry does to every such lookup, and what a
    whole new branch does. */
module ConfigWalk {
  import opened Basics
  import opened ConfigNames
  import opened ConfigList
  import opened ConfigTree

  /** One part of a path as it is written. */
  datatype Part = Part(name: string, idx: Option<string>)

  function KeyIn(father: int, w: Part): Key {
    Key(father, w.name, w.idx)
  }

  function Segs(parts: seq<Part>): (r: Path)
    ensures |r| == |parts| && forall i :: 0 <= i < |parts| ==> r[i] == SegOf(KeyIn(0, parts[i]))
  {
    seq(|parts|, i requires 0 <= i < |parts| => SegOf(KeyIn(0, parts[i])))
  }

  lemma SegsSplit(parts: seq<Part>)
    requires parts != []
    ensures Segs(parts)[1..] == Segs(parts[1..])
    ensures Segs(parts) == Segs(parts[..|parts| - 1]) + [SegOf(KeyIn(0, parts[|parts| - 1]))]
    ensures Segs(parts)[..|parts| - 1] == Segs(parts[..|parts| - 1])
  {
  }

  // --- Lookup ---

  /** The parts can be looked up as they are: named, and without an index of several parts. */
  predicate Plain(parts: seq<Part>) {
    forall i :: 0 <= i < |parts| ==>
      parts[i].name != "" && (parts[i].idx.Some? ==> LastComma(parts[i].idx.value) == None)
  }

  predicate Named(parts: seq<Part>) {
    forall i :: 0 <= i < |parts| ==> parts[i].name != ""
  }

  /** The entry a part finds, with its index or a shorter one; a part without a name finds none. */
  ghost predicate Found(m: Store, father: int, w: Part, s: Option<Slot>) {
    if w.name == "" then s == None
    else if w.idx.None? then s == At(m, PlaceOf(KeyIn(father, w)))
    else LongestWins(m, father, w.name, w.idx.value, s)
  }

  /** What is read at the end of a path: each part in the directory that the part before it found. */
  ghost predicate Walks(m: Store, father: int, parts: seq<Part>, r: Option<string>)
    requires parts != []
    decreases |parts|
  {
    exists s :: Found(m, father, parts[0], s) && WalksOn(m, parts, s, r)
  }

  ghost predicate WalksOn(m: Store, parts: seq<Part>, s: Option<Slot>, r: Option<string>)
    requires parts != []
    decreases |parts|, 0
  {
    if s.None? then r == None
    else if |parts| == 1 then r == ValueIn(s.value)
    else if s.value.isDir && s.value.body.Num? then Walks(m, s.value.body.n, parts[1..], r)
    else r == None
  }

  /** What one lookup with shrinking index means for one part. */
  lemma PartLookup(m: Store, father: int, w: Part, r: Option<Slot>)
    requires w.name != "" && Found(m, father, w, r)
    ensures PlaceOf(KeyIn(father, w)) in m ==> r == At(m, PlaceOf(KeyIn(father, w)))
    ensures (w.idx.Some? ==> LastComma(w.idx.value) == None) ==> r == At(m, PlaceOf(KeyIn(father, w)))
  {
    if w.idx.Some? {
      var idx := w.idx.value;
      LongestIsUnique(m, father, w.name, idx, r);
      assert CommaPrefix(idx, idx);
      if IdxPlace(father, w.name, idx) in m {
        assert Longest(m, father, w.name, idx, idx);
      } else if LastComma(idx) == None {
        NoCommaNoPrefix(idx);
        assert NoPrefix(m, father, w.name, idx);
      }
    }
  }

  /** Every path that has a value finds it. */
  lemma {:induction false} WalkFindsValue(m: Store, father: int, parts: seq<Part>, r: Option<string>)
    requires parts != [] && Named(parts) && Walks(m, father, parts, r) && Resolve(m, father, Segs(parts)).Some?
    ensures r == Resolve(m, father, Segs(parts))
    decreases |parts|
  {
    var w := parts[0];
    var s :| Found(m, father, w, s) && WalksOn(m, parts, s, r);
    SegsSplit(parts);
    assert Place(father, Segs(parts)[0]) == PlaceOf(KeyIn(father, w));
    PartLookup(m, father, w, s);
    if |parts| > 1 { WalkFindsValue(m, s.value.body.n, parts[1..], r); }
  }

  /** A path without comma indices finds nothing else. */
  lemma {:induction false} PlainWalk(m: Store, father: int, parts: seq<Part>, r: Option<string>)
    requires parts != [] && Plain(parts) && Walks(m, father, parts, r)
    ensures r == Resolve(m, father, Segs(parts))
    decreases |parts|
  {
    var w := parts[0];
    var s :| Found(m, father, w, s) && WalksOn(m, parts, s, r);
    SegsSplit(parts);
    assert Place(father, Segs(parts)[0]) == PlaceOf(KeyIn(father, w));
    PartLookup(m, father, w, s);
    assert s == At(m, Place(father, Segs(parts)[0]));
    if |parts| > 1 && s.Some? && s.value.isDir && s.value.body.Num? { PlainWalk(m, s.value.body.n, parts[1..], r); }
  }

  // --- The same as a function ---

  /** A path as it is looked up: for each part the names and indices that are tried, in turn. */
  type Query = seq<seq<Seg>>

  /** An index and what comes before each of its commas, longest first. */
  function Prefixes(idx: string): (r: seq<string>)
    ensures r != [] && r[0] == idx
  {
    match LastComma(idx)
    case None => [idx]
    case Some(s) => [idx] + Prefixes(idx[..s])
  }

  lemma {:induction false} PrefixesAre(idx: string)
    ensures forall x :: x in Prefixes(idx) <==> CommaPrefix(x, idx)
    ensures forall i, j :: 0 <= i < j < |Prefixes(idx)| ==> |Prefixes(idx)[i]| > |Prefixes(idx)[j]|
  {
    var s := LastComma(idx);
    if s.None? {
      NoCommaNoPrefix(idx);
    } else {
      PrefixesAre(idx[..s.value]);
      ShorterPrefixes(idx, s.value);
      assert forall x :: x in Prefixes(idx[..s.value]) ==> |x| < |idx|;
    }
  }

  /** What is tried for one part. */
  function Tries(w: Part): (r: seq<Seg>)
    ensures w.name != "" && w.idx.None? ==> r == [SegOf(KeyIn(0, w))]
    ensures w.name != "" && w.idx.Some? ==> |r| == |Prefixes(w.idx.value)|
    ensures w.name != "" && w.idx.Some? ==> forall i :: 0 <= i < |r| ==> r[i] == SegOf(Key(0, w.name, Some(Prefixes(w.idx.value)[i])))
  {
    if w.name == "" then []
    else if w.idx.None? then [SegOf(KeyIn(0, w))]
    else
      var ps := Prefixes(w.idx.value);
      seq(|ps|, i requires 0 <= i < |ps| => SegOf(Key(0, w.name, Some(ps[i]))))
  }

  function QueryOf(parts: seq<Part>): (r: Query)
    ensures |r| == |parts| && forall i :: 0 <= i < |parts| ==> r[i] == Tries(parts[i])
  {
    seq(|parts|, i requires 0 <= i < |parts| => Tries(parts[i]))
  }

  /** The first try that is stored in directory d, |cs| if none is. */
  function First(m: Store, d: int, cs: seq<Seg>): (r: nat)
    ensures r <= |cs| && (r < |cs| ==> Place(d, cs[r]) in m)
    ensures forall i :: 0 <= i < r ==> Place(d, cs[i]) !in m
  {
    if cs == [] || Place(d, cs[0]) in m then 0 else 1 + First(m, d, cs[1..])
  }

  function Lookup(m: Store, d: int, cs: seq<Seg>): Option<Slot> {
    var i := First(m, d, cs);
    if i < |cs| then Some(m[Place(d, cs[i])]) else None
  }

  function Walk(m: Store, d: int, q: Query): Option<string>
    decreases |q|, 0
  {
    if q == [] then None else Through(m, Lookup(m, d, q[0]), q[1..])
  }

  /** On from the entry that a part has found. */
  function Through(m: Store, s: Option<Slot>, q: Query): Option<string>
    decreases |q|, 1
  {
    if s.None? then None
    else if q == [] then ValueIn(s.value)
    else if s.value.isDir && s.value.body.Num? then Walk(m, s.value.body.n, q)
    else None
  }

  lemma FoundIsLookup(m: Store, d: int, w: Part, s: Option<Slot>)
    ensures Found(m, d, w, s) <==> s == Lookup(m, d, Tries(w))
  {
    if w.name != "" && w.idx.Some? {
      LongestIsFirst(m, d, w.name, w.idx.value);
      if Found(m, d, w, s) { LongestIsUnique(m, d, w.name, w.idx.value, s); }
    }
  }

  /** The first try that is stored is the longest index stored. */
  lemma LongestIsFirst(m: Store, d: int, name: string, idx: string)
    requires name != ""
    ensures var cs, i := Tries(Part(name, Some(idx))), First(m, d, Tries(Part(name, Some(idx))));
      if i < |cs| then Longest(m, d, name, idx, Prefixes(idx)[i]) && IdxPlace(d, name, Prefixes(idx)[i]) == Place(d, cs[i])
      else NoPrefix(m, d, name, idx)
  {
    var ps, cs := Prefixes(idx), Tries(Part(name, Some(idx)));
    var i := First(m, d, cs);
    PrefixesAre(idx);
    assert forall j :: 0 <= j < |ps| ==> IdxPlace(d, name, ps[j]) == Place(d, cs[j]);
    forall x | CommaPrefix(x, idx) && (i < |cs| ==> |x| > |ps[i]|) ensures IdxPlace(d, name, x) !in m {
      var j := LongerIsBefore(idx, ps, i, x);
      assert Place(d, cs[j]) !in m;
    }
  }

  /** A longer comma-prefix comes before. */
  lemma LongerIsBefore(idx: string, ps: seq<string>, i: nat, x: string) returns (j: nat)
    requires ps == Prefixes(idx) && i <= |ps| && CommaPrefix(x, idx) && (i < |ps| ==> |x| > |ps[i]|)
    ensures j < i && ps[j] == x
  {
    PrefixesAre(idx);
    assert x in ps;
    j :| 0 <= j < |ps| && ps[j] == x;
  }

  /** The walk of the code finds one thing, and that is it. */
  lemma {:induction false} WalksIsWalk(m: Store, father: int, parts: seq<Part>, r: Option<string>)
    requires parts != []
    ensures Walks(m, father, parts, r) <==> r == Walk(m, father, QueryOf(parts))
    decreases |parts|
  {
    var s, q := Lookup(m, father, Tries(parts[0])), QueryOf(parts);
    forall s' ensures Found(m, father, parts[0], s') <==> s' == s { FoundIsLookup(m, father, parts[0], s'); }
    assert q[1..] == QueryOf(parts[1..]) && q[0] == Tries(parts[0]);
    if |parts| > 1 && s.Some? && s.value.isDir && s.value.body.Num? { WalksIsWalk(m, s.value.body.n, parts[1..], r); }
    assert WalksOn(m, parts, s, r) <==> r == Through(m, s, q[1..]);
  }

  /** docf_getarrwithpath and the test for a directory in docf_getarrnodef. */
  method WalkPath(l: CvList, father: int, parts: seq<Part>) returns (r: Option<string>)
    requires l.Valid() && parts != []
    ensures Walks(l.store, father, parts, r)
    decreases |parts|
  {
    var w := parts[0];
    var s := l.SearchRecIdx(father, w.name, w.idx);
    assert Found(l.store, father, w, s);
    if s.None? {
      r := None;
    } else if |parts| == 1 {
      r := ValueIn(s.value);
    } else if s.value.isDir && s.value.body.Num? {
      r := WalkPath(l, s.value.body.n, parts[1..]);
    } else {
      r := None;
    }
    assert WalksOn(l.store, parts, s, r);
  }

  /** The same, with what it means: every path that has a value finds it; a path without comma
      indices finds nothing else. */
  method GetPath(l: CvList, father: int, parts: seq<Part>) returns (r: Option<string>)
    requires l.Valid() && parts != []
    ensures Walks(l.store, father, parts, r) && r == Walk(l.store, father, QueryOf(parts))
    ensures Named(parts) && Resolve(l.store, father, Segs(parts)).Some? ==> r == Resolve(l.store, father, Segs(parts))
    ensures Plain(parts) ==> r == Resolve(l.store, father, Segs(parts))
  {
    r := WalkPath(l, father, parts);
    WalksIsWalk(l.store, father, parts, r);
    if Plain(parts) { PlainWalk(l.store, father, parts, r); }
    if Named(parts) && Resolve(l.store, father, Segs(parts)).Some? { WalkFindsValue(l.store, father, parts, r); }
  }

  // --- One entry ---

  /** A part looked up in directory d takes the entry at p, once it is there: p is tried in its
      own directory, and what is tried before it is not stored. */
  ghost predicate Takes(m: Store, p: Place, d: int, cs: seq<Seg>) {
    d == p.father && exists j :: 0 <= j < |cs| && cs[j] == p.seg && forall i :: 0 <= i < j ==> Place(d, cs[i]) !in m
  }

  function SubOf(s: Option<Slot>): Option<int> {
    if s.Some? && s.value.isDir && s.value.body.Num? then Some(s.value.body.n) else None
  }

  /** The parts that are left when a walk takes the entry at p for the first time; none if it never
      does. */
  ghost function Diverted(m: Store, p: Place, d: int, q: Query): Option<Query>
    decreases |q|
  {
    if q == [] then None
    else if Takes(m, p, d, q[0]) then Some(q[1..])
    else
      var sub := SubOf(Lookup(m, d, q[0]));
      if sub.None? then None else Diverted(m, p, sub.value, q[1..])
  }

  /** In terms of comma-prefixes: the index stored at p is one of the part's, and is longer than
      every one stored before, or is the longest of them already. */
  lemma TakesIsLongest(m: Store, p: Place, d: int, name: string, idx: string, s: Slot)
    requires name != ""
    ensures Takes(m, p, d, Tries(Part(name, Some(idx)))) <==>
      exists x :: Longest(m[p := s], d, name, idx, x) && IdxPlace(d, name, x) == p
  {
    var m', cs := m[p := s], Tries(Part(name, Some(idx)));
    if Takes(m, p, d, cs) {
      LongestIsFirst(m', d, name, idx);
      OneLookup(m, p, s, d, cs);
      assert IdxPlace(d, name, Prefixes(idx)[First(m', d, cs)]) == p;
    }
    if x :| Longest(m', d, name, idx, x) && IdxPlace(d, name, x) == p {
      LongestTakes(m, p, d, name, idx, s, x);
    }
  }

  lemma LongestTakes(m: Store, p: Place, d: int, name: string, idx: string, s: Slot, x: string)
    requires name != "" && Longest(m[p := s], d, name, idx, x) && IdxPlace(d, name, x) == p
    ensures Takes(m, p, d, Tries(Part(name, Some(idx))))
  {
    var cs, ps := Tries(Part(name, Some(idx))), Prefixes(idx);
    PrefixesAre(idx);
    assert x in ps;
    var j :| 0 <= j < |ps| && ps[j] == x;
    forall k | 0 <= k < j ensures Place(d, cs[k]) !in m {
      assert ps[k] in ps && |ps[k]| > |x|;
      assert IdxPlace(d, name, ps[k]) == Place(d, cs[k]);
    }
    assert cs[j] == p.seg;
  }

  lemma OneLookup(m: Store, p: Place, s: Slot, d: int, cs: seq<Seg>)
    ensures Lookup(m[p := s], d, cs) == if Takes(m, p, d, cs) then Some(s) else Lookup(m, d, cs)
    ensures Takes(m, p, d, cs) ==> First(m[p := s], d, cs) < |cs| && Place(d, cs[First(m[p := s], d, cs)]) == p
  {
    var m' := m[p := s];
    var i, i' := First(m, d, cs), First(m', d, cs);
    if Takes(m, p, d, cs) {
      var j :| 0 <= j < |cs| && cs[j] == p.seg && forall k :: 0 <= k < j ==> Place(d, cs[k]) !in m;
      assert Place(d, cs[j]) in m';
      assert i' <= j;
      if i' < j { assert Place(d, cs[i']) == p; }
    } else {
      if i' < |cs| && Place(d, cs[i']) == p { assert Takes(m, p, d, cs); }
      assert i == i';
    }
  }

  /** In all directories, or in those up to a number. */
  predicate Among(max: Option<int>, d: int) {
    max.None? || d <= max.value
  }

  /** In these directories, and m leads to no others, two stores differ by the entry at p alone. */
  ghost predicate Differs(m: Store, max: Option<int>, p: Place, m': Store) {
    && (forall k :: k in m && m[k].isDir && m[k].body.Num? ==> Among(max, m[k].body.n))
    && p in m' && forall k: Place :: Among(max, k.father) ==> At(m', k) == At(m[p := m'[p]], k)
  }

  lemma {:induction false} SameLookup(m: Store, m': Store, d: int, cs: seq<Seg>)
    requires forall c :: At(m', Place(d, c)) == At(m, Place(d, c))
    ensures First(m', d, cs) == First(m, d, cs) && Lookup(m', d, cs) == Lookup(m, d, cs)
  {
    var i, i' := First(m, d, cs), First(m', d, cs);
    if i < |cs| { assert At(m', Place(d, cs[i])).Some?; }
    if i' < |cs| { assert At(m, Place(d, cs[i'])).Some?; }
  }

  /** A walk finds what it found, unless it takes the entry at p; then it goes on from there. */
  lemma {:induction false} EntryDecides(m: Store, max: Option<int>, p: Place, m': Store, d: int, q: Query)
    requires Differs(m, max, p, m') && Among(max, d)
    ensures Walk(m', d, q) == match Diverted(m, p, d, q)
                              case None => Walk(m, d, q)
                              case Some(rest) => Through(m', Some(m'[p]), rest)
    decreases |q|
  {
    if q != [] {
      SameLookup(m[p := m'[p]], m', d, q[0]);
      OneLookup(m, p, m'[p], d, q[0]);
      var sub := SubOf(Lookup(m, d, q[0]));
      if !Takes(m, p, d, q[0]) && sub.Some? { EntryDecides(m, max, p, m', sub.value, q[1..]); }
    }
  }

  /** One value stored, for every walk from every directory: the walks that take it and end there
      find it, those that take it on the way find nothing, and so do all that take it if it went
      over a directory; all others find what they found. */
  lemma StoredValueWalk(m: Store, p: Place, v: string, d: int, q: Query)
    ensures Walk(Stored(m, p, false, Val(v)), d, q) ==
      match Diverted(m, p, d, q)
      case None => Walk(m, d, q)
      case Some(rest) => if rest == [] && !(p in m && m[p].isDir) then Some(v) else None
  {
    EntryDecides(m, None, p, Stored(m, p, false, Val(v)), d, q);
  }

  ghost predicate Empty(m: Store, d: int) {
    forall k :: k in m ==> k.father != d
  }

  lemma EmptyWalk(m: Store, d: int, q: Query)
    requires Empty(m, d)
    ensures Walk(m, d, q) == None
  {
  }

  /** One new directory: the walks that take it find nothing, whatever they found before. */
  lemma NewDirWalk(m: Store, max: int, p: Place, d: int, q: Query)
    requires Tree(m, max) && p !in m && p.father <= max
    ensures Walk(m[p := DirSlot(max + 1)], d, q) == if Diverted(m, p, d, q).Some? then None else Walk(m, d, q)
    ensures Walk(m[p := DirSlot(max + 1)], d, q) == Walk(m, d, q) <==> Diverted(m, p, d, q).None? || Walk(m, d, q).None?
  {
    var m' := m[p := DirSlot(max + 1)];
    EntryDecides(m, None, p, m', d, q);
    var rest := Diverted(m, p, d, q);
    if rest.Some? { EmptyWalk(m', max + 1, rest.value); }
  }

  /** A directory 1 under a that holds x. */
  function OneValue(a: Seg, x: Seg, v: string): Store {
    map[Place(0, a) := DirSlot(1), Place(1, x) := ValSlot(v)]
  }

  lemma OneValueIsTree(a: Seg, x: Seg, v: string)
    ensures Tree(OneValue(a, x, v), 1)
  {
    assert OneValue(a, x, v)[Place(0, a)] == DirSlot(1);
  }

  lemma OneValueHidden(a: Seg, b: Seg, x: Seg, v: string)
    requires a != b
    ensures Walk(OneValue(a, x, v), 0, [[b, a], [x]]) == Some(v)
    ensures Walk(OneValue(a, x, v)[Place(0, b) := DirSlot(2)], 0, [[b, a], [x]]) == None
  {
    var m, q := OneValue(a, x, v), [[b, a], [x]];
    assert q[1..] == [[x]] && [[x]][1..] == [];
    assert First(m, 0, q[0]) == 1 && First(m, 1, [x]) == 0;
    assert Walk(m, 1, [[x]]) == Through(m, Lookup(m, 1, [x]), []);
    assert Walk(m, 0, q) == Through(m, Some(DirSlot(1)), [[x]]);
    assert Takes(m, Place(0, b), 0, q[0]) by { assert q[0][0] == b; }
    OneValueIsTree(a, x, v);
    NewDirWalk(m, 1, Place(0, b), 0, q);
  }

  lemma TriesOfTwo()
    ensures Prefixes("a,b") == ["a,b", "a"]
    ensures IndexOf(Some("a,b")) != IndexOf(Some("a")) && SameKind(IndexOf(Some("a,b")), IndexOf(Some("a")))
  {
    assert "a,b"[1] == ',' && LastComma("a,b") == Some(1);
    assert "a,b"[..1] == "a";
    assert !IsNum("a") by { assert !IsDigit("a"[0]); }
    assert !IsNum("a,b") by { assert !IsDigit("a,b"[0]); }
    assert |LowerAll("a,b")| != |LowerAll("a")|;
  }

  lemma QueryOfTwo(a: Seg, b: Seg, x: Seg)
    requires a == SegOf(Key(0, "d", Some("a"))) && b == SegOf(Key(0, "d", Some("a,b"))) && x == SegOf(Key(0, "x", None))
    ensures QueryOf([Part("d", Some("a,b")), Part("x", None)]) == [[b, a], [x]]
  {
    TriesOfTwo();
    var w := Part("d", Some("a,b"));
    assert Tries(w)[0] == b && Tries(w)[1] == a;
    assert Tries(w) == [b, a] && Tries(Part("x", None)) == [x];
  }

  /** At an input: directory d[a] holds x. The path d[a,b]/x finds it, until there is a directory
      d[a,b]. */
  lemma NewDirHidesValue(v: string)
    ensures var a, b := SegOf(Key(0, "d", Some("a"))), SegOf(Key(0, "d", Some("a,b")));
      var m, parts := OneValue(a, SegOf(Key(0, "x", None)), v), [Part("d", Some("a,b")), Part("x", None)];
      && Tree(m, 1) && Place(0, b) !in m
      && Walks(m, 0, parts, Some(v)) && Walks(m[Place(0, b) := DirSlot(2)], 0, parts, None)
  {
    var a, b, x := SegOf(Key(0, "d", Some("a"))), SegOf(Key(0, "d", Some("a,b"))), SegOf(Key(0, "x", None));
    var m, parts := OneValue(a, x, v), [Part("d", Some("a,b")), Part("x", None)];
    TriesOfTwo();
    QueryOfTwo(a, b, x);
    OneValueIsTree(a, x, v);
    OneValueHidden(a, b, x, v);
    WalksIsWalk(m, 0, parts, Some(v));
    WalksIsWalk(m[Place(0, b) := DirSlot(2)], 0, parts, None);
  }

  // --- A new branch ---

  /** Directory n holds one entry and no other. */
  ghost predicate Only(m: Store, n: int, s: Seg) {
    Place(n, s) in m && forall k :: k in m && k.father == n ==> k.seg == s
  }

  /** Below the entry s there is a single line of directories along a path, down to the entry end. */
  ghost predicate Line(m: Store, s: Slot, path: Path, end: Slot)
    decreases |path|
  {
    if path == [] then s == end
    else
      s.isDir && s.body.Num? && Only(m, s.body.n, path[0]) && Line(m, m[Place(s.body.n, path[0])], path[1..], end)
  }

  /** The parts try the segments of the path, each its own, and the path is no longer. */
  predicate Fits(q: Query, path: Path) {
    |path| <= |q| && forall i :: 0 <= i < |path| ==> path[i] in q[i]
  }

  lemma OnlyLookup(m: Store, n: int, s: Seg, cs: seq<Seg>)
    requires Only(m, n, s)
    ensures Lookup(m, n, cs) == if s in cs then Some(m[Place(n, s)]) else None
  {
    var i := First(m, n, cs);
    if s in cs {
      var j :| 0 <= j < |cs| && cs[j] == s;
      assert Place(n, cs[j]) in m;
    }
  }

  /** A walk down such a line. */
  lemma {:induction false} LineWalk(m: Store, s: Slot, path: Path, end: Slot, q: Query)
    requires Line(m, s, path, end)
    ensures Through(m, Some(s), q) == if Fits(q, path) then Through(m, Some(end), q[|path|..]) else None
    decreases |path|
  {
    if path == [] {
      assert q[0..] == q;
    } else if q != [] {
      var n := s.body.n;
      var next := m[Place(n, path[0])];
      OnlyLookup(m, n, path[0], q[0]);
      assert Walk(m, n, q) == Through(m, Lookup(m, n, q[0]), q[1..]);
      LineWalk(m, next, path[1..], end, q[1..]);
      FitsDown(q, path);
      if Fits(q, path) { assert q[1..][|path| - 1..] == q[|path|..]; }
    }
  }

  lemma FitsDown(q: Query, path: Path)
    requires q != [] && path != []
    ensures Fits(q, path) <==> path[0] in q[0] && Fits(q[1..], path[1..])
  {
    if path[0] in q[0] && Fits(q[1..], path[1..]) {
      forall i | 0 <= i < |path| ensures path[i] in q[i] {
        if i > 0 { assert path[1..][i - 1] in q[1..][i - 1]; }
      }
    }
  }

  /** One more entry at the end of a line. */
  lemma {:induction false} LineSnoc(m: Store, s: Slot, path: Path, f: int, last: Seg, e: Slot, m': Store)
    requires Line(m, s, path, DirSlot(f)) && Empty(m, f) && m' == m[Place(f, last) := e]
    ensures Line(m', s, path + [last], e)
    decreases |path|
  {
    if path == [] {
      assert Only(m', f, last);
    } else {
      var n := s.body.n;
      assert n != f && Place(n, path[0]) in m;
      LineSnoc(m, m[Place(n, path[0])], path[1..], f, last, e, m');
      assert (path + [last])[1..] == path[1..] + [last] && Only(m', n, path[0]);
    }
  }

  /** A new entry p and the line below it are all that is new in the directories up to max. */
  ghost predicate NewBranch(m: Store, max: int, p: Place, m': Store, path: Path, end: Slot) {
    Differs(m, Some(max), p, m') && Line(m', m'[p], path, end)
  }

  /** What all walks find after it. */
  lemma NewBranchWalk(m: Store, max: int, p: Place, m': Store, path: Path, end: Slot, d: int, q: Query)
    requires NewBranch(m, max, p, m', path, end) && d <= max
    ensures Walk(m', d, q) == match Diverted(m, p, d, q)
                              case None => Walk(m, d, q)
                              case Some(rest) => if Fits(rest, path) then Through(m', Some(end), rest[|path|..]) else None
  {
    EntryDecides(m, Some(max), p, m', d, q);
    var rest := Diverted(m, p, d, q);
    if rest.Some? { LineWalk(m', m'[p], path, end, rest.value); }
  }

  lemma NewBranchSnoc(m: Store, max: int, p: Place, m1: Store, path: Path, f: int, last: Seg, e: Slot, m': Store)
    requires NewBranch(m, max, p, m1, path, DirSlot(f)) && Empty(m1, f) && max < f && m' == m1[Place(f, last) := e]
    ensures NewBranch(m, max, p, m', path + [last], e)
  {
    assert p.father != f;
    LineSnoc(m1, m1[p], path, f, last, e, m');
  }

  function Singles(path: Path): (q: Query)
    ensures |q| == |path| && forall i :: 0 <= i < |path| ==> q[i] == [path[i]]
  {
    seq(|path|, i requires 0 <= i < |path| => [path[i]])
  }

  /** Exact lookup is the walk that tries one index for each part. */
  lemma {:induction false} ResolveIsWalk(m: Store, d: int, path: Path)
    ensures Resolve(m, d, path) == Walk(m, d, Singles(path))
    decreases |path|
  {
    if path != [] {
      var q := Singles(path);
      assert q[1..] == Singles(path[1..]);
      var sub := SubDir(m, Place(d, path[0]));
      assert Walk(m, d, q) == Through(m, Lookup(m, d, q[0]), q[1..]);
      if sub.Some? { ResolveIsWalk(m, sub.value, path[1..]); }
    }
  }
}
