/** The flat sorted list of the configuration store, ext/frlib/lib/base/config.c: search_pos,
    search_ppos, search_ppos_recidx, insert_val_into_list and cfn_getarr. The list is an array of
    entries that ends with an entry without a name; it stands for a map from places to slots. */
module ConfigList {
  import opened Basics
  import opened ConfigNames

  /** The union of val, which may be a null pointer, and d_num. */
  datatype Body = Val(s: string) | Null | Num(n: int)

  datatype Entry = Entry(key: Key, isDir: bool, body: Body)

  /** An element of the array; the end is marked by a null name. */
  datatype Cell = End | Cv(e: Entry)

  datatype Slot = Slot(isDir: bool, body: Body)

  type Store = map<Place, Slot>

  function SlotOf(e: Entry): Slot {
    Slot(e.isDir, e.body)
  }

  predicate SameKind(a: Index, b: Index) {
    a.NoIndex? || b.NoIndex? || a.Number? == b.Number?
  }

  /** The index of a place is of the kind that its name has in its directory: decimal, or not. */
  ghost predicate KindFits(m: Store, p: Place) {
    forall q :: q in m && q.father == p.father && q.seg.name == p.seg.name ==> SameKind(q.seg.idx, p.seg.idx)
  }

  /** Of a name in a directory, either all indices are decimal or none is. */
  ghost predicate Uniform(m: Store) {
    forall p {:trigger KindFits(m, p)} :: p in m ==> KindFits(m, p)
  }

  ghost predicate AllComparable(items: seq<Entry>, k: Key) {
    forall i :: 0 <= i < |items| ==> Comparable(items[i].key, k)
  }

  function PlaceAt(items: seq<Entry>, i: nat): Place
    requires i < |items|
  {
    PlaceOf(items[i].key)
  }

  ghost predicate Sorted(items: seq<Entry>) {
    forall i, j :: 0 <= i < j < |items| ==> Order(PlaceAt(items, i), PlaceAt(items, j)) < 0
  }

  /** The list and the map hold the same. */
  ghost predicate Represents(items: seq<Entry>, m: Store) {
    && (forall i :: 0 <= i < |items| ==> PlaceAt(items, i) in m && m[PlaceAt(items, i)] == SlotOf(items[i]))
    && forall p :: p in m ==> exists i :: 0 <= i < |items| && PlaceAt(items, i) == p
  }

  /** What search_pos finds: the first entry that is not below the key. */
  ghost predicate IsPos(items: seq<Entry>, k: Key, p: nat) {
    && p <= |items|
    && (forall i :: 0 <= i < p ==> Cmp(items[i].key, k) < 0)
    && (p < |items| ==> Cmp(items[p].key, k) >= 0)
  }

  /** A key whose kind fits can be compared with all entries. */
  lemma FitsAll(items: seq<Entry>, m: Store, k: Key)
    requires Represents(items, m) && KindFits(m, PlaceOf(k))
    ensures AllComparable(items, k)
  {
    forall i | 0 <= i < |items| ensures Comparable(items[i].key, k) {
      assert PlaceAt(items, i) in m;
    }
  }

  lemma UniformStored(m: Store, p: Place, isDir: bool, body: Body)
    requires Uniform(m) && KindFits(m, p)
    ensures Uniform(Stored(m, p, isDir, body))
  {
    var m' := Stored(m, p, isDir, body);
    forall q | q in m' ensures KindFits(m', q) {
      assert KindFits(m, q);
    }
  }

  /** The entry at that position is the one asked for, or there is none; for every key, even one
      whose index is of the other kind than the stored ones. */
  lemma PosFinds(items: seq<Entry>, k: Key, p: nat, m: Store, j: nat)
    requires Sorted(items) && Represents(items, m) && Uniform(m) && IsPos(items, k, p)
    requires j < |items| && PlaceAt(items, j) == PlaceOf(k)
    ensures p == j
  {
    CmpZero(items[j].key, k);
    if p < j {
      assert PlaceAt(items, j) in m && Order(PlaceAt(items, p), PlaceAt(items, j)) < 0;
      FitsAll(items, m, k);
      CmpIsOrder(items[p].key, k);
    }
  }

  /** Inserting at that position keeps the list sorted. */
  lemma InsertSorted(items: seq<Entry>, e: Entry, p: nat)
    requires Sorted(items) && AllComparable(items, e.key) && IsPos(items, e.key, p)
    requires p < |items| ==> PlaceAt(items, p) != PlaceOf(e.key)
    ensures Sorted(items[..p] + [e] + items[p..])
  {
    var place := PlaceOf(e.key);
    forall i | 0 <= i < p ensures Order(PlaceAt(items, i), place) < 0 {
      CmpIsOrder(items[i].key, e.key);
    }
    forall i | p <= i < |items| ensures Order(place, PlaceAt(items, i)) < 0 {
      CmpIsOrder(items[p].key, e.key);
      OrderLaws(PlaceAt(items, p), place, place);
      OrderLaws(place, PlaceAt(items, p), PlaceAt(items, i));
    }
    SortedPieces(items, e, p);
  }

  lemma SortedPieces(items: seq<Entry>, e: Entry, p: nat)
    requires Sorted(items) && p <= |items|
    requires forall i :: 0 <= i < p ==> Order(PlaceAt(items, i), PlaceOf(e.key)) < 0
    requires forall i :: p <= i < |items| ==> Order(PlaceOf(e.key), PlaceAt(items, i)) < 0
    ensures Sorted(items[..p] + [e] + items[p..])
  {
    var r := items[..p] + [e] + items[p..];
    forall i, j | 0 <= i < j < |r| ensures Order(PlaceAt(r, i), PlaceAt(r, j)) < 0 {
      var i' := if i < p then i else i - 1;
      var j' := if j < p then j else j - 1;
      assert i != p ==> PlaceAt(r, i) == PlaceAt(items, i');
      assert j != p ==> PlaceAt(r, j) == PlaceAt(items, j');
      if i != p && j != p { assert Order(PlaceAt(items, i'), PlaceAt(items, j')) < 0; }
    }
  }

  // --- The map ---

  /** The val that goes with a body: a directory is stored with a null pointer for one. */
  function ValPart(body: Body): Body {
    if body.Val? then body else Null
  }

  /** What storing does: a slot that is there keeps its kind and gets the new val, even if what is
      stored is a directory; a new slot is what it is to be. */
  function Stored(m: Store, p: Place, isDir: bool, body: Body): Store {
    if p in m then m[p := Slot(m[p].isDir, ValPart(body))] else m[p := Slot(isDir, body)]
  }

  lemma RepresentsInsert(items: seq<Entry>, m: Store, e: Entry, p: nat)
    requires Represents(items, m) && p <= |items| && PlaceOf(e.key) !in m
    ensures Represents(items[..p] + [e] + items[p..], Stored(m, PlaceOf(e.key), e.isDir, e.body))
  {
    var r := items[..p] + [e] + items[p..];
    var m' := Stored(m, PlaceOf(e.key), e.isDir, e.body);
    forall i | 0 <= i < |r| ensures PlaceAt(r, i) in m' && m'[PlaceAt(r, i)] == SlotOf(r[i]) {
      if i != p { assert PlaceAt(r, i) == PlaceAt(items, if i < p then i else i - 1); }
    }
    forall q | q in m' ensures exists i :: 0 <= i < |r| && PlaceAt(r, i) == q {
      if q == PlaceOf(e.key) {
        assert PlaceAt(r, p) == q;
      } else {
        var i :| 0 <= i < |items| && PlaceAt(items, i) == q;
        assert PlaceAt(r, if i < p then i else i + 1) == q;
      }
    }
  }

  lemma SortedDistinct(items: seq<Entry>, i: nat, j: nat)
    requires Sorted(items) && i < j < |items|
    ensures PlaceAt(items, i) != PlaceAt(items, j)
  {
    OrderLaws(PlaceAt(items, i), PlaceAt(items, j), PlaceAt(items, j));
  }

  lemma ReplaceKeepsPlaces(items: seq<Entry>, p: nat, body: Body)
    requires p < |items|
    ensures var r := items[p := items[p].(body := body)];
      |r| == |items| && forall i :: 0 <= i < |r| ==> PlaceAt(r, i) == PlaceAt(items, i)
  {
  }

  /** Same places, and the slots that the map has: the list represents the map. */
  lemma SamePlaces(items: seq<Entry>, r: seq<Entry>, m: Store, m': Store)
    requires Represents(items, m) && m'.Keys == m.Keys && |r| == |items|
    requires forall i :: 0 <= i < |r| ==> PlaceAt(r, i) == PlaceAt(items, i)
    requires forall i :: 0 <= i < |r| ==> PlaceAt(r, i) in m' && m'[PlaceAt(r, i)] == SlotOf(r[i])
    ensures Represents(r, m')
  {
  }

  lemma RepresentsReplace(items: seq<Entry>, m: Store, p: nat, body: Body)
    requires Represents(items, m) && Sorted(items) && p < |items| && !body.Num?
    ensures var r := items[p := items[p].(body := body)];
      Sorted(r) && Represents(r, Stored(m, PlaceAt(items, p), false, body))
  {
    var r := items[p := items[p].(body := body)];
    ReplaceKeepsPlaces(items, p, body);
    var place := PlaceAt(items, p);
    var m' := Stored(m, place, false, body);
    forall i | 0 <= i < |r| ensures PlaceAt(r, i) in m' && m'[PlaceAt(r, i)] == SlotOf(r[i]) {
      assert PlaceAt(items, i) in m && m[PlaceAt(items, i)] == SlotOf(items[i]);
      if i < p { SortedDistinct(items, i, p); }
      if p < i { SortedDistinct(items, p, i); }
    }
    assert m'.Keys == m.Keys;
    SamePlaces(items, r, m, m');
  }

  function At(m: Store, p: Place): Option<Slot> {
    if p in m then Some(m[p]) else None
  }

  /** The value of a slot; a directory has none, whatever its body is. */
  function ValueIn(s: Slot): Option<string> {
    if s.isDir || !s.body.Val? then None else Some(s.body.s)
  }

  function ValueAt(m: Store, p: Place): Option<string> {
    if p in m then ValueIn(m[p]) else None
  }

  ghost predicate OnlyValues(m: Store) {
    forall p :: p in m ==> !m[p].isDir && m[p].body.Val?
  }

  /** Storing values one after the other. */
  function StoredAll(m: Store, ops: seq<(Key, string)>): Store {
    if ops == [] then m
    else
      var last := ops[|ops| - 1];
      Stored(StoredAll(m, ops[..|ops| - 1]), PlaceOf(last.0), false, Val(last.1))
  }

  /** After any sequence of values stored, the lookup of a key gives the last one stored for it,
      exactly if the key was not a directory to begin with. */
  lemma {:induction false} LastValueWins(m: Store, ops: seq<(Key, string)>, i: nat)
    requires i < |ops| && forall j :: i < j < |ops| ==> PlaceOf(ops[j].0) != PlaceOf(ops[i].0)
    ensures var p := PlaceOf(ops[i].0);
      && p in StoredAll(m, ops) && StoredAll(m, ops)[p] == Slot(p in m && m[p].isDir, Val(ops[i].1))
      && (ValueAt(StoredAll(m, ops), p) == Some(ops[i].1) <==> !(p in m && m[p].isDir))
  {
    var init := ops[..|ops| - 1];
    if i < |ops| - 1 {
      assert init[i] == ops[i] && forall j :: i < j < |init| ==> init[j] == ops[j];
      LastValueWins(m, init, i);
    } else {
      KindStays(m, init, PlaceOf(ops[i].0));
    }
  }

  lemma {:induction false} KindStays(m: Store, ops: seq<(Key, string)>, p: Place)
    ensures p in m ==> p in StoredAll(m, ops)
    ensures p in StoredAll(m, ops) ==> StoredAll(m, ops)[p].isDir == (p in m && m[p].isDir)
  {
    if ops != [] { KindStays(m, ops[..|ops| - 1], p); }
  }

  /** What was stored under other keys is untouched. */
  lemma {:induction false} OthersStay(m: Store, ops: seq<(Key, string)>, p: Place)
    requires forall j :: 0 <= j < |ops| ==> PlaceOf(ops[j].0) != p
    ensures At(StoredAll(m, ops), p) == At(m, p)
  {
    if ops != [] {
      assert forall j :: 0 <= j < |ops| - 1 ==> ops[..|ops| - 1][j] == ops[j];
      OthersStay(m, ops[..|ops| - 1], p);
    }
  }

  // --- Indices of several parts ---

  /** The whole index, or what comes before one of its commas. */
  predicate CommaPrefix(p: string, idx: string) {
    p <= idx && (|p| < |idx| ==> idx[|p|] == ',')
  }

  function IdxPlace(father: int, name: string, idx: string): Place {
    PlaceOf(Key(father, name, Some(idx)))
  }

  ghost predicate Longest(m: Store, father: int, name: string, idx: string, p: string) {
    && CommaPrefix(p, idx) && IdxPlace(father, name, p) in m
    && forall q :: CommaPrefix(q, idx) && |q| > |p| ==> IdxPlace(father, name, q) !in m
  }

  ghost predicate NoPrefix(m: Store, father: int, name: string, idx: string) {
    forall q :: CommaPrefix(q, idx) ==> IdxPlace(father, name, q) !in m
  }

  ghost predicate LongestWins(m: Store, father: int, name: string, idx: string, r: Option<Slot>) {
    match r
    case None => NoPrefix(m, father, name, idx)
    case Some(s) => exists p :: Longest(m, father, name, idx, p) && m[IdxPlace(father, name, p)] == s
  }

  /** The value of the longest prefix, or without one (or where it is a directory) the value
      without index. */
  ghost predicate ArrLookup(m: Store, name: string, idx: string, r: Option<string>) {
    var plain := ValueAt(m, PlaceOf(Key(0, name, None)));
    && (NoPrefix(m, 0, name, idx) ==> r == plain)
    && forall p :: Longest(m, 0, name, idx, p) ==>
      r == var v := ValueAt(m, IdxPlace(0, name, p)); if v.Some? then v else plain
  }

  lemma LongestIsUnique(m: Store, father: int, name: string, idx: string, r: Option<Slot>)
    requires LongestWins(m, father, name, idx, r)
    ensures r.None? <==> NoPrefix(m, father, name, idx)
    ensures forall p :: Longest(m, father, name, idx, p) ==> r == Some(m[IdxPlace(father, name, p)])
  {
    forall p | Longest(m, father, name, idx, p) ensures r == Some(m[IdxPlace(father, name, p)]) {
      assert r.Some?;
      var q :| Longest(m, father, name, idx, q) && m[IdxPlace(father, name, q)] == r.value;
      assert |p| == |q| && p == idx[..|p|] && q == idx[..|q|];
    }
  }

  /** rindex for a comma. */
  function LastComma(s: string): (r: Option<nat>)
    ensures r.Some? ==> r.value < |s| && s[r.value] == ',' && forall i :: r.value < i < |s| ==> s[i] != ','
    ensures r.None? ==> forall i :: 0 <= i < |s| ==> s[i] != ','
  {
    if s == [] then None
    else if s[|s| - 1] == ',' then Some(|s| - 1)
    else LastComma(s[..|s| - 1])
  }

  lemma NoCommaNoPrefix(idx: string)
    requires LastComma(idx) == None
    ensures forall q :: CommaPrefix(q, idx) ==> q == idx
  {
  }

  lemma WholeWins(m: Store, father: int, name: string, idx: string)
    requires IdxPlace(father, name, idx) in m
    ensures LongestWins(m, father, name, idx, Some(m[IdxPlace(father, name, idx)]))
  {
  }

  lemma ShorterWins(m: Store, father: int, name: string, idx: string, s: nat, r: Option<Slot>)
    requires IdxPlace(father, name, idx) !in m && LastComma(idx) == Some(s)
    requires LongestWins(m, father, name, idx[..s], r)
    ensures LongestWins(m, father, name, idx, r)
  {
    ShorterPrefixes(idx, s);
    if r.Some? {
      var p :| Longest(m, father, name, idx[..s], p) && m[IdxPlace(father, name, p)] == r.value;
      assert Longest(m, father, name, idx, p);
    }
  }

  /** The shorter comma-prefixes are those of what comes before the last comma. */
  lemma ShorterPrefixes(idx: string, s: nat)
    requires LastComma(idx) == Some(s)
    ensures forall q :: CommaPrefix(q, idx) <==> q == idx || CommaPrefix(q, idx[..s])
  {
  }

  // --- The list ---

  class CvList {
    var list: array<Cell>
    var maxnum: int
    var numbufs: nat
    ghost var items: seq<Entry>
    ghost var store: Store

    constructor ()
      ensures Valid() && fresh(list) && store == map[] && maxnum == 0 && numbufs == 0
    {
      list := new Cell[0];
      maxnum, numbufs := 0, 0;
      items, store := [], map[];
    }

    ghost predicate Layout()
      reads this`list, this`items, list
    {
      if list.Length == 0 then items == []
      else
        && list.Length == |items| + 1 && list[|items|] == End
        && forall i :: 0 <= i < |items| ==> list[i] == Cv(items[i])
    }

    ghost predicate Valid()
      reads this`list, this`items, this`store, list
    {
      Layout() && Sorted(items) && Uniform(store) && Represents(items, store)
    }

    method SearchPos(k: Key) returns (p: nat)
      requires Layout() && list.Length > 0
      ensures IsPos(items, k, p)
    {
      p := 0;
      while list[p].Cv?
        invariant p <= |items| && forall i :: 0 <= i < p ==> Cmp(items[i].key, k) < 0
        decreases |items| - p
      {
        var cmp := CmpCv(list[p].e.key, k);
        if cmp >= 0 { return; }
        p := p + 1;
      }
    }

    /** search_ppos: the entry of that place, if the map has one. */
    method SearchPpos(k: Key) returns (r: Option<Slot>)
      requires Valid()
      ensures r == if PlaceOf(k) in store then Some(store[PlaceOf(k)]) else None
    {
      ghost var place := PlaceOf(k);
      if list.Length == 0 { return None; }
      var p := SearchPos(k);
      if place in store {
        ghost var j :| 0 <= j < |items| && PlaceAt(items, j) == place;
        PosFinds(items, k, p, store, j);
      }
      if list[p].End? { return None; }
      var cmp := CmpCv(list[p].e.key, k);
      CmpZero(items[p].key, k);
      assert PlaceAt(items, p) in store;
      if cmp != 0 { return None; }
      r := Some(Slot(list[p].e.isDir, list[p].e.body));
    }

    /** realloc by one entry, cleared. */
    method Grow()
      requires Layout() && list.Length > 0
      modifies this`list
      ensures fresh(list) && list.Length == |items| + 2
      ensures list[|items|] == End && list[|items| + 1] == End
      ensures forall i :: 0 <= i < |items| ==> list[i] == Cv(items[i])
    {
      var before := list;
      var q := new Cell[list.Length + 1](i requires 0 <= i <= before.Length reads before =>
                                           if i < before.Length then before[i] else End);
      list := q;
    }

    /** The loop that moves the entries from p on up by one. */
    method ShiftUp(p: nat)
      requires list.Length == |items| + 2 && p <= |items| && list[|items|] == End && list[|items| + 1] == End
      requires forall i :: 0 <= i < |items| ==> list[i] == Cv(items[i])
      modifies list
      ensures forall i :: 0 <= i < p ==> list[i] == Cv(items[i])
      ensures forall i :: p < i <= |items| ==> list[i] == Cv(items[i - 1])
      ensures list[|items| + 1] == End
    {
      var q := p;
      while list[q].Cv?
        invariant p <= q <= |items|
        decreases |items| - q
      {
        q := q + 1;
      }
      while q != p
        invariant p <= q <= |items|
        invariant forall i :: 0 <= i < q ==> list[i] == Cv(items[i])
        invariant forall i :: q < i <= |items| ==> list[i] == Cv(items[i - 1])
        invariant list[|items| + 1] == End
        decreases q
      {
        list[q] := list[q - 1];
        q := q - 1;
      }
    }

    /** The new entry goes to position p. */
    method InsertAt(p: nat, e: Entry)
      requires Layout() && p <= |items|
      modifies this`list, this`items, list
      ensures Layout() && fresh(list) && items == old(items[..p] + [e] + items[p..])
    {
      if list.Length == 0 {
        list := new Cell[2](i => if i == 0 then Cv(e) else End);
        items := [e];
        return;
      }
      Grow();
      ShiftUp(p);
      list[p] := Cv(e);
      items := items[..p] + [e] + items[p..];
    }

    /** The union member of the entry at p is overwritten; its flags stay. */
    method Overwrite(p: nat, body: Body)
      requires Layout() && p < |items|
      modifies this`items, list
      ensures Layout() && items == old(items[p := items[p].(body := body)])
    {
      list[p] := Cv(list[p].e.(body := body));
      items := items[p := items[p].(body := body)];
    }

    /** The entry is there. */
    method Replace(p: nat, isDir: bool, body: Body)
      requires Valid() && p < |items|
      modifies this`items, this`store, list
      ensures Valid() && store == Stored(old(store), old(PlaceAt(items, p)), isDir, body)
    {
      store := Stored(store, PlaceAt(items, p), isDir, body);
      Overwrite(p, ValPart(body));
      ReplacedIsStored(old(items), old(store), p, isDir, body, items, store);
    }

    /** insert_val_into_list. */
    method InsertVal(k: Key, isDir: bool, body: Body)
      requires Valid() && KindFits(store, PlaceOf(k))
      modifies this`list, this`items, this`store, list
      ensures Valid() && (list == old(list) || fresh(list))
      ensures store == Stored(old(store), PlaceOf(k), isDir, body)
    {
      var e := Entry(k, isDir, body);
      var p := 0;
      if list.Length > 0 {
        p := SearchPos(k);
        if list[p].Cv? {
          var cmp := CmpCv(list[p].e.key, k);
          CmpZero(items[p].key, k);
          if cmp == 0 {
            Replace(p, isDir, body);
            return;
          }
        }
      }
      NotStored(items, store, k, p);
      FitsAll(items, store, k);
      InsertSorted(items, e, p);
      RepresentsInsert(items, store, e, p);
      UniformStored(store, PlaceOf(k), isDir, body);
      store := Stored(store, PlaceOf(k), isDir, body);
      InsertAt(p, e);
    }

    /** search_ppos_recidx: the index loses its last part until an entry is found. */
    method SearchRecIdx(father: int, name: string, idx: Option<string>) returns (r: Option<Slot>)
      requires Valid()
      ensures name == "" ==> r == None
      ensures name != "" && idx.None? ==> r == At(store, PlaceOf(Key(father, name, None)))
      ensures name != "" && idx.Some? ==> LongestWins(store, father, name, idx.value, r)
      decreases if idx.Some? then |idx.value| else 0
    {
      if name == "" { return None; }
      r := SearchPpos(Key(father, name, idx));
      if idx.None? { return; }
      if r.Some? {
        WholeWins(store, father, name, idx.value);
        return;
      }
      var s := LastComma(idx.value);
      if s.None? {
        NoCommaNoPrefix(idx.value);
        return;
      }
      r := SearchRecIdx(father, name, Some(idx.value[..s.value]));
      ShorterWins(store, father, name, idx.value, s.value, r);
    }

    /** cfn_getarrnodef for a name without a slash. */
    method GetArrNoDef(name: string, idx: Option<string>) returns (r: Option<string>)
      requires Valid()
      ensures name == "" ==> r == None
      ensures name != "" && idx.None? ==> r == ValueAt(store, PlaceOf(Key(0, name, None)))
      ensures name != "" && idx.Some? ==>
        exists s :: LongestWins(store, 0, name, idx.value, s) && r == if s.Some? then ValueIn(s.value) else None
    {
      var s := SearchRecIdx(0, name, idx);
      r := if s.None? then None else ValueIn(s.value);
    }

    /** cfn_getarr for a name without a slash: the value of the longest comma-prefix of the index
        that is stored, else the one without index; in a list of values, nothing only when none
        of these is stored. */
    method GetArr(name: string, idx: Option<string>) returns (r: Option<string>)
      requires Valid()
      ensures name == "" ==> r == None
      ensures name != "" && idx.None? ==> r == ValueAt(store, PlaceOf(Key(0, name, None)))
      ensures name != "" && idx.Some? ==> ArrLookup(store, name, idx.value, r)
      ensures name != "" && idx.Some? && OnlyValues(store) ==>
        (r == None <==> NoPrefix(store, 0, name, idx.value) && PlaceOf(Key(0, name, None)) !in store)
    {
      r := GetArrNoDef(name, idx);
      if name != "" && idx.Some? {
        ghost var s :| LongestWins(store, 0, name, idx.value, s) && r == if s.Some? then ValueIn(s.value) else None;
        LongestIsUnique(store, 0, name, idx.value, s);
      }
      if r.None? && idx.Some? { r := GetArrNoDef(name, None); }
    }
  }

  /** The indices of values to be stored are of the kinds that their names have, and of the same
      kind among themselves. */
  ghost predicate AllFit(m: Store, ops: seq<(Key, string)>) {
    && (forall i :: 0 <= i < |ops| ==> KindFits(m, PlaceOf(ops[i].0)))
    && forall i, j :: 0 <= i < j < |ops| ==> Comparable(ops[i].0, ops[j].0)
  }

  lemma {:induction false} NextFits(m: Store, ops: seq<(Key, string)>, i: nat, j: nat)
    requires AllFit(m, ops) && i <= j < |ops|
    ensures KindFits(StoredAll(m, ops[..i]), PlaceOf(ops[j].0))
  {
    if i > 0 {
      assert ops[..i][..i - 1] == ops[..i - 1];
      NextFits(m, ops, i - 1, j);
      assert Comparable(ops[i - 1].0, ops[j].0);
    }
  }

  /** Values stored one after the other, so that LastValueWins and OthersStay speak of the list. */
  method InsertAll(l: CvList, ops: seq<(Key, string)>)
    requires l.Valid() && AllFit(l.store, ops)
    modifies l`list, l`items, l`store, l.list
    ensures l.Valid() && (l.list == old(l.list) || fresh(l.list))
    ensures l.store == StoredAll(old(l.store), ops)
  {
    for i := 0 to |ops|
      invariant l.Valid() && (l.list == old(l.list) || fresh(l.list))
      invariant l.store == StoredAll(old(l.store), ops[..i])
    {
      assert ops[..i + 1][..i] == ops[..i] && ops[..i + 1][i] == ops[i];
      NextFits(old(l.store), ops, i, i);
      l.InsertVal(ops[i].0, false, Val(ops[i].1));
    }
    assert ops[..|ops|] == ops;
  }

  lemma ReplacedIsStored(items: seq<Entry>, m: Store, p: nat, isDir: bool, body: Body, items': seq<Entry>, m': Store)
    requires Sorted(items) && Uniform(m) && Represents(items, m) && p < |items|
    requires items' == items[p := items[p].(body := ValPart(body))] && m' == Stored(m, PlaceAt(items, p), isDir, body)
    ensures Sorted(items') && Uniform(m') && Represents(items', m')
  {
    RepresentsReplace(items, m, p, ValPart(body));
    assert PlaceAt(items, p) in m;
    UniformStored(m, PlaceAt(items, p), isDir, body);
  }

  /** If the entry found is not the one asked for, the map does not have it. */
  lemma NotStored(items: seq<Entry>, m: Store, k: Key, p: nat)
    requires Sorted(items) && Uniform(m) && Represents(items, m) && IsPos(items, k, p)
    requires p < |items| ==> PlaceAt(items, p) != PlaceOf(k)
    ensures PlaceOf(k) !in m
  {
    if PlaceOf(k) in m {
      var j :| 0 <= j < |items| && PlaceAt(items, j) == PlaceOf(k);
      PosFinds(items, k, p, m, j);
    }
  }
}
