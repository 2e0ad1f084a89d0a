/** The interval pool of ext/frlib/lib/base/ipool.c: a set of 64-bit numbers kept as an array of
    ranges, sorted, disjoint and never adjacent, changed in place.

    All C arithmetic is on uint64_t and wraps; `Wrap` marks the places where it could. */
module RangePool {
  import opened Basics

  type u64 = x: int | 0 <= x < U64
  type i32 = x: int | -0x8000_0000 <= x < 0x8000_0000

  function Wrap(x: int): u64 {
    x % U64
  }

  datatype Range = Range(b: u64, e: u64)

  datatype Result = Ok | OutOfRange | NoMem | NotFound

  // --- the set a sequence of ranges stands for ---

  predicate In(r: Range, x: int) {
    r.b <= x <= r.e
  }

  predicate Has(s: seq<Range>, x: int) {
    exists i :: 0 <= i < |s| && In(s[i], x)
  }

  /** t stands for s with b..e added. */
  ghost predicate IsUnion(t: seq<Range>, s: seq<Range>, b: int, e: int) {
    forall x :: Has(t, x) <==> (Has(s, x) || b <= x <= e)
  }

  /** t stands for s with b..e taken out. */
  ghost predicate IsDifference(t: seq<Range>, s: seq<Range>, b: int, e: int) {
    forall x :: Has(t, x) <==> (Has(s, x) && !(b <= x <= e))
  }

  /** Non-empty ranges in order, with at least one number between neighbours. */
  predicate Sorted(s: seq<Range>) {
    && (forall i :: 0 <= i < |s| ==> s[i].b <= s[i].e)
    && (forall i, j :: 0 <= i < j < |s| ==> s[i].e + 1 < s[j].b)
  }

  /** The gap makes the representation canonical: equal sets are equal sequences. */
  lemma {:induction false} SortedIsCanonical(s: seq<Range>, t: seq<Range>)
    requires Sorted(s) && Sorted(t)
    requires forall x :: Has(s, x) <==> Has(t, x)
    ensures s == t
  {
    if s == [] {
      if t != [] { SomethingIn(t); }
    } else if t == [] {
      SomethingIn(s);
    } else {
      HeadsAgree(s, t);
      forall x ensures Has(s[1..], x) <==> Has(t[1..], x) {
        TailHas(s, x);
        TailHas(t, x);
      }
      SortedIsCanonical(s[1..], t[1..]);
      assert s == [s[0]] + s[1..] && t == [t[0]] + t[1..];
    }
  }

  lemma SomethingIn(s: seq<Range>)
    requires Sorted(s) && s != []
    ensures Has(s, s[0].b)
  {
  }

  lemma TailHas(s: seq<Range>, x: int)
    requires Sorted(s) && s != []
    ensures Has(s[1..], x) <==> (Has(s, x) && x > s[0].e)
  {
  }

  lemma HeadsAgree(s: seq<Range>, t: seq<Range>)
    requires Sorted(s) && Sorted(t) && s != [] && t != []
    requires forall x :: Has(s, x) <==> Has(t, x)
    ensures s[0] == t[0]
  {
    HeadBelow(s, t);
    HeadBelow(t, s);
  }

  lemma HeadBelow(s: seq<Range>, t: seq<Range>)
    requires Sorted(s) && Sorted(t) && s != [] && t != []
    requires forall x :: Has(s, x) <==> Has(t, x)
    ensures t[0].b <= s[0].b
    ensures t[0].b == s[0].b ==> t[0].e >= s[0].e
  {
    assert In(s[0], s[0].b) && Has(s, s[0].b);
    assert Has(t, s[0].b);
    var x := t[0].e + 1;
    assert !Has(t, x);
    assert s[0].b <= x <= s[0].e ==> In(s[0], x);
  }

  // --- replacing a stretch of ranges ---

  /** s with ranges p up to but not including q replaced by m. */
  function Splice(s: seq<Range>, p: nat, m: seq<Range>, q: nat): seq<Range>
    requires p <= q <= |s|
  {
    s[..p] + m + s[q..]
  }

  lemma SpliceHas(s: seq<Range>, p: nat, m: seq<Range>, q: nat, x: int)
    requires p <= q <= |s|
    ensures Has(Splice(s, p, m, q), x) <==> (Has(s[..p], x) || Has(m, x) || Has(s[q..], x))
  {
    var t := Splice(s, p, m, q);
    if i :| 0 <= i < |t| && In(t[i], x) {
      if i < p {
        assert In(s[..p][i], x);
      } else if i < p + |m| {
        assert In(m[i - p], x);
      } else {
        assert In(s[q..][i - p - |m|], x);
      }
    }
    if i :| 0 <= i < p && In(s[..p][i], x) { assert In(t[i], x); }
    if i :| 0 <= i < |m| && In(m[i], x) { assert In(t[p + i], x); }
    if i :| 0 <= i < |s| - q && In(s[q..][i], x) { assert In(t[p + |m| + i], x); }
  }

  lemma SpliceUpdate(s: seq<Range>, p: nat, l: seq<Range>, q: nat, r: Range)
    requires p <= q < |s|
    ensures Splice(s, p, l, q)[p + |l| := r] == Splice(s, p, l + [r], q + 1)
  {
  }

  lemma PrefixHas(s: seq<Range>, i: nat, x: int)
    requires i < |s|
    ensures Has(s[..i + 1], x) <==> (Has(s[..i], x) || In(s[i], x))
  {
  }

  lemma OneHas(r: Range, x: int)
    ensures Has([r], x) <==> In(r, x)
  {
    assert In([r][0], x) == In(r, x);
  }

  /** The ranges that b..e overlaps or touches are exactly p up to q. */
  predicate Touched(s: seq<Range>, p: nat, q: nat, b: int, e: int)
    requires p <= q <= |s|
  {
    && (forall i :: 0 <= i < p ==> s[i].e + 1 < b)
    && (forall i :: p <= i < q ==> (s[i].e + 1 >= b && e + 1 >= s[i].b))
    && (forall i :: q <= i < |s| ==> e + 1 < s[i].b)
  }

  /** b..e overlaps or touches some range. */
  predicate Adjoins(s: seq<Range>, b: int, e: int) {
    exists i :: 0 <= i < |s| && e + 1 >= s[i].b && s[i].e + 1 >= b
  }

  /** The single range that takes the place of b..e and everything it touches. */
  predicate Joins(s: seq<Range>, p: nat, q: nat, b: int, e: int, r: Range)
    requires p <= q <= |s|
  {
    && r.b <= b <= e <= r.e
    && (r.b == b || (p < q && r.b == s[p].b)) && (r.e == e || (p < q && r.e == s[q - 1].e))
    && (p < q ==> (r.b <= s[p].b && s[q - 1].e <= r.e))
  }

  lemma UnionIsSorted(s: seq<Range>, p: nat, q: nat, b: int, e: int, r: Range)
    requires Sorted(s) && p <= q <= |s| && Touched(s, p, q, b, e) && Joins(s, p, q, b, e, r)
    ensures Sorted(Splice(s, p, [r], q))
  {
  }

  lemma StretchHas(s: seq<Range>, p: nat, q: nat, x: int)
    requires p <= q <= |s|
    ensures Has(s, x) <==> (Has(s[..p], x) || Has(s[p..q], x) || Has(s[q..], x))
  {
    SpliceHas(s, p, s[p..q], q, x);
    assert Splice(s, p, s[p..q], q) == s;
  }

  lemma JoinHas(s: seq<Range>, p: nat, q: nat, b: int, e: int, r: Range, x: int)
    requires Sorted(s) && p <= q <= |s| && Touched(s, p, q, b, e) && Joins(s, p, q, b, e, r)
    ensures In(r, x) <==> (Has(s[p..q], x) || b <= x <= e)
  {
    var c := s[p..q];
    if In(r, x) && x < b { assert In(c[0], x); }
    if In(r, x) && x > e { assert In(c[q - 1 - p], x); }
    if i :| 0 <= i < |c| && In(c[i], x) { assert c[i] == s[p + i]; }
  }

  lemma UnionHas(s: seq<Range>, p: nat, q: nat, b: int, e: int, r: Range, x: int)
    requires Sorted(s) && p <= q <= |s| && Touched(s, p, q, b, e) && Joins(s, p, q, b, e, r)
    ensures Has(Splice(s, p, [r], q), x) <==> (Has(s, x) || b <= x <= e)
  {
    SpliceHas(s, p, [r], q, x);
    StretchHas(s, p, q, x);
    OneHas(r, x);
    JoinHas(s, p, q, b, e, r, x);
  }

  /** Adding b..e is set union. */
  lemma UnionCorrect(s: seq<Range>, p: nat, q: nat, b: int, e: int, r: Range)
    requires Sorted(s) && p <= q <= |s| && Touched(s, p, q, b, e) && Joins(s, p, q, b, e, r)
    ensures Sorted(Splice(s, p, [r], q))
    ensures IsUnion(Splice(s, p, [r], q), s, b, e)
  {
    UnionIsSorted(s, p, q, b, e, r);
    forall x { UnionHas(s, p, q, b, e, r, x); }
  }

  /** b..e touches range p, and no range before it. */
  predicate FirstTouched(s: seq<Range>, p: nat, b: int, e: int)
    requires p < |s|
  {
    && (forall k :: 0 <= k < p ==> (e + 1 < s[k].b || s[k].e + 1 < b))
    && e + 1 >= s[p].b && s[p].e + 1 >= b
  }

  lemma BetweenNeighbours(s: seq<Range>, i: nat, b: int, e: int)
    requires Sorted(s) && i <= |s| && b <= e && !Adjoins(s, b, e)
    requires (forall k :: 0 <= k < i ==> s[k].b < b) && (i < |s| ==> b <= s[i].b)
    ensures Touched(s, i, i, b, e)
  {
    forall k | 0 <= k < |s| ensures if k < i then s[k].e + 1 < b else e + 1 < s[k].b {
      assert !(e + 1 >= s[k].b && s[k].e + 1 >= b);
      if i < k { assert s[i].e + 1 < s[k].b; }
    }
  }

  /** Widening range p downwards is the union when b..e ends inside it. */
  lemma WidenCorrect(s: seq<Range>, p: nat, b: u64, e: u64)
    requires Sorted(s) && p < |s| && FirstTouched(s, p, b, e) && b <= e <= s[p].e
    ensures var t := s[p := Range(if b < s[p].b then b else s[p].b, s[p].e)];
      Sorted(t) && IsUnion(t, s, b, e)
  {
    var r := Range(if b < s[p].b then b else s[p].b, s[p].e);
    assert s[p := r] == Splice(s, p, [r], p + 1);
    UnionCorrect(s, p, p + 1, b, e, r);
  }

  /** Widening it upwards too: q is the first later range reaching to e or beyond, and joins in
      if b..e touches it. */
  lemma SwallowCorrect(s: seq<Range>, p: nat, q: nat, b: u64, e: u64, r: Range, q': nat)
    requires Sorted(s) && p < q <= |s| && FirstTouched(s, p, b, e) && b <= e && s[p].e < e
    requires forall k :: p < k < q ==> s[k].e < e
    requires q < |s| ==> e <= s[q].e
    requires r.b == if b < s[p].b then b else s[p].b
    requires if q < |s| && e >= s[q].b - 1 then (q' == q + 1 && r.e == s[q].e) else (q' == q && r.e == e)
    ensures Sorted(Splice(s, p, [r], q'))
    ensures IsUnion(Splice(s, p, [r], q'), s, b, e)
  {
    UnionCorrect(s, p, q', b, e, r);
  }

  /** m is what b..e leaves of the ranges p up to q. */
  ghost predicate Leaves(s: seq<Range>, p: nat, q: nat, b: int, e: int, m: seq<Range>)
    requires p <= q <= |s|
  {
    && Sorted(m)
    && (forall i :: 0 <= i < |m| ==> p < q && s[p].b <= m[i].b && m[i].e <= s[q - 1].e)
    && IsDifference(m, s[p..q], b, e)
  }

  /** Removing b..e is set difference. */
  lemma DifferenceCorrect(s: seq<Range>, p: nat, q: nat, b: int, e: int, m: seq<Range>)
    requires Sorted(s) && p <= q <= |s| && Leaves(s, p, q, b, e, m)
    requires forall i :: 0 <= i < p ==> s[i].e < b
    requires forall i :: q <= i < |s| ==> e < s[i].b
    ensures Sorted(Splice(s, p, m, q))
    ensures IsDifference(Splice(s, p, m, q), s, b, e)
  {
    var t := Splice(s, p, m, q);
    forall i, j | 0 <= i < j < |t| ensures t[i].e + 1 < t[j].b {
      assert t[i] == if i < p then s[i] else if i < p + |m| then m[i - p] else s[i - p - |m| + q];
      assert t[j] == if j < p then s[j] else if j < p + |m| then m[j - p] else s[j - p - |m| + q];
    }
    forall x ensures Has(t, x) <==> (Has(s, x) && !(b <= x <= e)) {
      DifferenceHas(s, p, q, b, e, m, x);
    }
  }

  lemma DifferenceHas(s: seq<Range>, p: nat, q: nat, b: int, e: int, m: seq<Range>, x: int)
    requires Sorted(s) && p <= q <= |s| && Leaves(s, p, q, b, e, m)
    requires forall i :: 0 <= i < p ==> s[i].e < b
    requires forall i :: q <= i < |s| ==> e < s[i].b
    ensures Has(Splice(s, p, m, q), x) <==> (Has(s, x) && !(b <= x <= e))
  {
    SpliceHas(s, p, m, q, x);
    StretchHas(s, p, q, x);
  }

  /** b..e lies inside one range with room on both sides, so removing it needs one range more. */
  predicate StrictlyInside(s: seq<Range>, b: int, e: int) {
    exists i :: 0 <= i < |s| && Encloses(s[i], b, e)
  }

  predicate Encloses(r: Range, b: int, e: int) {
    r.b < b && e < r.e
  }

  /** t is s without b..e and without the rest of the range around it. */
  ghost predicate LostTail(s: seq<Range>, b: int, e: int, t: seq<Range>) {
    exists r :: r in s && Encloses(r, b, e) && IsDifference(t, s, b, r.e)
  }

  /** t stands for s without the numbers of d. */
  ghost predicate IsWithout(t: seq<Range>, s: seq<Range>, d: seq<Range>) {
    forall x :: Has(t, x) <==> (Has(s, x) && !Has(d, x))
  }

  /** Taking range i of d out of s needs memory that is not there when its turn comes. */
  predicate SplitFails(s: seq<Range>, d: seq<Range>, memory: nat -> bool, i: nat) {
    i < |d| && !memory(i) && StrictlyInside(s, d[i].b, d[i].e)
  }

  /** What is left when memory runs out on the way: the ranges of d before the first that fails are
      gone, and that one took the rest of the range around it along. */
  ghost predicate LostOnTheWay(s: seq<Range>, d: seq<Range>, memory: nat -> bool, t: seq<Range>) {
    exists i: nat, u :: FirstFailure(s, d, memory, i) && Sorted(u) && IsWithout(u, s, d[..i]) && LostTail(u, d[i].b, d[i].e, t)
  }

  predicate FirstFailure(s: seq<Range>, d: seq<Range>, memory: nat -> bool, i: nat) {
    SplitFails(s, d, memory, i) && forall j :: 0 <= j < i ==> !SplitFails(s, d, memory, j)
  }

  /** b..e overlaps range p first, and q is the first range from p on that reaches beyond e. */
  predicate Overlapped(s: seq<Range>, p: nat, q: nat, b: int, e: int)
    requires p <= q <= |s|
  {
    && p < |s| && s[p].b <= e && b <= s[p].e
    && (forall k :: 0 <= k < p ==> s[k].e < b)
    && (forall k :: p <= k < q ==> s[k].e <= e)
    && (q < |s| ==> e < s[q].e)
  }

  function Stub(keep: bool, b: int, e: int): seq<Range>
    requires keep ==> 0 <= b < U64 && 0 <= e < U64
  {
    if keep then [Range(b, e)] else []
  }

  /** What removing b..e leaves in place of ranges p up to q: the part of p below b, and the part
      of q above e. */
  lemma CutCorrect(s: seq<Range>, p: nat, q: nat, b: u64, e: u64, m: seq<Range>, q': nat)
    requires Sorted(s) && b <= e && p <= q <= |s| && Overlapped(s, p, q, b, e)
    requires !(p == q && s[p].b < b)
    requires if q < |s| && s[q].b <= e
             then (q' == q + 1 && m == Stub(s[p].b < b, s[p].b, b - 1) + [Range(e + 1, s[q].e)])
             else (q' == q && m == Stub(s[p].b < b, s[p].b, b - 1))
    ensures Sorted(Splice(s, p, m, q'))
    ensures IsDifference(Splice(s, p, m, q'), s, b, e)
  {
    CutLeaves(s, p, q, b, e, m, q');
    DifferenceCorrect(s, p, q', b, e, m);
  }

  lemma CutLeaves(s: seq<Range>, p: nat, q: nat, b: u64, e: u64, m: seq<Range>, q': nat)
    requires Sorted(s) && b <= e && p <= q <= |s| && Overlapped(s, p, q, b, e)
    requires !(p == q && s[p].b < b)
    requires if q < |s| && s[q].b <= e
             then (q' == q + 1 && m == Stub(s[p].b < b, s[p].b, b - 1) + [Range(e + 1, s[q].e)])
             else (q' == q && m == Stub(s[p].b < b, s[p].b, b - 1))
    ensures Leaves(s, p, q', b, e, m)
  {
    var left, right := s[p].b < b, q < |s| && s[q].b <= e;
    var l, r := Stub(left, s[p].b, b - 1), Stub(right, e + 1, if right then s[q].e else 0);
    assert m == l + r;
    forall x ensures Has(m, x) <==> (Has(s[p..q'], x) && !(b <= x <= e)) {
      CutHas(s, p, q, b, e, x);
    }
  }

  lemma TrimCorrect(s: seq<Range>, p: nat, q: nat, b: u64, e: u64, l: seq<Range>, t: seq<Range>)
    requires Sorted(s) && b <= e && p <= q < |s| && Overlapped(s, p, q, b, e)
    requires !(p == q && s[p].b < b) && l == Stub(s[p].b < b, s[p].b, b - 1)
    requires t == if e >= s[q].b then Splice(s, p, l + [Range(e + 1, s[q].e)], q + 1) else Splice(s, p, l, q)
    ensures Sorted(t) && IsDifference(t, s, b, e)
  {
    if e >= s[q].b {
      TrimReached(s, p, q, b, e, l + [Range(e + 1, s[q].e)]);
    } else {
      TrimBefore(s, p, q, b, e, l);
    }
  }

  /** b..e reaches into range q. */
  lemma TrimReached(s: seq<Range>, p: nat, q: nat, b: u64, e: u64, m: seq<Range>)
    requires Sorted(s) && b <= e && p <= q < |s| && Overlapped(s, p, q, b, e) && e >= s[q].b
    requires !(p == q && s[p].b < b) && m == Stub(s[p].b < b, s[p].b, b - 1) + [Range(e + 1, s[q].e)]
    ensures Sorted(Splice(s, p, m, q + 1)) && IsDifference(Splice(s, p, m, q + 1), s, b, e)
  {
    CutCorrect(s, p, q, b, e, m, q + 1);
  }

  /** b..e ends before range q. */
  lemma TrimBefore(s: seq<Range>, p: nat, q: nat, b: u64, e: u64, m: seq<Range>)
    requires Sorted(s) && b <= e && p <= q < |s| && Overlapped(s, p, q, b, e) && e < s[q].b
    requires !(p == q && s[p].b < b) && m == Stub(s[p].b < b, s[p].b, b - 1)
    ensures Sorted(Splice(s, p, m, q)) && IsDifference(Splice(s, p, m, q), s, b, e)
  {
    CutCorrect(s, p, q, b, e, m, q);
  }

  lemma TrimIsSplice(s: seq<Range>, p: nat, q: nat, l: seq<Range>, r: Range, t: seq<Range>, i: nat)
    requires p <= q < |s| && t == s[..p] + l + s[q..] && i == p + |l|
    ensures t == Splice(s, p, l, q) && t[i := r] == Splice(s, p, l + [r], q + 1)
  {
    SpliceUpdate(s, p, l, q, r);
  }

  lemma CutHas(s: seq<Range>, p: nat, q: nat, b: u64, e: u64, x: int)
    requires Sorted(s) && b <= e && p <= q <= |s| && Overlapped(s, p, q, b, e)
    requires !(p == q && s[p].b < b)
    ensures var left, right := s[p].b < b, q < |s| && s[q].b <= e;
      var l, r := Stub(left, s[p].b, b - 1), Stub(right, e + 1, if right then s[q].e else 0);
      Has(l + r, x) <==> (Has(s[p..if right then q + 1 else q], x) && !(b <= x <= e))
  {
    var left, right := s[p].b < b, q < |s| && s[q].b <= e;
    var l, r := Stub(left, s[p].b, b - 1), Stub(right, e + 1, if right then s[q].e else 0);
    var c := s[p..if right then q + 1 else q];
    SpliceHas(l, |l|, r, |l|, x);
    assert Splice(l, |l|, r, |l|) == l + r && l[..|l|] == l && l[|l|..] == [];
    if i :| 0 <= i < |c| && In(c[i], x) {
      assert c[i] == s[p + i];
      if x < b {
        assert i == 0 && In(l[0], x);
      } else if x > e {
        assert p + i == q && In(r[0], x);
      }
    }
    if left && In(l[0], x) { assert In(c[0], x); }
    if right && In(r[0], x) { assert In(c[q - p], x); }
  }

  /** Cutting a range off at b, and giving it back from e + 1 on. */
  lemma SplitCorrect(s: seq<Range>, i: nat, b: u64, e: u64, t: seq<Range>)
    requires Sorted(s) && i < |s| && b <= e && Encloses(s[i], b, e)
    requires t == s[i := Range(s[i].b, b - 1)]
    ensures Sorted(t) && !Adjoins(t, e + 1, s[i].e)
    ensures IsDifference(t, s, b, s[i].e)
    ensures forall x :: (Has(t, x) || e + 1 <= x <= s[i].e) <==> (Has(s, x) && !(b <= x <= e))
  {
    var l := [Range(s[i].b, b - 1)];
    assert t == Splice(s, i, l, i + 1);
    CutCorrect(s, i, i + 1, b, s[i].e, l, i + 1);
    forall x ensures e + 1 <= x <= s[i].e ==> Has(s, x) {
      if e + 1 <= x <= s[i].e { assert In(s[i], x); }
    }
  }

  // --- first fit ---

  /** p->e - p->b + 1 as uint64_t: 0 for the range that covers everything. */
  function Size(r: Range): u64 {
    Wrap(r.e - r.b + 1)
  }

  /** The index ipool_choose stops at: the first range that looks large enough. */
  function FirstFit(s: seq<Range>, num: i32): (i: nat)
    ensures i <= |s|
  {
    if s == [] then 0
    else if Size(s[0]) >= num % U32 then 0
    else FirstFit(s[1..], num) + 1
  }

  lemma {:induction false} FirstFitFits(s: seq<Range>, num: i32)
    ensures var i := FirstFit(s, num);
      && (forall k :: 0 <= k < i ==> Size(s[k]) < num % U32)
      && (i < |s| ==> Size(s[i]) >= num % U32)
  {
    if s != [] && Size(s[0]) < num % U32 { FirstFitFits(s[1..], num); }
  }

  lemma {:induction false} FirstFitIs(s: seq<Range>, num: i32, i: nat)
    requires i <= |s|
    requires forall k :: 0 <= k < i ==> Size(s[k]) < num % U32
    requires i < |s| ==> Size(s[i]) >= num % U32
    ensures FirstFit(s, num) == i
  {
    FirstFitFits(s, num);
  }

  /** Strictly inside one range is inside the set with a number to spare on both sides. */
  lemma InsideIsBlock(s: seq<Range>, b: int, e: int)
    requires Sorted(s) && b <= e
    ensures StrictlyInside(s, b, e) <==> Block(s, b - 1, e - b + 3)
  {
    if Block(s, b - 1, e - b + 3) {
      var i := BlockInOneRange(s, b - 1, e - b + 3);
      assert Encloses(s[i], b, e);
    }
  }

  /** The ranges of d taken out before do not make the difference, since they do not adjoin. */
  lemma StillInside(s: seq<Range>, d: seq<Range>, k: nat, t: seq<Range>)
    requires Sorted(s) && Sorted(d) && k < |d| && Sorted(t) && IsWithout(t, s, d[..k])
    ensures StrictlyInside(t, d[k].b, d[k].e) <==> StrictlyInside(s, d[k].b, d[k].e)
  {
    var b: int, e: int := d[k].b, d[k].e;
    InsideIsBlock(s, b, e);
    InsideIsBlock(t, b, e);
    forall x | b - 1 <= x ensures !Has(d[..k], x) {
    }
  }

  lemma NextWithout(s: seq<Range>, d: seq<Range>, i: nat, t: seq<Range>, t': seq<Range>)
    requires i < |d| && IsWithout(t, s, d[..i]) && IsDifference(t', t, d[i].b, d[i].e)
    ensures IsWithout(t', s, d[..i + 1])
  {
    forall x ensures Has(d[..i + 1], x) <==> (Has(d[..i], x) || In(d[i], x)) { PrefixHas(d, i, x); }
  }

  /** num consecutive numbers from y on are in the set. */
  ghost predicate Block(s: seq<Range>, y: int, num: int) {
    forall x :: y <= x < y + num ==> Has(s, x)
  }

  /** A block lies inside one range, because neighbours are never adjacent. */
  lemma {:induction false} BlockInOneRange(s: seq<Range>, y: int, num: int) returns (i: nat)
    requires Sorted(s) && num > 0 && Block(s, y, num)
    ensures i < |s| && s[i].b <= y && y + num - 1 <= s[i].e
    decreases num
  {
    if num == 1 {
      assert Has(s, y);
      i :| 0 <= i < |s| && In(s[i], y);
    } else {
      i := BlockInOneRange(s, y, num - 1);
      assert Has(s, y + num - 1);
      var j: nat :| j < |s| && In(s[j], y + num - 1);
      assert i == j;
    }
  }

  lemma RangeIsBlock(s: seq<Range>, i: nat, num: int)
    requires i < |s| && s[i].b + num - 1 <= s[i].e
    ensures Block(s, s[i].b, num)
  {
  }

  const FULL: seq<Range> := [Range(0, U64 - 1)]

  /** First fit, exactly: for a positive count and any pool but the full one, a fit exists just
      when the pool has that many consecutive numbers, and it starts at the least possible
      place.  The full pool is the one exception: its size wraps to 0 and it is passed over. */
  lemma FirstFitIsLeast(s: seq<Range>, num: i32)
    requires Sorted(s) && num > 0
    ensures s == FULL ==> (FirstFit(s, num) == |s| && Block(s, 0, num))
    ensures s != FULL ==> (FirstFit(s, num) < |s| <==> exists y :: Block(s, y, num))
    ensures FirstFit(s, num) < |s| ==>
      var y0 := s[FirstFit(s, num)].b;
      y0 + num <= U64 && Block(s, y0, num) && forall y :: y < y0 ==> !Block(s, y, num)
  {
    var f := FirstFit(s, num);
    FirstFitFits(s, num);
    if s == FULL {
      RangeIsBlock(s, 0, num);
    } else {
      SizesDoNotWrap(s);
    }
    if f < |s| {
      RangeIsBlock(s, f, num);
    }
    forall y | Block(s, y, num) && s != FULL
      ensures f < |s| && s[f].b <= y
    {
      var i := BlockInOneRange(s, y, num);
      assert Size(s[i]) >= num;
    }
  }

  lemma SizesDoNotWrap(s: seq<Range>)
    requires Sorted(s) && s != FULL
    ensures forall i :: 0 <= i < |s| ==> Size(s[i]) == s[i].e - s[i].b + 1
  {
    forall i | 0 <= i < |s| ensures Size(s[i]) == s[i].e - s[i].b + 1 {
      assert i > 0 ==> s[0].e + 1 < s[i].b;
      assert i + 1 < |s| ==> s[i].e + 1 < s[i + 1].b;
      assert |s| == 1 ==> s == [s[0]];
    }
  }

  /** What ipool_choose makes of pool s: its result, the start it reports, and the new pool t. */
  ghost predicate Chosen(s: seq<Range>, num: i32, rc: Result, out: u64, t: seq<Range>) {
    if num == 0 then rc == OutOfRange && out == 0 && t == s
    else if FirstFit(s, num) == |s| then rc == NotFound && out == 0 && t == s
    else
      var b := s[FirstFit(s, num)].b;
      var e := Wrap(b + num - 1);
      out == b && if e < b then rc == OutOfRange && t == s else rc == Ok && IsDifference(t, s, b, e)
  }

  /** For a positive count ipool_choose fails exactly when the pool holds no such block or is the
      full pool, and otherwise takes out exactly the block at the least possible start. */
  lemma ChooseTakesLeastBlock(s: seq<Range>, num: i32, rc: Result, out: u64, t: seq<Range>)
    requires Sorted(s) && num > 0 && Chosen(s, num, rc, out, t)
    ensures rc == Ok || rc == NotFound
    ensures rc == NotFound <==> (s == FULL || !exists y :: Block(s, y, num))
    ensures rc == NotFound ==> t == s
    ensures rc == Ok ==>
      out + num <= U64 && Block(s, out, num) && IsDifference(t, s, out, out + num - 1)
      && forall y :: y < out ==> !Block(s, y, num)
  {
    FirstFitIsLeast(s, num);
    if s == FULL { RangeIsBlock(s, 0, num); }
  }

  /** A negative count is not refused: taken as unsigned it finds any range of 2^32 + num numbers.
      If that range starts at -num or below, everything from its start up to that start plus
      2^64 - 1 + num goes; otherwise the call fails after all. */
  lemma ChooseNegative(s: seq<Range>, num: i32, rc: Result, out: u64, t: seq<Range>)
    requires num < 0 && Chosen(s, num, rc, out, t)
    ensures rc == NotFound <==> forall i :: 0 <= i < |s| ==> Size(s[i]) < U32 + num
    ensures rc == Ok <==> (rc != NotFound && out + num <= 0)
    ensures rc == Ok ==> IsDifference(t, s, out, U64 + out + num - 1)
    ensures rc == Ok || (t == s && (rc == NotFound || rc == OutOfRange))
  {
    FirstFitFits(s, num);
    assert num % U32 == U32 + num;
    WrapNegative(out, num);
  }

  /** At an input: from the pool 0 .. 2^32, a count of -1 takes everything. */
  lemma MinusOneTakesAll(rc: Result, out: u64, t: seq<Range>)
    requires Chosen([Range(0, U32)], -1, rc, out, t) && Sorted(t)
    ensures rc == Ok && out == 0 && t == []
  {
    var s := [Range(0, U32)];
    ChooseNegative(s, -1, rc, out, t);
    FirstFitFits(s, -1);
    assert Size(s[0]) == U32 + 1;
    if t != [] { SomethingIn(t); }
  }

  lemma WrapNegative(b: u64, num: i32)
    requires num < 0
    ensures Wrap(b + num - 1) == if b + num <= 0 then U64 + b + num - 1 else b + num - 1
  {
    if b + num > 0 { assert 0 <= b + num - 1 < U64; }
  }

  /** A block cut from the start of a range never splits it. */
  lemma NotInsideAtStart(s: seq<Range>, i: nat, e: int)
    requires Sorted(s) && i < |s|
    ensures s[i].b <= e ==> !StrictlyInside(s, s[i].b, e)
  {
  }

  /** The tail that started at q now starts at p and ends at `to`. */
  lemma GapClosed(was: seq<Range>, now: seq<Range>, p: nat, q: nat, to: nat, len: nat)
    requires |was| == |now| && p <= q <= len <= |was| && to == p + (len - q)
    requires forall j :: 0 <= j < p ==> now[j] == was[j]
    requires forall j :: p <= j < to ==> now[j] == was[j + q - p]
    ensures now[..to] == was[..p] + was[q..len]
  {
  }

  // --- the pool itself ---

  class IPool {
    var list: array<Range>
    var len: nat

    ghost predicate Valid()
      reads this, list
    {
      len <= list.Length && Sorted(list[..len])
    }

    ghost function Ranges(): seq<Range>
      reads this, list
      requires len <= list.Length
    {
      list[..len]
    }

    constructor ()
      ensures Valid() && fresh(list) && Ranges() == []
    {
      list := new Range[0];
      len := 0;
    }

    /** Move the tail that starts at q down to p and drop what was between: the copy loop of
        ipool_add_range and the memmove of ipool_subtract_range. */
    method RemoveBetween(p: nat, q: nat)
      requires p <= q <= len <= list.Length
      modifies this`len, list
      ensures len <= list.Length
      ensures Ranges() == old(list[..p]) + old(list[q..len])
    {
      ghost var was := list[..];
      var to := CopyDown(p, q);
      GapClosed(was, list[..], p, q, to, len);
      len := to;
    }

    method CopyDown(p: nat, q: nat) returns (to: nat)
      requires p <= q <= len <= list.Length
      modifies list
      ensures to == p + (len - q)
      ensures forall j :: 0 <= j < p ==> list[j] == old(list[j])
      ensures forall j :: p <= j < to ==> list[j] == old(list[j + q - p])
    {
      to := p;
      var from := q;
      while from < len
        invariant q <= from <= len && to == p + (from - q)
        invariant forall j :: 0 <= j < p || from <= j < len ==> list[j] == old(list[j])
        invariant forall j :: p <= j < to ==> list[j] == old(list[j + q - p])
      {
        list[to] := list[from];
        to, from := to + 1, from + 1;
      }
    }

    /** Grow the array by one and shift the tail up: realloc, memmove, store. */
    method InsertAt(k: nat, r: Range)
      requires k <= len <= list.Length
      modifies this, list
      ensures len <= list.Length && fresh(list)
      ensures Ranges() == old(list[..k]) + [r] + old(list[k..len])
    {
      var bigger := new Range[len + 1];
      forall i | 0 <= i < len { bigger[i] := list[i]; }
      forall i | k <= i < len { bigger[i + 1] := bigger[i]; }
      bigger[k] := r;
      list := bigger;
      len := len + 1;
    }

    /** The first range that b..e overlaps or touches, or len. */
    method FindTouched(b: u64, e: u64) returns (i: nat)
      requires Valid() && b <= e
      ensures i <= len
      ensures forall k :: 0 <= k < i ==> (e + 1 < list[k].b || list[k].e + 1 < b)
      ensures i < len ==> (e + 1 >= list[i].b && list[i].e + 1 >= b)
    {
      i := 0;
      while i < len
        invariant i <= len
        invariant forall k :: 0 <= k < i ==> (e + 1 < list[k].b || list[k].e + 1 < b)
      {
        var p := list[i];
        if !(p.b > 0 && e < p.b - 1) && !(Wrap(p.e + 1) > 0 && b > Wrap(p.e + 1)) { return; }
        i := i + 1;
      }
    }

    /** ipool_add_range.  `memory` says whether realloc would succeed. */
    method AddRange(b: u64, e: u64, memory: bool) returns (rc: Result)
      requires Valid()
      modifies this, list
      ensures Valid() && (list == old(list) || fresh(list))
      ensures rc == OutOfRange <==> e < b
      ensures rc == NoMem <==> b <= e && !memory && !Adjoins(old(Ranges()), b, e)
      ensures rc == Ok || rc == OutOfRange || rc == NoMem
      ensures rc != Ok ==> Ranges() == old(Ranges())
      ensures rc == Ok ==> IsUnion(Ranges(), old(Ranges()), b, e)
    {
      if e < b { return OutOfRange; }
      ghost var s := Ranges();
      var p := FindTouched(b, e);
      assert forall k :: 0 <= k < len ==> list[k] == s[k];
      if p < len {
        assert Adjoins(s, b, e);
        Absorb(p, b, e);
        return Ok;
      }
      if !memory { return NoMem; }
      AddNew(b, e);
      return Ok;
    }

    /** A range that no other one touches goes to its place. */
    method AddNew(b: u64, e: u64)
      requires Valid() && b <= e && !Adjoins(Ranges(), b, e)
      modifies this, list
      ensures Valid() && fresh(list) && IsUnion(Ranges(), old(Ranges()), b, e)
    {
      ghost var s := Ranges();
      var i := 0;
      while i < len && b > list[i].b
        invariant i <= len && Ranges() == s
        invariant forall k :: 0 <= k < i ==> s[k].b < b
      {
        i := i + 1;
      }
      assert forall k :: 0 <= k < len ==> list[k] == s[k];
      BetweenNeighbours(s, i, b, e);
      InsertAt(i, Range(b, e));
      assert Ranges() == Splice(s, i, [Range(b, e)], i);
      UnionCorrect(s, i, i, b, e, Range(b, e));
    }

    /** The first range after p that is not covered by numbers up to e. */
    method CoveredUpTo(p: nat, e: u64) returns (q: nat)
      requires p < len <= list.Length
      ensures p < q <= len
      ensures forall k :: p < k < q ==> list[k].e < e
      ensures q < len ==> e <= list[q].e
    {
      q := p + 1;
      while q < len && e > list[q].e
        invariant p < q <= len
        invariant forall k :: p < k < q ==> list[k].e < e
      {
        q := q + 1;
      }
    }

    /** Widen range p, which b..e touches, and swallow the ranges after it that are now covered. */
    method Absorb(p: nat, b: u64, e: u64)
      requires Valid() && b <= e && p < len
      requires forall k :: 0 <= k < p ==> (e + 1 < list[k].b || list[k].e + 1 < b)
      requires e + 1 >= list[p].b && list[p].e + 1 >= b
      modifies this`len, list
      ensures Valid()
      ensures IsUnion(Ranges(), old(Ranges()), b, e)
    {
      ghost var s := Ranges();
      ghost var b1 := if b < s[p].b then b else s[p].b;
      if b < list[p].b { list[p] := Range(b, list[p].e); }
      assert Ranges() == s[p := Range(b1, s[p].e)];
      if e <= list[p].e {
        WidenCorrect(s, p, b, e);
        return;
      }
      Swallow(p, b, e, s);
    }

    /** The second half of it: the range was widened downwards and now grows to e. */
    method Swallow(p: nat, b: u64, e: u64, ghost s: seq<Range>)
      requires p < len <= list.Length && |s| == len && Sorted(s)
      requires b <= e && FirstTouched(s, p, b, e) && s[p].e < e
      requires Ranges() == s[p := Range(if b < s[p].b then b else s[p].b, s[p].e)]
      modifies this`len, list
      ensures Valid()
      ensures IsUnion(Ranges(), s, b, e)
    {
      assert forall k :: 0 <= k < len ==> list[k] == Ranges()[k];
      list[p] := Range(list[p].b, e);
      var q := CoveredUpTo(p, e);
      assert forall k :: p < k < len ==> list[k] == s[k];
      ghost var q0 := q;
      if q < len && e >= list[q].b - 1 {
        list[p] := Range(list[p].b, list[q].e);
        q := q + 1;
      }
      ghost var r := list[p];
      SwallowCorrect(s, p, q0, b, e, r, q);
      assert list[..p] == s[..p] by { assert forall k :: 0 <= k < p ==> list[k] == s[k]; }
      assert list[..p + 1] == list[..p] + [r] && list[q..len] == s[q..];
      CloseGap(p, q, s, r);
    }

    /** Range p has taken in the ranges up to q: drop those. */
    method CloseGap(p: nat, q: nat, ghost s: seq<Range>, ghost r: Range)
      requires p < q <= len <= list.Length && |s| == len
      requires list[..p + 1] == s[..p] + [r] && list[q..len] == s[q..]
      modifies this`len, list
      ensures len <= list.Length && Ranges() == Splice(s, p, [r], q)
    {
      if q > p + 1 {
        RemoveBetween(p + 1, q);
      } else {
        assert list[..len] == list[..p + 1] + list[q..len];
      }
    }
  
    method FindOverlap(b: u64, e: u64) returns (i: nat)
      requires Valid() && b <= e
      ensures i <= len
      ensures forall k :: 0 <= k < i ==> (e < list[k].b || list[k].e < b)
      ensures i < len ==> (list[i].b <= e && b <= list[i].e)
    {
      i := 0;
      while i < len && (e < list[i].b || b > list[i].e)
        invariant i <= len
        invariant forall k :: 0 <= k < i ==> (e < list[k].b || list[k].e < b)
      {
        i := i + 1;
      }
    }

    /** ipool_subtract_range.  Only splitting a range needs memory; if that fails, the part of the
        range above e has already been cut off and is lost. */
    method SubtractRange(b: u64, e: u64, memory: bool) returns (rc: Result)
      requires Valid()
      modifies this, list
      ensures Valid() && (list == old(list) || fresh(list))
      ensures rc == Ok || rc == OutOfRange || rc == NoMem
      ensures rc == OutOfRange <==> e < b
      ensures rc == NoMem <==> b <= e && !memory && StrictlyInside(old(Ranges()), b, e)
      ensures rc == OutOfRange ==> Ranges() == old(Ranges())
      ensures rc == Ok ==> IsDifference(Ranges(), old(Ranges()), b, e)
      ensures rc == NoMem ==> LostTail(old(Ranges()), b, e, Ranges())
    {
      if e < b { return OutOfRange; }
      ghost var s := Ranges();
      var i := FindOverlap(b, e);
      assert forall k :: 0 <= k < len ==> list[k] == s[k];
      assert StrictlyInside(s, b, e) <==> i < len && Encloses(s[i], b, e);
      if i >= len {
        forall x ensures Has(s, x) <==> (Has(s, x) && !(b <= x <= e)) { }
        return Ok;
      }
      if b > list[i].b && e < list[i].e {
        rc := Split(i, b, e, memory);
      } else {
        Cut(i, b, e);
        rc := Ok;
      }
    }

    /** The range around b..e loses its upper part, which is then added again. */
    method Split(i: nat, b: u64, e: u64, memory: bool) returns (rc: Result)
      requires Valid() && i < len && b <= e && Encloses(list[i], b, e)
      modifies this, list
      ensures Valid() && (list == old(list) || fresh(list))
      ensures rc == if memory then Ok else NoMem
      ensures rc == Ok ==> IsDifference(Ranges(), old(Ranges()), b, e)
      ensures rc == NoMem ==> IsDifference(Ranges(), old(Ranges()), b, old(list[i].e))
    {
      ghost var s := Ranges();
      var e2 := list[i].e;
      list[i] := Range(list[i].b, b - 1);
      ghost var t := Ranges();
      SplitCorrect(s, i, b, e, t);
      rc := AddRange(e + 1, e2, memory);
    }

    /** The other cases: the ends of b..e trim the ranges they fall into, and what is covered
        in between goes. */
    method Cut(p: nat, b: u64, e: u64)
      requires Valid() && p < len && b <= e && !Encloses(list[p], b, e)
      requires list[p].b <= e && b <= list[p].e
      requires forall k :: 0 <= k < p ==> (e < list[k].b || list[k].e < b)
      modifies this`len, list
      ensures Valid()
      ensures IsDifference(Ranges(), old(Ranges()), b, e)
    {
      ghost var s := Ranges();
      if e < list[p].e {
        list[p] := Range(e + 1, list[p].e);
        assert [] + [list[p]] == [list[p]];
        CutCorrect(s, p, p, b, e, [list[p]], p + 1);
        assert Ranges() == Splice(s, p, [list[p]], p + 1);
        return;
      }
      var i := p;
      if b > list[p].b {
        list[p] := Range(list[p].b, b - 1);
        i := p + 1;
      }
      CutRest(p, i, b, e, s);
    }

    method CutRest(p: nat, i: nat, b: u64, e: u64, ghost s: seq<Range>)
      requires len <= list.Length && |s| == len && Sorted(s) && p < len && b <= e
      requires s[p].b <= e && b <= s[p].e <= e && forall k :: 0 <= k < p ==> s[k].e < b
      requires i == (if s[p].b < b then p + 1 else p)
      requires Ranges() == if s[p].b < b then s[p := Range(s[p].b, b - 1)] else s
      modifies this`len, list
      ensures Valid()
      ensures IsDifference(Ranges(), s, b, e)
    {
      ghost var left := Stub(s[p].b < b, s[p].b, b - 1);
      assert forall k :: i <= k < len ==> list[k] == Ranges()[k] == s[k];
      assert Ranges()[..i] == s[..p] + left;
      var q := i;
      while q < len && e >= list[q].e
        invariant i <= q <= len
        invariant forall k :: i <= k < q ==> s[k].e <= e
      {
        q := q + 1;
      }
      if q >= len {
        CutCorrect(s, p, q, b, e, left, q);
        len := i;
        assert Ranges() == Splice(s, p, left, q);
        return;
      }
      TrimAt(p, i, q, b, e, s);
    }

    /** Close the gap up to q, and trim range q if b..e reaches into it. */
    method TrimAt(p: nat, i: nat, q: nat, b: u64, e: u64, ghost s: seq<Range>)
      requires i <= q < len <= list.Length && |s| == len && Sorted(s) && p < len && b <= e
      requires p <= q && Overlapped(s, p, q, b, e) && !(p == q && s[p].b < b)
      requires list[..i] == s[..p] + Stub(s[p].b < b, s[p].b, b - 1) && list[q..len] == s[q..]
      modifies this`len, list
      ensures Valid()
      ensures IsDifference(Ranges(), s, b, e)
    {
      RemoveBetween(i, q);
      ghost var t, l := Ranges(), Stub(s[p].b < b, s[p].b, b - 1);
      assert list[i] == t[i] == s[q];
      if e >= list[i].b {
        list[i] := Range(e + 1, list[i].e);
        TrimIsSplice(s, p, q, l, list[i], t, i);
        assert Ranges() == t[i := list[i]];
      }
      TrimCorrect(s, p, q, b, e, l, Ranges());
    }

    /** ipool_subtract_pool, for a pool other than this one. `memory(i)` says whether realloc would
        succeed while range i is taken out. */
    method SubtractPool(sub: IPool, memory: nat -> bool) returns (rc: Result)
      requires Valid() && sub.Valid() && sub != this && sub.list != list
      modifies this, list
      ensures Valid() && (list == old(list) || fresh(list))
      ensures rc == Ok || rc == NoMem
      ensures rc == NoMem <==> exists i :: SplitFails(old(Ranges()), old(sub.Ranges()), memory, i)
      ensures rc == Ok ==> IsWithout(Ranges(), old(Ranges()), old(sub.Ranges()))
      ensures rc == NoMem ==> LostOnTheWay(old(Ranges()), old(sub.Ranges()), memory, Ranges())
    {
      ghost var s, d := Ranges(), sub.Ranges();
      var i := 0;
      while i < sub.len
        invariant i <= sub.len && sub.Valid() && sub.Ranges() == d
        invariant Valid() && (list == old(list) || fresh(list)) && list != sub.list
        invariant IsWithout(Ranges(), s, d[..i])
        invariant forall j :: 0 <= j < i ==> !SplitFails(s, d, memory, j)
      {
        assert sub.list[i] == d[i];
        rc := SubtractNext(sub.list[i], i, memory, s, d);
        if rc != Ok { return; }
        i := i + 1;
      }
      assert d[..i] == d;
      return Ok;
    }

    /** One turn of its loop: range i of d is taken out of what is left of s. */
    method SubtractNext(r: Range, i: nat, memory: nat -> bool, ghost s: seq<Range>, ghost d: seq<Range>) returns (rc: Result)
      requires Valid() && Sorted(s) && Sorted(d) && i < |d| && r == d[i] && IsWithout(Ranges(), s, d[..i])
      requires forall j :: 0 <= j < i ==> !SplitFails(s, d, memory, j)
      modifies this, list
      ensures Valid() && (list == old(list) || fresh(list))
      ensures rc == if SplitFails(s, d, memory, i) then NoMem else Ok
      ensures rc == Ok ==> IsWithout(Ranges(), s, d[..i + 1])
      ensures rc == NoMem ==> LostOnTheWay(s, d, memory, Ranges())
    {
      ghost var t := Ranges();
      StillInside(s, d, i, t);
      rc := SubtractRange(r.b, r.e, memory(i));
      if rc == Ok {
        NextWithout(s, d, i, t, Ranges());
      } else {
        assert FirstFailure(s, d, memory, i);
        assert Sorted(t) && IsWithout(t, s, d[..i]) && LostTail(t, d[i].b, d[i].e, Ranges());
      }
    }

    /** ipool_choose.  num is a C int: compared as unsigned, then added to a uint64_t. */
    method Choose(num: i32) returns (rc: Result, out: u64)
      requires Valid()
      modifies this, list
      ensures Valid() && (list == old(list) || fresh(list))
      ensures Chosen(old(Ranges()), num, rc, out, Ranges())
    {
      out := 0;
      if num == 0 { return OutOfRange, 0; }
      var i := FindFit(num);
      if i >= len { return NotFound, 0; }
      out := list[i].b;
      NotInsideAtStart(Ranges(), i, Wrap(out + num - 1));
      rc := SubtractRange(out, Wrap(out + num - 1), true);
    }

    method FindFit(num: i32) returns (i: nat)
      requires Valid()
      ensures i == FirstFit(Ranges(), num)
    {
      ghost var s := Ranges();
      i := 0;
      while i < len && Wrap(list[i].e - list[i].b + 1) < num % U32
        invariant i <= len
        invariant forall k :: 0 <= k < i ==> Size(s[k]) < num % U32
      {
        assert list[i] == s[i];
        i := i + 1;
      }
      assert i < len ==> list[i] == s[i];
      FirstFitIs(s, num, i);
    }
  }

  // --- a client over time ---

  /** Every number of the initial pool `all` is either still free or in exactly one held block. */
  ghost predicate Accounted(all: seq<Range>, free: seq<Range>, held: seq<Range>) {
    && (forall x :: Has(all, x) <==> (Has(free, x) || Has(held, x)))
    && (forall x :: !(Has(free, x) && Has(held, x)))
    && (forall i, j, x :: 0 <= i < j < |held| ==> !(In(held[i], x) && In(held[j], x)))
  }

  lemma TakeKeepsAccounted(all: seq<Range>, free: seq<Range>, held: seq<Range>, r: Range, free': seq<Range>)
    requires Accounted(all, free, held) && IsDifference(free', free, r.b, r.e)
    requires forall x :: In(r, x) ==> Has(free, x)
    ensures Accounted(all, free', held + [r])
  {
    var held' := held + [r];
    forall x ensures Has(held', x) <==> (Has(held, x) || In(r, x)) {
      PrefixHas(held', |held|, x);
      assert held'[..|held|] == held && held'[..|held| + 1] == held';
    }
    forall i, j, x | 0 <= i < j < |held'| ensures !(In(held'[i], x) && In(held'[j], x)) {
      if j == |held| && In(held'[i], x) { assert In(held[i], x) && Has(held, x); }
    }
  }

  lemma ReturnKeepsAccounted(all: seq<Range>, free: seq<Range>, held: seq<Range>, k: nat, free': seq<Range>)
    requires Accounted(all, free, held) && k < |held| && IsUnion(free', free, held[k].b, held[k].e)
    ensures Accounted(all, free', Splice(held, k, [], k + 1))
  {
    var held' := Splice(held, k, [], k + 1);
    assert forall i :: 0 <= i < |held'| ==> held'[i] == held[if i < k then i else i + 1];
    forall x ensures Has(held, x) <==> (Has(held', x) || In(held[k], x)) {
      StretchHas(held, k, k + 1, x);
      SpliceHas(held, k, [], k + 1, x);
      assert held[k..k + 1] == [held[k]];
      OneHas(held[k], x);
    }
    forall x ensures Has(held', x) ==> !In(held[k], x) {
      if i :| 0 <= i < |held'| && In(held'[i], x) {
        assert held'[i] == held[if i < k then i else i + 1];
      }
    }
  }

  datatype Request = Take(num: i32) | Return(k: nat, memory: bool)

  /** Any run of allocations and returns, some of which may fail: free and held numbers stay
      disjoint, no number is handed out twice, and nothing is lost. */
  method Serve(pool: IPool, requests: seq<Request>) returns (held: seq<Range>)
    requires pool.Valid()
    requires forall i :: 0 <= i < |requests| && requests[i].Take? ==> requests[i].num > 0
    modifies pool, pool.list
    ensures pool.Valid() && Accounted(old(pool.Ranges()), pool.Ranges(), held)
  {
    ghost var all := pool.Ranges();
    held := [];
    for n := 0 to |requests|
      invariant pool.Valid() && (pool.list == old(pool.list) || fresh(pool.list))
      invariant Accounted(all, pool.Ranges(), held)
    {
      ghost var free := pool.Ranges();
      match requests[n] {
        case Take(num) =>
          var rc, out := pool.Choose(num);
          ChooseTakesLeastBlock(free, num, rc, out, pool.Ranges());
          if rc == Ok {
            var r := Range(out, out + num - 1);
            TakeKeepsAccounted(all, free, held, r, pool.Ranges());
            held := held + [r];
          }
        case Return(k, memory) =>
          if k < |held| {
            var rc := pool.AddRange(held[k].b, held[k].e, memory);
            if rc == Ok {
              ReturnKeepsAccounted(all, free, held, k, pool.Ranges());
              held := held[..k] + [] + held[k + 1..];
            }
          }
      }
    }
  }
}
