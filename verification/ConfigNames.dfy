/** How the configuration store of ext/frlib/lib/base/config.c orders its keys: varcmp on names,
    cmp_cv on a directory number, a name and an index. */
module ConfigNames {
  import opened Basics

  // --- Three-way lexicographic comparison ---

  function Sign(x: int, y: int): int {
    if x < y then -1 else if x > y then 1 else 0
  }

  function Lex(a: string, b: string): (r: int)
    ensures -1 <= r <= 1
  {
    if a == [] || b == [] then Sign(|a|, |b|)
    else if a[0] != b[0] then (if a[0] < b[0] then -1 else 1)
    else Lex(a[1..], b[1..])
  }

  lemma {:induction false} LexZero(a: string, b: string)
    ensures Lex(a, b) == 0 <==> a == b
  {
    if a != [] && b != [] {
      LexZero(a[1..], b[1..]);
      assert a == [a[0]] + a[1..] && b == [b[0]] + b[1..];
    }
  }

  lemma {:induction false} LexFlip(a: string, b: string)
    ensures Lex(b, a) == -Lex(a, b)
  {
    if a != [] && b != [] { LexFlip(a[1..], b[1..]); }
  }

  lemma {:induction false} LexTransitive(a: string, b: string, c: string)
    requires Lex(a, b) <= 0 && Lex(b, c) <= 0
    ensures Lex(a, c) <= 0 && (Lex(a, c) == 0 ==> Lex(a, b) == 0 && Lex(b, c) == 0)
  {
    if a != [] && b != [] && c != [] && a[0] == b[0] && b[0] == c[0] {
      LexTransitive(a[1..], b[1..], c[1..]);
    }
  }

  // --- varcmp ---

  function Lower(c: char): char {
    if 'A' <= c <= 'Z' then c - 'A' + 'a' else c
  }

  /** Lower case, without underscores. */
  function Squash(v: string): string {
    if v == [] then []
    else if v[0] == '_' then Squash(v[1..])
    else [Lower(v[0])] + Squash(v[1..])
  }

  /** What a name means: its leading underscores, then the rest squashed. */
  function Norm(v: string): string {
    if v == [] then []
    else if v[0] == '_' then ['_'] + Norm(v[1..])
    else [Lower(v[0])] + Squash(v[1..])
  }

  /** What is left to compare at position i, at the beginning or behind it. */
  ghost function Rest(v: string, i: nat, begin: bool): string
    requires i <= |v|
  {
    if begin then Norm(v[i..]) else Squash(v[i..])
  }

  lemma RestHead(v: string, i: nat, begin: bool)
    requires i < |v| && (begin || v[i] != '_')
    ensures Rest(v, i, begin) == [Lower(v[i])] + Rest(v, i + 1, begin && v[i] == '_')
  {
  }

  /** The inner loops over underscores. */
  method SkipUnderscores(v: string, start: nat) returns (i: nat)
    requires start <= |v|
    ensures start <= i <= |v| && (i < |v| ==> v[i] != '_')
    ensures Rest(v, i, false) == Rest(v, start, false)
  {
    i := start;
    while i < |v| && v[i] == '_'
      invariant start <= i <= |v| && Rest(v, i, false) == Rest(v, start, false)
    {
      assert v[i..][0] == '_' && v[i..][1..] == v[i + 1..];
      i := i + 1;
    }
  }

  lemma LexStep(a: string, b: string, c: char, d: char)
    ensures c == d ==> Lex([c] + a, [d] + b) == Lex(a, b)
    ensures c != d ==> Lex([c] + a, [d] + b) == if c < d then -1 else 1
  {
  }

  /** Where the scan stops: at an end, or at two letters that differ. */
  ghost predicate Stopped(v: string, w: string, i: nat, j: nat, begin: bool)
    requires i <= |v| && j <= |w|
  {
    i < |v| && j < |w| ==> Lower(v[i]) != Lower(w[j]) && (begin || (v[i] != '_' && w[j] != '_'))
  }

  /** The outcome that is left to decide. */
  ghost function Left(v: string, w: string, i: nat, j: nat, begin: bool): int
    requires i <= |v| && j <= |w|
  {
    Lex(Rest(v, i, begin), Rest(w, j, begin))
  }

  lemma PassCommon(v: string, w: string, i: nat, j: nat, begin: bool, next: bool)
    requires i < |v| && j < |w| && Lower(v[i]) == Lower(w[j]) && (begin || (v[i] != '_' && w[j] != '_'))
    requires next == (begin && v[i] == '_')
    ensures Left(v, w, i, j, begin) == Left(v, w, i + 1, j + 1, next)
  {
    RestHead(v, i, begin);
    RestHead(w, j, begin);
    LexStep(Rest(v, i + 1, next), Rest(w, j + 1, next), Lower(v[i]), Lower(w[j]));
  }

  /** The skips at the top of the loop. */
  method SkipBoth(v: string, w: string, i0: nat, j0: nat, begin: bool) returns (i: nat, j: nat)
    requires i0 < |v| && j0 < |w|
    ensures i0 <= i <= |v| && j0 <= j <= |w| && Left(v, w, i, j, begin) == Left(v, w, i0, j0, begin)
    ensures i < |v| && j < |w| ==> begin || (v[i] != '_' && w[j] != '_')
  {
    i, j := i0, j0;
    if !begin && v[i] == '_' {
      i := SkipUnderscores(v, i);
      if i == |v| { return; }
    }
    // The source then tests the first name once more; an exhausted second name fails the
    // comparison that follows.
    if !begin && w[j] == '_' { j := SkipUnderscores(w, j); }
  }

  /** One turn of the main loop. */
  method Turn(v: string, w: string, i0: nat, j0: nat, begin0: bool)
    returns (stop: bool, i: nat, j: nat, begin: bool)
    requires i0 < |v| && j0 < |w|
    ensures i <= |v| && j <= |w| && Left(v, w, i, j, begin) == Left(v, w, i0, j0, begin0)
    ensures if stop then Stopped(v, w, i, j, begin) else i0 < i
  {
    i, j := SkipBoth(v, w, i0, j0, begin0);
    stop, i, j, begin := CompareHere(v, w, i, j, begin0);
  }

  /** What follows the skips: the letters at hand are compared. */
  method CompareHere(v: string, w: string, i0: nat, j0: nat, begin0: bool)
    returns (stop: bool, i: nat, j: nat, begin: bool)
    requires i0 <= |v| && j0 <= |w| && (i0 < |v| && j0 < |w| ==> begin0 || (v[i0] != '_' && w[j0] != '_'))
    ensures i <= |v| && j <= |w| && Left(v, w, i, j, begin) == Left(v, w, i0, j0, begin0)
    ensures if stop then Stopped(v, w, i, j, begin) && i == i0 else i0 < i
  {
    if i0 == |v| || j0 == |w| || Lower(v[i0]) != Lower(w[j0]) { return true, i0, j0, begin0; }
    begin := begin0 && v[i0] == '_';
    PassCommon(v, w, i0, j0, begin0, begin);
    stop, i, j := false, i0 + 1, j0 + 1;
  }

  /** The main loop: it passes over what both names have in common. */
  method ScanCommon(v: string, w: string) returns (i: nat, j: nat, begin: bool)
    ensures i <= |v| && j <= |w| && Stopped(v, w, i, j, begin)
    ensures Left(v, w, i, j, begin) == Left(v, w, 0, 0, true)
  {
    i, j, begin := 0, 0, true;
    var stop := false;
    while !stop && i < |v| && j < |w|
      invariant i <= |v| && j <= |w| && Left(v, w, i, j, begin) == Left(v, w, 0, 0, true)
      invariant stop ==> Stopped(v, w, i, j, begin)
      decreases !stop, |v| - i
    {
      stop, i, j, begin := Turn(v, w, i, j, begin);
    }
  }

  /** varcmp: the order of the normalised names. */
  method VarCmp(v: string, w: string) returns (r: int)
    ensures r == Lex(Norm(v), Norm(w))
  {
    assert v[0..] == v && w[0..] == w;
    var i, j, begin := ScanCommon(v, w);
    if !begin {
      i := SkipUnderscores(v, i);
      j := SkipUnderscores(w, j);
    }
    if i < |v| { RestHead(v, i, begin); }
    if j < |w| { RestHead(w, j, begin); }
    if i == |v| && j == |w| { return 0; }
    if i == |v| { return -1; }
    if j == |w| { return 1; }
    ghost var a, b := Rest(v, i + 1, begin && v[i] == '_'), Rest(w, j + 1, begin && w[j] == '_');
    LexStep(a, b, Lower(v[i]), Lower(w[j]));
    r := if Lower(v[i]) < Lower(w[j]) then -1 else 1;
  }

  // --- Indices ---

  predicate IsDigit(c: char) {
    '0' <= c <= '9'
  }

  /** isnumstr; it also takes the empty string. */
  predicate IsNum(s: string) {
    forall i :: 0 <= i < |s| ==> IsDigit(s[i])
  }

  /** atoi on digits. */
  function Atoi(s: string): nat
    requires IsNum(s)
  {
    if s == [] then 0 else 10 * Atoi(s[..|s| - 1]) + (s[|s| - 1] - '0') as nat
  }

  function LowerAll(s: string): (r: string)
    ensures |r| == |s| && forall i :: 0 <= i < |s| ==> r[i] == Lower(s[i])
  {
    seq(|s|, i requires 0 <= i < |s| => Lower(s[i]))
  }

  /** The comparison of two indices in cmp_cv: numbers as numbers, all else as text. */
  function IdxCmp(a: Option<string>, b: Option<string>): int {
    match (a, b)
    case (None, Some(_)) => -1
    case (None, None) => 0
    case (Some(_), None) => 1
    case (Some(s), Some(t)) =>
      if IsNum(s) && IsNum(t) then Sign(Atoi(s), Atoi(t)) else Lex(LowerAll(s), LowerAll(t))
  }

  /** What an index means. */
  datatype Index = NoIndex | Number(n: nat) | Text(s: string)

  function IndexOf(a: Option<string>): Index {
    match a
    case None => NoIndex
    case Some(s) => if IsNum(s) then Number(Atoi(s)) else Text(LowerAll(s))
  }

  lemma LowerKeepsNum(s: string)
    ensures IsNum(LowerAll(s)) == IsNum(s)
  {
  }

  /** For all indices whatever, the comparison is 0 exactly when they mean the same. */
  lemma IdxCmpZero(a: Option<string>, b: Option<string>)
    ensures IdxCmp(a, b) == 0 <==> IndexOf(a) == IndexOf(b)
  {
    if a.Some? && b.Some? {
      LowerKeepsNum(a.value);
      LowerKeepsNum(b.value);
      LexZero(LowerAll(a.value), LowerAll(b.value));
    }
  }

  function Rank(i: Index): int {
    match i case NoIndex => 0 case Number(_) => 1 case Text(_) => 2
  }

  function IndexOrder(a: Index, b: Index): (r: int)
    ensures -1 <= r <= 1
  {
    match (a, b)
    case (Number(m), Number(n)) => Sign(m, n)
    case (Text(s), Text(t)) => Lex(s, t)
    case _ => Sign(Rank(a), Rank(b))
  }

  /** Not one decimal index and one that is not. */
  predicate Unmixed(a: Option<string>, b: Option<string>) {
    a.Some? && b.Some? ==> IsNum(a.value) == IsNum(b.value)
  }

  lemma IdxCmpIsOrder(a: Option<string>, b: Option<string>)
    requires Unmixed(a, b)
    ensures IdxCmp(a, b) == IndexOrder(IndexOf(a), IndexOf(b))
  {
  }

  /** Two decimal indices a <= b and an x that is not decimal, such that x comes after b and before a
      as text. */
  predicate Clash(a: Option<string>, b: Option<string>, x: Option<string>) {
    && a.Some? && b.Some? && x.Some? && IsNum(a.value) && IsNum(b.value) && !IsNum(x.value)
    && Atoi(a.value) <= Atoi(b.value)
    && Lex(LowerAll(b.value), LowerAll(x.value)) < 0 && Lex(LowerAll(x.value), LowerAll(a.value)) < 0
  }

  /** The comparison does not carry over from x, y and y, z to x, z. */
  predicate Broken(x: Option<string>, y: Option<string>, z: Option<string>) {
    IdxCmp(x, y) <= 0 && IdxCmp(y, z) <= 0 && IdxCmp(x, z) > 0
  }

  lemma IdxCmpFlip(a: Option<string>, b: Option<string>)
    ensures IdxCmp(b, a) == -IdxCmp(a, b)
  {
    if a.Some? && b.Some? { LexFlip(LowerAll(a.value), LowerAll(b.value)); }
  }

  /** Where at most one of three indices is decimal, all comparisons are of text. */
  lemma TextNotBroken(x: string, y: string, z: string)
    requires (!IsNum(x) && !IsNum(y)) || (!IsNum(y) && !IsNum(z)) || (!IsNum(x) && !IsNum(z))
    ensures !Broken(Some(x), Some(y), Some(z))
  {
    var a, b, c := LowerAll(x), LowerAll(y), LowerAll(z);
    if Lex(a, b) <= 0 && Lex(b, c) <= 0 { LexTransitive(a, b, c); }
  }

  /** A comparison that does not carry over is a clash, whichever index is the one that is not decimal. */
  lemma BrokenIsClash(x: Option<string>, y: Option<string>, z: Option<string>)
    requires Broken(x, y, z)
    ensures Clash(x, y, z) || Clash(y, z, x) || Clash(z, x, y)
  {
    IdxCmpFlip(x, z);
    IdxCmpFlip(x, y);
    IdxCmpFlip(y, z);
    IdxCmpZero(x, y);
    IdxCmpZero(y, z);
    assert x.Some? && y.Some? && z.Some?;
    TextBroken(x.value, y.value, z.value);
  }

  /** Broken comparisons involve exactly two decimal indices. */
  lemma TextBroken(x: string, y: string, z: string)
    requires Broken(Some(x), Some(y), Some(z))
    ensures (IsNum(x) && IsNum(y) && !IsNum(z)) || (IsNum(y) && IsNum(z) && !IsNum(x)) || (IsNum(z) && IsNum(x) && !IsNum(y))
  {
    var two := (!IsNum(x) && !IsNum(y)) || (!IsNum(y) && !IsNum(z)) || (!IsNum(x) && !IsNum(z));
    if two { TextNotBroken(x, y, z); }
  }

  lemma ClashBreaks(a: Option<string>, b: Option<string>, x: Option<string>)
    requires Clash(a, b, x)
    ensures Broken(a, b, x)
  {
    LexFlip(LowerAll(x.value), LowerAll(a.value));
  }

  ghost predicate TransitiveOn(s: set<Option<string>>) {
    forall x, y, z :: x in s && y in s && z in s ==> !Broken(x, y, z)
  }

  ghost predicate ClashIn(s: set<Option<string>>) {
    exists a, b, x :: a in s && b in s && x in s && Clash(a, b, x)
  }

  /** The comparison is transitive on a set of indices exactly if there is no clash among them. */
  lemma TransitiveIffNoClash(s: set<Option<string>>)
    ensures TransitiveOn(s) <==> !ClashIn(s)
  {
    if x, y, z :| x in s && y in s && z in s && Broken(x, y, z) { BrokenIsClash(x, y, z); }
    if a, b, x :| a in s && b in s && x in s && Clash(a, b, x) { ClashBreaks(a, b, x); }
  }

  /** At an input: 9 < 10 < 1a < 9. */
  lemma MixedIndicesCycle()
    ensures IdxCmp(Some("9"), Some("10")) < 0 && IdxCmp(Some("10"), Some("1a")) < 0 && IdxCmp(Some("1a"), Some("9")) < 0
    ensures Clash(Some("9"), Some("10"), Some("1a"))
  {
    assert Atoi("9") == 9 by { assert "9"[..0] == ""; }
    assert Atoi("10") == 10 by { assert "10"[..1] == "1" && "1"[..0] == ""; }
    assert !IsNum("1a") by { assert !IsDigit("1a"[1]); }
    assert LowerAll("10") == "10" && LowerAll("1a") == "1a" && LowerAll("9") == "9";
    assert "10"[1..] == "0" && "1a"[1..] == "a";
  }

  // --- cmp_cv ---

  /** The key of an entry as it is written. */
  datatype Key = Key(father: int, name: string, idx: Option<string>)

  /** A key as it counts: a directory, and a name and an index in it. */
  datatype Seg = Seg(name: string, idx: Index)
  datatype Place = Place(father: int, seg: Seg)

  function SegOf(k: Key): Seg {
    Seg(Norm(k.name), IndexOf(k.idx))
  }

  function PlaceOf(k: Key): Place {
    Place(k.father, SegOf(k))
  }

  ghost function Cmp(a: Key, b: Key): int {
    if a.father != b.father then Sign(a.father, b.father)
    else if Lex(Norm(a.name), Norm(b.name)) != 0 then Lex(Norm(a.name), Norm(b.name))
    else IdxCmp(a.idx, b.idx)
  }

  /** cmp_cv on two entries that are there. */
  method CmpCv(a: Key, b: Key) returns (r: int)
    ensures r == Cmp(a, b)
  {
    if a.father < b.father { return -1; }
    if a.father > b.father { return 1; }
    r := VarCmp(a.name, b.name);
    if r != 0 { return; }
    r := IdxCmp(a.idx, b.idx);
  }

  function Order(a: Place, b: Place): (r: int)
    ensures -1 <= r <= 1
  {
    if a.father != b.father then Sign(a.father, b.father)
    else if Lex(a.seg.name, b.seg.name) != 0 then Lex(a.seg.name, b.seg.name)
    else IndexOrder(a.seg.idx, b.seg.idx)
  }

  /** cmp_cv is 0 exactly for keys that name the same place. */
  lemma CmpZero(a: Key, b: Key)
    ensures Cmp(a, b) == 0 <==> PlaceOf(a) == PlaceOf(b)
  {
    LexZero(Norm(a.name), Norm(b.name));
    IdxCmpZero(a.idx, b.idx);
  }

  /** Two keys whose indices may be compared. */
  predicate Comparable(a: Key, b: Key) {
    a.father == b.father && Norm(a.name) == Norm(b.name) ==> Unmixed(a.idx, b.idx)
  }

  lemma CmpIsOrder(a: Key, b: Key)
    requires Comparable(a, b)
    ensures Cmp(a, b) == Order(PlaceOf(a), PlaceOf(b))
  {
    LexZero(Norm(a.name), Norm(b.name));
    if a.father == b.father && Norm(a.name) == Norm(b.name) { IdxCmpIsOrder(a.idx, b.idx); }
  }

  ghost predicate CmpTransitiveOn(s: set<Key>) {
    forall x, y, z :: x in s && y in s && z in s && Cmp(x, y) <= 0 && Cmp(y, z) <= 0 ==> Cmp(x, z) <= 0
  }

  /** Keys of one variable in one directory whose indices clash. */
  predicate KeyClash(a: Key, b: Key, x: Key) {
    && a.father == b.father == x.father && Norm(a.name) == Norm(b.name) == Norm(x.name)
    && Clash(a.idx, b.idx, x.idx)
  }

  lemma CmpBroken(x: Key, y: Key, z: Key)
    requires Cmp(x, y) <= 0 && Cmp(y, z) <= 0 && Cmp(x, z) > 0
    ensures x.father == y.father == z.father && Norm(x.name) == Norm(y.name) == Norm(z.name) && Broken(x.idx, y.idx, z.idx)
  {
    NameLaws(Norm(x.name), Norm(y.name), Norm(z.name));
    if Lex(Norm(x.name), Norm(y.name)) <= 0 && Lex(Norm(y.name), Norm(z.name)) <= 0 {
      LexTransitive(Norm(x.name), Norm(y.name), Norm(z.name));
    }
  }

  lemma KeyClashBreaks(a: Key, b: Key, x: Key)
    requires KeyClash(a, b, x)
    ensures Cmp(a, b) <= 0 && Cmp(b, x) <= 0 && Cmp(a, x) > 0
  {
    ClashBreaks(a.idx, b.idx, x.idx);
    LexZero(Norm(a.name), Norm(a.name));
  }

  /** cmp_cv is transitive on a set of keys exactly if no variable in it has clashing indices. */
  lemma CmpTransitiveIffNoClash(s: set<Key>)
    ensures CmpTransitiveOn(s) <==> !exists a, b, x :: a in s && b in s && x in s && KeyClash(a, b, x)
  {
    if x, y, z :| x in s && y in s && z in s && Cmp(x, y) <= 0 && Cmp(y, z) <= 0 && Cmp(x, z) > 0 {
      CmpBroken(x, y, z);
      BrokenIsClash(x.idx, y.idx, z.idx);
      assert KeyClash(x, y, z) || KeyClash(y, z, x) || KeyClash(z, x, y);
    }
    if a, b, x :| a in s && b in s && x in s && KeyClash(a, b, x) { KeyClashBreaks(a, b, x); }
  }

  lemma IndexOrderLaws(a: Index, b: Index, c: Index)
    ensures IndexOrder(a, b) == 0 <==> a == b
    ensures IndexOrder(b, a) == -IndexOrder(a, b)
    ensures IndexOrder(a, b) < 0 && IndexOrder(b, c) < 0 ==> IndexOrder(a, c) < 0
  {
    if a.Text? && b.Text? {
      LexZero(a.s, b.s);
      LexFlip(a.s, b.s);
      if c.Text? && Lex(a.s, b.s) < 0 && Lex(b.s, c.s) < 0 { LexTransitive(a.s, b.s, c.s); }
    }
  }

  /** The order of the places is total. */
  lemma OrderLaws(a: Place, b: Place, c: Place)
    ensures Order(a, b) == 0 <==> a == b
    ensures Order(b, a) == -Order(a, b)
    ensures Order(a, b) < 0 && Order(b, c) < 0 ==> Order(a, c) < 0
  {
    NameLaws(a.seg.name, b.seg.name, c.seg.name);
    IndexOrderLaws(a.seg.idx, b.seg.idx, c.seg.idx);
  }

  lemma NameLaws(a: string, b: string, c: string)
    ensures Lex(a, b) == 0 <==> a == b
    ensures Lex(b, a) == -Lex(a, b)
    ensures Lex(b, c) == 0 <==> b == c
    ensures Lex(a, c) == 0 <==> a == c
    ensures Lex(a, b) < 0 && Lex(b, c) < 0 ==> Lex(a, c) < 0
  {
    LexZero(a, b);
    LexZero(b, c);
    LexZero(a, c);
    LexFlip(a, b);
    if Lex(a, b) < 0 && Lex(b, c) < 0 { LexTransitive(a, b, c); }
  }

  /** varcmp is a total preorder whose ties are the names that normalise to the same. */
  lemma VarCmpIsPreorder(u: string, v: string, w: string)
    ensures Lex(Norm(u), Norm(v)) == 0 <==> Norm(u) == Norm(v)
    ensures Lex(Norm(v), Norm(u)) == -Lex(Norm(u), Norm(v))
    ensures Lex(Norm(u), Norm(v)) <= 0 && Lex(Norm(v), Norm(w)) <= 0 ==> Lex(Norm(u), Norm(w)) <= 0
  {
    NameLaws(Norm(u), Norm(v), Norm(w));
    if Lex(Norm(u), Norm(v)) <= 0 && Lex(Norm(v), Norm(w)) <= 0 { LexTransitive(Norm(u), Norm(v), Norm(w)); }
  }
}
