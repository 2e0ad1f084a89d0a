/** Which spellings of a name and of an index count as the same in ext/frlib/lib/base/config.c, letter
    by letter and by character codes: varcmp and cmp_cv take Foo_Bar for foobar and 007 for 7. */
module ConfigSpelling {
  import opened Basics
  import opened ConfigNames
  import opened ConfigList

  // --- Order ---

  /** a comes before b in a dictionary: they agree up to k, and there a ends or has the lesser char. */
  ghost predicate Before(a: string, b: string, k: nat) {
    && k <= |a| && k < |b| && a[..k] == b[..k]
    && (k == |a| || a[k] < b[k])
  }

  /** The comparison of texts is that of a dictionary. */
  lemma {:induction false} LexIsDictionary(a: string, b: string)
    ensures Lex(a, b) < 0 <==> exists k: nat :: Before(a, b, k)
  {
    if a != [] && b != [] && a[0] == b[0] {
      LexIsDictionary(a[1..], b[1..]);
      if k: nat :| Before(a[1..], b[1..], k) {
        assert a[..k + 1] == [a[0]] + a[1..][..k] && b[..k + 1] == [b[0]] + b[1..][..k];
        assert Before(a, b, k + 1);
      }
      if k: nat :| Before(a, b, k) {
        assert k > 0 && a[..k][1..] == a[1..][..k - 1] && b[..k][1..] == b[1..][..k - 1];
        assert Before(a[1..], b[1..], k - 1);
      }
    } else {
      if Lex(a, b) < 0 { assert Before(a, b, 0); }
      if k: nat :| Before(a, b, k) {
        if k > 0 { assert a[..k][0] == b[..k][0]; }
      }
    }
  }

  // --- Names ---

  /** Upper and lower case of a letter are 32 apart. */
  predicate SameLetter(c: char, d: char) {
    || c == d
    || (65 <= c as int <= 90 && d as int == c as int + 32)
    || (65 <= d as int <= 90 && c as int == d as int + 32)
  }

  lemma LowerMeans(c: char, d: char)
    ensures Lower(c) == Lower(d) <==> SameLetter(c, d)
    ensures Lower(c) == '_' <==> c == '_'
  {
  }

  function LeadingUnderscores(v: string): (n: nat)
    ensures n <= |v| && (forall i :: 0 <= i < n ==> v[i] == '_') && (n < |v| ==> v[n] != '_')
  {
    if v == [] || v[0] != '_' then 0 else 1 + LeadingUnderscores(v[1..])
  }

  function Letters(v: string): (r: string)
    ensures forall i :: 0 <= i < |r| ==> r[i] != '_'
  {
    if v == [] then [] else (if v[0] == '_' then [] else [v[0]]) + Letters(v[1..])
  }

  predicate SameText(s: string, t: string) {
    |s| == |t| && forall i :: 0 <= i < |s| ==> SameLetter(s[i], t[i])
  }

  /** The same number of leading underscores, and the same letters when all underscores are removed, up
      to case. */
  predicate SameName(v: string, w: string) {
    LeadingUnderscores(v) == LeadingUnderscores(w) && SameText(Letters(v), Letters(w))
  }

  lemma {:induction false} SquashIs(v: string)
    ensures Squash(v) == LowerAll(Letters(v))
  {
    if v != [] { SquashIs(v[1..]); }
  }

  lemma {:induction false} NormIs(v: string)
    ensures |Norm(v)| == LeadingUnderscores(v) + |Letters(v)|
    ensures forall i :: 0 <= i < LeadingUnderscores(v) ==> Norm(v)[i] == '_'
    ensures Norm(v)[LeadingUnderscores(v)..] == LowerAll(Letters(v))
  {
    if v != [] {
      if v[0] == '_' {
        NormIs(v[1..]);
        assert Letters(v) == Letters(v[1..]) && LeadingUnderscores(v) == 1 + LeadingUnderscores(v[1..]);
        OneMoreUnderscore(Norm(v[1..]), LeadingUnderscores(v[1..]), Norm(v));
      } else {
        NormOfLetter(v);
      }
    }
  }

  lemma NormOfLetter(v: string)
    requires v != [] && v[0] != '_'
    ensures LeadingUnderscores(v) == 0 && Norm(v) == LowerAll(Letters(v)) && Norm(v)[0..] == Norm(v)
  {
    SquashIs(v[1..]);
    assert Letters(v) == [v[0]] + Letters(v[1..]);
    LowerAllCons(v[0], Letters(v[1..]));
  }

  lemma OneMoreUnderscore(s: string, n: nat, t: string)
    requires n <= |s| && t == ['_'] + s && forall i :: 0 <= i < n ==> s[i] == '_'
    ensures t[n + 1..] == s[n..] && forall i :: 0 <= i < n + 1 ==> t[i] == '_'
  {
  }

  lemma LowerAllCons(c: char, s: string)
    ensures LowerAll([c] + s) == [Lower(c)] + LowerAll(s)
  {
  }

  lemma SameTextLowers(s: string, t: string)
    ensures LowerAll(s) == LowerAll(t) <==> SameText(s, t)
  {
    if LowerAll(s) == LowerAll(t) {
      forall i | 0 <= i < |s| ensures SameLetter(s[i], t[i]) {
        assert LowerAll(s)[i] == LowerAll(t)[i];
        LowerMeans(s[i], t[i]);
      }
    }
    if SameText(s, t) {
      forall i | 0 <= i < |s| ensures LowerAll(s)[i] == LowerAll(t)[i] { LowerMeans(s[i], t[i]); }
    }
  }

  /** If the normal forms agree, so do the leading underscores. */
  lemma SameUnderscores(v: string, w: string)
    requires Norm(v) == Norm(w)
    ensures LeadingUnderscores(v) >= LeadingUnderscores(w)
  {
    NormIs(v);
    NormIs(w);
    var n := LeadingUnderscores(v);
    if n < LeadingUnderscores(w) {
      assert Norm(v)[n..][0] == '_';
      LowerMeans(Letters(v)[0], '_');
    }
  }

  /** What the order of names identifies. */
  lemma NormMeans(v: string, w: string)
    ensures Norm(v) == Norm(w) <==> SameName(v, w)
  {
    NormIs(v);
    NormIs(w);
    SameTextLowers(Letters(v), Letters(w));
    if Norm(v) == Norm(w) {
      SameUnderscores(v, w);
      SameUnderscores(w, v);
    }
    if SameName(v, w) {
      var n := LeadingUnderscores(v);
      assert Norm(v) == Norm(v)[..n] + Norm(v)[n..] && Norm(w) == Norm(w)[..n] + Norm(w)[n..];
      assert Norm(v)[..n] == Norm(w)[..n];
    }
  }

  // --- Indices ---

  function Pow10(n: nat): nat {
    if n == 0 then 1 else 10 * Pow10(n - 1)
  }

  /** The decimal value: digit i from the right counts 10^i. */
  function Decimal(s: string): nat
    requires IsNum(s)
  {
    if s == [] then 0 else (s[0] as int - 48) * Pow10(|s| - 1) + Decimal(s[1..])
  }

  lemma {:induction false} DecimalSnoc(s: string, c: char)
    requires IsNum(s) && IsDigit(c)
    ensures IsNum(s + [c]) && Decimal(s + [c]) == 10 * Decimal(s) + (c as int - 48)
  {
    if s == [] {
      assert s + [c] == [c] && [c][1..] == [];
    } else {
      DecimalSnoc(s[1..], c);
      assert (s + [c])[1..] == s[1..] + [c] && (s + [c])[0] == s[0];
      TenTimes(s[0] as int - 48, Pow10(|s| - 1), Pow10(|s|));
    }
  }

  lemma TenTimes(d: int, p: int, q: int)
    requires q == 10 * p
    ensures d * q == 10 * (d * p)
  {
  }

  lemma {:induction false} AtoiIsDecimal(s: string)
    requires IsNum(s)
    ensures Atoi(s) == Decimal(s)
  {
    if s != [] {
      AtoiIsDecimal(s[..|s| - 1]);
      assert s == s[..|s| - 1] + [s[|s| - 1]];
      DecimalSnoc(s[..|s| - 1], s[|s| - 1]);
    }
  }

  /** Digits are digits by their codes. */
  lemma DigitCodes(s: string)
    ensures IsNum(s) <==> forall i :: 0 <= i < |s| ==> 48 <= s[i] as int <= 57
  {
  }

  /** Decimal texts of one length have one value exactly if they are the same; a leading zero does not
      count. */
  lemma {:induction false} SameLengthSameDigits(s: string, t: string)
    requires IsNum(s) && IsNum(t) && |s| == |t|
    ensures Atoi(s) == Atoi(t) <==> s == t
  {
    if s != [] {
      var n := |s| - 1;
      assert s == s[..n] + [s[n]] && t == t[..n] + [t[n]];
      SameLengthSameDigits(s[..n], t[..n]);
    }
  }

  lemma {:induction false} ZeroInFront(s: string)
    requires IsNum(s)
    ensures IsNum("0" + s) && Atoi("0" + s) == Atoi(s)
  {
    if s == [] {
      assert "0" + s == "0" && "0"[..0] == "";
    } else {
      var n := |s| - 1;
      ZeroInFront(s[..n]);
      assert ("0" + s)[..n + 1] == "0" + s[..n];
    }
  }

  /** With leading zeros up to a length. */
  function Filled(s: string, len: nat): (r: string)
    requires |s| <= len
    ensures |r| == len
    decreases len - |s|
  {
    if |s| == len then s else Filled("0" + s, len)
  }

  lemma {:induction false} FilledIs(s: string, len: nat)
    requires |s| <= len && IsNum(s)
    ensures IsNum(Filled(s, len)) && Atoi(Filled(s, len)) == Atoi(s)
    decreases len - |s|
  {
    if |s| < len {
      ZeroInFront(s);
      FilledIs("0" + s, len);
    }
  }

  function Max(a: nat, b: nat): nat {
    if a < b then b else a
  }

  /** The same up to leading zeros. */
  predicate SameNumber(s: string, t: string) {
    var len := Max(|s|, |t|);
    Filled(s, len) == Filled(t, len)
  }

  predicate SameIndex(a: Option<string>, b: Option<string>) {
    match (a, b)
    case (None, None) => true
    case (Some(s), Some(t)) =>
      if IsNum(s) && IsNum(t) then SameNumber(s, t) else !IsNum(s) && !IsNum(t) && SameText(s, t)
    case _ => false
  }

  /** What the comparison of indices identifies. */
  lemma IndexMeans(a: Option<string>, b: Option<string>)
    ensures IndexOf(a) == IndexOf(b) <==> SameIndex(a, b)
  {
    if a.Some? && b.Some? {
      var s, t := a.value, b.value;
      if IsNum(s) && IsNum(t) {
        var len := Max(|s|, |t|);
        FilledIs(s, len);
        FilledIs(t, len);
        SameLengthSameDigits(Filled(s, len), Filled(t, len));
      } else {
        SameTextLowers(s, t);
      }
    }
  }

  // --- Keys ---

  predicate SameKey(a: Key, b: Key) {
    a.father == b.father && SameName(a.name, b.name) && SameIndex(a.idx, b.idx)
  }

  /** Two keys are one place exactly if they are the same in this sense, and exactly then cmp_cv gives 0. */
  lemma PlaceMeans(a: Key, b: Key)
    ensures PlaceOf(a) == PlaceOf(b) <==> SameKey(a, b)
    ensures Cmp(a, b) == 0 <==> SameKey(a, b)
  {
    NormMeans(a.name, b.name);
    IndexMeans(a.idx, b.idx);
    CmpZero(a, b);
  }

  /** The order of keys: by directory; then by name, as in a dictionary; then those without an index
      first, numbers by their value, and all other indices as in a dictionary. */
  lemma KeyOrder(a: Key, b: Key)
    ensures a.father < b.father ==> Cmp(a, b) < 0
    ensures a.father == b.father && !SameName(a.name, b.name) ==>
      (Cmp(a, b) < 0 <==> exists k: nat :: Before(Norm(a.name), Norm(b.name), k))
    ensures a.father == b.father && SameName(a.name, b.name) && a.idx.None? && b.idx.Some? ==> Cmp(a, b) < 0
    ensures a.father == b.father && SameName(a.name, b.name) && a.idx.Some? && b.idx.Some? ==>
      (Cmp(a, b) < 0 <==> IndexBefore(a.idx.value, b.idx.value))
  {
    NormMeans(a.name, b.name);
    LexZero(Norm(a.name), Norm(b.name));
    LexIsDictionary(Norm(a.name), Norm(b.name));
    if a.idx.Some? && b.idx.Some? { IndexOrderIs(a.idx.value, b.idx.value); }
  }

  ghost predicate IndexBefore(s: string, t: string) {
    if IsNum(s) && IsNum(t) then Decimal(s) < Decimal(t) else exists k: nat :: Before(LowerAll(s), LowerAll(t), k)
  }

  lemma IndexOrderIs(s: string, t: string)
    ensures IdxCmp(Some(s), Some(t)) < 0 <==> IndexBefore(s, t)
  {
    if IsNum(s) && IsNum(t) {
      AtoiIsDecimal(s);
      AtoiIsDecimal(t);
    } else {
      LexIsDictionary(LowerAll(s), LowerAll(t));
    }
  }

  /** A value stored under one spelling is found under exactly the same ones; under all others what was
      there before. */
  lemma FoundUnderAnySpelling(m: Store, a: Key, b: Key, v: string)
    requires !(PlaceOf(a) in m && m[PlaceOf(a)].isDir)
    ensures ValueAt(Stored(m, PlaceOf(a), false, Val(v)), PlaceOf(b)) ==
      if SameKey(a, b) then Some(v) else ValueAt(m, PlaceOf(b))
  {
    PlaceMeans(a, b);
  }

  /** insert_val_into_list under one spelling, and then cfn_getarr under another. */
  method StoreAndGet(l: CvList, v: string, i: Option<string>, w: string, j: Option<string>, x: string) returns (r: Option<string>)
    requires l.Valid() && KindFits(l.store, PlaceOf(Key(0, v, i))) && w != ""
    requires !(PlaceOf(Key(0, v, i)) in l.store && l.store[PlaceOf(Key(0, v, i))].isDir)
    modifies l`list, l`items, l`store, l.list
    ensures l.Valid()
    ensures SameName(v, w) && SameIndex(i, j) ==> r == Some(x)
    ensures j.None? && !(SameName(v, w) && i.None?) ==> r == old(ValueAt(l.store, PlaceOf(Key(0, w, j))))
  {
    FoundUnderAnySpelling(l.store, Key(0, v, i), Key(0, w, j), x);
    l.InsertVal(Key(0, v, i), false, Val(x));
    r := l.GetArr(w, j);
    if j.Some? && IdxPlace(0, w, j.value) in l.store {
      assert CommaPrefix(j.value, j.value) && Longest(l.store, 0, w, j.value, j.value);
    }
  }
}
