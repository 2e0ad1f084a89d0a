/** What the numerals of num2roman, ext/frlib/lib/base/roman.c, look like as strings: which marks occur and
    when, how often a letter may be repeated, and in which case the letters are. With the fact that they
    read back as their number this is what makes them the numerals of that number. */
module RomanShape {
  import opened Roman

  // --- The shape of a string ---

  predicate IsLetter(c: char) {
    GetVal(c) > 0
  }

  /** The k characters from i on are one and the same letter. */
  predicate RunAt(s: string, i: nat, k: nat) {
    i + k <= |s| && i < |s| && IsLetter(s[i]) && forall j :: i <= j < i + k ==> s[j] == s[i]
  }

  /** Five, fifty and five hundred stand alone. */
  ghost predicate FivesAlone(s: string) {
    forall i: nat :: RunAt(s, i, 2) ==> GetVal(s[i]) == 1 || GetVal(s[i]) == 10 || GetVal(s[i]) == 100 || GetVal(s[i]) == 1000
  }

  ghost predicate NoRuns(s: string, k: nat) {
    forall i: nat :: !RunAt(s, i, k)
  }

  ghost predicate ThousandsAtMost(s: string, k: nat) {
    forall i: nat :: RunAt(s, i, k + 1) ==> GetVal(s[i]) != 1000
  }

  /** Among letters that stand together, values do not increase. */
  predicate Falling(s: string) {
    forall i :: 0 <= i < |s| - 1 && IsLetter(s[i]) && IsLetter(s[i + 1]) ==> GetVal(s[i]) >= GetVal(s[i + 1])
  }

  /** Without subtraction values fall and up to four equal letters stand together; with subtraction no
      more than three. Thousands never more than three, fives never two. */
  ghost predicate WellFormed(s: string, add: bool) {
    && FivesAlone(s) && ThousandsAtMost(s, 3)
    && if add then Falling(s) && NoRuns(s, 5) else NoRuns(s, 4)
  }

  // --- The letters of a number up to 3999 ---

  /** The value of the next letter, and what is left after it. */
  function V(add: bool, n: nat): int
    requires n > 0
  {
    Abs(Sub(add, n))
  }

  function N(add: bool, n: nat): nat
    requires n > 0
  {
    EffortDecreases(add, n);
    n - Sub(add, n)
  }

  lemma LettersAre(n: nat, add: bool, lcase: bool)
    requires n > 0
    ensures var s := Digits(n, add, lcase);
      s != "" && GetVal(s[0]) == V(add, n) && s[1..] == Digits(N(add, n), add, lcase) && s[0] == Letter(V(add, n), lcase)
  {
    var v, rest := V(add, n), Digits(N(add, n), add, lcase);
    assert Digits(n, add, lcase) == [Letter(v, lcase)] + rest;
    ValueIsLetter(n, add);
    LetterValue(v, lcase);
  }

  predicate LetterHas(v: int) {
    v == 1000 || v == 500 || v == 100 || v == 50 || v == 10 || v == 5 || v == 1
  }

  lemma ValueIsLetter(n: nat, add: bool)
    requires n > 0
    ensures LetterHas(V(add, n))
  {
  }

  lemma LetterValue(v: int, lcase: bool)
    requires LetterHas(v)
    ensures GetVal(Letter(v, lcase)) == v
  {
  }

  lemma StaysSmall(n: nat, add: bool)
    requires 0 < n <= 3999
    ensures N(add, n) <= 3999
  {
  }

  /** What two letters that follow each other can be. */
  lemma TwoLetters(n: nat, add: bool)
    requires 0 < n <= 3999 && N(add, n) > 0
    ensures add ==> V(add, n) >= V(add, N(add, n))
    ensures V(add, n) == V(add, N(add, n)) ==> V(add, n) == 1 || V(add, n) == 10 || V(add, n) == 100 || V(add, n) == 1000
  {
  }

  /** A letter that is repeated is no prefix. */
  lemma RepeatedIsPlain(n: nat, add: bool)
    requires 0 < n <= 3999 && N(add, n) > 0 && V(add, n) == V(add, N(add, n))
    ensures N(add, n) == n - V(add, n)
  {
  }

  /** The next k letters of n all have the value v. */
  ghost predicate SameValues(add: bool, n: nat, v: int, k: nat) {
    k > 0 ==>
      && n > 0 && V(add, n) == v
      && (k > 1 ==> Sub(add, n) == v && 0 < v < n && SameValues(add, n - v, v, k - 1))
  }

  lemma FourLetters(n: nat, add: bool, v: int)
    requires n <= 3999 && SameValues(add, n, v, 4)
    ensures add && v != 1000 && !SameValues(add, n, v, 5)
  {
    assert SameValues(add, n - v, v, 3);
    assert SameValues(add, n - 2 * v, v, 2);
    assert SameValues(add, n - 3 * v, v, 1);
    FourValues(n, add, v);
    assert SameValues(add, n, v, 5) ==> SameValues(add, n - v, v, 4);
    assert SameValues(add, n - v, v, 4) ==> SameValues(add, n - 2 * v, v, 3);
    assert SameValues(add, n - 2 * v, v, 3) ==> SameValues(add, n - 3 * v, v, 2);
    assert SameValues(add, n - 3 * v, v, 2) ==> n > 4 * v && SameValues(add, n - 4 * v, v, 1);
  }

  lemma FourValues(n: nat, add: bool, v: int)
    requires n <= 3999 && 0 < v && n > 3 * v && v == Sub(add, n)
    requires V(add, n - v) == v && V(add, n - 2 * v) == v && V(add, n - 3 * v) == v
    ensures add && v != 1000 && (n > 4 * v ==> V(add, n - 4 * v) != v)
  {
  }

  /** The same for what is at the head of a string. */
  ghost predicate HeadWell(s: string, add: bool) {
    && (RunAt(s, 0, 2) ==> GetVal(s[0]) == 1 || GetVal(s[0]) == 10 || GetVal(s[0]) == 100 || GetVal(s[0]) == 1000)
    && (RunAt(s, 0, 4) ==> add && GetVal(s[0]) != 1000) && !RunAt(s, 0, 5)
    && (add && |s| > 1 && IsLetter(s[0]) && IsLetter(s[1]) ==> GetVal(s[0]) >= GetVal(s[1]))
  }

  lemma RunInTail(s: string, i: nat, k: nat)
    requires s != "" && i > 0 && RunAt(s, i, k)
    ensures RunAt(s[1..], i - 1, k)
  {
    forall j | i - 1 <= j < i - 1 + k ensures s[1..][j] == s[1..][i - 1] { assert s[j + 1] == s[i]; }
  }

  lemma WellFormedCons(s: string, add: bool)
    requires s != "" && HeadWell(s, add) && WellFormed(s[1..], add)
    ensures WellFormed(s, add)
  {
    forall i: nat, k: nat | i > 0 && RunAt(s, i, k) ensures RunAt(s[1..], i - 1, k) && s[1..][i - 1] == s[i] { RunInTail(s, i, k); }
    if add {
      forall i | 0 <= i < |s| - 1 && IsLetter(s[i]) && IsLetter(s[i + 1]) ensures GetVal(s[i]) >= GetVal(s[i + 1]) {
        if i > 0 { assert s[1..][i - 1] == s[i] && s[1..][i] == s[i + 1]; }
      }
    }
  }

  lemma DigitsHead(n: nat, add: bool, lcase: bool)
    requires 0 < n <= 3999
    ensures HeadWell(Digits(n, add, lcase), add)
  {
    var s := Digits(n, add, lcase);
    LettersAre(n, add, lcase);
    if RunAt(s, 0, 2) || |s| > 1 {
      assert s[1..][0] == s[1];
      StaysSmall(n, add);
      LettersAre(N(add, n), add, lcase);
      TwoLetters(n, add);
    }
    if RunAt(s, 0, 4) { FourEqual(n, add, lcase, s); }
  }

  lemma {:induction false} DigitsWellFormed(n: nat, add: bool, lcase: bool)
    requires n <= 3999
    ensures WellFormed(Digits(n, add, lcase), add)
    decreases Effort(add, n)
  {
    if n > 0 {
      EffortDecreases(add, n);
      StaysSmall(n, add);
      LettersAre(n, add, lcase);
      DigitsWellFormed(N(add, n), add, lcase);
      DigitsHead(n, add, lcase);
      WellFormedCons(Digits(n, add, lcase), add);
    }
  }

  /** One letter of a run. */
  lemma NextEqual(n: nat, add: bool, lcase: bool, s: string, k: nat, v: int)
    requires 0 < n <= 3999 && s == Digits(n, add, lcase) && k >= 2 && RunAt(s, 0, k) && v == V(add, n)
    ensures Sub(add, n) == v > 0 && n > v && V(add, n - v) == v && GetVal(s[0]) == v
    ensures s[1..] == Digits(n - v, add, lcase) && RunAt(s[1..], 0, k - 1)
  {
    LettersAre(n, add, lcase);
    assert s[1..][0] == s[1] == s[0];
    StaysSmall(n, add);
    LettersAre(N(add, n), add, lcase);
    RepeatedIsPlain(n, add);
    forall j | 0 <= j < k - 1 ensures s[1..][j] == s[1..][0] { assert s[j + 1] == s[0]; }
  }

  lemma {:induction false} RunMeans(n: nat, add: bool, lcase: bool, s: string, k: nat, v: int)
    requires 0 < n <= 3999 && s == Digits(n, add, lcase) && k > 0 && RunAt(s, 0, k) && v == V(add, n)
    ensures SameValues(add, n, v, k) && GetVal(s[0]) == v
    decreases k
  {
    if k == 1 {
      LettersAre(n, add, lcase);
    } else {
      NextEqual(n, add, lcase, s, k, v);
      RunMeans(n - v, add, lcase, s[1..], k - 1, v);
    }
  }

  /** Four equal letters occur only without subtraction and below a thousand, five never. */
  lemma FourEqual(n: nat, add: bool, lcase: bool, s: string)
    requires 0 < n <= 3999 && s == Digits(n, add, lcase) && RunAt(s, 0, 4)
    ensures add && GetVal(s[0]) != 1000 && !RunAt(s, 0, 5)
  {
    var v := V(add, n);
    RunMeans(n, add, lcase, s, 4, v);
    FourLetters(n, add, v);
    if RunAt(s, 0, 5) { RunMeans(n, add, lcase, s, 5, v); }
  }

  // --- Whole numerals ---

  /** A run of letters does not reach across something that is no letter. */
  lemma RunOnOneSide(a: string, c: char, b: string, i: nat, k: nat)
    requires !IsLetter(c) && k > 0 && RunAt(a + [c] + b, i, k)
    ensures if i < |a| then RunAt(a, i, k) else i > |a| && RunAt(b, i - |a| - 1, k)
  {
    var s := a + [c] + b;
    assert s[|a|] == c;
    if i < |a| {
      forall j | i <= j < i + k ensures a[j] == a[i] { assert a[j] == s[j] && s[j] == s[i]; }
    } else {
      var i' := i - |a| - 1;
      forall j | i' <= j < i' + k ensures b[j] == b[i'] { assert b[j] == s[j + |a| + 1] && s[j + |a| + 1] == s[i]; }
    }
  }

  lemma WellFormedGlue(a: string, c: char, b: string, add: bool)
    requires WellFormed(a, add) && WellFormed(b, add) && !IsLetter(c)
    ensures WellFormed(a + [c] + b, add)
  {
    var s := a + [c] + b;
    forall i: nat, k: nat | k > 0 && RunAt(s, i, k)
      ensures if i < |a| then RunAt(a, i, k) && a[i] == s[i] else i > |a| && RunAt(b, i - |a| - 1, k) && b[i - |a| - 1] == s[i]
    {
      RunOnOneSide(a, c, b, i, k);
    }
    if add {
      forall i | 0 <= i < |s| - 1 && IsLetter(s[i]) && IsLetter(s[i + 1]) ensures GetVal(s[i]) >= GetVal(s[i + 1]) {
        assert s[|a|] == c;
        if i + 1 < |a| {
          assert a[i] == s[i] && a[i + 1] == s[i + 1];
        } else {
          var j := i - |a| - 1;
          assert b[j] == s[i] && b[j + 1] == s[i + 1];
        }
      }
    }
  }

  predicate IsUpper(c: char) {
    65 <= c as int <= 90
  }

  predicate IsLower(c: char) {
    97 <= c as int <= 122
  }

  /** All letters of one case. */
  predicate InCase(s: string, lcase: bool) {
    forall i :: 0 <= i < |s| ==> (IsUpper(s[i]) ==> !lcase) && (IsLower(s[i]) ==> lcase)
  }

  /** Letters only. */
  predicate Plain(s: string, lcase: bool) {
    InCase(s, lcase) && forall i :: 0 <= i < |s| ==> IsLetter(s[i])
  }

  lemma {:induction false} DigitsPlain(n: nat, add: bool, lcase: bool)
    ensures Plain(Digits(n, add, lcase), lcase)
    decreases Effort(add, n)
  {
    if n > 0 {
      EffortDecreases(add, n);
      LettersAre(n, add, lcase);
      DigitsPlain(N(add, n), add, lcase);
      var s := Digits(n, add, lcase);
      forall i | 0 <= i < |s| ensures IsLetter(s[i]) && (IsUpper(s[i]) ==> !lcase) && (IsLower(s[i]) ==> lcase) {
        if i > 0 { assert s[i] == s[1..][i - 1]; }
      }
    }
  }

  /** Every star is followed by the letter of a thousand. */
  predicate StarsMultiply(s: string, lcase: bool) {
    forall i :: 0 <= i < |s| && s[i] == '*' ==> i + 1 < |s| && s[i + 1] == if lcase then 'm' else 'M'
  }

  /** Which marks a numeral for n >= 0 has. */
  predicate Marked(s: string, n: nat, f: Flags) {
    && ('*' in s <==> !f.cifrao && !f.dot && n > 3999)
    && ('$' in s <==> f.cifrao && n >= 1000)
    && ('.' in s <==> f.dot && !f.cifrao && n >= 1000)
    && '-' !in s
  }

  ghost predicate Shaped(s: string, n: nat, f: Flags) {
    && WellFormed(s, f.add) && Marked(s, n, f) && StarsMultiply(s, f.lcase) && InCase(s, f.lcase)
    && s != "" && (IsUpper(s[0]) || IsLower(s[0]))
  }

  lemma PlainShaped(s: string, n: nat, f: Flags)
    requires Plain(s, f.lcase) && WellFormed(s, f.add) && s != ""
    requires if f.cifrao || f.dot then n < 1000 else n <= 3999
    ensures Shaped(s, n, f)
  {
    assert IsLetter(s[0]);
    assert forall c :: c in s ==> IsLetter(c);
    assert !IsLetter('*') && !IsLetter('$') && !IsLetter('.') && !IsLetter('-');
  }

  lemma InGlue(a: string, c: char, b: string, x: char)
    ensures x in a + [c] + b <==> x in a || x == c || x in b
  {
  }

  /** The mark printed after n / 1000, and what stands right behind it. */
  predicate MarkOf(c: char, b: string, n: nat, f: Flags) {
    if f.cifrao then c == '$' && n >= 1000
    else if f.dot then c == '.' && n >= 1000
    else c == '*' && n > 3999 && b != "" && b[0] == if f.lcase then 'm' else 'M'
  }

  lemma MarkMarked(a: string, c: char, b: string, n: nat, f: Flags)
    requires Marked(a, n / 1000, f) && Plain(b, f.lcase) && MarkOf(c, b, n, f)
    ensures Marked(a + [c] + b, n, f)
  {
    assert forall x :: x in b ==> IsLetter(x);
    assert !IsLetter('*') && !IsLetter('$') && !IsLetter('.') && !IsLetter('-');
    InGlue(a, c, b, '*');
    InGlue(a, c, b, '$');
    InGlue(a, c, b, '.');
    InGlue(a, c, b, '-');
  }

  lemma MarkCase(a: string, c: char, b: string, n: nat, f: Flags)
    requires StarsMultiply(a, f.lcase) && InCase(a, f.lcase) && Plain(b, f.lcase) && MarkOf(c, b, n, f)
    ensures StarsMultiply(a + [c] + b, f.lcase) && InCase(a + [c] + b, f.lcase)
  {
    var s := a + [c] + b;
    assert !IsLetter('*') && s[|a|] == c;
    forall i | 0 <= i < |s| ensures (IsUpper(s[i]) ==> !f.lcase) && (IsLower(s[i]) ==> f.lcase) {
      assert i < |a| ==> s[i] == a[i];
      assert i > |a| ==> s[i] == b[i - |a| - 1];
    }
    assert forall j :: |a| < j < |s| ==> s[j] == b[j - |a| - 1] && IsLetter(s[j]);
    forall i | 0 <= i < |s| && s[i] == '*' ensures i + 1 < |s| && s[i + 1] == if f.lcase then 'm' else 'M' {
      assert i < |a| ==> s[i] == a[i] && s[i + 1] == a[i + 1];
      assert i == |a| ==> s[i + 1] == b[0];
    }
  }

  /** One more mark with letters behind it. */
  lemma MarkShaped(a: string, c: char, b: string, n: nat, f: Flags)
    requires Shaped(a, n / 1000, f) && Plain(b, f.lcase) && WellFormed(b, f.add) && MarkOf(c, b, n, f)
    ensures Shaped(a + [c] + b, n, f)
  {
    assert (a + [c] + b)[0] == a[0];
    WellFormedGlue(a, c, b, f.add);
    MarkMarked(a, c, b, n, f);
    MarkCase(a, c, b, n, f);
  }

  /** A thousand before the letters of a number below it. */
  lemma ThousandFirst(lo: nat, add: bool, lcase: bool)
    requires lo < 1000
    ensures var b := [if lcase then 'm' else 'M'] + Digits(lo, add, lcase); Plain(b, lcase) && WellFormed(b, add)
  {
    var m := if lcase then 'm' else 'M';
    var d := Digits(lo, add, lcase);
    var b := [m] + d;
    DigitsPlain(lo, add, lcase);
    DigitsWellFormed(lo, add, lcase);
    assert b[1..] == d;
    if lo > 0 {
      FirstLetterNotM(lo, add, lcase);
      assert b[1] == d[0];
      LettersAre(lo, add, lcase);
    }
    assert HeadWell(b, add);
    WellFormedCons(b, add);
  }

  /** With a mark. */
  lemma DotShaped(n: nat, f: Flags, a: string, lo: nat)
    requires n >= 1000 && (f.cifrao || f.dot) && Shaped(a, n / 1000, f) && lo < 1000
    ensures Shaped(a + Sep(f) + Digits(lo, f.add, f.lcase), n, f)
  {
    DigitsPlain(lo, f.add, f.lcase);
    DigitsWellFormed(lo, f.add, f.lcase);
    var c := Sep(f)[0];
    assert Sep(f) == [c];
    MarkShaped(a, c, Digits(lo, f.add, f.lcase), n, f);
  }

  lemma StarShaped(n: nat, f: Flags, a: string, lo: nat, b: string)
    requires n > 3999 && !f.cifrao && !f.dot && Shaped(a, n / 1000, f) && lo < 1000
    requires b == [if f.lcase then 'm' else 'M'] + Digits(lo, f.add, f.lcase)
    ensures Shaped(a + ['*'] + b, n, f)
  {
    ThousandFirst(lo, f.add, f.lcase);
    MarkShaped(a, '*', b, n, f);
  }

  lemma StarPieces(f: Flags, a: string, m: char, d: string)
    requires !f.cifrao && !f.dot && m == if f.lcase then 'm' else 'M'
    ensures a + Sep(f) + d == a + ['*'] + ([m] + d)
  {
    assert Sep(f) == ['*'] + [m];
    assert a + (['*'] + [m]) + d == a + ['*'] + ([m] + d);
  }

  /** Without one. */
  lemma WholeShaped(n: nat, f: Flags)
    requires n > 0 && !Splits(n, f)
    ensures Shaped(Digits(n, f.add, f.lcase), n, f)
  {
    DigitsPlain(n, f.add, f.lcase);
    DigitsWellFormed(n, f.add, f.lcase);
    LettersAre(n, f.add, f.lcase);
    PlainShaped(Digits(n, f.add, f.lcase), n, f);
  }

  lemma {:induction false} PositiveShaped(n: nat, f: Flags)
    requires n > 0
    ensures Shaped(Positive(n, f), n, f)
    decreases n
  {
    PositiveSplit(n, f);
    if Splits(n, f) {
      PositiveShaped(n / 1000, f);
      if f.cifrao || f.dot {
        DotShaped(n, f, Positive(n / 1000, f), n % 1000);
      } else {
        var m, d := if f.lcase then 'm' else 'M', Digits(n % 1000, f.add, f.lcase);
        StarShaped(n, f, Positive(n / 1000, f), n % 1000, [m] + d);
        StarPieces(f, Positive(n / 1000, f), m, d);
      }
    } else {
      WholeShaped(n, f);
    }
  }

  /** The shape of every numeral: well formed as told by `add`, a star exactly if neither cifrao nor dot is
      asked for and the number is above 3999, those marks exactly from 1000 on, each star followed by the
      letter of a thousand, a sign exactly if the number is negative, letters in the case asked for, and n
      or N exactly for zero. */
  lemma NumeralShape(n: int, f: Flags)
    ensures var s := Numeral(n, f);
      && WellFormed(s, f.add) && StarsMultiply(s, f.lcase) && InCase(s, f.lcase)
      && ('*' in s <==> !f.cifrao && !f.dot && Abs(n) > 3999)
      && ('$' in s <==> f.cifrao && Abs(n) >= 1000)
      && ('.' in s <==> f.dot && !f.cifrao && Abs(n) >= 1000)
      && ('-' in s <==> n < 0) && (n < 0 ==> s[0] == '-')
      && (exists i :: 0 <= i < |s| && (IsUpper(s[i]) || IsLower(s[i])))
      && (s == (if f.lcase then "n" else "N") <==> n == 0)
  {
    if n > 0 {
      PositiveShaped(n, f);
      NotZero(n, f);
    } else if n < 0 {
      PositiveShaped(-n, f);
      SignedShape(n, f);
    } else {
      ZeroShape(f);
    }
  }

  lemma ZeroShape(f: Flags)
    ensures var s := Numeral(0, f); |s| == 1 && WellFormed(s, f.add) && StarsMultiply(s, f.lcase) && InCase(s, f.lcase)
    ensures Numeral(0, f)[0] == if f.lcase then 'n' else 'N'
  {
  }

  lemma NotZero(n: nat, f: Flags)
    requires n > 0
    ensures Positive(n, f) != "n" && Positive(n, f) != "N"
  {
    assert Positive(n, f)[0] != 'n' && Positive(n, f)[0] != 'N' by { FirstIsLetter(n, f); }
  }

  lemma {:induction false} FirstIsLetter(n: nat, f: Flags)
    requires n > 0
    ensures Positive(n, f) != "" && IsLetter(Positive(n, f)[0])
    decreases n
  {
    PositiveSplit(n, f);
    if Splits(n, f) {
      FirstIsLetter(n / 1000, f);
    } else {
      LettersAre(n, f.add, f.lcase);
    }
  }

  lemma SignedShape(n: int, f: Flags)
    requires n < 0 && Shaped(Positive(-n, f), -n, f)
    ensures var s := Numeral(n, f);
      WellFormed(s, f.add) && StarsMultiply(s, f.lcase) && InCase(s, f.lcase) && s[0] == '-' && |s| > 1 && s[1] == Positive(-n, f)[0]
    ensures forall c :: c in Numeral(n, f) <==> c == '-' || c in Positive(-n, f)
  {
    SignFirst(Positive(-n, f), -n, f, Numeral(n, f));
    SignWellFormed(Positive(-n, f), f.add, Numeral(n, f));
  }

  lemma SignWellFormed(a: string, add: bool, s: string)
    requires s == ['-'] + a && WellFormed(a, add)
    ensures WellFormed(s, add)
  {
    assert s[1..] == a && s[0] == '-' && !IsLetter('-');
    WellFormedCons(s, add);
  }

  lemma SignFirst(a: string, n: nat, f: Flags, s: string)
    requires s == ['-'] + a && StarsMultiply(a, f.lcase) && InCase(a, f.lcase)
    ensures StarsMultiply(s, f.lcase) && InCase(s, f.lcase) && s[0] == '-'
    ensures forall c :: c in s <==> c == '-' || c in a
  {
    assert forall i :: 0 < i < |s| ==> s[i] == a[i - 1];
    assert forall i :: 0 <= i < |a| ==> a[i] == s[i + 1];
  }

  // --- At inputs ---

  lemma OneLetter(v: nat, add: bool)
    requires LetterHas(v)
    ensures Digits(v, add, false) == [Letter(v, false)]
  {
    assert Sub(add, v) == v;
    assert Digits(v, add, false) == [Letter(v, false)] + Digits(0, add, false);
  }

  lemma TwoLetterNumeral(v: nat, p: int)
    requires LetterHas(v) && (p == 1 || p == 10 || p == 100) && p < v
    ensures Digits(v - p, false, false) == [Letter(p, false), Letter(v, false)]
  {
    assert Sub(false, v - p) == -p;
    OneLetter(v, false);
    assert Digits(v - p, false, false) == [Letter(p, false)] + Digits(v, false, false);
  }

  /** The seven letters, and every power of ten before every greater letter. */
  lemma LettersAndPairs(f: Flags)
    requires f == Flags(false, false, false, false, false)
    ensures Numeral(1, f) == "I" && Numeral(5, f) == "V" && Numeral(10, f) == "X" && Numeral(50, f) == "L"
    ensures Numeral(100, f) == "C" && Numeral(500, f) == "D" && Numeral(1000, f) == "M"
    ensures Numeral(4, f) == "IV" && Numeral(9, f) == "IX" && Numeral(49, f) == "IL" && Numeral(99, f) == "IC"
    ensures Numeral(499, f) == "ID" && Numeral(999, f) == "IM" && Numeral(40, f) == "XL" && Numeral(90, f) == "XC"
    ensures Numeral(490, f) == "XD" && Numeral(990, f) == "XM" && Numeral(400, f) == "CD" && Numeral(900, f) == "CM"
  {
    OneLetter(1, false);
    OneLetter(5, false);
    OneLetter(10, false);
    OneLetter(50, false);
    OneLetter(100, false);
    OneLetter(500, false);
    OneLetter(1000, false);
    SmallPairs();
    FarPairs();
    LargePairs();
  }

  lemma SmallPairs()
    ensures Digits(4, false, false) == "IV" && Digits(9, false, false) == "IX"
    ensures Digits(40, false, false) == "XL" && Digits(90, false, false) == "XC"
  {
    TwoLetterNumeral(5, 1);
    TwoLetterNumeral(10, 1);
    TwoLetterNumeral(50, 10);
    TwoLetterNumeral(100, 10);
  }

  lemma FarPairs()
    ensures Digits(49, false, false) == "IL" && Digits(99, false, false) == "IC"
    ensures Digits(499, false, false) == "ID" && Digits(999, false, false) == "IM"
  {
    TwoLetterNumeral(50, 1);
    TwoLetterNumeral(100, 1);
    TwoLetterNumeral(500, 1);
    TwoLetterNumeral(1000, 1);
  }

  lemma LargePairs()
    ensures Digits(490, false, false) == "XD" && Digits(990, false, false) == "XM"
    ensures Digits(400, false, false) == "CD" && Digits(900, false, false) == "CM"
  {
    TwoLetterNumeral(500, 10);
    TwoLetterNumeral(1000, 10);
    TwoLetterNumeral(500, 100);
    TwoLetterNumeral(1000, 100);
  }

  // --- Reading letters that are not printed ---

  /** What k equal letters before a greater one are worth: the greater one less all of them. */
  lemma {:induction false} EqualLetters(v: int, k: nat, p: Sum)
    requires v > 0 && k > 0 && p.last == 0
    ensures Parsed(v, k, p) == Sum(p.n + k * v, v, k * v)
  {
    if k > 1 { EqualLetters(v, k - 1, p); }
  }

  function Parsed(v: int, k: nat, p: Sum): Sum {
    if k == 0 then p else AddLetter(Parsed(v, k - 1, p), v)
  }

  lemma RunBeforeGreater(v: int, k: nat, w: int, p: Sum)
    requires 0 < v < w && k > 0 && p.last == 0
    ensures AddLetter(Parsed(v, k, p), w).n == p.n + w - k * v
  {
    EqualLetters(v, k, p);
  }

  /** At an input: IIX is 8, although it is never printed. */
  lemma IixIsEight()
    ensures Read("IIX") == (8, 3)
  {
    var s := "IIX";
    assert s[1..] == "IX" && "IX"[1..] == "X" && "X"[1..] == "";
    assert Parse(s, START) == Parse("IX", Sum(1, 1, 1));
    assert Parse("IX", Sum(1, 1, 1)) == Parse("X", Sum(2, 1, 2));
    assert Parse("X", Sum(2, 1, 2)) == Parse("", Sum(8, 0, 0));
  }

  /** Letters that are read alike: upper and lower case, j and i, u and v. */
  predicate SameLetter(c: char, d: char) {
    c == d || (GetVal(c) == GetVal(d) && GetVal(c) > 0)
  }

  lemma JAndUCount()
    ensures SameLetter('j', 'I') && SameLetter('J', 'i') && SameLetter('u', 'V') && SameLetter('U', 'v')
    ensures SameLetter('i', 'I') && SameLetter('v', 'V') && SameLetter('x', 'X') && SameLetter('l', 'L')
    ensures SameLetter('c', 'C') && SameLetter('d', 'D') && SameLetter('m', 'M')
  {
  }

  /** Strings of such letters, without separators, read alike. */
  lemma {:induction false} ReadAlike(s: string, t: string, p: Sum)
    requires |s| == |t| && forall i :: 0 <= i < |s| ==> SameLetter(s[i], t[i]) && s[i] != '*'
    ensures Parse(s, p) == Parse(t, p)
    decreases |s|
  {
    if s != "" {
      assert SameLetter(s[0], t[0]);
      forall i | 0 <= i < |s| - 1 ensures SameLetter(s[1..][i], t[1..][i]) && s[1..][i] != '*' {
        assert s[1..][i] == s[i + 1] && t[1..][i] == t[i + 1];
      }
      if s[0] == ' ' {
        ReadAlike(s[1..], t[1..], p);
      } else if s[0] == '.' || s[0] == '$' {
        ReadAlike(s[1..], t[1..], Thousands(p));
      } else if GetVal(s[0]) > 0 {
        ReadAlike(s[1..], t[1..], AddLetter(p, GetVal(s[0])));
      }
    }
  }

  /** Reading stops at the first character that is neither a letter nor a separator nor a blank, and that
      and what follows is left unread. */
  lemma {:induction false} ReadStops(a: string, c: char, b: string, p: Sum)
    requires (forall i :: 0 <= i < |a| ==> IsLetter(a[i])) && !IsLetter(c) && c != ' ' && !Separator(c)
    ensures Parse(a + [c] + b, p).0 == Parse(a, p).0 && Parse(a + [c] + b, p).1 == 1 + |b|
    ensures Parse(a, p).1 == 0
    decreases |a|
  {
    var s := a + [c] + b;
    if a == "" {
      assert s[0] == c;
    } else {
      assert s[0] == a[0] && s[1..] == a[1..] + [c] + b && IsLetter(a[0]);
      ReadStops(a[1..], c, b, AddLetter(p, GetVal(a[0])));
    }
  }

  /** Blanks before a numeral are skipped and counted, a sign is read; but a zero counts one character even
      behind blanks. */
  lemma BlanksAndSigns()
    ensures Read(" -X") == (-10, 3) && Read("  X") == (10, 3) && Read(" N") == (0, 1)
  {
    assert " -X"[1..] == "-X" && "-X"[1..] == "X" && "X"[1..] == "" && "  X"[1..] == " X" && " X"[1..] == "X" && " N"[1..] == "N";
    assert Parse("X", START) == Parse("", Sum(10, 10, 10));
    assert Skip(" -X", false) == "-X" && Skip("  X", false) == Skip(" X", false) == "X" && Skip(" N", false) == "N";
  }
}
