/** Roman numerals: num2roman and roman2num of ext/frlib/lib/base/roman.c.

    The printer repeatedly emits the first table row whose factor does not exceed n and subtracts
    the row's `sub`; for a subtractive prefix `sub` is negative, so that n grows and the letter it
    prefixes comes next.  The parser adds letter values and takes back twice what it added for
    letters that turn out to stand before a greater one. */
module Roman {

  datatype Flags = Flags(lcase: bool, add: bool, cifrao: bool, dot: bool, neg: bool)

  datatype Row = Row(factor: int, minuscola: char, maiuscola: char, sub: int)

  const SUBTABLE: seq<Row> := [
    Row(1000, 'm', 'M', 1000),
    Row(999, 'i', 'I', -1),
    Row(990, 'x', 'X', -10),
    Row(900, 'c', 'C', -100),
    Row(500, 'd', 'D', 500),
    Row(499, 'i', 'I', -1),
    Row(490, 'x', 'X', -10),
    Row(400, 'c', 'C', -100),
    Row(100, 'c', 'C', 100),
    Row(99, 'i', 'I', -1),
    Row(90, 'x', 'X', -10),
    Row(50, 'l', 'L', 50),
    Row(49, 'i', 'I', -1),
    Row(40, 'x', 'X', -10),
    Row(10, 'x', 'X', 10),
    Row(9, 'i', 'I', -1),
    Row(5, 'v', 'V', 5),
    Row(4, 'i', 'I', -1),
    Row(1, 'i', 'I', 1)]

  const ADDTABLE: seq<Row> := [
    Row(1000, 'm', 'M', 1000),
    Row(500, 'd', 'D', 500),
    Row(100, 'c', 'C', 100),
    Row(50, 'l', 'L', 50),
    Row(10, 'x', 'X', 10),
    Row(5, 'v', 'V', 5),
    Row(1, 'i', 'I', 1)]

  function Table(add: bool): seq<Row> {
    if add then ADDTABLE else SUBTABLE
  }

  /** _getval. */
  function GetVal(c: char): int {
    if c == 'm' || c == 'M' then 1000
    else if c == 'd' || c == 'D' then 500
    else if c == 'c' || c == 'C' then 100
    else if c == 'l' || c == 'L' then 50
    else if c == 'x' || c == 'X' then 10
    else if c == 'v' || c == 'V' || c == 'u' || c == 'U' then 5
    else if c == 'i' || c == 'I' || c == 'j' || c == 'J' then 1
    else 0
  }

  // --- the letters of a number ---

  /** The letter value that the next plain letter of n has. */
  function Top(add: bool, n: int): int {
    if add then
      if n >= 1000 then 1000 else if n >= 500 then 500 else if n >= 100 then 100 else if n >= 50 then 50
      else if n >= 10 then 10 else if n >= 5 then 5 else 1
    else
      if n >= 900 then 1000 else if n >= 400 then 500 else if n >= 90 then 100 else if n >= 40 then 50
      else if n >= 9 then 10 else if n >= 4 then 5 else 1
  }

  /** The value of the subtractive prefix that must come before that letter, or 0. */
  function Prefix(add: bool, n: int): int {
    if add || n >= Top(add, n) then 0
    else if n == Top(add, n) - 1 then 1
    else if n >= Top(add, n) - 10 then 10
    else 100
  }

  function Letter(v: int, lcase: bool): char {
    if lcase then
      if v == 1000 then 'm' else if v == 500 then 'd' else if v == 100 then 'c' else if v == 50 then 'l'
      else if v == 10 then 'x' else if v == 5 then 'v' else 'i'
    else
      if v == 1000 then 'M' else if v == 500 then 'D' else if v == 100 then 'C' else if v == 50 then 'L'
      else if v == 10 then 'X' else if v == 5 then 'V' else 'I'
  }

  /** The value of the letter emitted next, with the sign that it is subtracted from n. */
  function Sub(add: bool, n: int): int {
    if Prefix(add, n) > 0 then -Prefix(add, n) else Top(add, n)
  }

  function Abs(x: int): int {
    if x < 0 then -x else x
  }

  /** The first row not above n is the one described by Sub. */
  lemma RowFound(add: bool, n: int, k: nat)
    requires n > 0 && k < |Table(add)| && Table(add)[k].factor <= n
    requires k > 0 ==> n < Table(add)[k - 1].factor
    ensures var r := Table(add)[k];
      r.sub == Sub(add, n) && r.minuscola == Letter(Abs(r.sub), true) && r.maiuscola == Letter(Abs(r.sub), false)
  {
  }

  /** A prefix is less than the letter it stands before, and that letter does come next. */
  lemma PrefixThenTop(add: bool, n: int)
    requires n > 0
    ensures 0 <= Prefix(add, n) < Top(add, n) <= n + Prefix(add, n)
    ensures Prefix(add, n) > 0 ==>
      Top(add, n + Prefix(add, n)) == Top(add, n) && Prefix(add, n + Prefix(add, n)) == 0
  {
  }

  /** What bounds the loop although a prefix makes n grow. */
  function Effort(add: bool, n: int): int {
    if n <= 0 then 0
    else if Prefix(add, n) > 0 then 2 * (n + Prefix(add, n)) + 1
    else 2 * n
  }

  lemma EffortDecreases(add: bool, n: int)
    requires n > 0
    ensures n - Sub(add, n) >= 0
    ensures 0 <= Effort(add, n - Sub(add, n)) < Effort(add, n)
  {
  }

  /** The letters for n, without multipliers. */
  function Digits(n: nat, add: bool, lcase: bool): string
    decreases Effort(add, n)
  {
    if n == 0 then ""
    else
      EffortDecreases(add, n);
      [Letter(Abs(Sub(add, n)), lcase)] + Digits(n - Sub(add, n), add, lcase)
  }

  /** The numeral for n >= 0. */
  function Positive(n: nat, f: Flags): string
    decreases n
  {
    if n == 0 then (if f.lcase then "n" else "N")
    else if f.cifrao || f.dot then
      (if n / 1000 > 0 then Positive(n / 1000, f) + (if f.cifrao then "$" else ".") else "")
      + Digits(n % 1000, f.add, f.lcase)
    else if n > 3999 then
      Positive(n / 1000, f) + (if f.lcase then "*m" else "*M") + Digits(n % 1000, f.add, f.lcase)
    else Digits(n, f.add, f.lcase)
  }

  function Numeral(n: int, f: Flags): string {
    if n < 0 then "-" + Positive(-n, f) else Positive(n, f)
  }

  // --- reading ---

  predicate IsWhite(c: char) {
    c == ' ' || c == '\t' || c == '\n' || c == '\r' || c == 11 as char || c == 12 as char
  }

  /** top_skipwhite, and with `letters` the call that also skips m and M. */
  function Skip(s: string, letters: bool): (r: string)
    ensures |r| <= |s|
  {
    if s == "" then ""
    else if IsWhite(s[0]) || (letters && (s[0] == 'm' || s[0] == 'M')) then Skip(s[1..], letters)
    else s
  }

  /** The parser's n, last and lastsum. */
  datatype Sum = Sum(n: int, last: int, lastsum: int)

  function AddLetter(p: Sum, v: int): Sum {
    if p.last == 0 then Sum(p.n + v, v, v)
    else if p.last < v then Sum(p.n + v - 2 * p.lastsum, 0, 0)
    else if p.last > v then Sum(p.n + v, v, v)
    else Sum(p.n + v, v, p.lastsum + v)
  }

  function Thousands(p: Sum): Sum {
    Sum(p.n * 1000, 0, 0)
  }

  /** The loop of roman2num: the number read, and how much of s was left unread. */
  function Parse(s: string, p: Sum): (r: (int, nat))
    ensures r.1 <= |s|
    decreases |s|
  {
    if s == "" then (p.n, 0)
    else if s[0] == ' ' then Parse(s[1..], p)
    else if s[0] == '*' then Parse(Skip(s[1..], true), Thousands(p))
    else if s[0] == '.' || s[0] == '$' then Parse(s[1..], Thousands(p))
    else if GetVal(s[0]) == 0 then (p.n, |s|)
    else Parse(s[1..], AddLetter(p, GetVal(s[0])))
  }

  const START := Sum(0, 0, 0)

  /** What roman2num returns after its loop ended with the given sum and unread rest. */
  function Finish(rom: string, neg: bool, parsed: (int, nat)): (int, int) {
    (if neg then -parsed.0 else parsed.0, |rom| - parsed.1)
  }

  /** roman2num: the number and the count of characters processed. */
  function Read(rom: string): (int, int) {
    ReadFrom(rom, Skip(rom, false))
  }

  function ReadFrom(rom: string, s: string): (int, int) {
    if s == "" then Finish(rom, false, Parse(s, START))
    else if s[0] == '-' then Finish(rom, true, Parse(s[1..], START))
    else if s[0] == 'n' || s[0] == 'N' then (0, 1)
    else Finish(rom, false, Parse(s, START))
  }

  // --- the round trip ---

  /** Letters up to and including n's can follow a parser in state p without being mistaken for
      something p's letters are a prefix of. */
  predicate Follows(p: Sum, add: bool, n: int) {
    p.last == 0 || Top(add, n) <= p.last
  }

  lemma ParseLetter(v: int, lcase: bool, rest: string, p: Sum)
    requires v == 1000 || v == 500 || v == 100 || v == 50 || v == 10 || v == 5 || v == 1
    ensures GetVal(Letter(v, lcase)) == v
    ensures Parse([Letter(v, lcase)] + rest, p) == Parse(rest, AddLetter(p, v))
  {
  }

  /** Reading the next letter of n. */
  lemma ParseNext(n: nat, add: bool, lcase: bool, tail: string, p: Sum)
    requires n > 0
    ensures n - Sub(add, n) >= 0
    ensures Parse(Digits(n, add, lcase) + tail, p)
         == Parse(Digits(n - Sub(add, n), add, lcase) + tail, AddLetter(p, Abs(Sub(add, n))))
  {
    EffortDecreases(add, n);
    var c, rest := Letter(Abs(Sub(add, n)), lcase), Digits(n - Sub(add, n), add, lcase);
    assert Digits(n, add, lcase) == [c] + rest;
    assert [c] + rest + tail == [c] + (rest + tail);
    ParseLetter(Abs(Sub(add, n)), lcase, rest + tail, p);
  }

  /** The arithmetic of one step: a plain letter, or a prefix with the letter after it. */
  lemma AddStep(n: nat, add: bool, p: Sum)
    requires n > 0 && Follows(p, add, n)
    ensures Prefix(add, n) == 0 ==>
      var q := AddLetter(p, Top(add, n));
      n >= Top(add, n) && q.n == p.n + Top(add, n) && Follows(q, add, n - Top(add, n))
    ensures Prefix(add, n) > 0 ==>
      AddLetter(AddLetter(p, Prefix(add, n)), Top(add, n)) == Sum(p.n + Top(add, n) - Prefix(add, n), 0, 0)
  {
  }

  /** Reading a plain letter, or a prefix together with the letter after it. */
  lemma ParseStep(n: nat, add: bool, lcase: bool, tail: string, p: Sum) returns (n': nat, q: Sum)
    requires n > 0 && Follows(p, add, n)
    ensures Parse(Digits(n, add, lcase) + tail, p) == Parse(Digits(n', add, lcase) + tail, q)
    ensures q.n + n' == p.n + n && Follows(q, add, n')
    ensures 0 <= Effort(add, n') < Effort(add, n)
  {
    ParseNext(n, add, lcase, tail, p);
    if Prefix(add, n) == 0 {
      n', q := PlainStep(n, add, p);
    } else {
      n', q := ParseAfterPrefix(n, add, lcase, tail, p);
    }
  }

  lemma PlainStep(n: nat, add: bool, p: Sum) returns (n': nat, q: Sum)
    requires n > 0 && Follows(p, add, n) && Prefix(add, n) == 0
    ensures n' == n - Sub(add, n) && q == AddLetter(p, Abs(Sub(add, n)))
    ensures q.n + n' == p.n + n && Follows(q, add, n')
    ensures 0 <= Effort(add, n') < Effort(add, n)
  {
    EffortDecreases(add, n);
    AddStep(n, add, p);
    n', q := n - Top(add, n), AddLetter(p, Top(add, n));
  }

  lemma PrefixStep(n: nat, add: bool, p: Sum) returns (n': nat, q: Sum)
    requires n > 0 && Follows(p, add, n) && Prefix(add, n) > 0
    ensures n' == n + Prefix(add, n) - Top(add, n) && q == AddLetter(AddLetter(p, Prefix(add, n)), Top(add, n))
    ensures q.n + n' == p.n + n && Follows(q, add, n')
    ensures 0 <= Effort(add, n') < Effort(add, n)
  {
    AddStep(n, add, p);
    PrefixThenTop(add, n);
    EffortDecreases(add, n);
    EffortDecreases(add, n + Prefix(add, n));
    n', q := n + Prefix(add, n) - Top(add, n), Sum(p.n + Top(add, n) - Prefix(add, n), 0, 0);
  }

  /** Reading a plain letter. */
  lemma ParseTop(n: nat, top: int, add: bool, lcase: bool, tail: string, p: Sum)
    requires n > 0 && Prefix(add, n) == 0 && Top(add, n) == top
    ensures n >= top && Parse(Digits(n, add, lcase) + tail, p) == Parse(Digits(n - top, add, lcase) + tail, AddLetter(p, top))
  {
    ParseNext(n, add, lcase, tail, p);
  }

  lemma ParseAfterPrefix(n: nat, add: bool, lcase: bool, tail: string, p: Sum) returns (n': nat, q: Sum)
    requires n > 0 && Follows(p, add, n) && Prefix(add, n) > 0
    ensures Parse(Digits(n + Prefix(add, n), add, lcase) + tail, AddLetter(p, Prefix(add, n)))
         == Parse(Digits(n', add, lcase) + tail, q)
    ensures q.n + n' == p.n + n && Follows(q, add, n')
    ensures 0 <= Effort(add, n') < Effort(add, n)
  {
    var pre, top := Prefix(add, n), Top(add, n);
    PrefixThenTop(add, n);
    n', q := PrefixStep(n, add, p);
    ParseTop(n + pre, top, add, lcase, tail, AddLetter(p, pre));
  }

  /** Reading the letters of n adds n. */
  lemma {:induction false} DigitsParse(n: nat, add: bool, lcase: bool, tail: string, p: Sum) returns (p': Sum)
    requires Follows(p, add, n)
    ensures p'.n == p.n + n
    ensures Parse(Digits(n, add, lcase) + tail, p) == Parse(tail, p')
    decreases Effort(add, n)
  {
    if n == 0 {
      assert Digits(n, add, lcase) + tail == tail;
      p' := p;
    } else {
      var n', q := ParseStep(n, add, lcase, tail, p);
      p' := DigitsParse(n', add, lcase, tail, q);
    }
  }

  /** The first letter below a thousand is not an m, so the skip after `*` stops before it. */
  lemma SkipStopsAtDigits(n: nat, add: bool, lcase: bool, tail: string)
    requires n < 1000
    requires tail == "" || Separator(tail[0])
    ensures Skip(Digits(n, add, lcase) + tail, true) == Digits(n, add, lcase) + tail
  {
    var d := Digits(n, add, lcase);
    var s := d + tail;
    if n > 0 {
      FirstLetterNotM(n, add, lcase);
      assert s[0] == d[0];
    } else {
      assert d == "" && s == tail;
    }
    SkipsNothing(s);
  }

  lemma SkipsNothing(s: string)
    requires s == "" || !(IsWhite(s[0]) || s[0] == 'm' || s[0] == 'M')
    ensures Skip(s, true) == s
  {
  }

  lemma FirstLetterNotM(n: nat, add: bool, lcase: bool)
    requires 0 < n < 1000
    ensures var d := Digits(n, add, lcase);
      d != "" && !IsWhite(d[0]) && d[0] != 'm' && d[0] != 'M'
  {
  }

  predicate Separator(c: char) {
    c == '*' || c == '.' || c == '$'
  }

  /** The separator printed after n / 1000. */
  function Sep(f: Flags): string {
    if f.cifrao then "$" else if f.dot then "." else if f.lcase then "*m" else "*M"
  }

  predicate Splits(n: nat, f: Flags) {
    if f.cifrao || f.dot then n >= 1000 else n > 3999
  }

  lemma PositiveSplit(n: nat, f: Flags)
    requires n > 0
    ensures Positive(n, f) == if Splits(n, f) then Positive(n / 1000, f) + Sep(f) + Digits(n % 1000, f.add, f.lcase)
                              else Digits(n, f.add, f.lcase)
  {
    if n < 1000 {
      assert n / 1000 == 0 && n % 1000 == n;
      assert "" + Digits(n, f.add, f.lcase) == Digits(n, f.add, f.lcase);
    }
  }

  /** Reading a separator and the letters below a thousand behind it. */
  lemma SepParse(f: Flags, lo: nat, tail: string, p: Sum) returns (p': Sum)
    requires lo < 1000 && (tail == "" || Separator(tail[0]))
    ensures p'.n == p.n * 1000 + lo
    ensures Parse(Sep(f) + (Digits(lo, f.add, f.lcase) + tail), p) == Parse(tail, p')
  {
    var rest := Digits(lo, f.add, f.lcase) + tail;
    var s := Sep(f) + rest;
    if f.cifrao || f.dot {
      assert s[1..] == rest;
    } else {
      assert s[1..] == [Sep(f)[1]] + rest;
      assert ([Sep(f)[1]] + rest)[1..] == rest;
      SkipStopsAtDigits(lo, f.add, f.lcase, tail);
      assert Skip(s[1..], true) == rest;
    }
    assert Parse(s, p) == Parse(rest, Thousands(p));
    p' := DigitsParse(lo, f.add, f.lcase, tail, Thousands(p));
  }

  lemma Assoc(a: string, b: string, c: string, d: string)
    ensures a + b + c + d == a + (b + (c + d))
  {
  }

  lemma AssocTail(a: string, b: string, c: string, d: string)
    ensures a + b + c + d == a + (b + c + d)
  {
  }

  /** Reading a numeral followed by a separator or the end. */
  lemma {:induction false} PositiveParse(n: nat, f: Flags, tail: string) returns (p: Sum)
    requires n > 0 && (tail == "" || Separator(tail[0]))
    ensures p.n == n && Parse(Positive(n, f) + tail, START) == Parse(tail, p)
    decreases n
  {
    PositiveSplit(n, f);
    if Splits(n, f) {
      var hi, lo := n / 1000, n % 1000;
      var d := Digits(lo, f.add, f.lcase);
      Assoc(Positive(hi, f), Sep(f), d, tail);
      p := PositiveParse(hi, f, Sep(f) + (d + tail));
      p := SepParse(f, lo, tail, p);
    } else {
      p := DigitsParse(n, f.add, f.lcase, tail, START);
    }
  }

  lemma {:induction false} StartsWithLetter(n: nat, f: Flags)
    requires n > 0
    ensures Positive(n, f) != "" && GetVal(Positive(n, f)[0]) > 0
    decreases n
  {
    PositiveSplit(n, f);
    if Splits(n, f) {
      StartsWithLetter(n / 1000, f);
    } else {
      EffortDecreases(f.add, n);
      PrefixThenTop(f.add, n);
    }
  }

  lemma LetterIsPlain(c: char)
    requires GetVal(c) > 0
    ensures !IsWhite(c) && c != '-' && c != 'n' && c != 'N'
  {
  }

  lemma SkipNone(s: string)
    requires s != "" && !IsWhite(s[0])
    ensures Skip(s, false) == s
  {
  }

  lemma ReadLetters(s: string)
    requires s != "" && GetVal(s[0]) > 0
    ensures Read(s) == Finish(s, false, Parse(s, START))
  {
    LetterIsPlain(s[0]);
    SkipNone(s);
  }

  lemma ReadNegative(t: string, s: string, parsed: (int, nat))
    requires t == ['-'] + s && Parse(s, START) == parsed
    ensures Read(t) == Finish(t, true, parsed)
  {
    assert t[0] == '-' && t[1..] == s && !IsWhite(t[0]);
    SkipNone(t);
  }

  lemma ReadZero(c: char)
    requires c == 'n' || c == 'N'
    ensures Read([c]) == (0, 1)
  {
  }

  lemma PositiveRead(n: nat, f: Flags)
    requires n > 0
    ensures Parse(Positive(n, f), START) == (n, 0)
  {
    var p := PositiveParse(n, f, "");
    assert Positive(n, f) + "" == Positive(n, f);
  }

  lemma {:induction false} NoNulInDigits(n: nat, add: bool, lcase: bool)
    ensures '\0' !in Digits(n, add, lcase)
    decreases Effort(add, n)
  {
    if n > 0 {
      EffortDecreases(add, n);
      NoNulInDigits(n - Sub(add, n), add, lcase);
    }
  }

  lemma {:induction false} NoNulInPositive(n: nat, f: Flags)
    ensures '\0' !in Positive(n, f)
    decreases n
  {
    if n > 0 {
      PositiveSplit(n, f);
      NoNulInDigits(n % 1000, f.add, f.lcase);
      NoNulInDigits(n, f.add, f.lcase);
      if Splits(n, f) { NoNulInPositive(n / 1000, f); }
    }
  }

  lemma NoNulInNumeral(n: int, f: Flags)
    ensures '\0' !in Numeral(n, f)
  {
    NoNulInPositive(Abs(n), f);
  }

  lemma RoundTripZero(n: int, f: Flags, t: string)
    requires n == 0 && t == Numeral(n, f)
    ensures Read(t) == (n, |t|)
  {
    assert t == [if f.lcase then 'n' else 'N'];
    ReadZero(t[0]);
  }

  lemma RoundTripPositive(n: int, f: Flags, t: string)
    requires n > 0 && t == Numeral(n, f)
    ensures Read(t) == (n, |t|)
  {
    PositiveRead(n, f);
    StartsWithLetter(n, f);
    ReadLetters(t);
  }

  lemma RoundTripNegative(n: int, t: string, s: string)
    requires n < 0 && t == ['-'] + s && Parse(s, START) == (-n, 0)
    ensures Read(t) == (n, |t|)
  {
    ReadNegative(t, s, (-n, 0));
  }

  lemma NegativeParts(n: int, f: Flags, t: string, s: string)
    requires n < 0 && t == Numeral(n, f) && s == Positive(-n, f)
    ensures t == ['-'] + s && Parse(s, START) == (-n, 0)
  {
    PositiveRead(-n, f);
  }

  /** Round trip: every numeral, in every mode, is read back as its number and to its end. */
  lemma RoundTrip(n: int, f: Flags)
    ensures Read(Numeral(n, f)) == (n, |Numeral(n, f)|)
  {
    var t := Numeral(n, f);
    if n == 0 {
      RoundTripZero(n, f, t);
    } else if n > 0 {
      RoundTripPositive(n, f, t);
    } else {
      var s := Positive(-n, f);
      NegativeParts(n, f, t, s);
      RoundTripNegative(n, t, s);
    }
  }

  // --- num2roman with its buffer ---

  const RERR_PARAM: int := -1
  const RERR_OUTOFRANGE: int := -2

  function Min(a: int, b: int): int {
    if a < b then a else b
  }

  /** The output pointer and the room behind it. */
  datatype Cursor = Cursor(pos: nat, room: nat)

  /** _putc. */
  method PutC(buf: array<char>, cur: Cursor, c: char) returns (next: Cursor)
    requires cur.pos + cur.room <= buf.Length
    modifies buf
    ensures next == if cur.room > 0 then Cursor(cur.pos + 1, cur.room - 1) else cur
    ensures forall i :: 0 <= i < buf.Length ==>
      buf[i] == if cur.room > 0 && i == cur.pos then c else old(buf[i])
  {
    if cur.room > 0 {
      buf[cur.pos] := c;
      next := Cursor(cur.pos + 1, cur.room - 1);
    } else {
      next := cur;
    }
  }

  /** _adjust. */
  function Adjust(cur: Cursor, num: nat): Cursor {
    if cur.room > 0 then Cursor(cur.pos + Min(num, cur.room), cur.room - Min(num, cur.room)) else cur
  }

  /** The cursor after `count` characters were offered to room for L of them at off. */
  function CursorAfter(off: nat, L: nat, count: nat): Cursor {
    Cursor(off + Min(count, L), L - Min(count, L))
  }

  /** Of the characters offered so far the first `kept` are in place.  Those are all that fit,
      unless a multiplier was cut short: then a NUL follows them and, once `due` more characters
      have been offered, there are more than fit. */
  predicate Written(buf: array<char>, off: nat, L: nat, offered: string, kept: nat, due: nat)
    requires off + L <= buf.Length
    reads buf
  {
    && kept <= L && kept <= |offered| && buf[off..off + kept] == offered[..kept]
    && (kept < Min(|offered|, L) ==> (|offered| + due > L && buf[off + kept] == '\0'))
  }

  /** What is kept when more is offered: as much as fits if nothing was lost before, else no more. */
  function KeptOn(kept: nat, before: nat, after: nat, L: nat): nat {
    if kept == Min(before, L) then Min(after, L) else kept
  }

  method PutNext(buf: array<char>, off: nat, L: nat, ghost offered: string, ghost kept: nat, ghost due: nat,
                 cur: Cursor, c: char)
      returns (next: Cursor, ghost kept': nat)
    requires off + L <= buf.Length && Written(buf, off, L, offered, kept, due) && due <= 1
    requires cur == CursorAfter(off, L, |offered|)
    modifies buf
    ensures Written(buf, off, L, offered + [c], kept', 0) && next == CursorAfter(off, L, |offered| + 1)
    ensures kept' == KeptOn(kept, |offered|, |offered| + 1, L)
    ensures forall i :: 0 <= i < buf.Length && (i < off || i >= off + L) ==> buf[i] == old(buf[i])
  {
    next := PutC(buf, cur, c);
    kept' := if |offered| < L && kept == |offered| then kept + 1 else kept;
    assert buf[off..off + kept] == old(buf[off..off + kept]);
  }

  /** A region that holds the first kept characters of s, and a NUL behind them. */
  predicate Terminated(w: string, s: string, kept: nat) {
    kept < |w| && kept <= |s| && w[..kept] == s[..kept] && w[kept] == '\0'
  }

  /** How many characters of the numeral for n >= 0 are there in the end, in room for L: all that
      fit, unless the number before the multiplier takes all the room.  Its own NUL is then in the
      last place, and what it keeps is what there is. */
  function KeptPositive(n: nat, f: Flags, L: nat): nat
    decreases n
  {
    if Splits(n, f) && 0 < L <= |Positive(n / 1000, f)| then KeptPositive(n / 1000, f, L - 1)
    else Min(L, |Positive(n, f)|)
  }

  /** The same for every n. */
  function Kept(n: int, f: Flags, L: nat): nat {
    if n >= 0 then KeptPositive(n, f, L) else if L == 0 then 0 else 1 + KeptPositive(-n, f, L - 1)
  }

  lemma {:induction false} KeptBound(n: nat, f: Flags, L: nat)
    ensures KeptPositive(n, f, L) <= L && KeptPositive(n, f, L) <= |Positive(n, f)|
    ensures |Positive(n, f)| <= L ==> KeptPositive(n, f, L) == |Positive(n, f)|
    decreases n
  {
    if Splits(n, f) {
      PositiveSplit(n, f);
      if 0 < L <= |Positive(n / 1000, f)| { KeptBound(n / 1000, f, L - 1); }
    }
  }

  function Sign(n: int): nat {
    if n < 0 then 1 else 0
  }

  /** The buffer ends inside the number before the multiplier, or right behind it. */
  predicate CutShort(n: int, f: Flags, len: nat) {
    Splits(Abs(n), f) && Sign(n) < len - 1 <= Sign(n) + |Positive(Abs(n) / 1000, f)|
  }

  /** The buffer holds as much of the numeral as it has room for, exactly if it does not end inside
      the number before a multiplier or right behind it. */
  lemma KeptIsLongest(n: int, f: Flags, len: nat)
    requires len > 0
    ensures Kept(n, f, len - 1) <= Min(len - 1, |Numeral(n, f)|)
    ensures Kept(n, f, len - 1) == Min(len - 1, |Numeral(n, f)|) <==> !CutShort(n, f, len)
    ensures |Numeral(n, f)| < len ==> Kept(n, f, len - 1) == |Numeral(n, f)|
  {
    var m, L := Abs(n), len - 1 - Sign(n);
    if L >= 0 {
      KeptBound(m, f, L);
      if Splits(m, f) {
        PositiveSplit(m, f);
        if L > 0 { KeptBound(m / 1000, f, L - 1); }
      }
    }
  }

  /** At an input: 4000 is IV*M, and a buffer of two bytes has room for the I, but is left empty. */
  lemma CutShortLosesLetters(f: Flags)
    requires !f.cifrao && !f.dot
    ensures CutShort(4000, f, 2) && Kept(4000, f, 1) == 0 && |Numeral(4000, f)| > 1
  {
    PositiveSplit(4000, f);
    StartsWithLetter(4, f);
  }

  /** num2roman for a buffer that is not NULL. */
  method Print(buf: array<char>, off: nat, len: nat, n: int, f: Flags) returns (rc: int, ghost kept: nat)
    requires off + len <= buf.Length
    modifies buf
    ensures rc == if n < 0 && !f.neg then RERR_OUTOFRANGE else |Numeral(n, f)|
    ensures forall i :: 0 <= i < buf.Length && (i < off || i >= off + len || rc < 0) ==> buf[i] == old(buf[i])
    ensures rc >= 0 && len > 0 ==> Terminated(buf[off..off + len], Numeral(n, f), kept) && kept == Kept(n, f, len - 1)
    ensures rc >= 0 && len > 0 ==> (kept == Min(len - 1, rc) <==> !CutShort(n, f, len))
    decreases Abs(n), 3
  {
    if n < 0 && !f.neg { return RERR_OUTOFRANGE, 0; }
    var L := if len > 0 then len - 1 else 0;
    var cur, wlen;
    cur, wlen, kept := PrintSigned(buf, off, L, n, f);
    if len > 0 {
      PutNul(buf, off, L, cur, Numeral(n, f), kept);
      KeptIsLongest(n, f, len);
    }
    rc := wlen;
  }

  /** The sign and the number, without the NUL. */
  method PrintSigned(buf: array<char>, off: nat, L: nat, n: int, f: Flags) returns (cur: Cursor, wlen: nat, ghost kept: nat)
    requires off + L <= buf.Length
    modifies buf
    ensures Written(buf, off, L, Numeral(n, f), kept, 0) && kept == Kept(n, f, L)
    ensures cur == CursorAfter(off, L, |Numeral(n, f)|) && wlen == |Numeral(n, f)|
    ensures forall i :: 0 <= i < buf.Length && (i < off || i >= off + L) ==> buf[i] == old(buf[i])
    decreases Abs(n), 2
  {
    cur, wlen, kept := PutSign(buf, off, L, n);
    ghost var offered := SignOf(n);
    cur, wlen, kept := PrintPositive(buf, off, L, cur, wlen, Abs(n), f, offered, kept);
    assert offered + Positive(Abs(n), f) == Numeral(n, f);
  }

  function SignOf(n: int): string {
    if n < 0 then "-" else ""
  }

  method PutSign(buf: array<char>, off: nat, L: nat, n: int) returns (cur: Cursor, wlen: nat, ghost kept: nat)
    requires off + L <= buf.Length
    modifies buf
    ensures Written(buf, off, L, SignOf(n), kept, 0) && kept == Min(|SignOf(n)|, L)
    ensures cur == CursorAfter(off, L, |SignOf(n)|) && wlen == |SignOf(n)|
    ensures forall i :: 0 <= i < buf.Length && (i < off || i >= off + L) ==> buf[i] == old(buf[i])
  {
    cur, wlen, kept := Cursor(off, L), 0, 0;
    if n < 0 {
      cur, kept := PutNext(buf, off, L, "", 0, 0, cur, '-');
      assert "" + ['-'] == SignOf(n);
      wlen := 1;
    }
  }

  /** The final NUL, in the byte that was set aside for it. */
  method PutNul(buf: array<char>, off: nat, L: nat, cur: Cursor, ghost offered: string, ghost kept: nat)
    requires off + L < buf.Length && Written(buf, off, L, offered, kept, 0)
    requires cur == CursorAfter(off, L, |offered|)
    modifies buf
    ensures Terminated(buf[off..off + L + 1], offered, kept)
    ensures forall i :: 0 <= i < buf.Length && (i < off || i > off + L) ==> buf[i] == old(buf[i])
  {
    ghost var before := buf[off..off + kept];
    buf[cur.pos] := '\0';
    ghost var w := buf[off..off + L + 1];
    assert w[..kept] == before;
    assert w[kept] == buf[off + kept];
  }

  /** What is kept of a numeral offered behind other characters none of which was lost. */
  function KeptBehind(before: nat, n: nat, f: Flags, L: nat): nat {
    if before < L then before + KeptPositive(n, f, L - before) else L
  }

  method PrintPositive(buf: array<char>, off: nat, L: nat, cur: Cursor, wlen: nat, n: nat, f: Flags,
                       ghost offered: string, ghost kept: nat)
      returns (next: Cursor, wlen': nat, ghost kept': nat)
    requires off + L <= buf.Length && Written(buf, off, L, offered, kept, 0) && kept == Min(|offered|, L)
    requires cur == CursorAfter(off, L, |offered|) && wlen == |offered|
    modifies buf
    ensures var all := offered + Positive(n, f);
      Written(buf, off, L, all, kept', 0) && next == CursorAfter(off, L, |all|) && wlen' == |all|
    ensures kept' == KeptBehind(|offered|, n, f, L)
    ensures forall i :: 0 <= i < buf.Length && (i < off || i >= off + L) ==> buf[i] == old(buf[i])
    decreases n, 1
  {
    if n == 0 {
      next, kept' := PutNext(buf, off, L, offered, kept, 0, cur, if f.lcase then 'n' else 'N');
      wlen' := wlen + 1;
      return;
    }
    PositiveSplit(n, f);
    if Splits(n, f) {
      next, wlen', kept' := PrintSplit(buf, off, L, cur, wlen, n, f, offered, kept);
    } else {
      next, wlen', kept' := PrintDigits(buf, off, L, cur, wlen, n, f, offered, kept);
    }
  }

  /** The number before the multiplier, the multiplier, and the rest. */
  method PrintSplit(buf: array<char>, off: nat, L: nat, cur: Cursor, wlen: nat, n: nat, f: Flags,
                    ghost offered: string, ghost kept: nat)
      returns (next: Cursor, wlen': nat, ghost kept': nat)
    requires off + L <= buf.Length && Written(buf, off, L, offered, kept, 0) && kept == Min(|offered|, L)
    requires cur == CursorAfter(off, L, |offered|) && wlen == |offered| && n > 0 && Splits(n, f)
    modifies buf
    ensures var all := offered + Positive(n, f);
      Written(buf, off, L, all, kept', 0) && next == CursorAfter(off, L, |all|) && wlen' == |all|
    ensures kept' == KeptBehind(|offered|, n, f, L)
    ensures forall i :: 0 <= i < buf.Length && (i < off || i >= off + L) ==> buf[i] == old(buf[i])
    decreases n, 0
  {
    ghost var hi, d := Positive(n / 1000, f), Digits(n % 1000, f.add, f.lcase);
    ghost var so := offered + hi;
    ghost var se := so + Sep(f);
    SplitParts(n, f, offered, so, se);
    next, wlen', kept' := PrintThousands(buf, off, L, cur, wlen, n / 1000, f, offered, kept);
    ghost var k := kept';
    next, wlen', kept' := PrintSep(buf, off, L, next, wlen', f, so, kept');
    next, wlen', kept' := PrintDigits(buf, off, L, next, wlen', n % 1000, f, se, kept');
    KeptSplit(|offered|, n, f, L, k, |so|, |se|, |se + d|);
  }

  lemma SplitParts(n: nat, f: Flags, offered: string, so: string, se: string)
    requires n > 0 && Splits(n, f) && so == offered + Positive(n / 1000, f) && se == so + Sep(f)
    ensures se + Digits(n % 1000, f.add, f.lcase) == offered + Positive(n, f)
  {
    PositiveSplit(n, f);
    AssocTail(offered, Positive(n / 1000, f), Sep(f), Digits(n % 1000, f.add, f.lcase));
  }

  /** A multiplier cut short is all there is; otherwise nothing is lost up to where the room ends. */
  lemma KeptSplit(before: nat, n: nat, f: Flags, L: nat, k: nat, so: nat, sep: nat, all: nat)
    requires n > 0 && Splits(n, f) && so == before + |Positive(n / 1000, f)| && sep == so + |Sep(f)|
    requires all == before + |Positive(n, f)| && k == KeptInner(before, n / 1000, f, L)
    ensures KeptOn(KeptOn(k, so, sep, L), sep, all, L) == KeptBehind(before, n, f, L)
  {
    PositiveSplit(n, f);
    if before < L { KeptBound(n / 1000, f, L - before - 1); }
  }

  /** What is kept after the recursive call, which sets a byte of its room aside for a NUL. */
  function KeptInner(before: nat, n: nat, f: Flags, L: nat): nat {
    if before < L then before + KeptPositive(n, f, L - before - 1) else L
  }

  /** The recursive call for n / 1000. */
  method PrintThousands(buf: array<char>, off: nat, L: nat, cur: Cursor, wlen: nat, rem: nat, f: Flags,
                        ghost offered: string, ghost kept: nat)
      returns (next: Cursor, wlen': nat, ghost kept': nat)
    requires off + L <= buf.Length && Written(buf, off, L, offered, kept, 0) && kept == Min(|offered|, L)
    requires cur == CursorAfter(off, L, |offered|) && wlen == |offered|
    modifies buf
    ensures var all := offered + Positive(rem, f);
      Written(buf, off, L, all, kept', 1) && next == CursorAfter(off, L, |all|) && wlen' == |all|
    ensures kept' == KeptInner(|offered|, rem, f, L)
    ensures forall i :: 0 <= i < buf.Length && (i < off || i >= off + L) ==> buf[i] == old(buf[i])
    decreases rem, 5
  {
    var ret, k := PrintInner(buf, off, L, cur, rem, f, offered, kept);
    next, wlen' := Adjust(cur, ret), wlen + ret;
    kept' := if cur.room > 0 then kept + k else kept;
    JoinWritten(buf, off, L, offered, kept, Numeral(rem, f), k);
  }

  method PrintInner(buf: array<char>, off: nat, L: nat, cur: Cursor, rem: nat, f: Flags,
                    ghost offered: string, ghost kept: nat)
      returns (ret: nat, ghost k: nat)
    requires off + L <= buf.Length && Written(buf, off, L, offered, kept, 0) && kept == Min(|offered|, L)
    requires cur == CursorAfter(off, L, |offered|)
    modifies buf
    ensures ret == |Numeral(rem, f)| && Inner(buf, off, L, offered, kept, Numeral(rem, f), k)
    ensures cur.room > 0 ==> k == KeptPositive(rem, f, cur.room - 1)
    ensures forall i :: 0 <= i < buf.Length && (i < off || i >= off + L) ==> buf[i] == old(buf[i])
    decreases rem, 4
  {
    var rc;
    rc, k := Print(buf, cur.pos, cur.room, rem, f);
    ret := rc;
    assert buf[off..off + kept] == old(buf[off..off + kept]);
    if cur.room > 0 { KeptBound(rem, f, cur.room - 1); }
  }

  /** What the recursive call leaves in the outer buffer. */
  predicate Inner(buf: array<char>, off: nat, L: nat, offered: string, kept: nat, s: string, k: nat)
    reads buf
  {
    && off + L <= buf.Length && kept == Min(|offered|, L) && buf[off..off + kept] == offered[..kept]
    && (|offered| < L ==> Terminated(buf[off + kept..off + L], s, k) && (|s| < L - |offered| ==> k == |s|))
  }

  /** The outcome of the inner call, seen from the outer buffer. */
  lemma JoinWritten(buf: array<char>, off: nat, L: nat, offered: string, kept: nat, s: string, k: nat)
    requires Inner(buf, off, L, offered, kept, s, k)
    ensures Written(buf, off, L, offered + s, if |offered| < L then kept + k else kept, 1)
  {
    if |offered| < L {
      var w := buf[off + kept..off + L];
      assert offered[..kept] == offered;
      assert buf[off..off + kept + k] == buf[off..off + kept] + w[..k];
      TakeBeyond(offered, s, k);
      assert w[k] == buf[off + kept + k];
    } else {
      assert (offered + s)[..kept] == offered[..kept];
    }
  }

  lemma TakeBeyond(a: string, b: string, k: nat)
    requires k <= |b|
    ensures (a + b)[..|a| + k] == a + b[..k]
  {
  }

  method PrintSep(buf: array<char>, off: nat, L: nat, cur: Cursor, wlen: nat, f: Flags,
                  ghost offered: string, ghost kept: nat)
      returns (next: Cursor, wlen': nat, ghost kept': nat)
    requires off + L <= buf.Length && Written(buf, off, L, offered, kept, 1)
    requires cur == CursorAfter(off, L, |offered|) && wlen == |offered|
    modifies buf
    ensures var all := offered + Sep(f);
      Written(buf, off, L, all, kept', 0) && next == CursorAfter(off, L, |all|) && wlen' == |all|
      && kept' == KeptOn(kept, |offered|, |all|, L)
    ensures forall i :: 0 <= i < buf.Length && (i < off || i >= off + L) ==> buf[i] == old(buf[i])
  {
    if f.cifrao {
      next, kept' := PutNext(buf, off, L, offered, kept, 1, cur, '$');
      wlen' := wlen + 1;
    } else if f.dot {
      next, kept' := PutNext(buf, off, L, offered, kept, 1, cur, '.');
      wlen' := wlen + 1;
    } else {
      var c := if f.lcase then 'm' else 'M';
      next, kept' := PutTimes(buf, off, L, cur, c, offered, kept);
      wlen' := wlen + 2;
    }
  }

  method PutTimes(buf: array<char>, off: nat, L: nat, cur: Cursor, c: char, ghost offered: string, ghost kept: nat)
      returns (next: Cursor, ghost kept': nat)
    requires off + L <= buf.Length && Written(buf, off, L, offered, kept, 1)
    requires cur == CursorAfter(off, L, |offered|)
    modifies buf
    ensures Written(buf, off, L, offered + ['*', c], kept', 0) && next == CursorAfter(off, L, |offered| + 2)
    ensures kept' == KeptOn(kept, |offered|, |offered| + 2, L)
    ensures forall i :: 0 <= i < buf.Length && (i < off || i >= off + L) ==> buf[i] == old(buf[i])
  {
    next, kept' := PutNext(buf, off, L, offered, kept, 1, cur, '*');
    next, kept' := PutNext(buf, off, L, offered + ['*'], kept', 0, next, c);
    assert offered + ['*'] + [c] == offered + ['*', c];
  }

  /** The loop over the table. */
  method PrintDigits(buf: array<char>, off: nat, L: nat, cur: Cursor, wlen: nat, n: nat, f: Flags,
                     ghost offered: string, ghost kept: nat)
      returns (next: Cursor, wlen': nat, ghost kept': nat)
    requires off + L <= buf.Length && Written(buf, off, L, offered, kept, 0)
    requires cur == CursorAfter(off, L, |offered|) && wlen == |offered|
    modifies buf
    ensures var all := offered + Digits(n, f.add, f.lcase);
      Written(buf, off, L, all, kept', 0) && next == CursorAfter(off, L, |all|) && wlen' == |all|
      && kept' == KeptOn(kept, |offered|, |all|, L)
    ensures forall i :: 0 <= i < buf.Length && (i < off || i >= off + L) ==> buf[i] == old(buf[i])
  {
    next, wlen', kept' := cur, wlen, kept;
    var m := n;
    ghost var so := offered;
    while m != 0
      invariant m >= 0 && wlen' == |so| && next == CursorAfter(off, L, |so|)
      invariant Written(buf, off, L, so, kept', 0) && |so| >= |offered| && kept' == KeptOn(kept, |offered|, |so|, L)
      invariant so + Digits(m, f.add, f.lcase) == offered + Digits(n, f.add, f.lcase)
      invariant forall i :: 0 <= i < buf.Length && (i < off || i >= off + L) ==> buf[i] == old(buf[i])
      decreases Effort(f.add, m)
    {
      var c, m' := NextLetter(m, f, so);
      next, kept' := PutNext(buf, off, L, so, kept', 0, next, c);
      so := so + [c];
      wlen' := wlen' + 1;
      m := m';
    }
    assert so + "" == so;
  }

  /** The letter that comes next, and n with the row's `sub` taken off. */
  method NextLetter(n: nat, f: Flags, ghost so: string) returns (c: char, n': nat)
    requires n > 0
    ensures so + Digits(n, f.add, f.lcase) == so + [c] + Digits(n', f.add, f.lcase)
    ensures 0 <= Effort(f.add, n') < Effort(f.add, n)
  {
    var row := FindRow(f.add, n);
    EffortDecreases(f.add, n);
    c := if f.lcase then row.minuscola else row.maiuscola;
    n' := n - row.sub;
    assert Digits(n, f.add, f.lcase) == [c] + Digits(n', f.add, f.lcase);
  }

  /** The scan for the first row whose factor does not exceed n. */
  method FindRow(add: bool, n: int) returns (row: Row)
    requires n > 0
    ensures row.sub == Sub(add, n)
    ensures row.minuscola == Letter(Abs(Sub(add, n)), true) && row.maiuscola == Letter(Abs(Sub(add, n)), false)
  {
    var t := Table(add);
    var k := 0;
    while n < t[k].factor
      invariant 0 <= k < |t|
      invariant k > 0 ==> n < t[k - 1].factor
      decreases |t| - k
    {
      k := k + 1;
    }
    RowFound(add, n, k);
    return t[k];
  }

  /** num2roman: the length of the numeral, whatever the buffer; nothing is written outside the
      len bytes given; what is there afterwards is a NUL-terminated beginning of the numeral, all
      that fits exactly if a multiplier is not cut short, and the whole of it if len is greater than
      the length returned. */
  method Num2Roman(buf: array?<char>, len: int, n: int, f: Flags) returns (rc: int)
    requires buf != null && len > 0 ==> len <= buf.Length
    modifies if buf == null then {} else {buf}
    ensures rc == if (buf == null && len > 0) || len < 0 then RERR_PARAM
                  else if n < 0 && !f.neg then RERR_OUTOFRANGE
                  else |Numeral(n, f)|
    ensures buf != null ==> forall i :: 0 <= i < buf.Length && (i >= len || rc < 0) ==> buf[i] == old(buf[i])
    ensures rc >= 0 && len > 0 ==> Terminated(buf[..len], Numeral(n, f), Kept(n, f, len - 1))
    ensures rc >= 0 && len > 0 ==> (Kept(n, f, len - 1) == Min(len - 1, rc) <==> !CutShort(n, f, len))
    ensures rc >= 0 && len > rc ==> Kept(n, f, len - 1) == rc
  {
    if (buf == null && len > 0) || len < 0 { return RERR_PARAM; }
    ghost var kept;
    if buf == null {
      // a NULL buffer has room for nothing
      var nothing := new char[0];
      rc, kept := Print(nothing, 0, 0, n, f);
    } else {
      rc, kept := Print(buf, 0, len, n, f);
      assert buf[0..0 + len] == buf[..len];
      if len > 0 { KeptIsLongest(n, f, len); }
    }
  }

  // --- roman2num as a loop ---

  method SkipFrom(rom: string, from: nat, letters: bool) returns (i: nat)
    requires from <= |rom|
    ensures from <= i <= |rom| && rom[i..] == Skip(rom[from..], letters)
  {
    i := from;
    while i < |rom| && (IsWhite(rom[i]) || (letters && (rom[i] == 'm' || rom[i] == 'M')))
      invariant from <= i <= |rom|
      invariant Skip(rom[i..], letters) == Skip(rom[from..], letters)
    {
      assert rom[i..][1..] == rom[i + 1..];
      i := i + 1;
    }
  }

  /** The loop over the letters, from index `from` on. */
  method ParseFrom(rom: string, from: nat) returns (n: int, i: nat)
    requires from <= |rom|
    ensures i <= |rom| && (n, |rom| - i) == Parse(rom[from..], START)
  {
    var last, lastsum := 0, 0;
    n, i := 0, from;
    while i < |rom|
      invariant from <= i <= |rom|
      invariant Parse(rom[i..], Sum(n, last, lastsum)) == Parse(rom[from..], START)
    {
      var c := rom[i];
      assert rom[i..][0] == c && rom[i..][1..] == rom[i + 1..];
      if c == ' ' {
        i := i + 1;
      } else if c == '*' || c == '.' || c == '$' {
        if c == '*' { i := SkipFrom(rom, i + 1, true); } else { i := i + 1; }
        n, last, lastsum := n * 1000, 0, 0;
      } else {
        var n2 := GetVal(c);
        if n2 == 0 { return; }
        n, last, lastsum := Accumulate(n, last, lastsum, n2);
        i := i + 1;
      }
    }
  }

  /** The bookkeeping for one letter. */
  method Accumulate(n0: int, last0: int, lastsum0: int, n2: int) returns (n: int, last: int, lastsum: int)
    ensures Sum(n, last, lastsum) == AddLetter(Sum(n0, last0, lastsum0), n2)
  {
    n, last, lastsum := n0 + n2, last0, lastsum0;
    if last != 0 {
      if last < n2 {
        n := n - 2 * lastsum;
        last, lastsum := 0, 0;
      } else if last > n2 {
        lastsum := n2;
        last := n2;
      } else {
        lastsum := lastsum + n2;
      }
    } else {
      last, lastsum := n2, n2;
    }
  }

  method Roman2Num(rom: string) returns (num: int, ret: int)
    ensures (num, ret) == Read(rom)
  {
    var s := SkipFrom(rom, 0, false);
    assert rom[0..] == rom;
    if s < |rom| && rom[s] == '-' {
      var n, i := ParseFrom(rom, s + 1);
      assert rom[s..][1..] == rom[s + 1..];
      return -n, i;
    }
    if s < |rom| && (rom[s] == 'n' || rom[s] == 'N') { return 0, 1; }
    var n, i := ParseFrom(rom, s);
    return n, i;
  }

  lemma WholeString(w: string, s: string, kept: nat)
    requires Terminated(w, s, kept) && kept == |s|
    ensures s < w && w[|s|] == '\0'
  {
  }

  /** A region holds one string only. */
  lemma OneString(w: string, a: string, b: string)
    requires a < w && b < w && w[|a|] == '\0' && w[|b|] == '\0' && '\0' !in a && '\0' !in b
    ensures a == b
  {
    assert forall i :: 0 <= i < |a| ==> w[i] == a[i];
    assert forall i :: 0 <= i < |b| ==> w[i] == b[i];
  }

  /** strlen, and the string it measures. */
  method CString(buf: array<char>) returns (s: string)
    requires exists i :: 0 <= i < buf.Length && buf[i] == '\0'
    ensures |s| < buf.Length && s == buf[..|s|] && buf[|s|] == '\0' && '\0' !in s
  {
    var i := 0;
    while buf[i] != '\0'
      invariant 0 <= i < buf.Length && '\0' !in buf[..i]
      invariant exists j :: i <= j < buf.Length && buf[j] == '\0'
      decreases buf.Length - i
    {
      i := i + 1;
    }
    s := buf[..i];
  }

  /** Printing into a buffer longer than the numeral and reading the string that is then in it gives
      the number back, and uses the string up. */
  method PrintAndRead(buf: array<char>, n: int, f: Flags) returns (num: int, ret: int)
    requires n >= 0 || f.neg
    requires buf.Length > |Numeral(n, f)|
    modifies buf
    ensures num == n && ret == |Numeral(n, f)|
  {
    var rc := Num2Roman(buf, buf.Length, n, f);
    ghost var s := Numeral(n, f);
    WholeString(buf[..buf.Length], s, rc);
    var rom := CString(buf);
    NoNulInNumeral(n, f);
    OneString(buf[..], rom, s);
    num, ret := Roman2Num(rom);
    RoundTrip(n, f);
  }
}
