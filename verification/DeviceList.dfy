/** The list of device names on its way from kernel to user: ldt_get_devlist of ldt-kmod/ldt_dev.c
    packs the names, NetlinkReply carries them, and ldt_get_devlist of ldt-tool/lib/ldt_getinfo.c
    splits them into an array of pointers. */
module DeviceList {
  import opened Basics
  import opened NetlinkReply

  const IFNAMSIZ: nat := 16

  type Text = seq<Byte>

  datatype NetDevice = NetDevice(name: Text, isLdt: bool)

  predicate NulFree(s: Text) {
    0 !in s
  }

  /** Names the kernel gives to devices. */
  predicate DevName(s: Text) {
    0 < |s| < IFNAMSIZ && NulFree(s)
  }

  predicate AllNamed(devs: seq<NetDevice>) {
    forall i :: 0 <= i < |devs| ==> DevName(devs[i].name)
  }

  function LdtNames(devs: seq<NetDevice>): (r: seq<Text>)
    requires AllNamed(devs)
    ensures |r| <= |devs| && forall i :: 0 <= i < |r| ==> DevName(r[i])
  {
    if devs == [] then []
    else
      var d := devs[|devs| - 1];
      LdtNames(devs[..|devs| - 1]) + if d.isLdt then [d.name] else []
  }

  /** The fields one after the other, each with a NUL behind it. */
  function Joined(fs: seq<Text>): Text {
    if fs == [] then [] else Joined(fs[..|fs| - 1]) + fs[|fs| - 1] + [0]
  }

  lemma JoinedSnoc(fs: seq<Text>, f: Text)
    ensures Joined(fs + [f]) == Joined(fs) + f + [0]
  {
  }

  // --- Packing ---

  /** The first loop over the devices. */
  method CountNames(devs: seq<NetDevice>) returns (num: nat)
    requires AllNamed(devs)
    ensures num == |LdtNames(devs)|
  {
    num := 0;
    for i := 0 to |devs|
      invariant num == |LdtNames(devs[..i])|
    {
      assert devs[..i + 1][..i] == devs[..i];
      if devs[i].isLdt { num := num + 1; }
    }
    assert devs[..|devs|] == devs;
  }

  /** strcpy to s; the new end. */
  method CopyName(buf: array<Byte>, s: nat, name: Text) returns (end: nat)
    requires s + |name| < buf.Length
    modifies buf
    ensures end == s + |name| + 1
    ensures buf[..end] == old(buf[..s]) + name + [0]
  {
    forall i | 0 <= i < |name| { buf[s + i] := name[i]; }
    buf[s + |name|] := 0;
    end := s + |name| + 1;
  }

  /** One name adds at most IFNAMSIZ bytes. */
  lemma {:induction false} JoinedFits(fs: seq<Text>)
    requires forall i :: 0 <= i < |fs| ==> DevName(fs[i])
    ensures |Joined(fs)| <= |fs| * IFNAMSIZ && (fs != [] ==> Joined(fs) != [])
  {
    if fs != [] { JoinedFits(fs[..|fs| - 1]); }
  }

  /** One device more or less. */
  lemma LdtNamesGrow(devs: seq<NetDevice>, i: nat)
    requires i < |devs| && AllNamed(devs)
    ensures !devs[i].isLdt ==> LdtNames(devs[..i + 1]) == LdtNames(devs[..i])
    ensures devs[i].isLdt ==> LdtNames(devs[..i + 1]) == LdtNames(devs[..i]) + [devs[i].name]
    ensures |LdtNames(devs[..i + 1])| <= |LdtNames(devs)|
    ensures devs[i].isLdt ==> Joined(LdtNames(devs[..i + 1])) == Joined(LdtNames(devs[..i])) + devs[i].name + [0]
    decreases |devs|
  {
    assert devs[..i + 1][..i] == devs[..i];
    var names := LdtNames(devs[..i + 1]);
    if devs[i].isLdt { assert names[..|names| - 1] == LdtNames(devs[..i]); }
    if i + 1 == |devs| {
      assert devs[..i + 1] == devs;
    } else {
      var init := devs[..|devs| - 1];
      LdtNamesGrow(init, i);
      assert init[..i + 1] == devs[..i + 1];
    }
  }

  /** ldt_get_devlist of the kernel module: the names fit what is allocated, and an empty list
      leaves an empty string. */
  method PackNames(devs: seq<NetDevice>) returns (devlist: array<Byte>, dlen: nat)
    requires AllNamed(devs)
    ensures fresh(devlist) && devlist.Length == |LdtNames(devs)| * (IFNAMSIZ + 1) + 1
    ensures dlen < devlist.Length && devlist[..dlen] == Joined(LdtNames(devs))
    ensures LdtNames(devs) == [] ==> devlist[0] == 0
  {
    var num := CountNames(devs);
    devlist := new Byte[num * (IFNAMSIZ + 1) + 1];
    var s: nat := 0;
    devlist[0] := 0;
    for i := 0 to |devs|
      invariant s < devlist.Length && devlist[..s] == Joined(LdtNames(devs[..i]))
      invariant LdtNames(devs[..i]) == [] ==> devlist[0] == 0
    {
      LdtNamesGrow(devs, i);
      if devs[i].isLdt {
        JoinedFits(LdtNames(devs[..i + 1]));
        s := CopyName(devlist, s, devs[i].name);
      }
    }
    dlen := s;
    assert devs[..|devs|] == devs;
  }

  // --- Splitting ---

  /** Where fields start among the first n bytes: at 0 and behind every NUL. */
  function Starts(text: Text, n: nat): (r: seq<nat>)
    requires n <= |text|
    ensures forall i :: 0 <= i < |r| ==> r[i] <= n
  {
    if n == 0 then [0] else Starts(text, n - 1) + if text[n - 1] == 0 then [n] else []
  }

  predicate Inside(text: Text, ptrs: seq<int>) {
    forall i :: 0 <= i < |ptrs| ==> 0 <= ptrs[i] < |text|
  }

  /** The starts at which the string is not empty. */
  function Kept(text: Text, starts: seq<nat>): (r: seq<nat>)
    requires Inside(text, starts)
    ensures Inside(text, r)
  {
    if starts == [] then []
    else
      var s := starts[|starts| - 1];
      Kept(text, starts[..|starts| - 1]) + if text[s] != 0 then [s] else []
  }

  const NULL: int := -1

  /** The counting loop gives room for every pointer and the final NULL. */
  method CountSlots(text: Text, ilen: nat) returns (num: nat)
    requires ilen <= |text|
    ensures num == |Starts(text, ilen)| + 1
  {
    num := 2;
    for i := 0 to ilen
      invariant num == |Starts(text, i)| + 1
    {
      if text[i] == 0 { num := num + 1; }
    }
  }

  lemma {:induction false} StartsGrow(text: Text, m: nat, n: nat)
    requires m <= n <= |text|
    ensures Starts(text, m) <= Starts(text, n)
  {
    if m < n { StartsGrow(text, m, n - 1); }
  }

  /** A pointer behind every NUL; none is written past the end of the array. */
  method PointToFields(text: Text, ilen: nat, arg: array<int>) returns (num: nat)
    requires ilen < |text| && arg.Length == |Starts(text, ilen)| + 1
    modifies arg
    ensures num == |Starts(text, ilen)| && arg[..num] == Starts(text, ilen) && arg[num] == NULL
  {
    StartsGrow(text, 0, ilen);
    arg[0] := 0;
    num := 1;
    for i := 0 to ilen
      invariant num == |Starts(text, i)| < arg.Length && arg[..num] == Starts(text, i)
    {
      StartsGrow(text, i + 1, ilen);
      if text[i] == 0 {
        arg[num] := i + 1;
        num := num + 1;
      }
    }
    arg[num] := NULL;
  }

  lemma KeptGrow(text: Text, starts: seq<nat>, i: nat)
    requires i < |starts| && Inside(text, starts)
    ensures Kept(text, starts[..i + 1]) == Kept(text, starts[..i]) + if text[starts[i]] != 0 then [starts[i]] else []
  {
    assert starts[..i + 1][..i] == starts[..i];
  }

  /** The second loop: pointers to empty strings are squeezed out in place. */
  method DropEmpty(text: Text, arg: array<int>, num: nat, ghost starts: seq<nat>) returns (j: nat)
    requires num < arg.Length && arg[..num] == starts && Inside(text, starts)
    modifies arg
    ensures j <= num && arg[..j] == Kept(text, starts) && arg[j] == NULL
  {
    j := 0;
    for i := 0 to num
      invariant j <= i && arg[..j] == Kept(text, starts[..i])
      invariant forall k :: i <= k < num ==> arg[k] == starts[k]
    {
      KeptGrow(text, starts, i);
      if text[arg[i]] != 0 {
        if i > j { arg[j] := arg[i]; }
        j := j + 1;
      }
    }
    assert starts[..num] == starts;
    arg[j] := NULL;
  }

  /** ldt_get_devlist of the user library on a reply of |text| - 1 bytes with its NUL behind it. */
  method SplitNames(text: Text) returns (arg: array<int>, num: nat)
    requires text != [] && text[|text| - 1] == 0
    ensures fresh(arg) && num < arg.Length && arg[num] == NULL
    ensures arg[..num] == Pointers(text)
  {
    var ilen := |text| - 1;
    num := CountSlots(text, ilen);
    arg := new int[num];
    num := PointToFields(text, ilen, arg);
    num := DropEmpty(text, arg, num, Starts(text, ilen));
  }

  // --- What the pointers point to ---

  function Strlen(text: Text, s: nat): (r: nat)
    requires s <= |text|
    ensures s + r <= |text|
    decreases |text| - s
  {
    if s == |text| || text[s] == 0 then 0 else 1 + Strlen(text, s + 1)
  }

  function StringAt(text: Text, s: nat): Text
    requires s <= |text|
  {
    text[s..s + Strlen(text, s)]
  }

  function StringsAt(text: Text, ptrs: seq<int>): (r: seq<Text>)
    requires Inside(text, ptrs)
    ensures |r| == |ptrs|
  {
    if ptrs == [] then [] else StringsAt(text, ptrs[..|ptrs| - 1]) + [StringAt(text, ptrs[|ptrs| - 1])]
  }

  function NonEmpty(fs: seq<Text>): seq<Text> {
    if fs == [] then []
    else NonEmpty(fs[..|fs| - 1]) + if fs[|fs| - 1] != [] then [fs[|fs| - 1]] else []
  }

  /** Where the fields of a joined text start. */
  function Offsets(fs: seq<Text>): (r: seq<nat>)
    ensures |r| == |fs| && forall i :: 0 <= i < |r| ==> r[i] < |Joined(fs)|
  {
    if fs == [] then [] else Offsets(fs[..|fs| - 1]) + [|Joined(fs[..|fs| - 1])|]
  }

  lemma {:induction false} NoNulNoStart(text: Text, n: nat, m: nat)
    requires n + m <= |text| && forall i :: n <= i < n + m ==> text[i] != 0
    ensures Starts(text, n + m) == Starts(text, n)
  {
    if m > 0 { NoNulNoStart(text, n, m - 1); }
  }

  lemma {:induction false} StrlenIs(text: Text, s: nat, m: nat)
    requires s + m < |text| && text[s + m] == 0 && forall i :: s <= i < s + m ==> text[i] != 0
    ensures Strlen(text, s) == m
    decreases m
  {
    if m > 0 { StrlenIs(text, s + 1, m - 1); }
  }

  /** The last field of a joined prefix, byte by byte. */
  lemma LastFieldBytes(text: Text, head: Text, f: Text)
    requires head + f + [0] <= text && NulFree(f)
    ensures head <= text && text[|head|..|head| + |f|] == f && text[|head| + |f|] == 0
    ensures forall i :: |head| <= i < |head| + |f| ==> text[i] != 0
  {
  }

  lemma LastField(text: Text, fs: seq<Text>)
    requires fs != [] && Joined(fs) <= text && NulFree(fs[|fs| - 1])
    ensures var s, f := |Joined(fs[..|fs| - 1])|, fs[|fs| - 1];
      && Joined(fs[..|fs| - 1]) <= text && s + |f| + 1 == |Joined(fs)|
      && StringAt(text, s) == f && (text[s] != 0 <==> f != [])
      && Starts(text, s + |f| + 1) == Starts(text, s) + [s + |f| + 1]
  {
    var head, f := Joined(fs[..|fs| - 1]), fs[|fs| - 1];
    LastFieldBytes(text, head, f);
    StrlenIs(text, |head|, |f|);
    NoNulNoStart(text, |head|, |f|);
  }

  lemma {:induction false} StartsAreOffsets(text: Text, fs: seq<Text>)
    requires Joined(fs) <= text && forall i :: 0 <= i < |fs| ==> NulFree(fs[i])
    ensures Starts(text, |Joined(fs)|) == Offsets(fs) + [|Joined(fs)|]
  {
    if fs != [] {
      LastField(text, fs);
      StartsAreOffsets(text, fs[..|fs| - 1]);
    }
  }

  lemma StringsSnoc(text: Text, ptrs: seq<int>, p: nat)
    requires p < |text| && Inside(text, ptrs)
    ensures StringsAt(text, ptrs + [p]) == StringsAt(text, ptrs) + [StringAt(text, p)]
  {
  }

  lemma KeptSnoc(text: Text, starts: seq<nat>, p: nat)
    requires p < |text| && Inside(text, starts)
    ensures Inside(text, starts + [p])
    ensures Kept(text, starts + [p]) == if text[p] != 0 then Kept(text, starts) + [p] else Kept(text, starts)
  {
  }

  lemma {:induction false} KeptStrings(text: Text, fs: seq<Text>)
    requires Joined(fs) <= text && forall i :: 0 <= i < |fs| ==> NulFree(fs[i])
    ensures Inside(text, Offsets(fs)) && StringsAt(text, Kept(text, Offsets(fs))) == NonEmpty(fs)
  {
    if fs != [] {
      var init, p := fs[..|fs| - 1], |Joined(fs[..|fs| - 1])|;
      LastField(text, fs);
      KeptStrings(text, init);
      KeptStringsSnoc(text, Offsets(init), p, StringAt(text, p));
      assert NonEmpty(fs) == if fs[|fs| - 1] != [] then NonEmpty(init) + [fs[|fs| - 1]] else NonEmpty(init);
    }
  }

  lemma KeptStringsSnoc(text: Text, starts: seq<nat>, p: nat, str: Text)
    requires p < |text| && Inside(text, starts) && str == StringAt(text, p)
    ensures Inside(text, starts + [p])
    ensures StringsAt(text, Kept(text, starts + [p]))
         == if text[p] != 0 then StringsAt(text, Kept(text, starts)) + [str] else StringsAt(text, Kept(text, starts))
  {
    KeptSnoc(text, starts, p);
    if text[p] != 0 { StringsSnoc(text, Kept(text, starts), p); }
  }

  /** The offsets that splitting keeps. */
  ghost function Pointers(text: Text): (r: seq<int>)
    requires text != []
    ensures Inside(text, r)
  {
    Kept(text, Starts(text, |text| - 1))
  }

  /** Splitting a text gives the non-empty ones of its NUL-separated fields, in order. */
  lemma SplitGivesFields(text: Text, fs: seq<Text>)
    requires fs != [] && text == Joined(fs) && forall i :: 0 <= i < |fs| ==> NulFree(fs[i])
    ensures StringsAt(text, Pointers(text)) == NonEmpty(fs)
  {
    StartsAreOffsets(text, fs);
    assert text[|text| - 1] == 0;
    assert Starts(text, |text|) == Starts(text, |text| - 1) + [|text|];
    SameInit(Starts(text, |text| - 1), Offsets(fs), |text|);
    KeptStrings(text, fs);
  }

  lemma SameInit<T>(a: seq<T>, b: seq<T>, x: T)
    requires a + [x] == b + [x]
    ensures a == b
  {
    assert |a + [x]| == |a| + 1 && |b + [x]| == |b| + 1;
    assert a == (a + [x])[..|a|] && b == (b + [x])[..|b|];
  }

  lemma {:induction false} NamesAreNonEmpty(names: seq<Text>)
    requires forall i :: 0 <= i < |names| ==> DevName(names[i])
    ensures NonEmpty(names) == names
  {
    if names != [] { NamesAreNonEmpty(names[..|names| - 1]); }
  }

  /** The data send_info is called with: a length of 0 makes it measure the string. */
  function SentData(names: seq<Text>): Text {
    if names == [] then [0] else Joined(names)
  }

  lemma DataSplitsIntoNames(names: seq<Text>)
    requires forall i :: 0 <= i < |names| ==> DevName(names[i])
    ensures StringsAt(SentData(names) + [0], Pointers(SentData(names) + [0])) == names
  {
    var data: seq<Text> := if names == [] then [[]] else names;
    JoinedSnoc([], []);
    JoinedSnoc(data, []);
    var fs: seq<Text> := data + [[]];
    assert SentData(names) == Joined(data);
    SplitGivesFields(SentData(names) + [0], fs);
    NamesAreNonEmpty(names);
  }

  /** Packing and sending; the size of the list is computed in an int. */
  method Send(hdr: seq<Byte>, devs: seq<NetDevice>, before: int) returns (text: Text)
    requires |hdr| == MSG_HDRLEN && AllNamed(devs)
    requires |LdtNames(devs)| * (IFNAMSIZ + 1) + 1 < 0x8000_0000
    ensures text == SentData(LdtNames(devs)) + [0]
  {
    var devlist, dlen := PackNames(devs);
    JoinedFits(LdtNames(devs));
    if dlen == 0 { dlen := 1; }   // strlen of the empty string, plus 1
    var data := devlist[..dlen];
    assert data == SentData(LdtNames(devs));
    var sent, answer, got := RoundTrip(hdr, 0, data, before);
    text := answer.bytes;
  }

  /** From the kernel's devices to the caller's array: packing, sending, reassembling and splitting
      give the names of the LDT devices in order. */
  method Transfer(hdr: seq<Byte>, devs: seq<NetDevice>, before: int)
    returns (text: Text, arg: array<int>, num: nat)
    requires |hdr| == MSG_HDRLEN && AllNamed(devs)
    requires |LdtNames(devs)| * (IFNAMSIZ + 1) + 1 < 0x8000_0000
    ensures num < arg.Length && arg[num] == NULL
    ensures Inside(text, arg[..num]) && StringsAt(text, arg[..num]) == LdtNames(devs)
  {
    text := Send(hdr, devs, before);
    DataSplitsIntoNames(LdtNames(devs));
    arg, num := SplitNames(text);
  }
}
