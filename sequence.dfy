/**
 * Numbering of decision records (`getNextSequenceNumber`). A file counts
 * when its name starts with four decimal digits and a dash; the next number
 * is one more than the largest such prefix, or 1 when there is none, and it
 * is written with at least four digits.
 */
module Sequence {
  import opened Wrappers
  import opened Text

  /** `file.match(/^(\d{4})-/)` followed by `parseInt(match[1], 10)`. */
  function FourDigitPrefix(name: string): (r: Option<nat>)
    ensures r.Some? ==> r.value <= 9999
  {
    if |name| >= 5 && IsDigit(name[0]) && IsDigit(name[1]) && IsDigit(name[2]) && IsDigit(name[3]) && name[4] == '-'
    then Some(DigitValue(name[0]) * 1000 + DigitValue(name[1]) * 100 + DigitValue(name[2]) * 10 + DigitValue(name[3]))
    else None
  }

  /** A name is counted exactly when it starts with four digits and a dash, and counts as their decimal value. */
  lemma {:induction false} FourDigitPrefixMatches(name: string)
    ensures FourDigitPrefix(name).Some? <==> |name| >= 5 && AllDigits(name[..4]) && name[4] == '-'
    ensures FourDigitPrefix(name).Some? ==> FourDigitPrefix(name).value == DecimalValue(name[..4])
  {
    if |name| >= 5 {
      var p := name[..4];
      assert p[0] == name[0] && p[1] == name[1] && p[2] == name[2] && p[3] == name[3];
      if AllDigits(p) {
        FourDigitValue(p);
      }
    }
  }

  /** `parseInt` of four digits, written out. */
  lemma {:induction false} FourDigitValue(p: string)
    requires |p| == 4 && AllDigits(p)
    ensures DecimalValue(p) ==
      DigitValue(p[0]) * 1000 + DigitValue(p[1]) * 100 + DigitValue(p[2]) * 10 + DigitValue(p[3])
  {
    var p3 := p[..3];
    var p2 := p3[..2];
    var p1 := p2[..1];
    assert p1[..0] == [];
    assert p1[0] == p[0] && p2[1] == p[1] && p3[2] == p[2];
    assert DecimalValue(p1) == DigitValue(p[0]);
    assert DecimalValue(p2) == DigitValue(p[0]) * 10 + DigitValue(p[1]);
    assert DecimalValue(p3) == DigitValue(p[0]) * 100 + DigitValue(p[1]) * 10 + DigitValue(p[2]);
  }

  /** The prefix numbers of the listing, in listing order: the `map` and `filter` over `readdirSync`. */
  function PrefixNumbers(files: seq<string>): (ns: seq<nat>)
    ensures forall n :: n in ns ==> exists f :: f in files && FourDigitPrefix(f) == Some(n)
    ensures forall f :: f in files && FourDigitPrefix(f).Some? ==> FourDigitPrefix(f).value in ns
  {
    if files == [] then []
    else
      var rest := PrefixNumbers(files[1..]);
      assert forall f :: f in files[1..] ==> f in files;
      assert forall f :: f in files ==> f == files[0] || f in files[1..];
      match FourDigitPrefix(files[0])
      case Some(n) => [n] + rest
      case None => rest
  }

  /** `Math.max(...ns)`. */
  function MaxOf(ns: seq<nat>): (m: nat)
    requires ns != []
    ensures m in ns && forall n :: n in ns ==> n <= m
  {
    if |ns| == 1 then ns[0]
    else
      var m := MaxOf(ns[1..]);
      assert forall n :: n in ns ==> n == ns[0] || n in ns[1..];
      if ns[0] >= m then ns[0] else m
  }

  /** The number the next record gets, given the names in its folder. */
  function NextNumber(files: seq<string>): (n: nat)
    ensures 1 <= n <= 10000
    ensures forall f :: f in files && FourDigitPrefix(f).Some? ==> FourDigitPrefix(f).value < n
    ensures (forall f :: f in files ==> FourDigitPrefix(f).None?) ==> n == 1
    ensures (exists f :: f in files && FourDigitPrefix(f).Some?) ==>
      exists f :: f in files && FourDigitPrefix(f) == Some(n - 1)
  {
    var ns := PrefixNumbers(files);
    if ns == [] then 1 else MaxOf(ns) + 1
  }

  /** `nextNumber.toString().padStart(4, '0')`. */
  function FormatSequence(n: nat): (s: string)
    ensures |s| >= 4 && AllDigits(s) && DecimalValue(s) == n
    ensures n <= 9999 <==> |s| == 4
    ensures n >= 10000 ==> s == NatToString(n)
  {
    var d := NatToString(n);
    var s := PadStart(d, 4, '0');
    LeadingZeros(s[..|s| - |d|], d);
    assert s == s[..|s| - |d|] + d;
    FourDigitsBelowTenThousand(n);
    s
  }

  /** `n` has at most four decimal digits exactly when it is below 10000. */
  lemma {:induction false} FourDigitsBelowTenThousand(n: nat)
    ensures n <= 9999 <==> |NatToString(n)| <= 4
  {
    var k := |NatToString(n)|;
    if n <= 9999 && k > 4 {
      Pow10Monotone(4, k - 1);
    } else if n > 9999 && k <= 4 {
      Pow10Monotone(k, 4);
    }
  }

  /**
   * `getNextSequenceNumber(folder)`, given what the folder holds: `None`
   * when it does not exist (the action then creates it and starts at 0001).
   */
  function NextSequenceNumber(listing: Option<seq<string>>): (s: string)
    ensures |s| >= 4 && AllDigits(s)
    ensures DecimalValue(s) == if listing.None? then 1 else NextNumber(listing.value)
    ensures listing.None? ==> s == "0001"
    ensures DecimalValue(s) <= 9999 <==> |s| == 4
    ensures |s| > 4 ==> s[0] != '0'
  {
    match listing
    case None => OneIsPadded(); "0001"
    case Some(files) => FormatSequence(NextNumber(files))
  }

  lemma {:induction false} OneIsPadded()
    ensures AllDigits("0001") && DecimalValue("0001") == 1
  {
    assert "1"[..0] == [];
    LeadingZeros("000", "1");
    assert "000" + "1" == "0001";
  }

  /** A name built from a formatted number below 10000 is counted by the next scan, with that number. */
  lemma {:induction false} ScanReadsFormatted(n: nat, rest: string)
    requires n <= 9999
    ensures FourDigitPrefix(FormatSequence(n) + "-" + rest) == Some(n)
  {
    var d := FormatSequence(n);
    assert |d| == 4 && AllDigits(d) && DecimalValue(d) == n;
    var name := d + "-" + rest;
    assert |name| >= 5;
    assert name[..4] == d;
    assert name[4] == '-';
    FourDigitPrefixMatches(name);
    assert FourDigitPrefix(name).Some?;
  }

  /** From 10000 on the number has five digits, so the name it gives is not counted by the scan. */
  lemma {:induction false} ScanMissesFiveDigits(n: nat, rest: string)
    requires n >= 10000
    ensures FourDigitPrefix(FormatSequence(n) + "-" + rest) == None
  {
    var d := FormatSequence(n);
    var name := d + "-" + rest;
    assert name[4] == d[4];
    assert IsDigit(d[4]);
  }

  /** A name added at the end of the listing adds its number, if any, at the end of the numbers. */
  lemma {:induction false} PrefixNumbersAppend(files: seq<string>, name: string)
    ensures PrefixNumbers(files + [name]) ==
      PrefixNumbers(files) + (if FourDigitPrefix(name).Some? then [FourDigitPrefix(name).value] else [])
  {
    if files != [] {
      assert (files + [name])[1..] == files[1..] + [name];
      PrefixNumbersAppend(files[1..], name);
    }
  }

  lemma {:induction false} MaxOfAppend(ns: seq<nat>, x: nat)
    ensures MaxOf(ns + [x]) == if ns == [] then x else if MaxOf(ns) >= x then MaxOf(ns) else x
  {
    if ns != [] {
      if |ns| > 1 {
        assert (ns + [x])[1..] == ns[1..] + [x];
        MaxOfAppend(ns[1..], x);
      }
    }
  }

  /** Adding the file just numbered `n` makes the next number `n + 1`. */
  lemma {:induction false} NextNumberAdvances(files: seq<string>, name: string)
    requires FourDigitPrefix(name) == Some(NextNumber(files))
    ensures NextNumber(files + [name]) == NextNumber(files) + 1
  {
    PrefixNumbersAppend(files, name);
    MaxOfAppend(PrefixNumbers(files), NextNumber(files));
  }

  /** Adding a file the scan does not count leaves the next number where it was. */
  lemma {:induction false} NextNumberIgnores(files: seq<string>, name: string)
    requires FourDigitPrefix(name).None?
    ensures NextNumber(files + [name]) == NextNumber(files)
  {
    PrefixNumbersAppend(files, name);
    assert PrefixNumbers(files + [name]) == PrefixNumbers(files);
  }

  /**
   * Once the folder holds 9999, every later record is numbered 10000: the
   * file written as `10000-...` is not counted, so the next scan hands out
   * 10000 again.
   */
  lemma {:induction false} NumberingStallsAtTenThousand(files: seq<string>, rest: string)
    requires NextNumber(files) == 10000
    ensures NextNumber(files + [FormatSequence(10000) + "-" + rest]) == 10000
  {
    ScanMissesFiveDigits(10000, rest);
    NextNumberIgnores(files, FormatSequence(10000) + "-" + rest);
  }

  lemma {:induction false} MissingFolderStartsAtOne()
    ensures NextSequenceNumber(None) == "0001"
  {
  }

  /** An existing folder in which no name is counted numbers from 0001, like a missing one. */
  lemma {:induction false} NoCountedNameStartsAtOne(files: seq<string>)
    requires forall f :: f in files ==> FourDigitPrefix(f).None?
    ensures NextSequenceNumber(Some(files)) == "0001"
  {
    assert NatToString(1) == "1";
    assert PadStart("1", 4, '0') == Repeat('0', 3) + "1";
    assert Repeat('0', 3) == "000";
  }

  /** Five digits, or no digits at all, and the name is not counted. */
  lemma {:induction false} ScanIgnoresOtherNames()
    ensures FourDigitPrefix("12345-x.md") == None
    ensures FourDigitPrefix("abc.md") == None
  {
    assert "12345-x.md"[4] == '5';
    assert "abc.md"[0] == 'a';
  }

  /** After 9999 the number is written with five digits. */
  lemma {:induction false} NumberAfterLastFourDigit()
    ensures NextSequenceNumber(Some(["9999-last.md"])) == "10000"
  {
    var files := ["9999-last.md"];
    assert FourDigitPrefix(files[0]) == Some(9999);
    assert files[1..] == [];
    assert PrefixNumbers(files) == [9999];
    assert NextNumber(files) == 10000;
    assert NatToString(1) == "1";
    assert NatToString(10) == "10";
    assert NatToString(100) == "100";
    assert NatToString(1000) == "1000";
    assert NatToString(10000) == "10000";
  }

  /** The number after 0001 and 0003 is 0004; names without a number do not count. */
  lemma {:induction false} NumberAfterHighest()
    ensures NextSequenceNumber(Some(["0001-use-redis.md", "README.md", "0003-adopt-grpc.md"])) == "0004"
  {
    ExamplePrefixes();
    var files := ["0001-use-redis.md", "README.md", "0003-adopt-grpc.md"];
    assert [1, 3][1..] == [3];
    assert NextNumber(files) == 4;
    FormatFour();
  }

  lemma {:induction false} ExamplePrefixes()
    ensures PrefixNumbers(["0001-use-redis.md", "README.md", "0003-adopt-grpc.md"]) == [1, 3]
  {
    var files := ["0001-use-redis.md", "README.md", "0003-adopt-grpc.md"];
    assert FourDigitPrefix(files[0]) == Some(1);
    assert FourDigitPrefix(files[1]) == None;
    assert FourDigitPrefix(files[2]) == Some(3);
    assert files[1..][1..][1..] == [];
    assert PrefixNumbers(files[1..][1..]) == [3];
    assert PrefixNumbers(files[1..]) == [3];
  }

  lemma {:induction false} FormatFour()
    ensures FormatSequence(4) == "0004"
  {
    assert NatToString(4) == "4";
    assert PadStart("4", 4, '0') == Repeat('0', 3) + "4";
    assert Repeat('0', 3) == "000";
  }
}
