/**
 * Version utilities of the board synchronizer: pulling a `major.minor`
 * version out of an option label, and comparing dotted versions part by
 * part as integers.
 */
module Versions {
  import opened Text

  // ---------------------------------------------------------------------
  // extractVersion
  // ---------------------------------------------------------------------

  /** End of the maximal digit run that starts at `i`. */
  function RunEnd(t: string, i: nat): (j: nat)
    requires i <= |t|
    ensures i <= j <= |t|
    ensures forall k :: i <= k < j ==> IsDigit(t[k])
    ensures j == |t| || !IsDigit(t[j])
    decreases |t| - i
  {
    if i < |t| && IsDigit(t[i]) then RunEnd(t, i + 1) else i
  }

  /** Start of the maximal digit run that ends just before `k`. */
  function RunStart(t: string, k: nat): (j: nat)
    requires k <= |t|
    ensures j <= k
    ensures forall m :: j <= m < k ==> IsDigit(t[m])
    ensures j == 0 || !IsDigit(t[j - 1])
  {
    if k > 0 && IsDigit(t[k - 1]) then RunStart(t, k - 1) else k
  }

  /** Position `k` holds a dot with a digit on either side. */
  predicate DotAt(t: string, k: int) {
    0 < k && k + 1 < |t| && t[k] == '.' && IsDigit(t[k - 1]) && IsDigit(t[k + 1])
  }

  /** `k` is the leftmost digit-dot-digit position of `t`. */
  predicate FirstDot(t: string, k: int) {
    DotAt(t, k) && forall m :: 0 <= m < k ==> !DotAt(t, m)
  }

  /**
   * What the pattern `v?(\d+)\.(\d+)` captures around the dot at `k`: the
   * whole digit run before the dot, the dot, and the whole digit run after it.
   */
  function VersionAround(t: string, k: int): string
    requires DotAt(t, k)
  {
    t[RunStart(t, k)..RunEnd(t, k + 1)]
  }

  /**
   * Left-to-right scan from `i` for the first digit run followed by a dot
   * and a digit. The optional `v` of the pattern never changes the captured
   * groups, so the scan does not look for it.
   */
  function ScanFrom(t: string, i: nat): string
    requires i <= |t|
    decreases |t| - i
  {
    if i == |t| then ""
    else if !IsDigit(t[i]) then ScanFrom(t, i + 1)
    else
      var j := RunEnd(t, i);
      if DotAt(t, j) then t[i..j] + "." + t[j + 1..RunEnd(t, j + 1)]
      else ScanFrom(t, j)
  }

  /** `extractVersion`: the first `major.minor` of `text` without any `v`, or "". */
  function ExtractVersion(text: string): string {
    ScanFrom(text, 0)
  }

  lemma RunStartOf(t: string, i: nat, k: nat)
    requires i <= k <= |t|
    requires forall m :: i <= m < k ==> IsDigit(t[m])
    requires i == 0 || !IsDigit(t[i - 1])
    ensures RunStart(t, k) == i
    decreases k
  {
    if k > i {
      RunStartOf(t, i, k - 1);
    }
  }

  lemma {:induction false} ScanFromSpec(t: string, i: nat)
    requires i <= |t|
    requires i == 0 || i == |t| || !IsDigit(t[i - 1]) || !IsDigit(t[i])
    requires forall m :: 0 <= m <= i ==> !DotAt(t, m)
    ensures ScanFrom(t, i) == "" <==> forall m :: 0 <= m < |t| ==> !DotAt(t, m)
    ensures forall k :: FirstDot(t, k) ==> ScanFrom(t, i) == VersionAround(t, k)
    decreases |t| - i
  {
    if i == |t| {
    } else if !IsDigit(t[i]) {
      ScanFromSpec(t, i + 1);
    } else {
      var j := RunEnd(t, i);
      if DotAt(t, j) {
        ScanFromHit(t, i, j);
      } else {
        NoDotInside(t, i, j);
        ScanFromSpec(t, j);
      }
    }
  }

  /** The scan stops at the first run followed by dot and digit. */
  lemma ScanFromHit(t: string, i: nat, j: nat)
    requires i < |t| && IsDigit(t[i]) && j == RunEnd(t, i) && DotAt(t, j)
    requires i == 0 || !IsDigit(t[i - 1])
    requires forall m :: 0 <= m <= i ==> !DotAt(t, m)
    ensures ScanFrom(t, i) == t[i..j] + "." + t[j + 1..RunEnd(t, j + 1)]
    ensures FirstDot(t, j) && VersionAround(t, j) == ScanFrom(t, i)
    ensures forall k :: FirstDot(t, k) ==> k == j
  {
    ScanFromDot(t, i);
    RunStartOf(t, i, j);
    NoDotInside(t, i, j);
    assert FirstDot(t, j);
    var e := RunEnd(t, j + 1);
    assert VersionAround(t, j) == t[i..e];
    SliceAroundDot(t, i, j, e);
    FirstDotUnique(t, j);
  }

  lemma ScanFromDot(t: string, i: nat)
    requires i < |t| && IsDigit(t[i]) && DotAt(t, RunEnd(t, i))
    ensures ScanFrom(t, i) == t[i..RunEnd(t, i)] + "." + t[RunEnd(t, i) + 1..RunEnd(t, RunEnd(t, i) + 1)]
  {
  }

  lemma FirstDotUnique(t: string, j: int)
    requires FirstDot(t, j)
    ensures forall k :: FirstDot(t, k) ==> k == j
  {
  }

  lemma NoDotInside(t: string, i: nat, j: nat)
    requires i < j <= |t|
    requires forall m :: i <= m < j ==> IsDigit(t[m])
    requires forall m :: 0 <= m <= i ==> !DotAt(t, m)
    ensures forall m :: 0 <= m < j ==> !DotAt(t, m)
  {
    forall m | i < m < j
      ensures !DotAt(t, m)
    {
      assert IsDigit(t[m]);
    }
  }

  lemma SliceAroundDot(t: string, i: nat, j: nat, e: nat)
    requires i <= j < e <= |t| && t[j] == '.'
    ensures t[i..e] == t[i..j] + "." + t[j + 1..e]
  {
    assert t[i..e] == t[i..j] + t[j..j + 1] + t[j + 1..e];
    assert t[j..j + 1] == ".";
  }

  /**
   * `extractVersion` finds nothing exactly when no digit-dot-digit occurs,
   * and otherwise returns the digits around the leftmost such dot.
   */
  lemma ExtractVersionSpec(text: string)
    ensures ExtractVersion(text) == "" <==> forall k :: 0 <= k < |text| ==> !DotAt(text, k)
    ensures forall k :: FirstDot(text, k) ==> ExtractVersion(text) == VersionAround(text, k)
  {
    ScanFromSpec(text, 0);
  }

  /** A found version has the shape `digits.digits`, leading zeros kept. */
  lemma ExtractVersionShape(text: string)
    requires ExtractVersion(text) != ""
    ensures exists k :: (0 < k < |ExtractVersion(text)| - 1 && ExtractVersion(text)[k] == '.'
      && AllDigits(ExtractVersion(text)[..k]) && AllDigits(ExtractVersion(text)[k + 1..]))
  {
    ExtractVersionSpec(text);
    var k := FirstDotIndex(text, 0);
    var a, e := RunStart(text, k), RunEnd(text, k + 1);
    var v := ExtractVersion(text);
    assert v == text[a..e];
    assert v[k - a] == '.';
    assert v[..k - a] == text[a..k];
    assert v[k - a + 1..] == text[k + 1..e];
  }

  /** The index of the leftmost dot, given that one exists at or after `from`. */
  lemma FirstDotIndex(t: string, from: nat) returns (k: nat)
    requires exists m :: 0 <= m < |t| && DotAt(t, m)
    requires forall m :: 0 <= m < from ==> !DotAt(t, m)
    ensures FirstDot(t, k)
    decreases |t| - from
  {
    if DotAt(t, from) {
      k := from;
    } else {
      k := FirstDotIndex(t, from + 1);
    }
  }

  lemma ExtractVersionExamples()
    ensures ExtractVersion("v1.32 stable") == "1.32"
    ensures ExtractVersion("1.30") == "1.30"
    ensures ExtractVersion("latest") == ""
    ensures ExtractVersion("v01.002") == "01.002"
  {
    ExtractStable();
    ExtractPlain();
    ExtractLeadingZeros();
    var t := "latest";
    assert forall k :: 0 <= k < |t| ==> t[k] != '.';
    ExtractVersionSpec(t);
  }

  lemma ExtractStable()
    ensures ExtractVersion("v1.32 stable") == "1.32"
  {
    var t := "v1.32 stable";
    assert RunEnd(t, 5) == 5 && RunEnd(t, 4) == 5 && RunEnd(t, 3) == 5;
    assert RunEnd(t, 2) == 2 && RunEnd(t, 1) == 2;
    assert DotAt(t, 2);
    assert ScanFrom(t, 1) == t[1..2] + "." + t[3..5];
    assert t[1..2] == "1" && t[3..5] == "32";
    assert ScanFrom(t, 0) == ScanFrom(t, 1);
  }

  lemma ExtractPlain()
    ensures ExtractVersion("1.30") == "1.30"
  {
    var t := "1.30";
    assert RunEnd(t, 4) == 4 && RunEnd(t, 3) == 4 && RunEnd(t, 2) == 4;
    assert RunEnd(t, 1) == 1 && RunEnd(t, 0) == 1;
    assert DotAt(t, 1);
    assert ScanFrom(t, 0) == t[0..1] + "." + t[2..4];
    assert t[0..1] == "1" && t[2..4] == "30";
  }

  lemma ExtractLeadingZeros()
    ensures ExtractVersion("v01.002") == "01.002"
  {
    var t := "v01.002";
    assert RunEnd(t, 7) == 7 && RunEnd(t, 6) == 7 && RunEnd(t, 5) == 7 && RunEnd(t, 4) == 7;
    assert RunEnd(t, 3) == 3 && RunEnd(t, 2) == 3 && RunEnd(t, 1) == 3;
    assert DotAt(t, 3);
    assert ScanFrom(t, 1) == t[1..3] + "." + t[4..7];
    assert t[1..3] == "01" && t[4..7] == "002";
    assert ScanFrom(t, 0) == ScanFrom(t, 1);
  }

  /** `v<digit>.<digit><digit>` yields everything after the `v`. */
  lemma ShortRelease(t: string)
    requires |t| == 5 && t[0] == 'v' && t[2] == '.'
    requires IsDigit(t[1]) && IsDigit(t[3]) && IsDigit(t[4])
    ensures ExtractVersion(t) == t[1..]
  {
    assert RunEnd(t, 5) == 5 && RunEnd(t, 4) == 5 && RunEnd(t, 3) == 5;
    assert RunEnd(t, 2) == 2 && RunEnd(t, 1) == 2;
    assert DotAt(t, 2);
    assert ScanFrom(t, 1) == t[1..2] + "." + t[3..5];
    assert t[1..] == t[1..2] + "." + t[3..5];
    assert ScanFrom(t, 0) == ScanFrom(t, 1);
  }

  // ---------------------------------------------------------------------
  // compareVersions
  // ---------------------------------------------------------------------

  /** Each dot-separated part read with `Atoi` (malformed parts read as 0). */
  function Numbers(v: string): seq<int> {
    var parts := Split(v);
    seq(|parts|, i requires 0 <= i < |parts| => Atoi(parts[i]))
  }

  /** The `i`-th part, 0 when the version has fewer parts. */
  function At(xs: seq<int>, i: nat): int {
    if i < |xs| then xs[i] else 0
  }

  function Drop(xs: seq<int>, i: nat): seq<int> {
    if i <= |xs| then xs[i..] else []
  }

  /** Lexicographic comparison of part lists, the shorter padded with zeros. */
  function CompareParts(xs: seq<int>, ys: seq<int>): (r: int)
    ensures -1 <= r <= 1
    decreases |xs| + |ys|
  {
    if |xs| == 0 && |ys| == 0 then 0
    else if At(xs, 0) > At(ys, 0) then 1
    else if At(xs, 0) < At(ys, 0) then -1
    else CompareParts(Drop(xs, 1), Drop(ys, 1))
  }

  /** The value `compareVersions(v1, v2)` returns. */
  function Compare(v1: string, v2: string): int {
    CompareParts(Numbers(v1), Numbers(v2))
  }

  /**
   * `compareVersions`: walks both part lists up to the longer length,
   * reading a missing part as 0, and returns at the first difference.
   */
  method CompareVersions(v1: string, v2: string) returns (r: int)
    ensures r == Compare(v1, v2)
    ensures r == -1 || r == 0 || r == 1
  {
    var parts1 := Split(v1);
    var parts2 := Split(v2);
    ghost var xs, ys := Numbers(v1), Numbers(v2);
    var maxLen := |parts1|;
    if |parts2| > maxLen {
      maxLen := |parts2|;
    }
    for i := 0 to maxLen
      invariant CompareParts(xs, ys) == CompareParts(Drop(xs, i), Drop(ys, i))
    {
      var num1, num2 := 0, 0;
      if i < |parts1| {
        num1 := Atoi(parts1[i]);
      }
      if i < |parts2| {
        num2 := Atoi(parts2[i]);
      }
      PartNumber(v1, i);
      PartNumber(v2, i);
      CompareStep(xs, ys, i);
      if num1 > num2 {
        return 1;
      }
      if num1 < num2 {
        return -1;
      }
    }
    assert Drop(xs, maxLen) == [] && Drop(ys, maxLen) == [];
    return 0;
  }

  /** The padded part `i` of a version is the parse of its `i`-th piece. */
  lemma PartNumber(v: string, i: nat)
    ensures At(Numbers(v), i) == if i < |Split(v)| then Atoi(Split(v)[i]) else 0
  {
  }

  /** One iteration of the comparison loop: the padded parts at `i` decide, or the rest does. */
  lemma CompareStep(xs: seq<int>, ys: seq<int>, i: nat)
    requires i < |xs| || i < |ys|
    ensures CompareParts(Drop(xs, i), Drop(ys, i))
      == if At(xs, i) > At(ys, i) then 1
         else if At(xs, i) < At(ys, i) then -1
         else CompareParts(Drop(xs, i + 1), Drop(ys, i + 1))
  {
    assert At(Drop(xs, i), 0) == At(xs, i) && At(Drop(ys, i), 0) == At(ys, i);
    assert Drop(Drop(xs, i), 1) == Drop(xs, i + 1);
    assert Drop(Drop(ys, i), 1) == Drop(ys, i + 1);
  }

  // Order properties of the comparison.

  lemma {:induction false} CompareReflexive(xs: seq<int>)
    ensures CompareParts(xs, xs) == 0
    decreases |xs|
  {
    if |xs| > 0 {
      CompareReflexive(Drop(xs, 1));
    }
  }

  lemma {:induction false} CompareAntisymmetric(xs: seq<int>, ys: seq<int>)
    ensures CompareParts(xs, ys) == -CompareParts(ys, xs)
    decreases |xs| + |ys|
  {
    if |xs| > 0 || |ys| > 0 {
      CompareAntisymmetric(Drop(xs, 1), Drop(ys, 1));
    }
  }

  lemma {:induction false} CompareTransitive(xs: seq<int>, ys: seq<int>, zs: seq<int>)
    requires CompareParts(xs, ys) >= 0 && CompareParts(ys, zs) >= 0
    ensures CompareParts(xs, zs) >= 0
    ensures CompareParts(xs, ys) > 0 || CompareParts(ys, zs) > 0 ==> CompareParts(xs, zs) > 0
    decreases |xs| + |ys| + |zs|
  {
    if |xs| > 0 || |ys| > 0 || |zs| > 0 {
      if At(xs, 0) == At(ys, 0) == At(zs, 0) {
        CompareTransitive(Drop(xs, 1), Drop(ys, 1), Drop(zs, 1));
      }
    }
  }

  /**
   * `compareVersions` is a total preorder on strings: reflexive, with
   * results that flip when the arguments are swapped, and transitive.
   */
  lemma CompareVersionsOrder(a: string, b: string, c: string)
    ensures Compare(a, a) == 0
    ensures Compare(a, b) == -Compare(b, a)
    ensures Compare(a, b) >= 0 && Compare(b, c) >= 0 ==> Compare(a, c) >= 0
    ensures Compare(a, b) > 0 && Compare(b, c) >= 0 ==> Compare(a, c) > 0
  {
    CompareReflexive(Numbers(a));
    CompareAntisymmetric(Numbers(a), Numbers(b));
    if Compare(a, b) >= 0 && Compare(b, c) >= 0 {
      CompareTransitive(Numbers(a), Numbers(b), Numbers(c));
    }
  }

  /**
   * Parts compare numerically, position by position, with absent parts read
   * as 0: the result is 0 exactly when every padded part agrees, and is
   * otherwise the sign at the first padded part that differs.
   */
  lemma {:induction false} ComparePartsSpec(xs: seq<int>, ys: seq<int>)
    ensures CompareParts(xs, ys) == 0 <==> forall i :: 0 <= i < |xs| + |ys| ==> At(xs, i) == At(ys, i)
    ensures CompareParts(xs, ys) != 0 ==> exists i :: (0 <= i < |xs| + |ys|
      && (forall j :: 0 <= j < i ==> At(xs, j) == At(ys, j))
      && (if CompareParts(xs, ys) == 1 then At(xs, i) > At(ys, i) else At(xs, i) < At(ys, i)))
    decreases |xs| + |ys|
  {
    if |xs| == 0 && |ys| == 0 {
    } else {
      var xs', ys' := Drop(xs, 1), Drop(ys, 1);
      if At(xs, 0) == At(ys, 0) {
        ComparePartsSpec(xs', ys');
        if CompareParts(xs', ys') == 0 {
          EqualTail(xs, ys);
        } else {
          DifferentTail(xs, ys);
        }
      } else {
        assert 0 < |xs| + |ys|;
      }
    }
  }
  /** Equal heads and equal padded tails give equal padded lists. */
  lemma EqualTail(xs: seq<int>, ys: seq<int>)
    requires |xs| + |ys| > 0 && At(xs, 0) == At(ys, 0)
    requires forall i :: 0 <= i < |Drop(xs, 1)| + |Drop(ys, 1)| ==> At(Drop(xs, 1), i) == At(Drop(ys, 1), i)
    ensures forall i :: 0 <= i < |xs| + |ys| ==> At(xs, i) == At(ys, i)
  {
    var xs', ys' := Drop(xs, 1), Drop(ys, 1);
    forall i | 0 < i < |xs| + |ys| ensures At(xs, i) == At(ys, i) {
      assert At(xs', i - 1) == At(xs, i) && At(ys', i - 1) == At(ys, i);
      if i - 1 >= |xs'| + |ys'| {
        assert i - 1 >= |xs'| && i - 1 >= |ys'|;
      }
    }
  }

  /** Equal heads move the first difference of the tails one place on. */
  lemma DifferentTail(xs: seq<int>, ys: seq<int>)
    requires |xs| + |ys| > 0 && At(xs, 0) == At(ys, 0)
    requires var xs', ys' := Drop(xs, 1), Drop(ys, 1);
      CompareParts(xs', ys') != 0 && exists i :: (0 <= i < |xs'| + |ys'|
      && (forall j :: 0 <= j < i ==> At(xs', j) == At(ys', j))
      && (if CompareParts(xs', ys') == 1 then At(xs', i) > At(ys', i) else At(xs', i) < At(ys', i)))
    ensures exists i :: (0 <= i < |xs| + |ys|
      && (forall j :: 0 <= j < i ==> At(xs, j) == At(ys, j))
      && (if CompareParts(Drop(xs, 1), Drop(ys, 1)) == 1 then At(xs, i) > At(ys, i) else At(xs, i) < At(ys, i)))
  {
    var xs', ys' := Drop(xs, 1), Drop(ys, 1);
    var i :| 0 <= i < |xs'| + |ys'|
      && (forall j :: 0 <= j < i ==> At(xs', j) == At(ys', j))
      && (if CompareParts(xs', ys') == 1 then At(xs', i) > At(ys', i) else At(xs', i) < At(ys', i));
    forall j | 0 < j < i + 1 ensures At(xs, j) == At(ys, j) {
      assert At(xs', j - 1) == At(xs, j) && At(ys', j - 1) == At(ys, j);
    }
    assert At(xs', i) == At(xs, i + 1) && At(ys', i) == At(ys, i + 1);
    assert i + 1 < |xs| + |ys|;
  }


  /** The part list of a version whose dot-free parts are known. */
  lemma NumbersOf(v: string, parts: seq<string>)
    requires |parts| > 0 && v == Join(parts)
    requires forall k :: 0 <= k < |parts| ==> '.' !in parts[k]
    ensures Numbers(v) == seq(|parts|, i requires 0 <= i < |parts| => Atoi(parts[i]))
  {
    SplitJoin(parts);
  }

  lemma NumbersTwo(a: string, b: string)
    requires '.' !in a && '.' !in b
    ensures Numbers(a + "." + b) == [Atoi(a), Atoi(b)]
  {
    assert Join([a, b]) == a + "." + b by {
      assert [a, b][1..] == [b];
    }
    NumbersOf(a + "." + b, [a, b]);
  }

  lemma NumbersThree(a: string, b: string, c: string)
    requires '.' !in a && '.' !in b && '.' !in c
    ensures Numbers(a + "." + b + "." + c) == [Atoi(a), Atoi(b), Atoi(c)]
  {
    assert Join([a, b, c]) == a + "." + b + "." + c by {
      assert [a, b, c][1..] == [b, c];
      assert [b, c][1..] == [c];
      assert Join([b, c]) == b + "." + c;
      assert a + "." + (b + "." + c) == a + "." + b + "." + c;
    }
    NumbersOf(a + "." + b + "." + c, [a, b, c]);
  }

  lemma AtoiSmall()
    ensures Atoi("0") == 0 && Atoi("1") == 1 && Atoi("4") == 4
    ensures Atoi("30") == 30 && Atoi("31") == 31 && Atoi("32") == 32
  {
    assert "30"[..1] == "3" && "31"[..1] == "3" && "32"[..1] == "3";
  }

  lemma CompareExampleMinor()
    ensures Compare("1.30", "1.31") == -1
  {
    assert "1.30" == "1" + "." + "30";
    assert "1.31" == "1" + "." + "31";
    NumbersTwo("1", "30");
    NumbersTwo("1", "31");
    AtoiSmall();
    assert Drop([1, 30], 1) == [30] && Drop([1, 31], 1) == [31];
  }

  lemma CompareExampleNumeric()
    ensures Compare("1.32", "1.4") == 1
  {
    assert "1.32" == "1" + "." + "32";
    assert "1.4" == "1" + "." + "4";
    NumbersTwo("1", "32");
    NumbersTwo("1", "4");
    AtoiSmall();
    assert Drop([1, 32], 1) == [32] && Drop([1, 4], 1) == [4];
  }

  lemma CompareExamplePadding()
    ensures Compare("1.30", "1.30.0") == 0
  {
    NumbersLiteral130();
    NumbersLiteral1300();
    PaddedParts();
  }

  lemma NumbersLiteral130()
    ensures Numbers("1.30") == [1, 30]
  {
    assert "1.30" == "1" + "." + "30";
    NumbersTwo("1", "30");
    AtoiSmall();
  }

  lemma NumbersLiteral1300()
    ensures Numbers("1.30.0") == [1, 30, 0]
  {
    assert "1.30.0" == "1" + "." + "30" + "." + "0";
    NumbersThree("1", "30", "0");
    AtoiSmall();
  }

  lemma PaddedParts()
    ensures CompareParts([1, 30], [1, 30, 0]) == 0
  {
    assert Drop([1, 30], 1) == [30] && Drop([30], 1) == [];
    assert Drop([1, 30, 0], 1) == [30, 0] && Drop([30, 0], 1) == [0] && Drop([0], 1) == [];
  }

  lemma CompareExampleOlder()
    ensures Compare("1.30", "1.32") == -1
  {
    assert "1.30" == "1" + "." + "30";
    assert "1.32" == "1" + "." + "32";
    NumbersTwo("1", "30");
    NumbersTwo("1", "32");
    AtoiSmall();
    assert Drop([1, 30], 1) == [30] && Drop([1, 32], 1) == [32];
  }
}
