/**
 * The parts of Go's `strings` and `strconv` packages that the board
 * synchronizer relies on: ASCII lower-casing, substring search, splitting
 * on a dot, and `strconv.Atoi`.
 */
module Text {

  predicate IsDigit(c: char) {
    '0' <= c <= '9'
  }

  /** A non-empty run of decimal digits. */
  predicate AllDigits(s: string) {
    |s| > 0 && forall i :: 0 <= i < |s| ==> IsDigit(s[i])
  }

  function LowerChar(c: char): char {
    if 'A' <= c <= 'Z' then (c as int + 32) as char else c
  }

  /** `strings.ToLower`, restricted to the ASCII letters. */
  function ToLower(s: string): string {
    seq(|s|, i requires 0 <= i < |s| => LowerChar(s[i]))
  }

  /** `strings.Contains(s, sub)`: `sub` occurs somewhere in `s`; the empty string occurs everywhere. */
  predicate Contains(s: string, sub: string) {
    exists i | 0 <= i <= |s| :: sub <= s[i..]
  }

  lemma EmptyIsContained(s: string)
    ensures Contains(s, "")
  {
    assert "" <= s[0..];
  }

  /** A text that lacks one of the characters of `sub` does not contain `sub`. */
  lemma MissingCharNotContained(s: string, sub: string, j: nat)
    requires j < |sub| && sub[j] !in s
    ensures !Contains(s, sub)
  {
    forall i | 0 <= i <= |s| ensures !(sub <= s[i..]) {
      if i + j < |s| {
        assert s[i..][j] == s[i + j];
      }
    }
  }

  /** Joins non-empty list of parts with '.' between them: the inverse of `Split`. */
  function Join(parts: seq<string>): string
    requires |parts| > 0
  {
    if |parts| == 1 then parts[0] else parts[0] + "." + Join(parts[1..])
  }

  /**
   * `strings.Split(s, ".")`: the maximal dot-free pieces of `s`, in order;
   * the empty string splits into one empty piece.
   */
  function Split(s: string): (parts: seq<string>)
    ensures |parts| > 0
    ensures forall k :: 0 <= k < |parts| ==> '.' !in parts[k]
    ensures Join(parts) == s
    decreases |s|
  {
    if |s| == 0 then [""]
    else if s[0] == '.' then
      var rest := Split(s[1..]);
      assert ([""] + rest)[1..] == rest;
      [""] + rest
    else
      var rest := Split(s[1..]);
      var parts := [[s[0]] + rest[0]] + rest[1..];
      assert parts[1..] == rest[1..];
      assert s == [s[0]] + s[1..];
      parts
  }

  /** Splitting undoes joining: a dot-free decomposition is the one `Split` finds. */
  lemma {:induction false} SplitJoin(parts: seq<string>)
    requires |parts| > 0
    requires forall k :: 0 <= k < |parts| ==> '.' !in parts[k]
    ensures Split(Join(parts)) == parts
    decreases |parts|, |parts[0]|
  {
    if |parts| == 1 {
      SplitDotFree(parts[0]);
    } else if |parts[0]| == 0 {
      var tail := parts[1..];
      SplitJoin(tail);
      var s := Join(parts);
      assert s == "." + Join(tail);
      assert s[1..] == Join(tail);
      SplitUnfold(s);
      assert parts == [""] + tail;
    } else {
      var c := parts[0][0];
      var shorter := [parts[0][1..]] + parts[1..];
      ShorterDotFree(parts);
      SplitJoin(shorter);
      var s := Join(parts);
      JoinFirstChar(parts);
      SplitUnfold(s);
      assert parts[0] == [c] + parts[0][1..];
      assert shorter[1..] == parts[1..];
      assert parts == [[c] + shorter[0]] + shorter[1..];
    }
  }

  /** One step of `Split` on a non-empty string. */
  lemma SplitUnfold(s: string)
    requires |s| > 0
    ensures s[0] == '.' ==> Split(s) == [""] + Split(s[1..])
    ensures s[0] != '.' ==>
      Split(s) == [[s[0]] + Split(s[1..])[0]] + Split(s[1..])[1..]
  {
  }

  /** Dropping the first character of the first part keeps every part dot-free. */
  lemma ShorterDotFree(parts: seq<string>)
    requires |parts| > 0 && |parts[0]| > 0
    requires forall k :: 0 <= k < |parts| ==> '.' !in parts[k]
    ensures forall k :: 0 <= k < |parts| ==> '.' !in ([parts[0][1..]] + parts[1..])[k]
  {
    var shorter := [parts[0][1..]] + parts[1..];
    forall k | 0 <= k < |parts| ensures '.' !in shorter[k] {
      if k == 0 {
        assert forall m :: 0 <= m < |parts[0][1..]| ==> parts[0][1..][m] == parts[0][m + 1];
      } else {
        assert shorter[k] == parts[k];
      }
    }
  }

  /** Joining starts with the first character of the first part. */
  lemma JoinFirstChar(parts: seq<string>)
    requires |parts| > 1 && |parts[0]| > 0
    ensures Join(parts)[0] == parts[0][0]
    ensures Join(parts)[1..] == Join([parts[0][1..]] + parts[1..])
  {
    var shorter := [parts[0][1..]] + parts[1..];
    assert shorter[1..] == parts[1..];
    assert Join(parts) == [parts[0][0]] + Join(shorter);
  }

  lemma {:induction false} SplitDotFree(s: string)
    requires '.' !in s
    ensures Split(s) == [s]
    decreases |s|
  {
    if |s| > 0 {
      assert s[0] in s;
      assert forall m :: 0 <= m < |s[1..]| ==> s[1..][m] == s[m + 1];
      SplitDotFree(s[1..]);
      assert s == [s[0]] + s[1..];
    }
  }

  /** The value of a string of decimal digits, most significant first. */
  function DigitsValue(s: string): nat
    requires forall i :: 0 <= i < |s| ==> IsDigit(s[i])
  {
    if |s| == 0 then 0
    else
      assert IsDigit(s[|s| - 1]);
      10 * DigitsValue(s[..|s| - 1]) + (s[|s| - 1] as int - '0' as int)
  }

  /**
   * `strconv.Atoi` with its error mapped to 0, as the source's `num, _ =
   * strconv.Atoi(part)` does: an optional '+' or '-' followed by at least
   * one decimal digit; anything else (the empty string, a lone sign, any
   * other character) fails and gives 0.
   */
  function Atoi(s: string): int {
    if |s| > 0 && (s[0] == '+' || s[0] == '-') then
      if AllDigits(s[1..]) then
        (if s[0] == '-' then -(DigitsValue(s[1..]) as int) else DigitsValue(s[1..]))
      else 0
    else if AllDigits(s) then DigitsValue(s)
    else 0
  }

  function DigitChar(d: nat): char
    requires d < 10
  {
    ('0' as int + d) as char
  }

  /** The canonical decimal spelling of `n`, without sign or leading zeros. */
  function Decimal(n: nat): (s: string)
    ensures AllDigits(s)
  {
    if n < 10 then [DigitChar(n)] else Decimal(n / 10) + [DigitChar(n % 10)]
  }

  lemma {:induction false} DecimalValue(n: nat)
    ensures DigitsValue(Decimal(n)) == n
  {
    if n >= 10 {
      DecimalValue(n / 10);
      var s := Decimal(n);
      assert s[..|s| - 1] == Decimal(n / 10);
    }
  }

  /** `Atoi` reads back what `Decimal` writes, with either sign. */
  lemma AtoiDecimal(n: nat)
    ensures Atoi(Decimal(n)) == n
    ensures Atoi("-" + Decimal(n)) == -(n as int)
    ensures Atoi("+" + Decimal(n)) == n
  {
    DecimalValue(n);
    assert ("-" + Decimal(n))[1..] == Decimal(n);
    assert ("+" + Decimal(n))[1..] == Decimal(n);
  }

  /** Malformed parts read as 0; a sign is accepted. */
  lemma AtoiExamples()
    ensures Atoi("-1") == -1 && Atoi("+7") == 7 && Atoi("030") == 30
    ensures Atoi("") == 0 && Atoi("-") == 0 && Atoi("x1") == 0 && Atoi("1x") == 0
  {
    assert "-1"[1..] == "1";
    assert "+7"[1..] == "7";
    assert !AllDigits("x1") by { assert !IsDigit("x1"[0]); }
    assert !AllDigits("1x") by { assert !IsDigit("1x"[1]); }
    assert "030"[..2] == "03";
    assert "03"[..1] == "0";
  }
}
