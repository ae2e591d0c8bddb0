/**
 * The two `str.extract` calls on the `duration` column: the first match of
 * `(\d+)` and the first match of `([a-zA-Z]+)`. A leftmost, greedy match of
 * `X+` is the first maximal run of characters of class X.
 */
module Duration {
  import opened Wrappers

  /** The character classes of the two patterns: `\d` and `[a-zA-Z]`. */
  datatype CharClass = Digits | Letters

  predicate InClass(c: char, cls: CharClass) {
    match cls
    case Digits => '0' <= c <= '9'
    case Letters => 'a' <= c <= 'z' || 'A' <= c <= 'Z'
  }

  /** `s[i..j]` is the leftmost maximal run of `cls` characters in `s`. */
  predicate IsFirstRun(s: string, cls: CharClass, i: int, j: int) {
    && 0 <= i < j <= |s|
    && (forall k :: 0 <= k < i ==> !InClass(s[k], cls))
    && (forall k :: i <= k < j ==> InClass(s[k], cls))
    && (j == |s| || !InClass(s[j], cls))
  }

  /** The first position at or after `i` holding a `cls` character, or `|s|`. */
  function FindFrom(s: string, i: nat, cls: CharClass): (j: nat)
    requires i <= |s|
    ensures i <= j <= |s|
    ensures forall k :: i <= k < j ==> !InClass(s[k], cls)
    ensures j < |s| ==> InClass(s[j], cls)
    decreases |s| - i
  {
    if i == |s| || InClass(s[i], cls) then i else FindFrom(s, i + 1, cls)
  }

  /** The end of the run of `cls` characters that starts at `i`. */
  function RunEnd(s: string, i: nat, cls: CharClass): (j: nat)
    requires i <= |s|
    ensures i <= j <= |s|
    ensures forall k :: i <= k < j ==> InClass(s[k], cls)
    ensures j < |s| ==> !InClass(s[j], cls)
    decreases |s| - i
  {
    if i == |s| || !InClass(s[i], cls) then i else RunEnd(s, i + 1, cls)
  }

  /**
   * The text of the first match of `cls+` in `s`: missing exactly when `s`
   * holds no `cls` character, and otherwise the leftmost maximal run.
   */
  function FirstRun(s: string, cls: CharClass): (r: Option<string>)
    ensures r.None? <==> forall k :: 0 <= k < |s| ==> !InClass(s[k], cls)
    ensures r.Some? ==> exists i, j :: IsFirstRun(s, cls, i, j) && r.value == s[i..j]
    ensures forall i, j :: IsFirstRun(s, cls, i, j) ==> r == Some(s[i..j])
  {
    var i := FindFrom(s, 0, cls);
    if i == |s| then
      RunStartsInClass(s, cls);
      None
    else
      var j := RunEnd(s, i, cls);
      assert IsFirstRun(s, cls, i, j);
      FirstRunUnique(s, cls, i, j);
      Some(s[i..j])
  }

  /** A string has at most one leftmost maximal run of a class. */
  lemma FirstRunUnique(s: string, cls: CharClass, i: int, j: int)
    requires IsFirstRun(s, cls, i, j)
    ensures forall i', j' :: IsFirstRun(s, cls, i', j') ==> i' == i && j' == j
  {
    forall i', j' | IsFirstRun(s, cls, i', j') ensures i' == i && j' == j {
      assert InClass(s[i'], cls) && InClass(s[i], cls);
      assert j < |s| ==> !InClass(s[j], cls);
      assert j' < |s| ==> !InClass(s[j'], cls);
    }
  }

  /** A run starts on a character of its class. */
  lemma RunStartsInClass(s: string, cls: CharClass)
    ensures forall i, j :: IsFirstRun(s, cls, i, j) ==> InClass(s[i], cls)
  {
  }

  function DigitValue(c: char): nat
    requires InClass(c, Digits)
  {
    (c as int) - ('0' as int)
  }

  function DigitChar(d: nat): (c: char)
    requires d < 10
    ensures InClass(c, Digits) && DigitValue(c) == d
  {
    ('0' as int + d) as char
  }

  predicate AllDigits(s: string) {
    forall k :: 0 <= k < |s| ==> InClass(s[k], Digits)
  }

  /** The number a run of decimal digits denotes (leading zeros allowed). */
  function DecimalValue(s: string): nat
    requires AllDigits(s)
  {
    if s == [] then 0 else DecimalValue(s[..|s| - 1]) * 10 + DigitValue(s[|s| - 1])
  }

  /** The shortest decimal numeral of `n`. */
  function DecimalDigits(n: nat): (s: string)
    ensures AllDigits(s) && |s| > 0
  {
    if n < 10 then [DigitChar(n)] else DecimalDigits(n / 10) + [DigitChar(n % 10)]
  }

  /** Reading a numeral back gives the number it was written from. */
  lemma {:induction false} DecimalRoundTrip(n: nat)
    ensures DecimalValue(DecimalDigits(n)) == n
  {
    var s := DecimalDigits(n);
    if n >= 10 {
      assert s[..|s| - 1] == DecimalDigits(n / 10);
      DecimalRoundTrip(n / 10);
    }
  }

  /** Leading zeros do not change the value of a numeral. */
  lemma {:induction false} LeadingZero(s: string)
    requires AllDigits(s)
    ensures AllDigits("0" + s) && DecimalValue("0" + s) == DecimalValue(s)
  {
    var t := "0" + s;
    if s != [] {
      assert t[..|t| - 1] == "0" + s[..|s| - 1];
      LeadingZero(s[..|s| - 1]);
    }
  }

  /**
   * `duration_value`: the number written by the first run of digits of
   * `duration`; missing when `duration` is missing or holds no digit.
   */
  function DurationValue(duration: Option<string>): (v: Option<nat>)
    ensures v.None? <==> duration.None? || forall k :: 0 <= k < |duration.value| ==> !InClass(duration.value[k], Digits)
    ensures forall i, j :: duration.Some? && IsFirstRun(duration.value, Digits, i, j) ==>
      v == Some(DecimalValue(duration.value[i..j]))
  {
    match duration
    case None => None
    case Some(s) =>
      match FirstRun(s, Digits)
      case None => None
      case Some(run) =>
        assert AllDigits(run);
        Some(DecimalValue(run))
  }

  /**
   * `duration_unit`: the first run of ASCII letters of `duration`; missing
   * when `duration` is missing or holds no letter.
   */
  function DurationUnit(duration: Option<string>): (u: Option<string>)
    ensures u.None? <==> duration.None? || forall k :: 0 <= k < |duration.value| ==> !InClass(duration.value[k], Letters)
    ensures forall i, j :: duration.Some? && IsFirstRun(duration.value, Letters, i, j) ==>
      u == Some(duration.value[i..j])
  {
    match duration
    case None => None
    case Some(s) => FirstRun(s, Letters)
  }
}
