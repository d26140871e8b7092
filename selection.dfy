/**
 * SR-code selection: from the text the recogniser returned, pick one code.
 *
 *   Rule A: the leftmost whole-word run of exactly eight digits (the regular
 *           expression `\b(\d{8})\b`, searched left to right);
 *   Rule B: otherwise the first match of `\d{8,9}`, which is leftmost and
 *           greedy (nine digits when a ninth follows, else eight);
 *   otherwise the sentinel "NOT FOUND".
 *
 * Digits and word characters are the ASCII ones: `\d` is 0-9 and `\w` is
 * 0-9, a-z, A-Z and `_`.
 */
module Selection {
  import opened Wrappers

  const NotFound: string := "NOT FOUND"

  /** Length of a Rule A code, and the shortest Rule B match. */
  const CodeLength: nat := 8
  /** Longest Rule B match. */
  const MaxCodeLength: nat := 9

  predicate IsDigit(c: char) {
    '0' <= c <= '9'
  }

  predicate IsWordChar(c: char) {
    IsDigit(c) || 'a' <= c <= 'z' || 'A' <= c <= 'Z' || c == '_'
  }

  predicate AllDigits(s: string) {
    forall k :: 0 <= k < |s| ==> IsDigit(s[k])
  }

  /** text[i..i+n] lies inside the text and is made of digits only. */
  predicate DigitsAt(text: string, i: nat, n: nat) {
    i + n <= |text| && forall k :: i <= k < i + n ==> IsDigit(text[k])
  }

  /** r occurs in text starting at position i. */
  predicate OccursAt(r: string, text: string, i: nat) {
    i + |r| <= |text| && text[i..i + |r|] == r
  }

  /** The character at position p exists and is a word character. */
  predicate WordCharAt(text: string, p: int) {
    0 <= p < |text| && IsWordChar(text[p])
  }

  /** `\b` holds at position p (between text[p-1] and text[p]). */
  predicate WordBoundary(text: string, p: int) {
    WordCharAt(text, p - 1) != WordCharAt(text, p)
  }

  /** `\b\d{8}\b` matches at position i. */
  predicate TokenAt(text: string, i: nat) {
    DigitsAt(text, i, CodeLength) && WordBoundary(text, i) && WordBoundary(text, i + CodeLength)
  }

  function Min(a: nat, b: nat): nat {
    if a <= b then a else b
  }

  /** Number of consecutive digits starting at position i. */
  function RunLength(text: string, i: nat): (n: nat)
    requires i <= |text|
    ensures DigitsAt(text, i, n)
    ensures i + n == |text| || !IsDigit(text[i + n])
    decreases |text| - i
  {
    if i < |text| && IsDigit(text[i]) then 1 + RunLength(text, i + 1) else 0
  }

  /** Rule A search: the leftmost position at or after `from` where `\b\d{8}\b` matches. */
  function FirstToken(text: string, from: nat): (m: Option<nat>)
    ensures m.Some? ==> from <= m.value && TokenAt(text, m.value)
    ensures m.Some? ==> forall j :: from <= j < m.value ==> !TokenAt(text, j)
    ensures m.None? ==> forall j: nat :: from <= j ==> !TokenAt(text, j)
    decreases |text| - from
  {
    if from + CodeLength > |text| then None
    else if TokenAt(text, from) then Some(from)
    else FirstToken(text, from + 1)
  }

  /** Rule B search: the leftmost position at or after `from` where `\d{8}` can start. */
  function FirstRun(text: string, from: nat): (m: Option<nat>)
    ensures m.Some? ==> from <= m.value && DigitsAt(text, m.value, CodeLength)
    ensures m.Some? ==> forall j :: from <= j < m.value ==> !DigitsAt(text, j, CodeLength)
    ensures m.None? ==> forall j: nat :: from <= j ==> !DigitsAt(text, j, CodeLength)
    decreases |text| - from
  {
    if from + CodeLength > |text| then None
    else if DigitsAt(text, from, CodeLength) then Some(from)
    else FirstRun(text, from + 1)
  }

  /** Length of the greedy `\d{8,9}` match at a position where eight digits start. */
  function GreedyLength(text: string, i: nat): (n: nat)
    requires DigitsAt(text, i, CodeLength)
    ensures CodeLength <= n <= MaxCodeLength && DigitsAt(text, i, n)
    ensures n < MaxCodeLength ==> !DigitsAt(text, i, n + 1)
  {
    if i + CodeLength < |text| && IsDigit(text[i + CodeLength]) then MaxCodeLength else CodeLength
  }

  /** The code chosen for the recognised text. */
  function SelectCode(text: string): (code: string)
    ensures code == NotFound || (CodeLength <= |code| <= MaxCodeLength && AllDigits(code))
    ensures code != NotFound ==> exists i: nat :: OccursAt(code, text, i)
  {
    match FirstToken(text, 0)
    case Some(i) =>
      assert OccursAt(text[i..i + CodeLength], text, i);
      text[i..i + CodeLength]
    case None =>
      match FirstRun(text, 0)
      case Some(i) =>
        var n := GreedyLength(text, i);
        assert OccursAt(text[i..i + n], text, i);
        text[i..i + n]
      case None => NotFound
  }

  // ---------------------------------------------------------------------------
  // Properties of the selection
  // ---------------------------------------------------------------------------

  /** The sentinel can never be confused with a code. */
  lemma SentinelIsNotACode()
    ensures !AllDigits(NotFound)
  {
    assert NotFound[0] == 'N';
  }

  /** Eight digits start at i exactly when the digit run at i has length eight or more. */
  lemma RunLengthAtLeast(text: string, i: nat, n: nat)
    requires i <= |text|
    ensures DigitsAt(text, i, n) <==> n <= RunLength(text, i)
  {
  }

  /**
   * A whole-word eight-digit token is exactly a maximal run of eight digits
   * that is not glued to a letter, digit or `_` on either side; so Rule A
   * never takes eight digits out of a longer run, nor digits next to a letter.
   */
  lemma TokenIsIsolatedRun(text: string, i: nat)
    requires i <= |text|
    ensures TokenAt(text, i) <==>
              RunLength(text, i) == CodeLength
              && (i == 0 || !IsWordChar(text[i - 1]))
              && (i + CodeLength == |text| || !IsWordChar(text[i + CodeLength]))
  {
    RunLengthAtLeast(text, i, CodeLength);
    RunLengthAtLeast(text, i, CodeLength + 1);
    if TokenAt(text, i) {
      assert WordCharAt(text, i);
      assert WordCharAt(text, i + CodeLength - 1);
    }
    if RunLength(text, i) == CodeLength {
      assert WordCharAt(text, i);
      assert WordCharAt(text, i + CodeLength - 1);
    }
  }

  /** Rule A: the leftmost whole-word eight-digit token is the code. */
  lemma LeftmostTokenSelected(text: string, i: nat)
    requires TokenAt(text, i)
    requires forall j: nat :: j < i ==> !TokenAt(text, j)
    ensures SelectCode(text) == text[i..i + CodeLength]
  {
    assert FirstToken(text, 0) == Some(i);
  }

  /**
   * Rule A has priority: whenever some whole-word eight-digit token exists,
   * the code is eight digits long and is a token at or before it, even when
   * an earlier, longer digit run would have satisfied Rule B.
   */
  lemma TokenTakesPriority(text: string, i: nat)
    requires TokenAt(text, i)
    ensures |SelectCode(text)| == CodeLength
    ensures exists j: nat :: j <= i && TokenAt(text, j) && SelectCode(text) == text[j..j + CodeLength]
  {
    var m := FirstToken(text, 0);
    assert m.Some?;
    LeftmostTokenSelected(text, m.value);
    assert m.value <= i;
  }

  /**
   * Rule B, as truncation: when no whole-word token exists, the code is the
   * first min(9, length) digits of the leftmost digit run of eight or more
   * digits (and that position is indeed the start of a run).
   */
  lemma LeftmostLongRunSelected(text: string, s: nat)
    requires forall i: nat :: !TokenAt(text, i)
    requires s <= |text| && RunLength(text, s) >= CodeLength
    requires forall j: nat :: j < s ==> RunLength(text, j) < CodeLength
    ensures s == 0 || !IsDigit(text[s - 1])
    ensures SelectCode(text) == text[s..s + Min(MaxCodeLength, RunLength(text, s))]
  {
    if s > 0 {
      assert RunLength(text, s - 1) < CodeLength;
    }
    RunLengthAtLeast(text, s, CodeLength);
    RunLengthAtLeast(text, s, MaxCodeLength);
    var m := FirstRun(text, 0);
    assert FirstToken(text, 0).None?;
    assert m.Some?;
    RunLengthAtLeast(text, m.value, CodeLength);
    assert m.value == s;
  }

  /** "NOT FOUND" is selected exactly when no run of eight or more digits exists. */
  lemma NotFoundIffNoLongRun(text: string)
    ensures SelectCode(text) == NotFound <==>
              forall i: nat :: i <= |text| ==> RunLength(text, i) < CodeLength
  {
    NotFoundIffNoRun(text);
    var m := FirstRun(text, 0);
    if m.Some? {
      RunLengthAtLeast(text, m.value, CodeLength);
    } else {
      forall i: nat | i <= |text| ensures RunLength(text, i) < CodeLength {
        RunLengthAtLeast(text, i, CodeLength);
      }
    }
  }

  /** The sentinel is chosen exactly when Rule B's search fails (Rule A then fails too). */
  lemma NotFoundIffNoRun(text: string)
    ensures SelectCode(text) == NotFound <==> FirstRun(text, 0).None?
  {
    SentinelIsNotACode();
    var t := FirstToken(text, 0);
    if t.Some? {
      assert DigitsAt(text, t.value, CodeLength);
    }
  }

  // ---------------------------------------------------------------------------
  // Worked examples
  // ---------------------------------------------------------------------------

  /** No eight-digit match, and so no token, spans a non-digit at position k. */
  lemma NoMatchAcross(text: string, k: nat)
    requires k < |text| && !IsDigit(text[k])
    ensures forall j: nat :: j <= k < j + CodeLength ==> !DigitsAt(text, j, CodeLength)
    ensures forall j: nat :: j <= k < j + CodeLength ==> !TokenAt(text, j)
  {
  }

  /** No token starts right after a word character, or ends right before one. */
  lemma NoTokenNextTo(text: string, j: nat)
    requires j + CodeLength < |text|
    requires (0 < j && IsWordChar(text[j - 1])) || IsWordChar(text[j + CodeLength])
    ensures !TokenAt(text, j)
  {
    if TokenAt(text, j) {
      assert WordCharAt(text, j) && WordCharAt(text, j + CodeLength - 1);
    }
  }

  /** Digits glued to letters are no token; Rule B still finds them. */
  lemma ExampleGluedToLetters()
    ensures forall i: nat :: !TokenAt("AB12345678", i)
    ensures SelectCode("AB12345678") == "12345678"
  {
    var t := "AB12345678";
    NoMatchAcross(t, 1);
    assert !TokenAt(t, 2) by { assert WordCharAt(t, 1) && WordCharAt(t, 2); }
    assert RunLength(t, 0) == 0 && RunLength(t, 1) == 0;
    assert DigitsAt(t, 2, CodeLength);
    RunLengthAtLeast(t, 2, CodeLength);
    LeftmostLongRunSelected(t, 2);
  }

  /** Nine digits are no Rule A token; Rule B takes all nine. */
  lemma ExampleNineDigits()
    ensures forall i: nat :: !TokenAt("123456789", i)
    ensures SelectCode("123456789") == "123456789"
  {
    var t := "123456789";
    NoTokenNextTo(t, 0);
    assert !TokenAt(t, 1) by { assert WordCharAt(t, 0) && WordCharAt(t, 1); }
    assert DigitsAt(t, 0, MaxCodeLength);
    RunLengthAtLeast(t, 0, MaxCodeLength);
    LeftmostLongRunSelected(t, 0);
  }

  /** A ten-digit run is truncated to its first nine digits by Rule B. */
  lemma ExampleTenDigitRun()
    ensures SelectCode("9912345678 more text") == "991234567"
  {
    var t := "9912345678 more text";
    forall i: nat ensures !TokenAt(t, i) {
      if i <= 2 { NoTokenNextTo(t, i); }
      else if i <= 10 { NoMatchAcross(t, 10); }
      else if i <= 15 { NoMatchAcross(t, 15); }
    }
    assert DigitsAt(t, 0, MaxCodeLength);
    RunLengthAtLeast(t, 0, MaxCodeLength);
    LeftmostLongRunSelected(t, 0);
  }

  /** A later whole-word token beats an earlier longer run. */
  lemma ExampleTokenAfterLongRun()
    ensures SelectCode("1234567890 12345678") == "12345678"
  {
    var t := "1234567890 12345678";
    NoTokenNextTo(t, 0);
    NoTokenNextTo(t, 1);
    NoTokenNextTo(t, 2);
    NoMatchAcross(t, 10);
    assert DigitsAt(t, 11, CodeLength);
    assert WordCharAt(t, 11) && !WordCharAt(t, 10);
    LeftmostTokenSelected(t, 11);
  }

  /** A label line with a prefix: the isolated eight-digit token is chosen. */
  lemma ExampleLabelLine()
    ensures SelectCode("ID SR 12345678 batch 2") == "12345678"
  {
    var t := "ID SR 12345678 batch 2";
    NoMatchAcross(t, 2);
    NoMatchAcross(t, 5);
    assert DigitsAt(t, 6, CodeLength);
    assert WordCharAt(t, 6) && !WordCharAt(t, 5);
    assert WordCharAt(t, 13) && !WordCharAt(t, 14);
    LeftmostTokenSelected(t, 6);
  }

  /** Text with no run of eight digits yields the sentinel. */
  lemma ExampleShortRun()
    ensures SelectCode("LOT 1234567") == NotFound
  {
    var t := "LOT 1234567";
    NoMatchAcross(t, 3);
    forall i: nat | i <= |t| ensures RunLength(t, i) < CodeLength {
      RunLengthAtLeast(t, i, CodeLength);
    }
    NotFoundIffNoLongRun(t);
  }
}
