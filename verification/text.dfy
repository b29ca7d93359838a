/** Characters and strings as the source's regular expressions and string methods see them.
    Character classes are the ASCII parts of Python's `\d`, `\s` and `\w`. */
module Text {

  predicate IsDigit(c: char) {
    '0' <= c <= '9'
  }

  /** `\s`, `str.split()` and `str.strip()` on ASCII: space, tab, line feed, vertical tab,
      form feed, carriage return, and the four separators 0x1c-0x1f. */
  predicate IsSpace(c: char) {
    c == ' ' || 9 <= c as int <= 13 || 28 <= c as int <= 31
  }

  /** `\w`: letters, digits and the underscore. */
  predicate IsWordChar(c: char) {
    IsDigit(c) || 'a' <= c <= 'z' || 'A' <= c <= 'Z' || c == '_'
  }

  function LowerChar(c: char): char {
    if 'A' <= c <= 'Z' then (c as int + 32) as char else c
  }

  /** `str.lower()` on the ASCII letters. */
  function Lower(s: string): string {
    if |s| == 0 then [] else [LowerChar(s[0])] + Lower(s[1..])
  }

  predicate StartsWith(t: string, w: string) {
    |w| <= |t| && t[..|w|] == w
  }

  /** Python's `w in t` for strings. */
  predicate Contains(t: string, w: string)
    decreases |t|
  {
    StartsWith(t, w) || (|t| > 0 && Contains(t[1..], w))
  }

  /** `w` occurs in `t` starting at index `i`. */
  predicate OccursAt(t: string, w: string, i: int) {
    0 <= i <= |t| - |w| && t[i..i + |w|] == w
  }

  /** `w in t` holds exactly when `w` occurs at some index of `t`. */
  lemma {:induction false} ContainsIff(t: string, w: string)
    ensures Contains(t, w) <==> exists i :: OccursAt(t, w, i)
    decreases |t|
  {
    if StartsWith(t, w) {
      assert OccursAt(t, w, 0);
    }
    if |t| > 0 {
      ContainsIff(t[1..], w);
      if Contains(t[1..], w) {
        var i :| OccursAt(t[1..], w, i);
        assert OccursAt(t, w, i + 1);
      }
      if !StartsWith(t, w) && exists i :: OccursAt(t, w, i) {
        var i :| OccursAt(t, w, i);
        assert i != 0;
        assert OccursAt(t[1..], w, i - 1);
      }
    } else if exists i :: OccursAt(t, w, i) {
      var i :| OccursAt(t, w, i);
      assert i == 0 && |w| == 0;
    }
  }

  /** A word with a character that `t` lacks does not occur in `t`. */
  lemma {:induction false} MissingCharNotContained(t: string, w: string, c: char)
    requires c in w && c !in t
    ensures !Contains(t, w)
    decreases |t|
  {
    if |t| > 0 {
      MissingCharNotContained(t[1..], w, c);
    }
  }

  /** `\b` at index `i`: exactly one of the neighbouring characters is a word character. */
  predicate IsBoundary(t: string, i: int)
    requires 0 <= i <= |t|
  {
    (i > 0 && IsWordChar(t[i - 1])) != (i < |t| && IsWordChar(t[i]))
  }

  function DigitValue(c: char): nat
    requires IsDigit(c)
  {
    c as int - '0' as int
  }

  predicate AllDigits(s: string) {
    forall i :: 0 <= i < |s| ==> IsDigit(s[i])
  }

  /** `int(s)` for a string of decimal digits. */
  function DigitsValue(s: string): nat
    requires AllDigits(s)
  {
    if |s| == 0 then 0 else DigitsValue(s[..|s| - 1]) * 10 + DigitValue(s[|s| - 1])
  }

  function DigitChar(n: nat): (c: char)
    requires n < 10
    ensures IsDigit(c) && DigitValue(c) == n
  {
    ('0' as int + n) as char
  }

  /** `str(n)`: decimal digits, no leading zeros. */
  function NatToString(n: nat): (s: string)
    ensures AllDigits(s) && 1 <= |s|
    ensures DigitsValue(s) == n
    ensures |s| > 1 ==> s[0] != '0'
    ensures n < 100 ==> |s| == if n < 10 then 1 else 2
  {
    if n < 10 then [DigitChar(n)]
    else
      var s := NatToString(n / 10) + [DigitChar(n % 10)];
      assert s[..|s| - 1] == NatToString(n / 10);
      s
  }

  /** `%02d`: two digits with a leading zero. */
  function Pad2(n: nat): (s: string)
    requires n < 100
    ensures |s| == 2 && AllDigits(s) && DigitsValue(s) == n
  {
    var s := [DigitChar(n / 10), DigitChar(n % 10)];
    assert s[..1] == [DigitChar(n / 10)];
    assert s[..1][..0] == [];
    assert DigitsValue(s[..1]) == n / 10;
    assert DigitsValue(s) == (n / 10) * 10 + n % 10;
    s
  }

  /** End of the run of characters satisfying `p` that starts at `i`. */
  function RunEnd(t: string, i: nat, p: char -> bool): (j: nat)
    requires i <= |t|
    ensures i <= j <= |t|
    ensures forall k :: i <= k < j ==> p(t[k])
    ensures j == |t| || !p(t[j])
    decreases |t| - i
  {
    if i < |t| && p(t[i]) then RunEnd(t, i + 1, p) else i
  }

  /** Index of the first character of `t` at or after `i` satisfying `p`, or `|t|`. */
  function FindFrom(t: string, i: nat, p: char -> bool): (j: nat)
    requires i <= |t|
    ensures i <= j <= |t|
    ensures forall k :: i <= k < j ==> !p(t[k])
    ensures j < |t| ==> p(t[j])
    decreases |t| - i
  {
    if i < |t| && !p(t[i]) then FindFrom(t, i + 1, p) else i
  }

  predicate NotSpace(c: char) {
    !IsSpace(c)
  }

  /** A run of non-whitespace characters starts at `i`. */
  predicate IsRunStart(s: string, i: int)
    requires 0 <= i < |s|
  {
    !IsSpace(s[i]) && (i == 0 || IsSpace(s[i - 1]))
  }

  /** The indices at or after `i` where a run of non-whitespace starts, in increasing order. */
  function RunStartsFrom(s: string, i: nat): (r: seq<nat>)
    requires i <= |s|
    ensures forall k :: 0 <= k < |r| ==> i <= r[k] < |s| && IsRunStart(s, r[k])
    ensures forall x :: i <= x < |s| && IsRunStart(s, x) ==> x in r
    ensures forall k, l :: 0 <= k < l < |r| ==> r[k] < r[l]
    decreases |s| - i
  {
    if i == |s| then []
    else if IsRunStart(s, i) then [i] + RunStartsFrom(s, i + 1)
    else RunStartsFrom(s, i + 1)
  }

  function RunStarts(s: string): seq<nat> {
    RunStartsFrom(s, 0)
  }

  /** `ws[k]` is the whole run of non-whitespace starting at `rs[k]`, for every `k`. */
  predicate WordsAtRuns(s: string, ws: seq<string>, rs: seq<nat>) {
    && |ws| == |rs|
    && forall k :: 0 <= k < |rs| ==> rs[k] < |s| && ws[k] == s[rs[k]..RunEnd(s, rs[k], NotSpace)]
  }

  lemma ConsWordsAtRuns(s: string, w: string, ws: seq<string>, a: nat, rs: seq<nat>)
    requires a < |s| && w == s[a..RunEnd(s, a, NotSpace)] && WordsAtRuns(s, ws, rs)
    ensures WordsAtRuns(s, [w] + ws, [a] + rs)
  {
    var ws', rs' := [w] + ws, [a] + rs;
    forall k | 0 <= k < |rs'|
      ensures rs'[k] < |s| && ws'[k] == s[rs'[k]..RunEnd(s, rs'[k], NotSpace)]
    {
      if k > 0 {
        assert rs'[k] == rs[k - 1] && ws'[k] == ws[k - 1];
      }
    }
  }

  /** `s.split()`: the maximal runs of non-whitespace characters, in order. */
  function Words(s: string): (ws: seq<string>)
    ensures forall k :: 0 <= k < |ws| ==> |ws[k]| > 0
    ensures forall k, j :: 0 <= k < |ws| && 0 <= j < |ws[k]| ==> !IsSpace(ws[k][j])
    ensures |ws| == 0 <==> forall i :: 0 <= i < |s| ==> IsSpace(s[i])
    ensures WordsAtRuns(s, ws, RunStarts(s))
  {
    WordsFromRuns(s, 0);
    WordsFrom(s, 0)
  }

  /** The words of `s[i..]`. */
  function WordsFrom(s: string, i: nat): (ws: seq<string>)
    requires i <= |s|
    ensures forall k :: 0 <= k < |ws| ==> |ws[k]| > 0
    ensures forall k, j :: 0 <= k < |ws| && 0 <= j < |ws[k]| ==> !IsSpace(ws[k][j])
    ensures |ws| == 0 <==> forall k :: i <= k < |s| ==> IsSpace(s[k])
    decreases |s| - i
  {
    var a := FindFrom(s, i, NotSpace);
    if a == |s| then []
    else
      var b := RunEnd(s, a, NotSpace);
      [s[a..b]] + WordsFrom(s, b)
  }

  /** `i` is not strictly inside a run of non-whitespace. */
  predicate NotMidWord(s: string, i: nat)
    requires i <= |s|
  {
    i == 0 || i == |s| || IsSpace(s[i - 1]) || IsSpace(s[i])
  }

  /** No run starts in `[i, j)`, so the run starts from `i` and from `j` agree. */
  lemma {:induction false} SkipRunStarts(s: string, i: nat, j: nat)
    requires i <= j <= |s|
    requires forall k :: i <= k < j ==> !IsRunStart(s, k)
    ensures RunStartsFrom(s, i) == RunStartsFrom(s, j)
    decreases j - i
  {
    if i < j {
      SkipRunStarts(s, i + 1, j);
    }
  }

  /** From a position outside any word, the k-th word is the run at the k-th run start. */
  lemma {:induction false} WordsFromRuns(s: string, i: nat)
    requires i <= |s| && NotMidWord(s, i)
    ensures WordsAtRuns(s, WordsFrom(s, i), RunStartsFrom(s, i))
    decreases |s| - i
  {
    var a := FindFrom(s, i, NotSpace);
    SkipRunStarts(s, i, a);
    if a < |s| {
      var b := RunEnd(s, a, NotSpace);
      assert IsRunStart(s, a);
      assert RunStartsFrom(s, a) == [a] + RunStartsFrom(s, a + 1);
      SkipRunStarts(s, a + 1, b);
      WordsFromRuns(s, b);
      ConsWordsAtRuns(s, s[a..b], WordsFrom(s, b), a, RunStartsFrom(s, b));
    }
  }

  /** `s.strip()`: `s` without its leading and trailing whitespace. */
  function Strip(s: string): (r: string)
    ensures |r| == 0 <==> forall i :: 0 <= i < |s| ==> IsSpace(s[i])
    ensures |r| > 0 ==> !IsSpace(r[0]) && !IsSpace(r[|r| - 1])
    ensures exists a :: && OccursAt(s, r, a)
                        && (forall k :: 0 <= k < a ==> IsSpace(s[k]))
                        && (forall k :: a + |r| <= k < |s| ==> IsSpace(s[k]))
  {
    var a := FindFrom(s, 0, NotSpace);
    var b := LastNonSpace(s, |s|);
    if a == |s| then
      assert OccursAt(s, [], 0);
      []
    else
      assert a < b;
      assert OccursAt(s, s[a..b], a);
      s[a..b]
  }

  /** One past the last non-whitespace character of `s[..j]`, or 0. */
  function LastNonSpace(s: string, j: nat): (b: nat)
    requires j <= |s|
    ensures b <= j
    ensures forall k :: b <= k < j ==> IsSpace(s[k])
    ensures b > 0 ==> !IsSpace(s[b - 1])
  {
    if j > 0 && IsSpace(s[j - 1]) then LastNonSpace(s, j - 1) else j
  }
}
