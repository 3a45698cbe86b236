/** Strings, characters and digit strings as JavaScript sees them, restricted to
    what the invoice pipeline uses: the `\d`, `\s` and `[A-Z0-9]` classes, the
    `split('\n')` and `trim()` string methods, decimal rendering of integers. */
module Text {

  datatype Option<+T> = None | Some(value: T)

  datatype Result<+T, +E> = Success(value: T) | Failure(error: E)

  /** The character classes the regular expressions of the pipeline use. */
  datatype CharClass = Digit | UpperAlnum | Space

  /** `\d`: ASCII digits only, also under the `i` flag. */
  predicate IsDigit(c: char) { '0' <= c <= '9' }

  /** `[A-Z0-9]`, case-sensitive. */
  predicate IsUpperAlnum(c: char) { 'A' <= c <= 'Z' || IsDigit(c) }

  /** LineTerminator of ECMAScript: what `.` does not match. */
  predicate IsLineTerminator(c: char) {
    c == '\n' || c == '\r' || c == '\U{2028}' || c == '\U{2029}'
  }

  /** `\s`, which is also the set `String.prototype.trim` removes:
      ECMAScript WhiteSpace (with the Unicode space separators) and LineTerminator. */
  predicate IsSpace(c: char) {
    || c == '\t' || c == '\U{000B}' || c == '\U{000C}' || c == ' '
    || c == '\U{00A0}' || c == '\U{1680}' || ('\U{2000}' <= c <= '\U{200A}')
    || c == '\U{202F}' || c == '\U{205F}' || c == '\U{3000}' || c == '\U{FEFF}'
    || IsLineTerminator(c)
  }

  predicate InClass(c: char, cls: CharClass) {
    match cls
    case Digit => IsDigit(c)
    case UpperAlnum => IsUpperAlnum(c)
    case Space => IsSpace(c)
  }

  predicate AllIn(s: string, cls: CharClass) {
    forall i :: 0 <= i < |s| ==> InClass(s[i], cls)
  }

  predicate AllDigits(s: string) { AllIn(s, Digit) }

  /** Equality of an input character with an upper-case ASCII pattern letter under
      the `i` flag. Without the `u` flag a non-ASCII character never folds onto an
      ASCII letter, so only the two ASCII cases match. */
  predicate FoldsTo(c: char, upper: char)
    requires 'A' <= upper <= 'Z'
  {
    c == upper || c as int == upper as int + 32
  }

  /** Length of the run of `cls` characters that starts at `i`. */
  function Run(t: string, i: nat, cls: CharClass): (n: nat)
    requires i <= |t|
    ensures i + n <= |t|
    ensures forall k :: i <= k < i + n ==> InClass(t[k], cls)
    ensures i + n == |t| || !InClass(t[i + n], cls)
    decreases |t| - i
  {
    if i < |t| && InClass(t[i], cls) then 1 + Run(t, i + 1, cls) else 0
  }

  /** A run is determined by its two ends: whoever knows where the class stops
      knows the value of Run. */
  lemma {:induction false} RunExact(t: string, i: nat, j: nat, cls: CharClass)
    requires i <= j <= |t|
    requires forall k :: i <= k < j ==> InClass(t[k], cls)
    requires j == |t| || !InClass(t[j], cls)
    ensures Run(t, i, cls) == j - i
    decreases j - i
  {
    if i < j {
      RunExact(t, i + 1, j, cls);
    }
  }

  // ---------------------------------------------------------------- digits

  function DigitChar(d: nat): (c: char)
    requires d < 10
    ensures IsDigit(c) && c as int - '0' as int == d
  {
    ('0' as int + d) as char
  }

  function DigitValue(c: char): nat
    requires IsDigit(c)
  {
    c as int - '0' as int
  }

  /** The number a string of decimal digits denotes. */
  function DigitsValue(s: string): nat
    requires AllDigits(s)
  {
    if s == [] then 0 else 10 * DigitsValue(s[..|s| - 1]) + DigitValue(s[|s| - 1])
  }

  /** Decimal rendering of a natural number, as template literals render integers. */
  function NatToString(n: nat): (s: string)
    ensures |s| >= 1 && AllDigits(s)
    ensures |s| > 1 ==> s[0] != '0'
  {
    if n < 10 then [DigitChar(n)] else NatToString(n / 10) + [DigitChar(n % 10)]
  }

  lemma {:induction false} NatToStringRoundTrip(n: nat)
    ensures DigitsValue(NatToString(n)) == n
  {
    var s := NatToString(n);
    if n < 10 {
      assert s[..|s| - 1] == [];
    } else {
      NatToStringRoundTrip(n / 10);
      assert s[..|s| - 1] == NatToString(n / 10);
    }
  }

  function Pow10(k: nat): (p: nat)
    ensures p >= 1
  {
    if k == 0 then 1 else 10 * Pow10(k - 1)
  }

  /** A number of k + 1 decimal digits is rendered with exactly k + 1 characters. */
  lemma {:induction false} NatToStringLength(n: nat, k: nat)
    requires Pow10(k) <= n < Pow10(k + 1)
    ensures |NatToString(n)| == k + 1
  {
    if k > 0 {
      NatToStringLength(n / 10, k - 1);
    }
  }

  /** Removes every occurrence of a character, as `s.replace(/c/g, '')`. */
  function Without(s: string, c: char): (r: string)
    ensures |r| == |s| - Count(s, c)
    ensures forall i :: 0 <= i < |r| ==> r[i] != c
    ensures forall i :: 0 <= i < |s| && s[i] != c ==> s[i] in r
  {
    if s == [] then [] else (if s[0] == c then [] else [s[0]]) + Without(s[1..], c)
  }

  /** Removal works piece by piece: the result of a concatenation is the
      concatenation of the results, so every other character is kept, in order. */
  lemma {:induction false} WithoutConcat(a: string, b: string, c: char)
    ensures Without(a + b, c) == Without(a, c) + Without(b, c)
    decreases |a|
  {
    if a == [] {
      assert a + b == b;
    } else {
      assert (a + b)[0] == a[0];
      assert (a + b)[1..] == a[1..] + b;
      WithoutConcat(a[1..], b, c);
    }
  }

  /** On one character: it is dropped exactly when it is the one removed. */
  lemma {:induction false} WithoutChar(x: char, c: char)
    ensures Without([x], c) == if x == c then [] else [x]
  {
    assert [x][1..] == [];
  }

  /** Removing a character that does not occur changes nothing. */
  lemma {:induction false} WithoutAbsent(s: string, c: char)
    requires c !in s
    ensures Without(s, c) == s
  {
    if s != [] {
      assert s == [s[0]] + s[1..];
      assert s[0] != c && c !in s[1..];
      WithoutAbsent(s[1..], c);
    }
  }

  // ---------------------------------------------------------------- lines

  function Count(s: string, c: char): nat {
    if s == [] then 0 else (if s[0] == c then 1 else 0) + Count(s[1..], c)
  }

  /** `s.split('\n')`: the pieces between newlines, always at least one. */
  function Lines(s: string): (r: seq<string>)
    ensures |r| == Count(s, '\n') + 1
    ensures forall i :: 0 <= i < |r| ==> '\n' !in r[i]
  {
    if s == [] then [""]
    else
      var rest := Lines(s[1..]);
      if s[0] == '\n' then [""] + rest else [[s[0]] + rest[0]] + rest[1..]
  }

  /** `lines.join('\n')`, the inverse of Lines. */
  function JoinLines(ls: seq<string>): string
    requires |ls| >= 1
  {
    if |ls| == 1 then ls[0] else ls[0] + "\n" + JoinLines(ls[1..])
  }

  lemma {:induction false} LinesThenJoin(s: string)
    ensures JoinLines(Lines(s)) == s
  {
    if s != [] {
      var rest := Lines(s[1..]);
      LinesThenJoin(s[1..]);
      if s[0] == '\n' {
        assert Lines(s)[1..] == rest;
      } else {
        var r := Lines(s);
        if |rest| == 1 {
          assert r == [[s[0]] + rest[0]];
        } else {
          assert r[1..] == rest[1..];
          assert JoinLines(rest) == rest[0] + "\n" + JoinLines(rest[1..]);
        }
      }
    }
  }

  lemma {:induction false} JoinThenLines(ls: seq<string>)
    requires |ls| >= 1
    requires forall i :: 0 <= i < |ls| ==> '\n' !in ls[i]
    ensures Lines(JoinLines(ls)) == ls
    decreases |ls|, |ls[0]|
  {
    var first := ls[0];
    if |ls| == 1 {
      LinesOfPlain(first);
    } else if first == [] {
      var s := JoinLines(ls);
      assert s == "\n" + JoinLines(ls[1..]);
      assert s[1..] == JoinLines(ls[1..]);
      JoinThenLines(ls[1..]);
      assert ls == [""] + ls[1..];
    } else {
      var s := JoinLines(ls);
      var ls' := [first[1..]] + ls[1..];
      assert ls'[1..] == ls[1..];
      assert JoinLines(ls') == first[1..] + "\n" + JoinLines(ls[1..]);
      assert s == [first[0]] + JoinLines(ls');
      assert s[1..] == JoinLines(ls');
      assert first[0] != '\n' by { assert first[0] in first; }
      forall i | 0 <= i < |ls'| ensures '\n' !in ls'[i] {
        if i == 0 {
          assert forall c :: c in first[1..] ==> c in first;
        }
      }
      JoinThenLines(ls');
      assert [first[0]] + first[1..] == first;
      assert ls == [[first[0]] + ls'[0]] + ls'[1..];
    }
  }

  lemma {:induction false} LinesOfPlain(s: string)
    requires '\n' !in s
    ensures Lines(s) == [s]
  {
    if s != [] {
      assert s[0] in s;
      assert forall c :: c in s[1..] ==> c in s;
      LinesOfPlain(s[1..]);
      assert [s[0]] + s[1..] == s;
    }
  }

  // ---------------------------------------------------------------- trim

  /** Number of trailing characters of `s` that are in `\s`. */
  function TrailingSpaces(s: string): (n: nat)
    ensures n <= |s|
    ensures forall k :: |s| - n <= k < |s| ==> IsSpace(s[k])
    ensures n == |s| || !IsSpace(s[|s| - 1 - n])
  {
    if s != [] && IsSpace(s[|s| - 1]) then 1 + TrailingSpaces(s[..|s| - 1]) else 0
  }

  /** `s.trim()`. */
  function Trim(s: string): string {
    var a := Run(s, 0, Space);
    var rest := s[a..];
    rest[..|rest| - TrailingSpaces(rest)]
  }

  /** What trim promises: the result is a slice of `s`, everything cut off on
      either side is white space, and the result neither starts nor ends with
      white space. */
  lemma TrimSpec(s: string)
    ensures exists a, b :: 0 <= a <= b <= |s| && Trim(s) == s[a..b]
              && AllIn(s[..a], Space) && AllIn(s[b..], Space)
    ensures Trim(s) != [] ==> !IsSpace(Trim(s)[0]) && !IsSpace(Trim(s)[|Trim(s)| - 1])
  {
    var a := Run(s, 0, Space);
    var rest := s[a..];
    var n := TrailingSpaces(rest);
    var b := a + |rest| - n;
    assert Trim(s) == s[a..b];
    assert AllIn(s[..a], Space);
    assert AllIn(s[b..], Space) by {
      forall k | 0 <= k < |s| - b ensures IsSpace(s[b..][k]) {
        assert s[b..][k] == rest[|rest| - n + k];
      }
    }
    if Trim(s) != [] {
      assert Trim(s)[0] == s[a];
      assert Trim(s)[|Trim(s)| - 1] == rest[|rest| - 1 - n];
    }
  }

  lemma {:induction false} TrimIdempotent(s: string)
    ensures Trim(Trim(s)) == Trim(s)
  {
    var t := Trim(s);
    TrimSpec(s);
    if t == [] {
    } else {
      RunExact(t, 0, 0, Space);
      assert t[0..] == t;
      assert TrailingSpaces(t) == 0;
      assert t[..|t|] == t;
    }
  }
}
