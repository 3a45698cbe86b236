/** The text-to-fields step of invoice processing: once the recognised text is
    there, the four field extractors, the part-line extractor, the part-number
    and OEM validators, DRP compliance and the confidence score. Everything
    here is a function of the recognised text. */
module Ocr {
  import opened Text
  import opened Patterns
  import opened Records

  // ------------------------------------------------------------ matching

  /** `t.match(re)?.[0] || ''`: the text of the first match, `""` without one. */
  function MatchText(pat: Pattern, t: string): string {
    match Find(pat, t)
    case None => ""
    case Some((p, n)) => t[p..p + n]
  }

  /** The regular expression the currency capture of `price` uses. */
  function CurrencyPattern(price: bool): Pattern {
    if price then PartPrice else Amount
  }

  /** `t.match(re)?.[1] || ''` for the two `\$\s*(N)` patterns: the number of
      the first match, `""` without one. */
  function CaptureText(t: string, price: bool): string {
    match Find(CurrencyPattern(price), t)
    case None => ""
    case Some((p, n)) => CurrencyGroup(t, p, price)
  }

  /** `t.replace(re, '')` without the `g` flag: the first match cut out. */
  function ReplaceFirst(pat: Pattern, t: string): string {
    match Find(pat, t)
    case None => t
    case Some((p, n)) => t[..p] + t[p + n..]
  }

  /** An extractor never fails: it returns `""` exactly when the text holds no
      word of the pattern, and otherwise the leftmost, longest one. */
  lemma {:induction false} MatchTextSpec(pat: Pattern, t: string)
    ensures MatchText(pat, t) == [] <==> NoMatch(pat, t)
    ensures MatchText(pat, t) != [] ==>
      exists p: nat :: IsFirstMatch(pat, t, p, |MatchText(pat, t)|) && t[p..p + |MatchText(pat, t)|] == MatchText(pat, t)
  {
    FindSpec(pat, t);
    if Find(pat, t).Some? {
      var (p, n) := Find(pat, t).value;
      FoundAt(pat, t, p, n);
    }
  }

  /** The capture is `""` exactly when nothing matches; otherwise it is the
      number of the first match, which is `$`, white space, then the capture. */
  lemma {:induction false} CaptureTextSpec(t: string, price: bool)
    ensures CaptureText(t, price) == [] <==> NoMatch(CurrencyPattern(price), t)
    ensures CaptureText(t, price) != [] ==> Number(CaptureText(t, price), price)
    ensures CaptureText(t, price) != [] ==>
      exists p: nat, n: nat :: IsFirstMatch(CurrencyPattern(price), t, p, n) && IsCaptureOf(t, p, n, CaptureText(t, price), price)
  {
    var pat := CurrencyPattern(price);
    FindSpec(pat, t);
    match Find(pat, t)
    case None =>
    case Some((p, n)) =>
      CaptureAt(t, p, n, price);
      assert IsFirstMatch(pat, t, p, n);
  }

  /** `g` is the capture of the currency word `t[p..p + n]`: that word is `$`,
      white space, then `g`. */
  ghost predicate IsCaptureOf(t: string, p: nat, n: nat, g: string, price: bool) {
    && p + n <= |t| && |g| <= n
    && CurrencySplit(t[p..p + n], n - |g|, price) && t[p..p + n][n - |g|..] == g
  }

  lemma {:induction false} CaptureAt(t: string, p: nat, n: nat, price: bool)
    requires Find(CurrencyPattern(price), t) == Some((p, n))
    ensures CaptureText(t, price) != [] && Number(CaptureText(t, price), price)
    ensures IsCaptureOf(t, p, n, CaptureText(t, price), price)
  {
    FoundCurrency(t, p, n, price);
    CurrencyGroupSpec(t, p, price);
  }

  lemma {:induction false} FoundCurrency(t: string, p: nat, n: nat, price: bool)
    requires Find(CurrencyPattern(price), t) == Some((p, n))
    ensures n == CurrencyLen(t, p, price) > 0
    ensures CaptureText(t, price) == CurrencyGroup(t, p, price)
  {
    assert n == MatchLen(CurrencyPattern(price), t, p);
  }

  /** The first match of `pat` in `t` is the `n` characters at `p`, and
      cutting it out leaves what surrounds it, in order. */
  ghost predicate CutsFirstMatch(pat: Pattern, t: string, p: nat, n: nat) {
    IsFirstMatch(pat, t, p, n) && ReplaceFirst(pat, t) == t[..p] + t[p + n..]
  }

  /** Cutting out the first match removes exactly that match and keeps the
      rest in order; a text without a match (see MatchTextSpec) is left
      untouched. */
  lemma {:induction false} ReplaceFirstSpec(pat: Pattern, t: string)
    ensures MatchText(pat, t) == [] ==> ReplaceFirst(pat, t) == t
    ensures MatchText(pat, t) != [] ==> exists p: nat :: CutsFirstMatch(pat, t, p, |MatchText(pat, t)|)
    ensures |ReplaceFirst(pat, t)| == |t| - |MatchText(pat, t)|
  {
    if Find(pat, t).None? {
      NotFound(pat, t);
    } else {
      var p, n := Find(pat, t).value.0, Find(pat, t).value.1;
      ReplaceFirstAt(pat, t, p, n);
    }
  }

  lemma {:induction false} NotFound(pat: Pattern, t: string)
    requires Find(pat, t).None?
    ensures MatchText(pat, t) == [] && ReplaceFirst(pat, t) == t
  {
  }

  lemma {:induction false} ReplaceFirstAt(pat: Pattern, t: string, p: nat, n: nat)
    requires Find(pat, t) == Some((p, n))
    ensures MatchText(pat, t) != [] && |MatchText(pat, t)| == n
    ensures CutsFirstMatch(pat, t, p, n)
    ensures |ReplaceFirst(pat, t)| == |t| - n
  {
    FoundAt(pat, t, p, n);
    FirstMatchAt(pat, t, p, n);
  }

  lemma {:induction false} FirstMatchAt(pat: Pattern, t: string, p: nat, n: nat)
    requires Find(pat, t) == Some((p, n))
    ensures IsFirstMatch(pat, t, p, n)
  {
    FindSpec(pat, t);
  }

  /** What the three match-based operations give once the first match is known. */
  lemma {:induction false} FoundAt(pat: Pattern, t: string, p: nat, n: nat)
    requires Find(pat, t) == Some((p, n))
    ensures p + n <= |t| && MatchText(pat, t) == t[p..p + n] && |MatchText(pat, t)| == n
    ensures ReplaceFirst(pat, t) == t[..p] + t[p + n..] && |ReplaceFirst(pat, t)| == |t| - n
  {
    FoundText(pat, t, p, n);
    FoundCut(pat, t, p, n);
  }

  lemma {:induction false} FoundText(pat: Pattern, t: string, p: nat, n: nat)
    requires Find(pat, t) == Some((p, n))
    ensures p + n <= |t| && MatchText(pat, t) == t[p..p + n]
  {
  }

  lemma {:induction false} FoundCut(pat: Pattern, t: string, p: nat, n: nat)
    requires Find(pat, t) == Some((p, n))
    ensures p + n <= |t| && ReplaceFirst(pat, t) == t[..p] + t[p + n..]
  {
  }

  // ------------------------------------------------------------ fields

  function InvoiceNumberOf(text: string): string { MatchText(InvoiceNumber, text) }

  function RoNumberOf(text: string): string { MatchText(RepairOrder, text) }

  /** The amount as written, commas included. */
  function AmountOf(text: string): string { CaptureText(text, false) }

  function DateOf(text: string): string { MatchText(Date, text) }

  // ------------------------------------------------------------ cents

  /** The digits `s` starts with. */
  function LeadingDigits(s: string): (d: string)
    ensures |d| <= |s| && AllDigits(d) && d == s[..|d|]
    ensures |d| == Run(s, 0, Digit)
  {
    s[..Run(s, 0, Digit)]
  }

  /** `parseFloat` on the strings the pipeline feeds it, in cents: a run of
      digits, then `.` and two digits when they follow; None (NaN) when the
      string does not start with a digit. */
  function ParseCents(s: string): (c: Option<nat>)
    ensures c.None? <==> (s == [] || !IsDigit(s[0]))
  {
    var d := LeadingDigits(s);
    if d == [] then None
    else
      var r := |d|;
      var fraction := if DecimalsAt(s, r) then 10 * DigitValue(s[r + 1]) + DigitValue(s[r + 2]) else 0;
      Some(100 * DigitsValue(d) + fraction)
  }

  /** `parseFloat(amount.replace(/,/g, '')) || 0`, in cents. */
  function TotalCents(amount: string): nat {
    match ParseCents(Without(amount, ','))
    case None => 0
    case Some(c) => c
  }

  /** `parseFloat(capture || '0')`, in cents. */
  function PriceCents(capture: string): nat {
    match ParseCents(if capture == [] then "0" else capture)
    case None => 0
    case Some(c) => c
  }

  /** ParseCents reads back a whole number of units as rendered in decimal. */
  lemma {:induction false} ParseCentsWhole(n: nat)
    ensures ParseCents(NatToString(n)) == Some(100 * n)
  {
    var s := NatToString(n);
    RunExact(s, 0, |s|, Digit);
    assert LeadingDigits(s) == s;
    NatToStringRoundTrip(n);
  }

  /** ... and a number of units followed by `.` and two decimals. */
  lemma {:induction false} ParseCentsDecimal(n: nat, tens: nat, ones: nat)
    requires tens < 10 && ones < 10
    ensures ParseCents(NatToString(n) + ['.', DigitChar(tens), DigitChar(ones)])
      == Some(100 * n + 10 * tens + ones)
  {
    var w := NatToString(n);
    var s := w + ['.', DigitChar(tens), DigitChar(ones)];
    forall k | 0 <= k < |w| ensures IsDigit(s[k]) {
      assert s[k] == w[k];
    }
    RunExact(s, 0, |w|, Digit);
    assert LeadingDigits(s) == w;
    assert DecimalsAt(s, |w|);
    NatToStringRoundTrip(n);
  }

  /** The cents the optional `\.\d{2}` tail adds: 0 without one. */
  function DecimalCents(decimals: string): nat {
    if |decimals| == 3 && IsDigit(decimals[1]) && IsDigit(decimals[2])
    then 10 * DigitValue(decimals[1]) + DigitValue(decimals[2])
    else 0
  }

  /** A run of digits followed by `\.\d{2}` or by nothing is read as its value in cents. */
  lemma {:induction false} ParseCentsNumber(d: string, decimals: string)
    requires |d| >= 1 && AllDigits(d)
    requires decimals == [] || Decimals(decimals)
    ensures ParseCents(d + decimals) == Some(100 * DigitsValue(d) + DecimalCents(decimals))
  {
    var s := d + decimals;
    forall k | 0 <= k < |d| ensures IsDigit(s[k]) {
      assert s[k] == d[k];
    }
    if decimals == [] {
      assert s == d;
      RunExact(s, 0, |d|, Digit);
      assert LeadingDigits(s) == d;
      assert !DecimalsAt(s, |d|);
    } else {
      assert s[|d|] == '.' && s[|d| + 1] == decimals[1] && s[|d| + 2] == decimals[2];
      RunExact(s, 0, |d|, Digit);
      assert LeadingDigits(s) == d;
      assert DecimalsAt(s, |d|);
    }
  }

  /** Dropping the commas of `(,\d{3})*` leaves only the groups' digits. */
  lemma {:induction false} GroupsWithoutCommas(v: string)
    requires Groups(v)
    ensures AllDigits(Without(v, ','))
    decreases |v|
  {
    if v != [] {
      GroupsWithoutCommas(v[4..]);
      DropGroupComma(v, Without(v[4..], ','));
    }
  }

  /** One group `,\d{3}` loses its comma and keeps its three digits. */
  lemma {:induction false} DropGroupComma(v: string, rest: string)
    requires |v| >= 4 && v[0] == ',' && AllDigits(v[1..4])
    requires rest == Without(v[4..], ',') && AllDigits(rest)
    ensures AllDigits(Without(v, ','))
  {
    var digits := v[1..4];
    DigitsHaveNoComma(digits);
    WithoutAbsent(digits, ',');
    assert v[1..] == digits + v[4..];
    WithoutConcat(digits, v[4..], ',');
    assert Without(v, ',') == digits + rest;
    DigitsConcat(digits, rest);
  }

  lemma {:induction false} DigitsHaveNoComma(d: string)
    requires AllDigits(d)
    ensures ',' !in d
  {
    forall k | 0 <= k < |d| ensures d[k] != ',' {
      assert IsDigit(d[k]);
    }
  }

  lemma {:induction false} DigitsConcat(a: string, b: string)
    requires AllDigits(a) && AllDigits(b)
    ensures AllDigits(a + b)
  {
    var r := a + b;
    forall k | 0 <= k < |r| ensures IsDigit(r[k]) {
      if k < |a| { assert r[k] == a[k]; } else { assert r[k] == b[k - |a|]; }
    }
  }

  /** Dropping the commas of `\d{1,3}(,\d{3})*` leaves a non-empty run of digits:
      the leading digits followed by those of every group. */
  lemma {:induction false} GroupedWithoutCommas(u: string)
    requires Grouped(u)
    ensures |Without(u, ',')| >= 1 && AllDigits(Without(u, ','))
  {
    var h :| GroupedSplit(u, h);
    var lead := u[..h];
    assert u == lead + u[h..];
    WithoutConcat(lead, u[h..], ',');
    assert ',' !in lead by {
      forall k | 0 <= k < h ensures lead[k] != ',' {
        assert IsDigit(lead[k]);
      }
    }
    WithoutAbsent(lead, ',');
    GroupsWithoutCommas(u[h..]);
    assert Without(u, ',') == lead + Without(u[h..], ',');
  }

  /** The invoice total, `parseFloat(amount.replace(/,/g, '')) || 0` in cents: 0
      for an absent amount, and otherwise the grouped whole part with its
      thousands separators dropped, plus the two decimals when present. */
  lemma {:induction false} TotalCentsSpec(amount: string, whole: string, decimals: string)
    ensures amount == [] ==> TotalCents(amount) == 0
    ensures amount == whole + decimals && Grouped(whole) && (decimals == [] || Decimals(decimals)) ==>
      && AllDigits(Without(whole, ','))
      && TotalCents(amount) == 100 * DigitsValue(Without(whole, ',')) + DecimalCents(decimals)
  {
    if amount == whole + decimals && Grouped(whole) && (decimals == [] || Decimals(decimals)) {
      GroupedWithoutCommas(whole);
      WithoutConcat(whole, decimals, ',');
      if decimals != [] {
        assert decimals == ['.', decimals[1], decimals[2]];
        assert ',' !in decimals by {
          assert IsDigit(decimals[1]) && IsDigit(decimals[2]);
        }
      }
      WithoutAbsent(decimals, ',');
      ParseCentsNumber(Without(whole, ','), decimals);
    }
  }

  /** The part price, `parseFloat(capture || '0')` in cents: 0 for an absent
      price, and otherwise the digits plus the two decimals when present. */
  lemma {:induction false} PriceCentsSpec(capture: string, whole: string, decimals: string)
    ensures capture == [] ==> PriceCents(capture) == 0
    ensures capture == whole + decimals && |whole| >= 1 && AllDigits(whole) && (decimals == [] || Decimals(decimals)) ==>
      PriceCents(capture) == 100 * DigitsValue(whole) + DecimalCents(decimals)
  {
    if capture == [] {
      ParseCentsWhole(0);
      assert NatToString(0) == "0";
    }
    if capture == whole + decimals && |whole| >= 1 && AllDigits(whole) && (decimals == [] || Decimals(decimals)) {
      ParseCentsNumber(whole, decimals);
    }
  }

  /** Every capture the two currency patterns produce has the shape the two
      lemmas above read: a whole part, then `\.\d{2}` or nothing. */
  lemma {:induction false} CurrencyNumberSplit(g: string, price: bool)
    requires Number(g, price)
    ensures exists whole, decimals :: && g == whole + decimals && (decimals == [] || Decimals(decimals))
                                      && (if price then |whole| >= 1 && AllDigits(whole) else Grouped(whole))
  {
    if (price && AllDigits(g) && |g| >= 1) || (!price && Grouped(g)) {
      assert g == g + [];
    } else {
      var whole, decimals := g[..|g| - 3], g[|g| - 3..];
      assert g == whole + decimals;
      if price {
        assert |whole| >= 1 && AllDigits(whole);
      }
    }
  }

  /** The total `ExtractData` stores: 0 when the text has no amount, and
      otherwise the value of the first amount's number, commas dropped. */
  lemma {:induction false} TotalOfText(text: string)
    ensures NoMatch(Amount, text) ==> TotalCents(AmountOf(text)) == 0
    ensures !NoMatch(Amount, text) ==>
      exists whole, decimals :: && AmountOf(text) == whole + decimals && Grouped(whole)
                                && (decimals == [] || Decimals(decimals)) && AllDigits(Without(whole, ','))
                                && TotalCents(AmountOf(text)) == 100 * DigitsValue(Without(whole, ',')) + DecimalCents(decimals)
  {
    var amount := AmountOf(text);
    CaptureTextSpec(text, false);
    if amount == [] {
      TotalCentsSpec(amount, [], []);
    } else {
      CurrencyNumberSplit(amount, false);
      var whole, decimals :| && amount == whole + decimals && (decimals == [] || Decimals(decimals)) && Grouped(whole);
      TotalCentsSpec(amount, whole, decimals);
    }
  }

  /** The price `ParsePartLine` stores: 0 when the line has no `$` price, and
      otherwise the value of the first price's number. */
  lemma {:induction false} PriceOfLine(line: string)
    ensures NoMatch(PartPrice, line) ==> PriceCents(CaptureText(line, true)) == 0
    ensures !NoMatch(PartPrice, line) ==>
      exists whole, decimals :: && CaptureText(line, true) == whole + decimals && |whole| >= 1 && AllDigits(whole)
                                && (decimals == [] || Decimals(decimals))
                                && PriceCents(CaptureText(line, true)) == 100 * DigitsValue(whole) + DecimalCents(decimals)
  {
    var capture := CaptureText(line, true);
    CaptureTextSpec(line, true);
    if capture == [] {
      PriceCentsSpec(capture, [], []);
    } else {
      CurrencyNumberSplit(capture, true);
      var whole, decimals :| && capture == whole + decimals && (decimals == [] || Decimals(decimals)) && |whole| >= 1 && AllDigits(whole);
      PriceCentsSpec(capture, whole, decimals);
    }
  }

  // ------------------------------------------------------------ part lines

  /** `[A-Z0-9]{6,8}.*\$\d+` matches at `a` taking `c` characters of the class,
      with the `$` at `k`: `.` is anything but a line terminator, and the
      test only needs the first digit of `\d+`. */
  ghost predicate PartLineWord(line: string, a: int, c: int, k: int) {
    && 0 <= a && 6 <= c <= 8 && a + c <= k && k + 1 < |line|
    && (forall m :: a <= m < a + c ==> IsUpperAlnum(line[m]))
    && (forall m :: a + c <= m < k ==> !IsLineTerminator(line[m]))
    && line[k] == '$' && IsDigit(line[k + 1])
  }

  /** A `$` then a digit at `k`, with no line terminator from `j` up to it. */
  ghost predicate DollarDigitAt(line: string, j: int, k: int) {
    && 0 <= j <= k && k + 1 < |line| && line[k] == '$' && IsDigit(line[k + 1])
    && forall m :: j <= m < k ==> !IsLineTerminator(line[m])
  }

  /** Scanner of `.*\$\d` from `j`. */
  function DollarDigitFrom(line: string, j: nat): (b: bool)
    requires j <= |line|
    ensures b <==> exists k :: DollarDigitAt(line, j, k)
    decreases |line| - j
  {
    if j + 1 < |line| && line[j] == '$' && IsDigit(line[j + 1]) then
      assert DollarDigitAt(line, j, j);
      true
    else if j < |line| && !IsLineTerminator(line[j]) then
      var b := DollarDigitFrom(line, j + 1);
      assert b ==> exists k :: DollarDigitAt(line, j, k) by {
        if b {
          var k :| DollarDigitAt(line, j + 1, k);
          assert DollarDigitAt(line, j, k);
        }
      }
      assert (exists k :: DollarDigitAt(line, j, k)) ==> b by {
        if k :| DollarDigitAt(line, j, k) {
          assert DollarDigitAt(line, j + 1, k);
        }
      }
      b
    else
      assert forall k :: !DollarDigitAt(line, j, k);
      false
  }

  /** Scanner of the part-line test from start position `i` on. */
  function PartLineFrom(line: string, i: nat): (b: bool)
    requires i <= |line|
    decreases |line| - i
  {
    if i + 6 > |line| then false
    else (Run(line, i, UpperAlnum) >= 6 && DollarDigitFrom(line, i + 6)) || PartLineFrom(line, i + 1)
  }

  /** `/[A-Z0-9]{6,8}.*\$\d+/.test(line)`. */
  predicate IsPartLine(line: string) { PartLineFrom(line, 0) }

  lemma {:induction false} PartLineFromSound(line: string, i: nat)
    requires i <= |line| && PartLineFrom(line, i)
    ensures exists a, k :: i <= a && PartLineWord(line, a, 6, k)
    decreases |line| - i
  {
    if Run(line, i, UpperAlnum) >= 6 && DollarDigitFrom(line, i + 6) {
      var k :| DollarDigitAt(line, i + 6, k);
      assert PartLineWord(line, i, 6, k);
    } else {
      PartLineFromSound(line, i + 1);
    }
  }

  lemma {:induction false} PartLineFromComplete(line: string, i: nat, a: int, c: int, k: int)
    requires i <= a && PartLineWord(line, a, c, k)
    ensures PartLineFrom(line, i)
    decreases a - i
  {
    if i < a {
      PartLineFromComplete(line, i + 1, a, c, k);
    } else {
      RunAtLeast(line, a, a + 6, UpperAlnum);
      assert DollarDigitAt(line, a + 6, k);
    }
  }

  /** The scanner decides the filter's regular expression: a line passes iff
      some `[A-Z0-9]{6,8}` run is followed, on the same line, by `$` and a
      digit. Taking 6 characters of the class is enough, because `.*` can
      cover the remaining ones. */
  lemma {:induction false} IsPartLineSpec(line: string)
    ensures IsPartLine(line) <==> exists a, c, k :: PartLineWord(line, a, c, k)
  {
    if IsPartLine(line) {
      PartLineFromSound(line, 0);
    }
    if exists a, c, k :: PartLineWord(line, a, c, k) {
      var a, c, k :| PartLineWord(line, a, c, k);
      PartLineFromComplete(line, 0, a, c, k);
    }
  }

  /** Positions, from `from` on, of the lines that pass the filter. */
  function PartLineIndices(ls: seq<string>, from: nat): (idx: seq<nat>)
    requires from <= |ls|
    ensures |idx| <= |ls| - from
    ensures forall k :: 0 <= k < |idx| ==> from <= idx[k] < |ls| && IsPartLine(ls[idx[k]])
    ensures forall k, l :: 0 <= k < l < |idx| ==> idx[k] < idx[l]
    ensures forall i :: from <= i < |ls| && IsPartLine(ls[i]) ==> i in idx
    decreases |ls| - from
  {
    if from == |ls| then []
    else (if IsPartLine(ls[from]) then [from] else []) + PartLineIndices(ls, from + 1)
  }

  /** `lines.filter(...)`, as the lines at the filter's positions. */
  function PartLines(ls: seq<string>): seq<string> {
    var idx := PartLineIndices(ls, 0);
    seq(|idx|, k requires 0 <= k < |idx| => ls[idx[k]])
  }

  /** The filtered lines are the lines that pass, each once, in their order
      in the text: a strictly increasing selection of lines, hence no more
      part lines than lines. */
  lemma {:induction false} PartLinesSpec(ls: seq<string>)
    ensures |PartLines(ls)| <= |ls|
    ensures exists idx: seq<nat> ::
      && |idx| == |PartLines(ls)|
      && (forall k :: 0 <= k < |idx| ==> idx[k] < |ls| && PartLines(ls)[k] == ls[idx[k]])
      && (forall k, l :: 0 <= k < l < |idx| ==> idx[k] < idx[l])
      && (forall i :: 0 <= i < |ls| ==> (IsPartLine(ls[i]) <==> i in idx))
  {
    var idx := PartLineIndices(ls, 0);
    assert |idx| == |PartLines(ls)|;
  }

  // ------------------------------------------------------------ validators

  /** `/^[A-Z0-9]{6,8}$/.test(s)`: the whole string is one word of the
      part-number pattern. */
  predicate ValidatePartNumber(s: string) {
    |s| > 0 && MatchLen(PartNumber, s, 0) == |s|
  }

  /** `s.startsWith('OEM')`. */
  predicate IsOEMPart(s: string) {
    |s| >= 3 && s[..3] == "OEM"
  }

  lemma {:induction false} ValidatePartNumberSpec(s: string)
    ensures ValidatePartNumber(s) <==> 6 <= |s| <= 8 && forall i :: 0 <= i < |s| ==> IsUpperAlnum(s[i])
  {
    MatchLenIsLongest(PartNumber, s, 0);
    assert s[0..|s|] == s;
  }

  /** The check is case-sensitive: a lower-case letter anywhere fails it. */
  lemma {:induction false} ValidatePartNumberCaseSensitive(s: string, i: nat)
    requires i < |s| && 'a' <= s[i] <= 'z'
    ensures !ValidatePartNumber(s)
  {
    ValidatePartNumberSpec(s);
  }

  /** Being an OEM number does not make a part number valid. */
  lemma OemDoesNotImplyValid()
    ensures IsOEMPart("OEM") && !ValidatePartNumber("OEM")
  {
    ValidatePartNumberSpec("OEM");
  }

  /** `parts.every(part => part.verified)`. */
  function ValidateDRPCompliance(parts: seq<Part>): (b: bool)
    ensures b <==> forall i :: 0 <= i < |parts| ==> parts[i].verified
  {
    if parts == [] then true
    else parts[0].verified && ValidateDRPCompliance(parts[1..])
  }

  /** `parts.every(part => validatePartNumber(part.partNumber))`. */
  function ValidatePartNumbers(parts: seq<Part>): (b: bool)
    ensures b <==> forall i :: 0 <= i < |parts| ==> ValidatePartNumber(parts[i].partNumber)
  {
    if parts == [] then true
    else ValidatePartNumber(parts[0].partNumber) && ValidatePartNumbers(parts[1..])
  }

  // ------------------------------------------------------------ parts

  /** The part a filtered line yields. */
  function ParsePartLine(line: string): Part {
    var partNumber := MatchText(PartNumber, line);
    Part(
      partNumber,
      Trim(ReplaceFirst(PartPrice, ReplaceFirst(PartNumber, line))),
      PriceCents(CaptureText(line, true)),
      ValidatePartNumber(partNumber),
      IsOEMPart(partNumber))
  }

  /** `extractParts(text)`. */
  function ExtractParts(text: string): seq<Part> {
    var lines := PartLines(Lines(text));
    seq(|lines|, k requires 0 <= k < |lines| => ParsePartLine(lines[k]))
  }

  /** A line that passes the filter always holds a part number, which is the
      leftmost run of 6 to 8 `[A-Z0-9]` characters (the longest there), so it
      is always valid. */
  lemma {:induction false} PartNumberOfPartLine(line: string)
    requires IsPartLine(line)
    ensures var pn := MatchText(PartNumber, line);
      && 6 <= |pn| <= 8
      && (exists p: nat :: IsFirstMatch(PartNumber, line, p, |pn|) && line[p..p + |pn|] == pn)
      && ParsePartLine(line).verified
  {
    IsPartLineSpec(line);
    var a, c, k :| PartLineWord(line, a, c, k);
    assert InLanguage(PartNumber, line[a..a + 6]);
    MatchTextSpec(PartNumber, line);
    ValidatePartNumberSpec(MatchText(PartNumber, line));
  }

  /** Every extracted part is verified, so the compliance check and the
      part-number check are true for whatever the extractor returns. */
  lemma {:induction false} ExtractedPartsVerified(text: string)
    ensures forall i :: 0 <= i < |ExtractParts(text)| ==> ExtractParts(text)[i].verified
    ensures ValidateDRPCompliance(ExtractParts(text))
    ensures ValidatePartNumbers(ExtractParts(text))
  {
    var lines := PartLines(Lines(text));
    var parts := ExtractParts(text);
    forall i | 0 <= i < |parts| ensures parts[i].verified && ValidatePartNumber(parts[i].partNumber) {
      var idx := PartLineIndices(Lines(text), 0);
      assert IsPartLine(lines[i]);
      PartNumberOfPartLine(lines[i]);
    }
  }

  /** `idx` picks, in increasing order, exactly the lines of `ls` that pass the filter. */
  ghost predicate SelectsPartLines(ls: seq<string>, idx: seq<nat>) {
    && (forall k :: 0 <= k < |idx| ==> idx[k] < |ls|)
    && (forall k, l :: 0 <= k < l < |idx| ==> idx[k] < idx[l])
    && (forall i :: 0 <= i < |ls| ==> (IsPartLine(ls[i]) <==> i in idx))
  }

  /** Part `k` is the parse of line `idx[k]`. */
  ghost predicate ParsedFrom(parts: seq<Part>, ls: seq<string>, idx: seq<nat>) {
    && |parts| == |idx|
    && forall k :: 0 <= k < |idx| ==> idx[k] < |ls| && parts[k] == ParsePartLine(ls[idx[k]])
  }

  /** The parts correspond one-to-one, in order, to the lines of the text that
      pass the filter, so there are no more parts than lines. */
  lemma {:induction false} ExtractPartsSpec(text: string)
    ensures |ExtractParts(text)| <= Count(text, '\n') + 1
    ensures exists idx: seq<nat> :: SelectsPartLines(Lines(text), idx) && ParsedFrom(ExtractParts(text), Lines(text), idx)
  {
    var ls := Lines(text);
    var idx := PartLineIndices(ls, 0);
    PartIndicesExact(ls);
    ExtractPartsAt(text);
    assert |ExtractParts(text)| == |idx| <= |ls|;
    assert SelectsPartLines(ls, idx) && ParsedFrom(ExtractParts(text), ls, idx);
  }

  /** Part `k` is the parse of the line at the `k`-th selected position. */
  lemma {:induction false} ExtractPartsAt(text: string)
    ensures ParsedFrom(ExtractParts(text), Lines(text), PartLineIndices(Lines(text), 0))
  {
    var ls := Lines(text);
    var idx := PartLineIndices(ls, 0);
    var pl := PartLines(ls);
    assert |pl| == |idx|;
    forall k | 0 <= k < |idx| ensures pl[k] == ls[idx[k]] {
    }
  }

  /** The computed positions select exactly the lines that pass. */
  lemma {:induction false} PartIndicesExact(ls: seq<string>)
    ensures SelectsPartLines(ls, PartLineIndices(ls, 0))
  {
    var idx := PartLineIndices(ls, 0);
    forall i | 0 <= i < |ls| && i in idx ensures IsPartLine(ls[i]) {
      var k :| 0 <= k < |idx| && idx[k] == i;
    }
  }

  // ------------------------------------------------------------ record

  /** `[...].filter(Boolean).length`: how many of the fields are non-empty. */
  function FoundCount(fields: seq<string>): (n: nat)
    ensures n <= |fields|
  {
    if fields == [] then 0 else (if fields[0] != [] then 1 else 0) + FoundCount(fields[1..])
  }

  /** The number of the four fields that were found. */
  function ConfidenceQuarters(text: string): nat {
    FoundCount([InvoiceNumberOf(text), RoNumberOf(text), AmountOf(text), DateOf(text)])
  }

  /** The payload `processOCR` writes for a recognised text. */
  function ExtractData(text: string): ExtractedData {
    var parts := ExtractParts(text);
    ExtractedData(
      InvoiceNumberOf(text),
      RoNumberOf(text),
      DateOf(text),
      TotalCents(AmountOf(text)),
      parts,
      ConfidenceQuarters(text),
      ValidateDRPCompliance(parts),
      ValidationResults(true, ValidatePartNumbers(parts), true, []))
  }

  function Found(b: bool): nat { if b then 1 else 0 }

  /** The confidence counts the patterns that match anywhere in the text. */
  lemma {:induction false} ConfidenceSpec(text: string)
    ensures ConfidenceQuarters(text)
      == Found(!NoMatch(InvoiceNumber, text)) + Found(!NoMatch(RepairOrder, text))
       + Found(!NoMatch(Amount, text)) + Found(!NoMatch(Date, text))
  {
    MatchTextSpec(InvoiceNumber, text);
    MatchTextSpec(RepairOrder, text);
    CaptureTextSpec(text, false);
    MatchTextSpec(Date, text);
    var fs := [InvoiceNumberOf(text), RoNumberOf(text), AmountOf(text), DateOf(text)];
    assert fs[1..][1..][1..] == [DateOf(text)];
    assert FoundCount(fs[1..][1..][1..]) == Found(DateOf(text) != []);
    assert FoundCount(fs[1..][1..]) == Found(AmountOf(text) != []) + Found(DateOf(text) != []);
    assert FoundCount(fs) == Found(fs[0] != []) + FoundCount(fs[1..]);
  }

  /** The confidence is a whole number of quarters between 0 and 1. */
  lemma {:induction false} ConfidenceRange(text: string)
    ensures ExtractData(text).OcrConfidence() in {0.0, 0.25, 0.5, 0.75, 1.0}
  {
    var q := ConfidenceQuarters(text);
    assert q <= 4;
    assert ExtractData(text).OcrConfidence() == q as real / 4.0;
    if q == 0 {
    } else if q == 1 {
      assert q as real / 4.0 == 0.25;
    } else if q == 2 {
      assert q as real / 4.0 == 0.5;
    } else if q == 3 {
      assert q as real / 4.0 == 0.75;
    } else {
      assert q as real / 4.0 == 1.0;
    }
  }

  /** The payload always passes its own checks: the parts are compliant and
      their numbers valid, prices and DRP rules are marked checked, and there
      are no errors. */
  lemma {:induction false} ExtractDataChecks(text: string)
    ensures var d := ExtractData(text);
      && d.drpCompliant
      && d.validationResults == ValidationResults(true, true, true, [])
  {
    ExtractedPartsVerified(text);
  }
}
