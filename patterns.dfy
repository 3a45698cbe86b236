/** The six regular expressions of the OCR text-to-fields step, written as
    scanners over `string`.

    Each pattern has two readings here:
    - `InLanguage(pat, w)` says which whole words the regular expression
      describes, written from the expression itself;
    - `MatchLen(pat, t, p)` is the scanner: the length of the match that starts
      at position `p` of `t`, or 0 when none starts there.

    JavaScript's engine tries the start positions from the left and, at each,
    explores the alternatives greedily in backtracking order. For these six
    expressions every greedy choice can be completed (what follows it may
    match the empty word), and a shorter choice of a quantifier can never
    reach further, so the match the engine reports at a position is the
    longest word of the language starting there. That step is argued here,
    not proved: `MatchLenIsLongest` proves that the scanner finds the longest
    word, and `FindSpec` that `Find` reports the leftmost position that has
    one. */
module Patterns {
  import opened Text

  datatype Pattern =
    | InvoiceNumber   // /INV[-\s]?\d{5,}/i
    | RepairOrder     // /RO\d{5,}/i
    | Amount          // /\$\s*(\d{1,3}(,\d{3})*(\.\d{2})?)/
    | Date            // /\d{2}\/\d{2}\/\d{4}/
    | PartNumber      // /[A-Z0-9]{6,8}/
    | PartPrice       // /\$\s*(\d+(\.\d{2})?)/

  /** `[-\s]` */
  predicate IsSeparator(c: char) { c == '-' || IsSpace(c) }

  function Min(a: nat, b: nat): nat { if a <= b then a else b }

  // ------------------------------------------------------------ languages

  /** `\.\d{2}` as a whole word. */
  ghost predicate Decimals(w: string) {
    |w| == 3 && w[0] == '.' && IsDigit(w[1]) && IsDigit(w[2])
  }

  /** `\d+(\.\d{2})?` as a whole word. */
  ghost predicate Unsigned(u: string) {
    || (|u| >= 1 && AllDigits(u))
    || (|u| >= 4 && AllDigits(u[..|u| - 3]) && Decimals(u[|u| - 3..]))
  }

  /** `(,\d{3})*` as a whole word. */
  ghost predicate Groups(v: string)
    decreases |v|
  {
    v == [] || (|v| >= 4 && v[0] == ',' && AllDigits(v[1..4]) && Groups(v[4..]))
  }

  /** `\d{1,3}(,\d{3})*` as a whole word. */
  ghost predicate Grouped(u: string) {
    exists h :: GroupedSplit(u, h)
  }

  /** `u` is 1 to 3 digits up to `h`, then `(,\d{3})*`. */
  ghost predicate GroupedSplit(u: string, h: int) {
    1 <= h <= 3 && h <= |u| && AllDigits(u[..h]) && Groups(u[h..])
  }

  /** `\d{1,3}(,\d{3})*(\.\d{2})?` as a whole word. */
  ghost predicate AmountNumber(u: string) {
    Grouped(u) || (|u| >= 3 && Grouped(u[..|u| - 3]) && Decimals(u[|u| - 3..]))
  }

  /** The words each regular expression describes. */
  ghost predicate InLanguage(pat: Pattern, w: string) {
    match pat
    case InvoiceNumber =>
      && |w| >= 3 && FoldsTo(w[0], 'I') && FoldsTo(w[1], 'N') && FoldsTo(w[2], 'V')
      && (|| (|w| >= 9 && IsSeparator(w[3]) && AllDigits(w[4..]))
          || (|w| >= 8 && AllDigits(w[3..])))
    case RepairOrder =>
      |w| >= 7 && FoldsTo(w[0], 'R') && FoldsTo(w[1], 'O') && AllDigits(w[2..])
    case Amount => CurrencyWord(w, false)
    case Date =>
      && |w| == 10 && AllDigits(w[..2]) && w[2] == '/'
      && AllDigits(w[3..5]) && w[5] == '/' && AllDigits(w[6..])
    case PartNumber =>
      6 <= |w| <= 8 && AllIn(w, UpperAlnum)
    case PartPrice => CurrencyWord(w, true)
  }

  /** `\$\s*N` as a whole word, where N is `\d+(\.\d{2})?` for a part price and
      `\d{1,3}(,\d{3})*(\.\d{2})?` for the invoice amount. */
  ghost predicate CurrencyWord(w: string, price: bool) {
    exists k :: CurrencySplit(w, k, price)
  }

  /** `w` is `$`, then white space up to `k`, then the number. */
  ghost predicate CurrencySplit(w: string, k: int, price: bool) {
    1 <= k <= |w| && w[0] == '$' && AllIn(w[1..k], Space) && Number(w[k..], price)
  }

  ghost predicate Number(u: string, price: bool) {
    if price then Unsigned(u) else AmountNumber(u)
  }

  /** A language word found at `p` that no longer word at `p` extends. */
  ghost predicate IsLongestAt(pat: Pattern, t: string, p: nat, n: nat) {
    && p + n <= |t| && n > 0 && InLanguage(pat, t[p..p + n])
    && forall e :: p + n < e <= |t| ==> !InLanguage(pat, t[p..e])
  }

  /** No word of the language starts anywhere in `t`: `t.match(re)` is null. */
  ghost predicate NoMatch(pat: Pattern, t: string) {
    forall b, e :: 0 <= b <= e <= |t| ==> !InLanguage(pat, t[b..e])
  }

  /** The match `t.match(re)` reports: the leftmost start position that has a
      word of the language, with the longest word there. */
  ghost predicate IsFirstMatch(pat: Pattern, t: string, p: nat, n: nat) {
    && IsLongestAt(pat, t, p, n)
    && forall b, e :: 0 <= b < p && b <= e <= |t| ==> !InLanguage(pat, t[b..e])
  }

  // ------------------------------------------------------------ scanners

  /** First position after the `\$\s*` that starts at `p`. */
  function AfterDollar(t: string, p: nat): (q: nat)
    requires p < |t|
    ensures p < q <= |t|
  {
    p + 1 + Run(t, p + 1, Space)
  }

  /** `\.\d{2}` starts at `e`. */
  predicate DecimalsAt(t: string, e: nat) {
    e + 3 <= |t| && t[e] == '.' && IsDigit(t[e + 1]) && IsDigit(t[e + 2])
  }

  /** `,\d{3}` starts at `i`. */
  predicate GroupAt(t: string, i: nat) {
    i + 4 <= |t| && t[i] == ',' && IsDigit(t[i + 1]) && IsDigit(t[i + 2]) && IsDigit(t[i + 3])
  }

  /** Where the greedy `(,\d{3})*` that starts at `i` stops. */
  function GroupsEnd(t: string, i: nat): (j: nat)
    requires i <= |t|
    ensures i <= j <= |t|
    decreases |t| - i
  {
    if GroupAt(t, i) then GroupsEnd(t, i + 4) else i
  }

  /** The scanner: the length of the match at `p`, 0 when there is none. */
  function MatchLen(pat: Pattern, t: string, p: nat): (n: nat)
    requires p <= |t|
    ensures p + n <= |t|
  {
    match pat
    case InvoiceNumber =>
      if p + 3 <= |t| && FoldsTo(t[p], 'I') && FoldsTo(t[p + 1], 'N') && FoldsTo(t[p + 2], 'V') then
        var q := if p + 3 < |t| && IsSeparator(t[p + 3]) then p + 4 else p + 3;
        var d := Run(t, q, Digit);
        if d >= 5 then q + d - p else 0
      else 0
    case RepairOrder =>
      if p + 2 <= |t| && FoldsTo(t[p], 'R') && FoldsTo(t[p + 1], 'O') then
        var d := Run(t, p + 2, Digit);
        if d >= 5 then 2 + d else 0
      else 0
    case Amount => CurrencyLen(t, p, false)
    case Date =>
      if && p + 10 <= |t| && IsDigit(t[p]) && IsDigit(t[p + 1]) && t[p + 2] == '/'
         && IsDigit(t[p + 3]) && IsDigit(t[p + 4]) && t[p + 5] == '/'
         && IsDigit(t[p + 6]) && IsDigit(t[p + 7]) && IsDigit(t[p + 8]) && IsDigit(t[p + 9])
      then 10 else 0
    case PartNumber =>
      var r := Run(t, p, UpperAlnum);
      if r >= 6 then Min(r, 8) else 0
    case PartPrice => CurrencyLen(t, p, true)
  }

  /** Where the number that starts at `q` ends: the greedy
      `\d{1,3}(,\d{3})*(\.\d{2})?` of the amount or the greedy `\d+(\.\d{2})?`
      of a part price; `q` itself when no digit starts there. */
  function NumberEnd(t: string, q: nat, price: bool): (e: nat)
    requires q <= |t|
    ensures q <= e <= |t|
  {
    var r := Run(t, q, Digit);
    if r == 0 then q
    else
      var g := if price then q + r else GroupsEnd(t, q + Min(r, 3));
      if DecimalsAt(t, g) then g + 3 else g
  }

  /** Length of the `\$\s*N` match at `p`, 0 when there is none. */
  function CurrencyLen(t: string, p: nat, price: bool): (n: nat)
    requires p <= |t|
    ensures p + n <= |t|
  {
    if p < |t| && t[p] == '$' then
      var q := AfterDollar(t, p);
      var e := NumberEnd(t, q, price);
      if e > q then e - p else 0
    else 0
  }

  /** The leftmost position at or after `from` where the scanner finds a match. */
  function FirstFrom(pat: Pattern, t: string, from: nat): (r: Option<nat>)
    requires from <= |t|
    ensures r.Some? ==> from <= r.value <= |t| && MatchLen(pat, t, r.value) > 0
    ensures r.Some? ==> forall p :: from <= p < r.value ==> MatchLen(pat, t, p) == 0
    ensures r.None? ==> forall p :: from <= p <= |t| ==> MatchLen(pat, t, p) == 0
    decreases |t| - from
  {
    if MatchLen(pat, t, from) > 0 then Some(from)
    else if from == |t| then None
    else FirstFrom(pat, t, from + 1)
  }

  /** `re.exec(t)`: the start and length of the first match, if any. */
  function Find(pat: Pattern, t: string): (r: Option<(nat, nat)>)
    ensures r.Some? ==> r.value.0 + r.value.1 <= |t| && r.value.1 > 0
    ensures r.Some? ==> r.value.1 == MatchLen(pat, t, r.value.0)
  {
    match FirstFrom(pat, t, 0)
    case None => None
    case Some(p) => Some((p, MatchLen(pat, t, p)))
  }

  /** The capture group `(...)` of a `\$\s*(N)` match at `p`: the number
      after the dollar sign and its white space. */
  function CurrencyGroup(t: string, p: nat, price: bool): (g: string)
    requires p <= |t| && CurrencyLen(t, p, price) > 0
    ensures |g| >= 1
  {
    t[AfterDollar(t, p)..p + CurrencyLen(t, p, price)]
  }

  // ------------------------------------------------------------ proofs

  lemma {:induction false} RunAtLeast(t: string, i: nat, j: nat, cls: CharClass)
    requires i <= j <= |t|
    requires forall k :: i <= k < j ==> InClass(t[k], cls)
    ensures Run(t, i, cls) >= j - i
    decreases j - i
  {
    if i < j {
      RunAtLeast(t, i + 1, j, cls);
    }
  }

  /** A word of the language of `\$\s*X`, where X starts with a digit, starts
      its X right after the white space that follows `$`. */
  lemma {:induction false} DollarPrefix(t: string, p: nat, l: nat, k: nat)
    requires p + l <= |t| && 1 <= k < l
    requires t[p] == '$'
    requires AllIn(t[p..p + l][1..k], Space)
    requires IsDigit(t[p + k])
    ensures AfterDollar(t, p) == p + k
  {
    forall i | p + 1 <= i < p + k ensures IsSpace(t[i]) {
      assert t[i] == t[p..p + l][1..k][i - p - 1];
    }
    RunExact(t, p + 1, p + k, Space);
  }

  lemma {:induction false} GroupsEndChain(t: string, s: nat, j: nat)
    requires s <= j <= |t|
    requires Groups(t[s..j])
    ensures j <= GroupsEnd(t, s) && GroupsEnd(t, s) == GroupsEnd(t, j)
    decreases j - s
  {
    if s < j {
      var v := t[s..j];
      assert v[1..4] == t[s + 1..s + 4];
      assert t[s + 1] == v[1] && t[s + 2] == v[2] && t[s + 3] == v[3];
      assert GroupAt(t, s);
      assert v[4..] == t[s + 4..j];
      GroupsEndChain(t, s + 4, j);
    }
  }

  lemma {:induction false} GroupsUpToEnd(t: string, s: nat)
    requires s <= |t|
    ensures Groups(t[s..GroupsEnd(t, s)])
    decreases |t| - s
  {
    var j := GroupsEnd(t, s);
    if GroupAt(t, s) {
      GroupsUpToEnd(t, s + 4);
      var v := t[s..j];
      assert v[4..] == t[s + 4..j];
      assert v[1..4] == t[s + 1..s + 4];
    } else {
      assert t[s..j] == [];
    }
  }

  /** Where a `\d{1,3}(,\d{3})*` word that starts at `q` can end: not beyond the
      scanner's groups, and exactly there when a `.` follows it. */
  lemma {:induction false} GroupedEnd(t: string, q: nat, j: nat)
    requires q <= j <= |t|
    requires Grouped(t[q..j])
    ensures Min(Run(t, q, Digit), 3) >= 1
    ensures j <= GroupsEnd(t, q + Min(Run(t, q, Digit), 3))
    ensures j < |t| && t[j] == '.' ==> j == GroupsEnd(t, q + Min(Run(t, q, Digit), 3))
  {
    var h :| GroupedSplit(t[q..j], h);
    GroupedSplitEnd(t, q, j, h);
  }

  lemma {:induction false} GroupedSplitEnd(t: string, q: nat, j: nat, h: int)
    requires q <= j <= |t|
    requires GroupedSplit(t[q..j], h)
    ensures Min(Run(t, q, Digit), 3) >= 1
    ensures j <= GroupsEnd(t, q + Min(Run(t, q, Digit), 3))
    ensures j < |t| && t[j] == '.' ==> j == GroupsEnd(t, q + Min(Run(t, q, Digit), 3))
  {
    var u := t[q..j];
    assert u[..h] == t[q..q + h];
    SliceAllIn(t, q, q + h, Digit);
    assert u[h..] == t[q + h..j];
    if q + h == j {
      RunAtLeast(t, q, q + h, Digit);
      if j < |t| && t[j] == '.' {
        RunExact(t, q, q + h, Digit);
      }
    } else {
      assert t[q + h] == u[h..][0];
      RunExact(t, q, q + h, Digit);
      GroupsEndChain(t, q + h, j);
    }
  }

  lemma {:induction false} GroupedUpToEnd(t: string, q: nat)
    requires q <= |t| && Run(t, q, Digit) >= 1
    ensures Grouped(t[q..GroupsEnd(t, q + Min(Run(t, q, Digit), 3))])
  {
    var d := Min(Run(t, q, Digit), 3);
    var g := GroupsEnd(t, q + d);
    GroupsUpToEnd(t, q + d);
    RunSlice(t, q, d, Digit);
    GroupedJoin(t, q, d, g);
  }

  /** A prefix of a run is all of the class. */
  lemma {:induction false} RunSlice(t: string, i: nat, n: nat, cls: CharClass)
    requires i <= |t| && n <= Run(t, i, cls)
    ensures i + n <= |t| && AllIn(t[i..i + n], cls)
  {
    var w := t[i..i + n];
    forall k | 0 <= k < |w| ensures InClass(w[k], cls) {
      assert w[k] == t[i + k];
    }
  }

  /** One to three digits followed by groups make a grouped number. */
  lemma {:induction false} GroupedJoin(t: string, q: nat, h: nat, g: nat)
    requires 1 <= h <= 3 && q + h <= g <= |t|
    requires AllDigits(t[q..q + h]) && Groups(t[q + h..g])
    ensures Grouped(t[q..g])
  {
    var u := t[q..g];
    assert u[..h] == t[q..q + h];
    assert u[h..] == t[q + h..g];
    assert GroupedSplit(u, h);
  }

  // Each pattern has two lemmas: the word the scanner reports is in the
  // language (Member...), and every language word at `p` is at most as long as
  // it (Bound...).

  lemma {:induction false} MemberInvoice(pat: Pattern, t: string, p: nat)
    requires pat == InvoiceNumber
    requires p <= |t| && MatchLen(pat, t, p) > 0
    ensures InLanguage(pat, t[p..p + MatchLen(pat, t, p)])
  {
    var n := MatchLen(InvoiceNumber, t, p);
    var q := if p + 3 < |t| && IsSeparator(t[p + 3]) then p + 4 else p + 3;
    var d := Run(t, q, Digit);
    assert d >= 5 && n == q + d - p;
    RunSlice(t, q, d, Digit);
    var w := t[p..p + n];
    assert w[q - p..] == t[q..q + d];
    assert w[0] == t[p] && w[1] == t[p + 1] && w[2] == t[p + 2] && w[3] == t[p + 3];
  }

  lemma {:induction false} BoundInvoice(t: string, p: nat, e: nat)
    requires p <= e <= |t| && InLanguage(InvoiceNumber, t[p..e])
    ensures e - p <= MatchLen(InvoiceNumber, t, p)
  {
    var w := t[p..e];
    assert w[0] == t[p] && w[1] == t[p + 1] && w[2] == t[p + 2] && w[3] == t[p + 3];
    if |w| >= 9 && IsSeparator(w[3]) && AllDigits(w[4..]) {
      forall i | p + 4 <= i < e ensures IsDigit(t[i]) {
        assert t[i] == w[4..][i - p - 4];
      }
      RunAtLeast(t, p + 4, e, Digit);
    } else {
      forall i | p + 3 <= i < e ensures IsDigit(t[i]) {
        assert t[i] == w[3..][i - p - 3];
      }
      RunAtLeast(t, p + 3, e, Digit);
    }
  }

  lemma {:induction false} MemberRepairOrder(pat: Pattern, t: string, p: nat)
    requires pat == RepairOrder
    requires p <= |t| && MatchLen(pat, t, p) > 0
    ensures InLanguage(pat, t[p..p + MatchLen(pat, t, p)])
  {
    var n := MatchLen(RepairOrder, t, p);
    var w := t[p..p + n];
    assert w[2..] == t[p + 2..p + n];
  }

  lemma {:induction false} BoundRepairOrder(t: string, p: nat, e: nat)
    requires p <= e <= |t| && InLanguage(RepairOrder, t[p..e])
    ensures e - p <= MatchLen(RepairOrder, t, p)
  {
    var w := t[p..e];
    assert w[0] == t[p] && w[1] == t[p + 1];
    forall i | p + 2 <= i < e ensures IsDigit(t[i]) {
      assert t[i] == w[2..][i - p - 2];
    }
    RunAtLeast(t, p + 2, e, Digit);
  }

  /** Both kinds of number start with a digit. */
  lemma {:induction false} NumberStartsWithDigit(u: string, price: bool)
    requires Number(u, price)
    ensures |u| >= 1 && IsDigit(u[0])
  {
    if price {
      if !(|u| >= 1 && AllDigits(u)) {
        assert u[..|u| - 3][0] == u[0];
      }
    } else {
      var g := if Grouped(u) then u else u[..|u| - 3];
      var h :| GroupedSplit(g, h);
      assert g[..h][0] == u[0];
    }
  }

  lemma {:induction false} NumberMember(t: string, q: nat, price: bool)
    requires q <= |t| && NumberEnd(t, q, price) > q
    ensures Number(t[q..NumberEnd(t, q, price)], price)
  {
    if price {
      UnsignedMember(t, q);
    } else {
      AmountNumberMember(t, q);
    }
  }

  lemma {:induction false} UnsignedMember(t: string, q: nat)
    requires q <= |t| && NumberEnd(t, q, true) > q
    ensures Unsigned(t[q..NumberEnd(t, q, true)])
  {
    var r := Run(t, q, Digit);
    RunSlice(t, q, r, Digit);
    if DecimalsAt(t, q + r) {
      NumberWithDecimals(t, q, q + r, true);
    }
  }

  lemma {:induction false} AmountNumberMember(t: string, q: nat)
    requires q <= |t| && NumberEnd(t, q, false) > q
    ensures AmountNumber(t[q..NumberEnd(t, q, false)])
  {
    var g := GroupsEnd(t, q + Min(Run(t, q, Digit), 3));
    GroupedUpToEnd(t, q);
    if DecimalsAt(t, g) {
      NumberWithDecimals(t, q, g, false);
    }
  }

  /** A number body followed by `\.\d{2}` is a number. */
  lemma {:induction false} NumberWithDecimals(t: string, q: nat, g: nat, price: bool)
    requires q < g && DecimalsAt(t, g)
    requires price ==> AllDigits(t[q..g])
    requires !price ==> Grouped(t[q..g])
    ensures Number(t[q..g + 3], price)
  {
    var u := t[q..g + 3];
    assert u[..|u| - 3] == t[q..g];
    assert u[|u| - 3..] == t[g..g + 3];
  }

  /** A class that holds on a slice holds at each position it covers. */
  lemma {:induction false} SliceAllIn(t: string, i: nat, j: nat, cls: CharClass)
    requires i <= j <= |t| && AllIn(t[i..j], cls)
    ensures forall k :: i <= k < j ==> InClass(t[k], cls)
  {
    forall k | i <= k < j ensures InClass(t[k], cls) {
      assert t[k] == t[i..j][k - i];
    }
  }

  lemma {:induction false} NumberBound(t: string, q: nat, e: nat, price: bool)
    requires q <= e <= |t| && Number(t[q..e], price)
    ensures e <= NumberEnd(t, q, price)
  {
    var u := t[q..e];
    if price {
      if |u| >= 1 && AllDigits(u) {
        UnsignedDigitsBound(t, q, e);
      } else {
        UnsignedDecimalsBound(t, q, e);
      }
    } else if Grouped(u) {
      GroupedEnd(t, q, e);
    } else {
      AmountDecimalsBound(t, q, e);
    }
  }

  lemma {:induction false} UnsignedDigitsBound(t: string, q: nat, e: nat)
    requires q < e <= |t| && AllDigits(t[q..e])
    ensures e <= NumberEnd(t, q, true)
  {
    SliceAllIn(t, q, e, Digit);
    RunAtLeast(t, q, e, Digit);
  }

  lemma {:induction false} UnsignedDecimalsBound(t: string, q: nat, e: nat)
    requires q + 4 <= e <= |t| && AllDigits(t[q..e][..e - q - 3]) && Decimals(t[q..e][e - q - 3..])
    ensures e <= NumberEnd(t, q, true)
  {
    var m := e - 3;
    assert t[q..e][..e - q - 3] == t[q..m];
    assert t[q..e][e - q - 3..] == t[m..e];
    SliceAllIn(t, q, m, Digit);
    assert t[m] == t[m..e][0] && t[m + 1] == t[m..e][1] && t[m + 2] == t[m..e][2];
    RunExact(t, q, m, Digit);
    assert DecimalsAt(t, m);
  }

  lemma {:induction false} AmountDecimalsBound(t: string, q: nat, e: nat)
    requires q + 3 <= e <= |t| && Grouped(t[q..e][..e - q - 3]) && Decimals(t[q..e][e - q - 3..])
    ensures e <= NumberEnd(t, q, false)
  {
    var j := e - 3;
    assert t[q..e][..e - q - 3] == t[q..j];
    assert t[q..e][e - q - 3..] == t[j..e];
    assert t[j] == t[j..e][0] && t[j + 1] == t[j..e][1] && t[j + 2] == t[j..e][2];
    GroupedEnd(t, q, j);
    assert DecimalsAt(t, j);
  }

  /** In a currency word at `p`, the number starts where the scanner's
      `\$\s*` prefix ends. */
  lemma {:induction false} SplitIsAfterDollar(t: string, p: nat, e: nat, k: int, price: bool)
    requires p <= e <= |t| && CurrencySplit(t[p..e], k, price)
    ensures p < |t| && t[p] == '$' && k < e - p && AfterDollar(t, p) == p + k
    ensures t[p..e][k..] == t[p + k..e]
  {
    var w := t[p..e];
    NumberStartsWithDigit(w[k..], price);
    assert w[k..][0] == t[p + k];
    DollarPrefix(t, p, e - p, k);
  }

  /** The scanner's `\$\s*` prefix, as a split of the word at `p`. */
  lemma {:induction false} AfterDollarSpaces(t: string, p: nat, e: nat)
    requires p < e <= |t| && t[p] == '$' && AfterDollar(t, p) <= e
    ensures AllIn(t[p..e][1..AfterDollar(t, p) - p], Space)
  {
    var k := AfterDollar(t, p) - p;
    forall i | 0 <= i < k - 1 ensures IsSpace(t[p..e][1..k][i]) {
      assert t[p..e][1..k][i] == t[p + 1 + i];
    }
  }

  lemma {:induction false} MemberCurrency(t: string, p: nat, price: bool)
    requires p <= |t| && CurrencyLen(t, p, price) > 0
    ensures CurrencySplit(t[p..p + CurrencyLen(t, p, price)], AfterDollar(t, p) - p, price)
    ensures CurrencyWord(t[p..p + CurrencyLen(t, p, price)], price)
  {
    var q := AfterDollar(t, p);
    var e := NumberEnd(t, q, price);
    assert e == p + CurrencyLen(t, p, price);
    NumberMember(t, q, price);
    AfterDollarSpaces(t, p, e);
    SplitAt(t, p, q, e, price);
  }

  /** `$`, white space up to `q` and a number up to `e` make a currency split. */
  lemma {:induction false} SplitAt(t: string, p: nat, q: nat, e: nat, price: bool)
    requires p < q <= e <= |t| && t[p] == '$'
    requires AllIn(t[p..e][1..q - p], Space) && Number(t[q..e], price)
    ensures CurrencySplit(t[p..e], q - p, price)
  {
    assert t[p..e][q - p..] == t[q..e];
  }

  lemma {:induction false} BoundCurrency(t: string, p: nat, e: nat, price: bool)
    requires p <= e <= |t| && CurrencyWord(t[p..e], price)
    ensures e - p <= CurrencyLen(t, p, price)
  {
    var k :| CurrencySplit(t[p..e], k, price);
    BoundCurrencySplit(t, p, e, k, price);
  }

  lemma {:induction false} BoundCurrencySplit(t: string, p: nat, e: nat, k: int, price: bool)
    requires p <= e <= |t| && CurrencySplit(t[p..e], k, price)
    ensures e - p <= CurrencyLen(t, p, price)
  {
    SplitIsAfterDollar(t, p, e, k, price);
    SplitNumber(t, p, e, k, price);
    BoundAfterDollar(t, p, p + k, e, price);
  }

  /** A number from the end of the scanner's `\$\s*` prefix bounds the match. */
  lemma {:induction false} BoundAfterDollar(t: string, p: nat, q: nat, e: nat, price: bool)
    requires p < |t| && t[p] == '$' && AfterDollar(t, p) == q && q < e <= |t|
    requires Number(t[q..e], price)
    ensures e - p <= CurrencyLen(t, p, price)
  {
    NumberBound(t, q, e, price);
    CurrencyLenAt(t, p, q, price);
  }

  /** The number of a currency split, as a slice of `t`. */
  lemma {:induction false} SplitNumber(t: string, p: nat, e: nat, k: int, price: bool)
    requires p <= e <= |t| && CurrencySplit(t[p..e], k, price)
    requires 0 <= k && t[p..e][k..] == t[p + k..e]
    ensures Number(t[p + k..e], price)
  {
  }

  /** The scanner's length at a `$` whose number ends beyond `q`. */
  lemma {:induction false} CurrencyLenAt(t: string, p: nat, q: nat, price: bool)
    requires p < |t| && t[p] == '$' && AfterDollar(t, p) == q && NumberEnd(t, q, price) > q
    ensures CurrencyLen(t, p, price) == NumberEnd(t, q, price) - p
  {
  }

  lemma {:induction false} MemberDate(pat: Pattern, t: string, p: nat)
    requires pat == Date
    requires p <= |t| && MatchLen(pat, t, p) > 0
    ensures InLanguage(pat, t[p..p + MatchLen(pat, t, p)])
  {
    var w := t[p..p + 10];
    assert w[..2] == t[p..p + 2];
    assert w[3..5] == t[p + 3..p + 5];
    assert w[6..] == t[p + 6..p + 10];
  }

  lemma {:induction false} BoundDate(t: string, p: nat, e: nat)
    requires p <= e <= |t| && InLanguage(Date, t[p..e])
    ensures e - p <= MatchLen(Date, t, p)
  {
    var w := t[p..e];
    assert w[..2][0] == t[p] && w[..2][1] == t[p + 1];
    assert w[3..5][0] == t[p + 3] && w[3..5][1] == t[p + 4];
    assert w[6..][0] == t[p + 6] && w[6..][1] == t[p + 7];
    assert w[6..][2] == t[p + 8] && w[6..][3] == t[p + 9];
  }

  lemma {:induction false} MemberPartNumber(pat: Pattern, t: string, p: nat)
    requires pat == PartNumber
    requires p <= |t| && MatchLen(pat, t, p) > 0
    ensures InLanguage(pat, t[p..p + MatchLen(pat, t, p)])
  {
    RunSlice(t, p, MatchLen(PartNumber, t, p), UpperAlnum);
  }

  lemma {:induction false} BoundPartNumber(t: string, p: nat, e: nat)
    requires p <= e <= |t| && InLanguage(PartNumber, t[p..e])
    ensures e - p <= MatchLen(PartNumber, t, p)
  {
    var w := t[p..e];
    forall i | p <= i < e ensures IsUpperAlnum(t[i]) {
      assert t[i] == w[i - p];
    }
    RunAtLeast(t, p, e, UpperAlnum);
  }

  lemma {:induction false} Member(pat: Pattern, t: string, p: nat)
    requires p <= |t| && MatchLen(pat, t, p) > 0
    ensures InLanguage(pat, t[p..p + MatchLen(pat, t, p)])
  {
    match pat
    case InvoiceNumber => MemberInvoice(pat, t, p);
    case RepairOrder => MemberRepairOrder(pat, t, p);
    case Amount => MemberAmount(pat, t, p);
    case Date => MemberDate(pat, t, p);
    case PartNumber => MemberPartNumber(pat, t, p);
    case PartPrice => MemberPartPrice(pat, t, p);
  }

  lemma {:induction false} MemberAmount(pat: Pattern, t: string, p: nat)
    requires pat == Amount
    requires p <= |t| && MatchLen(pat, t, p) > 0
    ensures InLanguage(pat, t[p..p + MatchLen(pat, t, p)])
  {
    MemberCurrency(t, p, false);
  }

  lemma {:induction false} MemberPartPrice(pat: Pattern, t: string, p: nat)
    requires pat == PartPrice
    requires p <= |t| && MatchLen(pat, t, p) > 0
    ensures InLanguage(pat, t[p..p + MatchLen(pat, t, p)])
  {
    MemberCurrency(t, p, true);
  }

  lemma {:induction false} Bound(pat: Pattern, t: string, p: nat, e: nat)
    requires p <= e <= |t| && InLanguage(pat, t[p..e])
    ensures e - p <= MatchLen(pat, t, p)
  {
    match pat
    case InvoiceNumber => BoundInvoice(t, p, e);
    case RepairOrder => BoundRepairOrder(t, p, e);
    case Amount => BoundCurrency(t, p, e, false);
    case Date => BoundDate(t, p, e);
    case PartNumber => BoundPartNumber(t, p, e);
    case PartPrice => BoundCurrency(t, p, e, true);
  }
  /** The scanner finds, at each position, the longest word of the language
      that starts there, and reports 0 exactly when there is none. */
  lemma {:induction false} MatchLenIsLongest(pat: Pattern, t: string, p: nat)
    requires p <= |t|
    ensures MatchLen(pat, t, p) > 0 ==> IsLongestAt(pat, t, p, MatchLen(pat, t, p))
    ensures MatchLen(pat, t, p) == 0 ==> forall e :: p <= e <= |t| ==> !InLanguage(pat, t[p..e])
  {
    var n := MatchLen(pat, t, p);
    if n > 0 {
      Member(pat, t, p);
    }
    forall e | p <= e <= |t| && n < e - p ensures !InLanguage(pat, t[p..e]) {
      if InLanguage(pat, t[p..e]) {
        Bound(pat, t, p, e);
      }
    }
  }

  /** `Find` reports the leftmost position that has a language word and the
      longest word there; by the argument at the head of this module, that is
      what `t.match(re)` reports. */
  lemma {:induction false} FindSpec(pat: Pattern, t: string)
    ensures Find(pat, t).None? ==> NoMatch(pat, t)
    ensures Find(pat, t).Some? ==> IsFirstMatch(pat, t, Find(pat, t).value.0, Find(pat, t).value.1)
  {
    var r := FirstFrom(pat, t, 0);
    var last := if r.Some? then r.value else |t| + 1;
    forall b, e | 0 <= b < last && b <= e <= |t| ensures !InLanguage(pat, t[b..e]) {
      MatchLenIsLongest(pat, t, b);
    }
    if r.Some? {
      MatchLenIsLongest(pat, t, r.value);
    }
  }

  /** The capture group is the number of the currency word, and the `\$\s*`
      before it is exactly what the word's split puts there. */
  lemma {:induction false} CurrencyGroupSpec(t: string, p: nat, price: bool)
    requires p <= |t| && CurrencyLen(t, p, price) > 0
    ensures Number(CurrencyGroup(t, p, price), price)
    ensures var n := CurrencyLen(t, p, price);
      var g := CurrencyGroup(t, p, price);
      CurrencySplit(t[p..p + n], n - |g|, price) && t[p..p + n][n - |g|..] == g
  {
    var q := AfterDollar(t, p);
    var e := p + CurrencyLen(t, p, price);
    assert e == NumberEnd(t, q, price);
    NumberMember(t, q, price);
    MemberCurrency(t, p, price);
    assert CurrencyGroup(t, p, price) == t[q..e];
    assert t[p..e][q - p..] == t[q..e];
  }

  /** Find reports position `p` when the scanner finds nothing before it. */
  lemma {:induction false} FindAt(pat: Pattern, t: string, p: nat)
    requires p <= |t| && MatchLen(pat, t, p) > 0
    requires forall k :: 0 <= k < p ==> MatchLen(pat, t, k) == 0
    ensures Find(pat, t) == Some((p, MatchLen(pat, t, p)))
  {
    var r := FirstFrom(pat, t, 0);
    assert r.Some?;
    assert r.value <= p;
  }
}
