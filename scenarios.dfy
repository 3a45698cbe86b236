/** Concrete inputs whose outcome the extraction rules fix. */
module Scenarios {
  import opened Text
  import opened Patterns
  import opened Records
  import opened Ocr

  const Ungrouped := "$1245.00"

  ghost predicate UngroupedShape(t: string) {
    && |t| == 8 && t[0] == '$' && t[1] == '1' && t[2] == '2' && t[3] == '4'
    && t[4] == '5' && t[5] == '.' && t[6] == '0' && t[7] == '0'
  }

  lemma UngroupedLineShape()
    ensures UngroupedShape(Ungrouped)
  {
  }

  lemma UngroupedScan(t: string)
    requires UngroupedShape(t)
    ensures CurrencyLen(t, 0, false) == 4 && AfterDollar(t, 0) == 1
  {
    RunExact(t, 1, 1, Space);
    RunExact(t, 1, 5, Digit);
    assert !GroupAt(t, 4);
    assert !DecimalsAt(t, 4);
  }

  lemma UngroupedCapture(t: string)
    requires UngroupedShape(t)
    ensures AmountOf(t) == t[1..4]
  {
    UngroupedScan(t);
    FindAt(Amount, t, 0);
    FoundCurrency(t, 0, 4, false);
  }

  /** `\d{1,3}` is not anchored by what follows it: in `$1245.00` the amount
      pattern stops after three digits, so the amount is `124`. */
  lemma UngroupedAmountIsCut()
    ensures AmountOf(Ungrouped) == "124"
  {
    UngroupedLineShape();
    UngroupedCapture(Ungrouped);
    UngroupedWord(Ungrouped);
  }

  lemma UngroupedWord(t: string)
    requires UngroupedShape(t)
    ensures t[1..4] == "124"
  {
  }

  /** ... and the total is 124.00. */
  lemma UngroupedTotal()
    ensures TotalCents(AmountOf(Ungrouped)) == 12400
  {
    UngroupedAmountIsCut();
    WholeTotal();
  }

  lemma WholeTotal()
    ensures TotalCents("124") == 12400
  {
    NoComma();
    Render124();
    ParseCentsWhole(124);
  }

  lemma NoComma()
    ensures Without("124", ',') == "124"
  {
    assert Without("4", ',') == "4";
    assert Without("24", ',') == "24";
  }

  lemma Render124()
    ensures NatToString(124) == "124"
  {
    assert NatToString(1) == "1";
    assert NatToString(12) == "12";
  }

  // ------------------------------------------------------------ helpers

  /** A slice equals a word when it has the word's characters. */
  lemma SliceIs(t: string, i: nat, j: nat, w: string)
    requires i <= j <= |t| && j - i == |w|
    requires forall k :: 0 <= k < |w| ==> t[i + k] == w[k]
    ensures t[i..j] == w
  {
  }

  /** A text with `t[p..q]` cut out equals a word when it has its characters. */
  lemma CutIs(t: string, p: nat, q: nat, w: string)
    requires p <= q <= |t| && |w| == |t| - (q - p)
    requires forall k :: 0 <= k < p ==> w[k] == t[k]
    requires forall k :: p <= k < |w| ==> w[k] == t[k + (q - p)]
    ensures t[..p] + t[q..] == w
  {
  }

  /** No line terminator anywhere. */
  ghost predicate PlainLine(t: string) {
    forall k :: 0 <= k < |t| ==> t[k] != '\n' && !IsLineTerminator(t[k])
  }

  ghost predicate NoDollarBefore(t: string, p: int) {
    forall k :: 0 <= k < p && k < |t| ==> t[k] != '$'
  }

  /** A text that ends in the price token `$ddd.dd`, with no `$` before it. */
  lemma PriceTokenAtEnd(u: string, p: nat)
    requires p + 7 == |u| && NoDollarBefore(u, p)
    requires u[p] == '$' && IsDigit(u[p + 1]) && IsDigit(u[p + 2]) && IsDigit(u[p + 3])
    requires u[p + 4] == '.' && IsDigit(u[p + 5]) && IsDigit(u[p + 6])
    ensures Find(PartPrice, u) == Some((p, 7))
    ensures CaptureText(u, true) == u[p + 1..]
    ensures ReplaceFirst(PartPrice, u) == u[..p]
  {
    RunExact(u, p + 1, p + 1, Space);
    RunExact(u, p + 1, p + 4, Digit);
    assert DecimalsAt(u, p + 4);
    assert CurrencyLen(u, p, true) == 7;
    FindAt(PartPrice, u, p);
    FoundAt(PartPrice, u, p, 7);
    FoundCurrency(u, p, 7, true);
  }

  // ------------------------------------------------------------ a part line

  const BumperLine := "OEM1234 Front Bumper $450.00"

  /** The characters of the part line, as facts the scans below use. */
  ghost predicate BumperShape(t: string) {
    && |t| == 28 && BumperChars0(t) && BumperChars1(t) && BumperChars2(t) && BumperChars3(t)
    && PlainLine(t) && NoDollarBefore(t, 21)
  }

  ghost predicate BumperChars0(t: string) requires |t| == 28 {
    t[0] == 'O' && t[1] == 'E' && t[2] == 'M' && t[3] == '1' && t[4] == '2' && t[5] == '3' && t[6] == '4'
  }

  ghost predicate BumperChars1(t: string) requires |t| == 28 {
    t[7] == ' ' && t[8] == 'F' && t[9] == 'r' && t[10] == 'o' && t[11] == 'n' && t[12] == 't' && t[13] == ' '
  }

  ghost predicate BumperChars2(t: string) requires |t| == 28 {
    t[14] == 'B' && t[15] == 'u' && t[16] == 'm' && t[17] == 'p' && t[18] == 'e' && t[19] == 'r' && t[20] == ' '
  }

  ghost predicate BumperChars3(t: string) requires |t| == 28 {
    t[21] == '$' && t[22] == '4' && t[23] == '5' && t[24] == '0' && t[25] == '.' && t[26] == '0' && t[27] == '0'
  }

  lemma BumperLineShape()
    ensures BumperShape(BumperLine)
  {
    BumperLineChars0();
    BumperLineChars1();
    BumperLineChars2();
    BumperLineChars3();
    BumperLinePlain();
  }

  lemma BumperLineChars0() ensures |BumperLine| == 28 && BumperChars0(BumperLine) {}

  lemma BumperLineChars1() ensures |BumperLine| == 28 && BumperChars1(BumperLine) {}

  lemma BumperLineChars2() ensures |BumperLine| == 28 && BumperChars2(BumperLine) {}

  lemma BumperLineChars3() ensures |BumperLine| == 28 && BumperChars3(BumperLine) {}

  lemma BumperLinePlain()
    ensures PlainLine(BumperLine) && NoDollarBefore(BumperLine, 21)
  {
  }

  lemma BumperPartLine(t: string)
    requires BumperShape(t)
    ensures IsPartLine(t) && PartLines(Lines(t)) == [t]
  {
    assert PartLineWord(t, 0, 7, 21);
    IsPartLineSpec(t);
    LinesOfPlain(t);
    assert PartLineIndices([t], 1) == [];
    assert PartLineIndices([t], 0) == [0];
  }

  lemma BumperPartNumber(t: string)
    requires BumperShape(t)
    ensures MatchText(PartNumber, t) == "OEM1234"
  {
    RunExact(t, 0, 7, UpperAlnum);
    FindAt(PartNumber, t, 0);
    FoundAt(PartNumber, t, 0, 7);
  }

  lemma BumperPrice(t: string)
    requires BumperShape(t)
    ensures CaptureText(t, true) == "450.00"
  {
    PriceTokenAtEnd(t, 21);
  }

  /** Without the part number the line is ` Front Bumper $450.00`; without the
      price token it is ` Front Bumper `. */
  lemma BumperCuts(t: string)
    requires BumperShape(t)
    ensures ReplaceFirst(PartPrice, ReplaceFirst(PartNumber, t)) == t[7..21]
  {
    BumperCutNumber(t);
    BumperRest(t);
    BumperCutPrice(t[7..]);
    BumperCutsJoin(t);
  }

  lemma BumperCutsJoin(t: string)
    requires |t| == 28 && ReplaceFirst(PartNumber, t) == t[7..]
    requires ReplaceFirst(PartPrice, t[7..]) == t[7..][..14]
    ensures ReplaceFirst(PartPrice, ReplaceFirst(PartNumber, t)) == t[7..21]
  {
    SuffixPrefix(t, 7, 14);
  }

  lemma SuffixPrefix(t: string, i: nat, n: nat)
    requires i + n <= |t|
    ensures t[i..][..n] == t[i..i + n]
  {
  }

  lemma BumperCutPrice(u: string)
    requires |u| == 21 && NoDollarBefore(u, 14)
    requires u[14] == '$' && u[15] == '4' && u[16] == '5' && u[17] == '0'
    requires u[18] == '.' && u[19] == '0' && u[20] == '0'
    ensures ReplaceFirst(PartPrice, u) == u[..14]
  {
    PriceTokenAtEnd(u, 14);
  }

  lemma BumperCutNumber(t: string)
    requires BumperShape(t)
    ensures ReplaceFirst(PartNumber, t) == t[7..]
  {
    RunExact(t, 0, 7, UpperAlnum);
    FindAt(PartNumber, t, 0);
    FoundAt(PartNumber, t, 0, 7);
  }

  lemma BumperRest(t: string)
    requires BumperShape(t)
    ensures var u := t[7..];
      && |u| == 21 && NoDollarBefore(u, 14)
      && u[14] == '$' && u[15] == '4' && u[16] == '5' && u[17] == '0'
      && u[18] == '.' && u[19] == '0' && u[20] == '0'
  {
  }

  lemma BumperTrim(t: string)
    requires BumperShape(t)
    ensures Trim(t[7..21]) == "Front Bumper"
  {
    var d := t[7..21];
    RunExact(d, 0, 1, Space);
    var rest := d[1..];
    assert TrailingSpaces(rest[..|rest| - 1]) == 0;
    assert TrailingSpaces(rest) == 1;
  }

  lemma BumperPart(t: string)
    requires BumperShape(t)
    ensures ExtractParts(t) == [Part("OEM1234", "Front Bumper", 45000, true, true)]
  {
    BumperPartLine(t);
    OnePartLine(t);
    BumperParse(t);
  }

  lemma BumperParse(t: string)
    requires BumperShape(t)
    ensures ParsePartLine(t) == Part("OEM1234", "Front Bumper", 45000, true, true)
  {
    BumperPartNumber(t);
    BumperPrice(t);
    PriceOf450();
    BumperCuts(t);
    BumperTrim(t);
    OemFlags();
    PartFields(t, "OEM1234", "Front Bumper", 45000, true, true);
  }

  lemma OemFlags()
    ensures ValidatePartNumber("OEM1234") && IsOEMPart("OEM1234")
  {
    ValidatePartNumberSpec("OEM1234");
  }

  /** A line's part, assembled from its five fields. */
  lemma PartFields(line: string, pn: string, d: string, c: int, v: bool, o: bool)
    requires MatchText(PartNumber, line) == pn
    requires Trim(ReplaceFirst(PartPrice, ReplaceFirst(PartNumber, line))) == d
    requires PriceCents(CaptureText(line, true)) == c
    requires ValidatePartNumber(pn) == v && IsOEMPart(pn) == o
    ensures ParsePartLine(line) == Part(pn, d, c, v, o)
  {
  }

  /** A text whose only part line is itself yields the parse of that line. */
  lemma OnePartLine(t: string)
    requires PartLines(Lines(t)) == [t]
    ensures ExtractParts(t) == [ParsePartLine(t)]
  {
  }

  /** The sample part line `OEM1234 Front Bumper $450.00`: part number `OEM1234`, an
      OEM part, valid, priced 450.00 and described as `Front Bumper`. */
  lemma BumperLineYieldsPart()
    ensures ExtractParts(BumperLine) == [Part("OEM1234", "Front Bumper", 45000, true, true)]
  {
    BumperLineShape();
    BumperPart(BumperLine);
  }

  lemma PriceOf450()
    ensures PriceCents("450.00") == 45000
  {
    ParseCentsDecimal(450, 0, 0);
    assert NatToString(450) == "450" by {
      assert NatToString(4) == "4";
      assert NatToString(45) == "45";
    }
    assert "450" + ['.', DigitChar(0), DigitChar(0)] == "450.00";
  }

  // ------------------------------------------------------------ a header line

  /** A header line whose `RO55021 ... $1` also passes the part-line test. */
  const HeaderLine := "INV-10234 RO55021 04/02/2024 $1,245.00"

  /** The characters of the header line, as facts the scans below use. */
  ghost predicate HeaderShape(t: string) {
    && |t| == 38 && HeaderChars0(t) && HeaderChars1(t) && HeaderChars2(t)
    && HeaderChars3(t) && HeaderChars4(t) && HeaderChars5(t)
    && PlainLine(t) && NoDollarBefore(t, 29) && NoSlashBefore(t, 20) && NoRBefore(t, 10)
    && AlnumRange(t, 0, 3) && AlnumRange(t, 4, 9) && AlnumRange(t, 10, 17)
  }

  ghost predicate HeaderChars0(t: string) requires |t| == 38 {
    t[0] == 'I' && t[1] == 'N' && t[2] == 'V' && t[3] == '-' && t[4] == '1' && t[5] == '0' && t[6] == '2'
  }

  ghost predicate HeaderChars1(t: string) requires |t| == 38 {
    t[7] == '3' && t[8] == '4' && t[9] == ' ' && t[10] == 'R' && t[11] == 'O' && t[12] == '5' && t[13] == '5'
  }

  ghost predicate HeaderChars2(t: string) requires |t| == 38 {
    t[14] == '0' && t[15] == '2' && t[16] == '1' && t[17] == ' ' && t[18] == '0' && t[19] == '4' && t[20] == '/'
  }

  ghost predicate HeaderChars3(t: string) requires |t| == 38 {
    t[21] == '0' && t[22] == '2' && t[23] == '/' && t[24] == '2' && t[25] == '0' && t[26] == '2' && t[27] == '4'
  }

  ghost predicate HeaderChars4(t: string) requires |t| == 38 {
    t[28] == ' ' && t[29] == '$' && t[30] == '1' && t[31] == ',' && t[32] == '2' && t[33] == '4' && t[34] == '5'
  }

  ghost predicate HeaderChars5(t: string) requires |t| == 38 {
    t[35] == '.' && t[36] == '0' && t[37] == '0'
  }

  lemma HeaderLineShape()
    ensures HeaderShape(HeaderLine)
  {

    HeaderLineChars0();

    HeaderLineChars1();

    HeaderLineChars2();

    HeaderLineChars3();

    HeaderLineChars4();

    HeaderLineChars5();

    HeaderLineRanges();
  }

  lemma HeaderLineChars0() ensures |HeaderLine| == 38 && HeaderChars0(HeaderLine) {}

  lemma HeaderLineChars1() ensures |HeaderLine| == 38 && HeaderChars1(HeaderLine) {}

  lemma HeaderLineChars2() ensures |HeaderLine| == 38 && HeaderChars2(HeaderLine) {}

  lemma HeaderLineChars3() ensures |HeaderLine| == 38 && HeaderChars3(HeaderLine) {}

  lemma HeaderLineChars4() ensures |HeaderLine| == 38 && HeaderChars4(HeaderLine) {}

  lemma HeaderLineChars5() ensures |HeaderLine| == 38 && HeaderChars5(HeaderLine) {}

  lemma HeaderLineRanges()
    ensures PlainLine(HeaderLine) && NoDollarBefore(HeaderLine, 29)
    ensures NoSlashBefore(HeaderLine, 20) && NoRBefore(HeaderLine, 10)
    ensures AlnumRange(HeaderLine, 0, 3) && AlnumRange(HeaderLine, 4, 9) && AlnumRange(HeaderLine, 10, 17)
  {
    HeaderLinePlain();
    HeaderLineNoDollar();
    HeaderLineNoSlash();
    HeaderLineAlnum();
  }

  lemma HeaderLinePlain() ensures PlainLine(HeaderLine) {}

  lemma HeaderLineNoDollar() ensures NoDollarBefore(HeaderLine, 29) {}

  lemma HeaderLineNoSlash() ensures NoSlashBefore(HeaderLine, 20) && NoRBefore(HeaderLine, 10) {}

  lemma HeaderLineAlnum()
    ensures AlnumRange(HeaderLine, 0, 3) && AlnumRange(HeaderLine, 4, 9) && AlnumRange(HeaderLine, 10, 17)
  {
  }

  ghost predicate NoSlashBefore(t: string, p: int) {
    forall k :: 0 <= k < p && k < |t| ==> t[k] != '/'
  }

  ghost predicate NoRBefore(t: string, p: int) {
    forall k :: 0 <= k < p && k < |t| ==> t[k] != 'R' && t[k] != 'r'
  }

  ghost predicate AlnumRange(t: string, i: int, j: int) {
    forall k :: 0 <= i <= k < j && k < |t| ==> IsUpperAlnum(t[k])
  }

  lemma HeaderInvoice(t: string)
    requires HeaderShape(t)
    ensures MatchText(InvoiceNumber, t) == t[0..9]
  {
    RunExact(t, 4, 9, Digit);
    FindAt(InvoiceNumber, t, 0);
    FoundAt(InvoiceNumber, t, 0, 9);
  }

  lemma HeaderRo(t: string)
    requires HeaderShape(t)
    ensures MatchText(RepairOrder, t) == t[10..17]
  {
    RunExact(t, 12, 17, Digit);
    FindAt(RepairOrder, t, 10);
    FoundAt(RepairOrder, t, 10, 7);
  }

  lemma HeaderDate(t: string)
    requires HeaderShape(t)
    ensures MatchText(Date, t) == t[18..28]
  {
    forall k | 0 <= k < 18 ensures MatchLen(Date, t, k) == 0 {
      assert t[k + 2] != '/';
    }
    FindAt(Date, t, 18);
    FoundAt(Date, t, 18, 10);
  }

  /** `$1,245.00`: one leading digit, one group, two decimals. */
  lemma HeaderAmountScan(t: string)
    requires HeaderShape(t)
    ensures AfterDollar(t, 29) == 30 && CurrencyLen(t, 29, false) == 9
  {
    RunExact(t, 30, 30, Space);
    RunExact(t, 30, 31, Digit);
    assert GroupAt(t, 31) && !GroupAt(t, 35);
    assert GroupsEnd(t, 35) == 35;
    assert DecimalsAt(t, 35);
  }

  lemma HeaderAmount(t: string)
    requires HeaderShape(t)
    ensures CaptureText(t, false) == t[30..38]
  {
    HeaderAmountScan(t);
    FindAt(Amount, t, 29);
    FoundCurrency(t, 29, 9, false);
  }

  /** As a part price, `$1,245.00` is only `$1`: `\d+` stops at the comma. */
  lemma HeaderPriceScan(t: string)
    requires HeaderShape(t)
    ensures AfterDollar(t, 29) == 30 && CurrencyLen(t, 29, true) == 2
  {
    RunExact(t, 30, 30, Space);
    RunExact(t, 30, 31, Digit);
    assert !DecimalsAt(t, 31);
  }

  lemma HeaderPrice(t: string)
    requires HeaderShape(t)
    ensures CaptureText(t, true) == t[30..31]
  {
    HeaderPriceScan(t);
    FindAt(PartPrice, t, 29);
    FoundCurrency(t, 29, 2, true);
  }

  lemma HeaderPartNumberAt(t: string)
    requires HeaderShape(t)
    ensures MatchLen(PartNumber, t, 10) == 7
    ensures forall k :: 0 <= k < 10 ==> MatchLen(PartNumber, t, k) == 0
  {
    RunExact(t, 10, 17, UpperAlnum);
    forall k | 0 <= k < 10 ensures MatchLen(PartNumber, t, k) == 0 {
      if k < 3 {
        RunExact(t, k, 3, UpperAlnum);
      } else if 4 <= k < 9 {
        RunExact(t, k, 9, UpperAlnum);
      }
    }
  }

  lemma HeaderPartNumber(t: string)
    requires HeaderShape(t)
    ensures MatchText(PartNumber, t) == t[10..17]
    ensures ReplaceFirst(PartNumber, t) == t[..10] + t[17..]
  {
    HeaderPartNumberAt(t);
    FindAt(PartNumber, t, 10);
    FoundAt(PartNumber, t, 10, 7);
  }

  lemma HeaderPartLine(t: string)
    requires HeaderShape(t)
    ensures IsPartLine(t) && PartLines(Lines(t)) == [t]
  {
    assert PartLineWord(t, 10, 7, 29);
    IsPartLineSpec(t);
    LinesOfPlain(t);
    assert PartLineIndices([t], 1) == [];
    assert PartLineIndices([t], 0) == [0];
  }

  /** The line without its part number: `INV-10234  04/02/2024 $1,245.00`. */
  lemma HeaderRest(t: string)
    requires HeaderShape(t)
    ensures var u := t[..10] + t[17..];
      && |u| == 31 && NoDollarBefore(u, 22) && u[22] == '$' && u[23] == '1' && u[24] == ','
  {
    var u := t[..10] + t[17..];
    forall k | 0 <= k < 22 ensures u[k] != '$' {
      if k >= 10 {
        assert u[k] == t[k + 7];
      }
    }
  }

  lemma HeaderCutPrice(u: string)
    requires |u| == 31 && NoDollarBefore(u, 22) && u[22] == '$' && u[23] == '1' && u[24] == ','
    ensures ReplaceFirst(PartPrice, u) == u[..22] + u[24..]
  {
    RunExact(u, 23, 23, Space);
    RunExact(u, 23, 24, Digit);
    assert !DecimalsAt(u, 24);
    assert CurrencyLen(u, 22, true) == 2;
    FindAt(PartPrice, u, 22);
    FoundAt(PartPrice, u, 22, 2);
  }

  lemma HeaderCutsJoin(t: string)
    requires |t| == 38
    ensures var u := t[..10] + t[17..];
      u[..22] + u[24..] == t[..10] + t[17..29] + t[31..]
  {
  }

  /** The description is the line without `RO55021` and without `$1`. */
  lemma HeaderCuts(t: string)
    requires HeaderShape(t)
    ensures ReplaceFirst(PartPrice, ReplaceFirst(PartNumber, t)) == t[..10] + t[17..29] + t[31..]
  {
    HeaderPartNumber(t);
    HeaderRest(t);
    HeaderCutPrice(t[..10] + t[17..]);
    HeaderCutsJoin(t);
  }

  /** Nothing to trim: the description starts with `I` and ends with `0`. */
  lemma HeaderTrim(t: string)
    requires HeaderShape(t)
    ensures var d := t[..10] + t[17..29] + t[31..]; Trim(d) == d
  {
    var d := t[..10] + t[17..29] + t[31..];
    assert d[0] == 'I' && d[|d| - 1] == '0';
    RunExact(d, 0, 0, Space);
    assert d[0..] == d;
    assert TrailingSpaces(d) == 0;
    assert d[..|d|] == d;
  }

  lemma HeaderPartFlags(t: string)
    requires HeaderShape(t)
    ensures ValidatePartNumber(t[10..17]) && !IsOEMPart(t[10..17]) && t[30..31] == "1"
  {
    ValidatePartNumberSpec(t[10..17]);
    assert t[10..17][0] == 'R';
  }

  lemma HeaderPart(t: string)
    requires HeaderShape(t)
    ensures ExtractParts(t) == [Part(t[10..17], t[..10] + t[17..29] + t[31..], 100, true, false)]
  {
    HeaderPartLine(t);
    HeaderPartNumber(t);
    HeaderPrice(t);
    HeaderCuts(t);
    HeaderTrim(t);
    HeaderPartFlags(t);
    PriceOf1();
  }

  lemma PriceOf1()
    ensures PriceCents("1") == 100
  {
    ParseCentsWhole(1);
    assert NatToString(1) == "1";
  }

  lemma HeaderWords(t: string)
    requires HeaderShape(t)
    ensures t[0..9] == "INV-10234" && t[10..17] == "RO55021"
  {
  }

  lemma HeaderDateWord(t: string)
    requires HeaderShape(t)
    ensures t[18..28] == "04/02/2024" && t[30..38] == "1,245.00"
  {
  }

  lemma HeaderDescriptionWord(t: string)
    requires HeaderShape(t)
    ensures t[..10] + t[17..29] + t[31..] == "INV-10234  04/02/2024 ,245.00"
  {
    assert t[..10] == "INV-10234 ";
    assert t[17..29] == " 04/02/2024 ";
    assert t[31..] == ",245.00";
  }

  /** The four header fields of the sample invoice header line. */
  lemma HeaderLineFields()
    ensures InvoiceNumberOf(HeaderLine) == "INV-10234"
    ensures RoNumberOf(HeaderLine) == "RO55021"
    ensures DateOf(HeaderLine) == "04/02/2024"
    ensures AmountOf(HeaderLine) == "1,245.00"
  {
    HeaderLineShape();
    HeaderWords(HeaderLine);
    HeaderDateWord(HeaderLine);
    HeaderInvoice(HeaderLine);
    HeaderRo(HeaderLine);
    HeaderDate(HeaderLine);
    HeaderAmount(HeaderLine);
  }

  /** All four fields are found, so the confidence is 1, and the total is 1245.00. */
  lemma HeaderLineConfidence()
    ensures ConfidenceQuarters(HeaderLine) == 4
    ensures TotalCents(AmountOf(HeaderLine)) == 124500
  {
    HeaderLineFields();
    FourFound("INV-10234", "RO55021", "1,245.00", "04/02/2024");
    Total1245();
  }

  lemma FourFound(a: string, b: string, c: string, d: string)
    requires a != [] && b != [] && c != [] && d != []
    ensures FoundCount([a, b, c, d]) == 4
  {
    var fs := [a, b, c, d];
    assert fs[1..] == [b, c, d] && fs[2..] == [c, d] && fs[3..] == [d] && fs[4..] == [];
    assert FoundCount([d]) == 1 + FoundCount([d][1..]);
    assert FoundCount([c, d]) == 1 + FoundCount([c, d][1..]);
    assert FoundCount([b, c, d]) == 1 + FoundCount([b, c, d][1..]);
    assert FoundCount(fs) == 1 + FoundCount(fs[1..]);
  }

  lemma Total1245()
    ensures TotalCents("1,245.00") == 124500
  {
    TotalShape("1,245.00");
  }

  lemma TotalShape(s: string)
    requires |s| == 8 && s[0] == '1' && s[1] == ',' && s[2] == '2' && s[3] == '4'
    requires s[4] == '5' && s[5] == '.' && s[6] == '0' && s[7] == '0'
    ensures TotalCents(s) == 124500
  {
    DropCommaShape(s);
    Render1245();
    ParseCentsDecimal(1245, 0, 0);
    assert "1245" + ['.', DigitChar(0), DigitChar(0)] == "1245.00";
  }

  lemma DropCommaShape(s: string)
    requires |s| == 8 && s[0] == '1' && s[1] == ',' && s[2] == '2' && s[3] == '4'
    requires s[4] == '5' && s[5] == '.' && s[6] == '0' && s[7] == '0'
    ensures Without(s, ',') == "1245.00"
  {
    var rest := s[2..];
    assert forall i :: 0 <= i < |rest| ==> rest[i] != ',';
    DropSecondComma(s);
    assert [s[0]] + rest == "1245.00";
  }

  /** A comma in second place, and nowhere after it, is all `Without` removes. */
  lemma DropSecondComma(s: string)
    requires |s| >= 2 && s[0] != ',' && s[1] == ',' && ',' !in s[2..]
    ensures Without(s, ',') == [s[0]] + s[2..]
  {
    assert s[1..][1..] == s[2..];
    WithoutAbsent(s[2..], ',');
  }

  lemma Render1245()
    ensures NatToString(1245) == "1245"
  {
    assert NatToString(1) == "1";
    assert NatToString(12) == "12";
    assert NatToString(124) == "124";
  }

  /** The header line also passes the part-line filter (`RO55021` is a run of
      seven upper-case alphanumerics followed, on the same line, by `$1`), so
      it yields a part: number `RO55021`, priced 1.00, described by the rest. */
  lemma HeaderLineYieldsPart()
    ensures ExtractParts(HeaderLine) == [Part("RO55021", "INV-10234  04/02/2024 ,245.00", 100, true, false)]
  {
    HeaderLineShape();
    HeaderWords(HeaderLine);
    HeaderDescriptionWord(HeaderLine);
    HeaderPart(HeaderLine);
  }
}
