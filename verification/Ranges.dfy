/** `Range` headers over bytes and over lines: parsing, printing, and resolving them
    against an object (section 14.1 of RFC 9110). */
module Ranges {
  import opened Basics
  import opened Text

  datatype ByteRange =
    | FromStart(first: u64, last: u64)
    | FromStartOpen(first: u64)
    | Suffix(length: u64)

  datatype LineRange =
    | Lines(from: u64, to: u64)
    | LinesOpen(from: u64)
    | LastLines(count: u64)
    | Insert(before: u64)

  datatype ParseError = Empty | MissingEquals | NoRanges | InvalidSpec(spec: string) | OverflowU64

  datatype ParsedRange = ParsedRange(unit: string, range: Option<ByteRange>)

  // ---------------------------------------------------------------- numbers

  predicate IsDigit(c: char) {
    '0' <= c <= '9'
  }

  predicate AllDigits(s: string) {
    forall c :: c in s ==> IsDigit(c)
  }

  function DigitChar(d: nat): char
    requires d < 10
  {
    ('0' as int + d) as char
  }

  function Decimal(n: nat): string {
    if n < 10 then [DigitChar(n)] else Decimal(n / 10) + [DigitChar(n % 10)]
  }

  function ValueOf(s: string): nat
    requires AllDigits(s)
  {
    if s == "" then 0
    else
      assert s[|s| - 1] in s;
      10 * ValueOf(s[..|s| - 1]) + (s[|s| - 1] as int - '0' as int)
  }

  function ParseU64(component: string, spec: string): Result<u64, ParseError> {
    if component == "" || !AllDigits(component) then Failure(InvalidSpec(spec))
    else if ValueOf(component) > U64_MAX then Failure(OverflowU64)
    else Success(ValueOf(component))
  }

  lemma {:induction false} DecimalReads(n: nat)
    ensures Decimal(n) != "" && AllDigits(Decimal(n)) && ValueOf(Decimal(n)) == n
    ensures Decimal(n)[0] == '0' <==> n == 0
    ensures n == 0 ==> Decimal(n) == "0"
  {
    if n >= 10 {
      DecimalReads(n / 10);
      var s := Decimal(n);
      assert s[..|s| - 1] == Decimal(n / 10);
    }
  }

  // ---------------------------------------------------------------- printing and parsing

  function ByteSpec(r: ByteRange): string {
    match r
    case FromStart(first, last) => Decimal(first) + "-" + Decimal(last)
    case FromStartOpen(first) => Decimal(first) + "-"
    case Suffix(length) => "-" + Decimal(length)
  }

  function PrintBytes(r: ByteRange): string {
    "bytes=" + ByteSpec(r)
  }

  /** `Insert` prints the line before its own, so there is no printing an insert at 0. */
  function LineSpec(r: LineRange): string
    requires r.Insert? ==> r.before >= 1
  {
    match r
    case Lines(from, to) => Decimal(from) + "-" + Decimal(to)
    case LinesOpen(from) => Decimal(from) + "-"
    case LastLines(count) => "-" + Decimal(count)
    case Insert(before) => Decimal(before) + "-" + Decimal(before - 1)
  }

  function PrintLines(r: LineRange): string
    requires r.Insert? ==> r.before >= 1
  {
    "lines=" + LineSpec(r)
  }

  function ParseByteSpec(spec: string): Result<ByteRange, ParseError> {
    match SplitOnce(spec, '-')
    case None => Failure(InvalidSpec(spec))
    case Some((start, end)) =>
      if '-' in end || (start == "" && end == "") then Failure(InvalidSpec(spec))
      else if start == "" then
        (match ParseU64(end, spec)
         case Failure(e) => Failure(e)
         case Success(length) => Success(Suffix(length)))
      else
        match ParseU64(start, spec)
        case Failure(e) => Failure(e)
        case Success(first) =>
          if end == "" then Success(FromStartOpen(first))
          else
            match ParseU64(end, spec)
            case Failure(e) => Failure(e)
            case Success(last) =>
              if last < first then Failure(InvalidSpec(spec)) else Success(FromStart(first, last))
  }

  function Lower(s: string): string {
    if s == "" then ""
    else [if 'A' <= s[0] <= 'Z' then (s[0] as int + 32) as char else s[0]] + Lower(s[1..])
  }

  const ONE_RANGE := "one byte range per request; a range set (multipart/byteranges) is not supported"

  function ParseRangeHeader(value: string): Result<ParsedRange, ParseError> {
    if value == "" then Failure(Empty)
    else
      match SplitOnce(value, '=')
      case None => Failure(MissingEquals)
      case Some((unit, rangeSet)) =>
        if rangeSet == "" then Failure(NoRanges)
        else if Lower(unit) != "bytes" then Success(ParsedRange(Lower(unit), None))
        else if ',' in rangeSet then Failure(InvalidSpec(ONE_RANGE))
        else
          match ParseByteSpec(Trim(rangeSet))
          case Failure(e) => Failure(e)
          case Success(range) => Success(ParsedRange(Lower(unit), Some(range)))
  }

  function ParseLineSpec(spec: string): Result<LineRange, ParseError> {
    match SplitOnce(spec, '-')
    case None => Failure(InvalidSpec(spec))
    case Some((start, end)) =>
      if start == "" && end == "" then Failure(InvalidSpec(spec))
      else if start == "" then
        (match ParseU64(end, spec)
         case Failure(e) => Failure(e)
         case Success(count) => Success(LastLines(count)))
      else
        match ParseU64(start, spec)
        case Failure(e) => Failure(e)
        case Success(first) =>
          if first == 0 then Failure(InvalidSpec(spec))
          else if end == "" then Success(LinesOpen(first))
          else
            match ParseU64(end, spec)
            case Failure(e) => Failure(e)
            case Success(last) =>
              if last < first - 1 then Failure(InvalidSpec(spec))
              else if last == first - 1 then Success(Insert(first))
              else Success(Lines(first, last))
  }

  function ParseLineHeader(value: string): Result<LineRange, ParseError> {
    if value == "" then Failure(Empty)
    else
      match SplitOnce(value, '=')
      case None => Failure(MissingEquals)
      case Some((_, rangeSet)) =>
        if rangeSet == "" then Failure(NoRanges)
        else if ',' in Trim(rangeSet) then Failure(InvalidSpec("multi-range lines= not supported"))
        else ParseLineSpec(Trim(rangeSet))
  }

  /** The ranges a header can express. */
  predicate ByteWellFormed(r: ByteRange) {
    r.FromStart? ==> r.first <= r.last
  }

  predicate LineWellFormed(r: LineRange) {
    match r
    case Lines(from, to) => 1 <= from <= to
    case LinesOpen(from) => from >= 1
    case LastLines(_) => true
    case Insert(before) => before >= 1
  }

  /** Digits and dashes only: no separator in it, and nothing to trim. */
  predicate Plain(s: string) {
    s != "" && forall c :: c in s ==> IsDigit(c) || c == '-'
  }

  lemma PlainSurvives(unit: string, spec: string)
    requires Plain(spec) && '=' !in unit
    ensures SplitOnce(unit + "=" + spec, '=') == Some((unit, spec))
    ensures Trim(spec) == spec && ',' !in spec
  {
    SplitOnceAt(unit, '=', spec);
    assert spec[0] in spec && spec[|spec| - 1] in spec;
  }

  lemma SpecSplits(a: string, b: string)
    requires AllDigits(a) && AllDigits(b)
    ensures SplitOnce(a + "-" + b, '-') == Some((a, b)) && Plain(a + "-" + b) && '-' !in b
  {
    SplitOnceAt(a, '-', b);
  }

  lemma BytePairReads(first: u64, last: u64)
    ensures var spec := Decimal(first) + "-" + Decimal(last);
            && Plain(spec)
            && ParseByteSpec(spec)
               == (if last < first then Failure(InvalidSpec(spec)) else Success(FromStart(first, last)))
  {
    DecimalReads(first);
    DecimalReads(last);
    SpecSplits(Decimal(first), Decimal(last));
  }

  lemma ByteOpenReads(first: u64)
    ensures var spec := Decimal(first) + "-";
            Plain(spec) && ParseByteSpec(spec) == Success(FromStartOpen(first))
  {
    DecimalReads(first);
    SpecSplits(Decimal(first), "");
    assert Decimal(first) + "-" == Decimal(first) + "-" + "";
  }

  lemma ByteSuffixReads(length: u64)
    ensures var spec := "-" + Decimal(length);
            Plain(spec) && ParseByteSpec(spec) == Success(Suffix(length))
  {
    DecimalReads(length);
    SpecSplits("", Decimal(length));
    assert "-" + Decimal(length) == "" + "-" + Decimal(length);
  }

  /** A byte spec reads back exactly when its bounds are in order. */
  lemma ByteSpecReads(r: ByteRange)
    ensures Plain(ByteSpec(r))
    ensures ParseByteSpec(ByteSpec(r)) == Success(r) <==> ByteWellFormed(r)
  {
    match r
    case FromStart(first, last) => BytePairReads(first, last);
    case FromStartOpen(first) => ByteOpenReads(first);
    case Suffix(length) => ByteSuffixReads(length);
  }

  lemma LinePairReads(from: u64, to: u64)
    ensures var spec := Decimal(from) + "-" + Decimal(to);
            && Plain(spec)
            && ParseLineSpec(spec)
               == (if from == 0 || to < from - 1 then Failure(InvalidSpec(spec))
                   else if to == from - 1 then Success(Insert(from)) else Success(Lines(from, to)))
  {
    DecimalReads(from);
    DecimalReads(to);
    SpecSplits(Decimal(from), Decimal(to));
  }

  lemma LineOpenReads(from: u64)
    ensures var spec := Decimal(from) + "-";
            && Plain(spec)
            && ParseLineSpec(spec) == (if from == 0 then Failure(InvalidSpec(spec)) else Success(LinesOpen(from)))
  {
    DecimalReads(from);
    SpecSplits(Decimal(from), "");
    assert Decimal(from) + "-" == Decimal(from) + "-" + "";
  }

  lemma LastLinesRead(count: u64)
    ensures var spec := "-" + Decimal(count);
            Plain(spec) && ParseLineSpec(spec) == Success(LastLines(count))
  {
    DecimalReads(count);
    SpecSplits("", Decimal(count));
    assert "-" + Decimal(count) == "" + "-" + Decimal(count);
  }

  lemma LineSpecReads(r: LineRange)
    requires r.Insert? ==> r.before >= 1
    ensures Plain(LineSpec(r))
    ensures ParseLineSpec(LineSpec(r)) == Success(r) <==> LineWellFormed(r)
  {
    match r
    case Lines(from, to) => LinePairReads(from, to);
    case LinesOpen(from) => LineOpenReads(from);
    case LastLines(count) => LastLinesRead(count);
    case Insert(before) => LinePairReads(before, before - 1);
  }

  // ---------------------------------------------------------------- the grammar

  /** The two sides of a spec: digits, a dash, digits, either side possibly empty. */
  ghost predicate Spelled(spec: string, a: string, b: string) {
    AllDigits(a) && AllDigits(b) && spec == a + "-" + b
  }

  /** `spec` spells the byte range `r`: an int-range or a suffix-range. */
  ghost predicate SpellsBytes(spec: string, r: ByteRange, a: string, b: string) {
    && Spelled(spec, a, b)
    && match r
       case FromStart(first, last) => a != "" && b != "" && ValueOf(a) == first <= last == ValueOf(b)
       case FromStartOpen(first) => a != "" && b == "" && ValueOf(a) == first
       case Suffix(length) => a == "" && b != "" && ValueOf(b) == length
  }

  /** `spec` spells the line range `r`; lines count from 1, and a range that ends just
      before it starts is an insert. */
  ghost predicate SpellsLines(spec: string, r: LineRange, a: string, b: string) {
    && Spelled(spec, a, b)
    && match r
       case Lines(from, to) => a != "" && b != "" && 1 <= ValueOf(a) == from <= to == ValueOf(b)
       case LinesOpen(from) => a != "" && b == "" && 1 <= ValueOf(a) == from
       case LastLines(count) => a == "" && b != "" && ValueOf(b) == count
       case Insert(before) => a != "" && b != "" && 1 <= ValueOf(a) == before && ValueOf(b) == before - 1
  }

  /** The byte parser accepts exactly the grammar, with the range it spells, within 64
      bits; everything else it refuses. */
  lemma ByteGrammar(spec: string, r: ByteRange)
    ensures ParseByteSpec(spec) == Success(r) <==> exists a, b :: SpellsBytes(spec, r, a, b)
  {
    if ParseByteSpec(spec) == Success(r) {
      SplitOnceSound(spec, '-');
      var (a, b) := SplitOnce(spec, '-').value;
      assert SpellsBytes(spec, r, a, b);
    }
    forall a, b | SpellsBytes(spec, r, a, b) ensures ParseByteSpec(spec) == Success(r) {
      SpecSplits(a, b);
    }
  }

  lemma LineGrammar(spec: string, r: LineRange)
    ensures ParseLineSpec(spec) == Success(r) <==> exists a, b :: SpellsLines(spec, r, a, b)
  {
    if ParseLineSpec(spec) == Success(r) {
      SplitOnceSound(spec, '-');
      var (a, b) := SplitOnce(spec, '-').value;
      assert SpellsLines(spec, r, a, b);
    }
    forall a, b | SpellsLines(spec, r, a, b) ensures ParseLineSpec(spec) == Success(r) {
      SpecSplits(a, b);
    }
  }

  /** A number that 64 bits cannot hold, and one they can. */
  ghost predicate TooBig(s: string) {
    s != "" && AllDigits(s) && ValueOf(s) > U64_MAX
  }

  ghost predicate Fits(s: string) {
    s != "" && AllDigits(s) && ValueOf(s) <= U64_MAX
  }

  ghost predicate BytesOverflow(spec: string, a: string, b: string) {
    && spec == a + "-" + b && '-' !in a && '-' !in b
    && (TooBig(a) || (TooBig(b) && (a == "" || Fits(a))))
  }

  ghost predicate LinesOverflow(spec: string, a: string, b: string) {
    && spec == a + "-" + b && '-' !in a
    && (TooBig(a) || (TooBig(b) && (a == "" || (Fits(a) && ValueOf(a) >= 1))))
  }

  /** Why the byte parser refuses: a number out of range, met before anything else is wrong,
      or else the spec itself. */
  lemma ByteRefusals(spec: string)
    ensures ParseByteSpec(spec) == Failure(OverflowU64) <==> exists a, b :: BytesOverflow(spec, a, b)
    ensures ParseByteSpec(spec).Failure? ==> ParseByteSpec(spec).error in {OverflowU64, InvalidSpec(spec)}
  {
    SplitOnceSound(spec, '-');
    if ParseByteSpec(spec) == Failure(OverflowU64) {
      var (a, b) := SplitOnce(spec, '-').value;
      assert BytesOverflow(spec, a, b);
    }
    if a, b :| BytesOverflow(spec, a, b) {
      SplitOnceAt(a, '-', b);
    }
  }

  lemma LineRefusals(spec: string)
    ensures ParseLineSpec(spec) == Failure(OverflowU64) <==> exists a, b :: LinesOverflow(spec, a, b)
    ensures ParseLineSpec(spec).Failure? ==> ParseLineSpec(spec).error in {OverflowU64, InvalidSpec(spec)}
  {
    SplitOnceSound(spec, '-');
    if ParseLineSpec(spec) == Failure(OverflowU64) {
      var (a, b) := SplitOnce(spec, '-').value;
      assert LinesOverflow(spec, a, b);
    }
    if a, b :| LinesOverflow(spec, a, b) {
      SplitOnceAt(a, '-', b);
    }
  }

  // ---------------------------------------------------------------- whole headers

  lemma {:induction false} LowerAt(s: string)
    ensures |Lower(s)| == |s|
    ensures forall i :: 0 <= i < |s| ==>
              Lower(s)[i] == if 'A' <= s[i] <= 'Z' then (s[i] as int + 32) as char else s[i]
  {
    if s != "" {
      LowerAt(s[1..]);
    }
  }

  /** The unit `bytes`, in any mixture of cases. */
  predicate IsBytes(unit: string) {
    |unit| == 5 && forall i :: 0 <= i < 5 ==> unit[i] == "bytes"[i] || unit[i] == "BYTES"[i]
  }

  lemma LowerIsBytes(unit: string)
    ensures Lower(unit) == "bytes" <==> IsBytes(unit)
  {
    LowerAt(unit);
    if IsBytes(unit) {
      assert Lower(unit)[0] == 'b' && Lower(unit)[1] == 'y' && Lower(unit)[2] == 't'
             && Lower(unit)[3] == 'e' && Lower(unit)[4] == 's';
      assert Lower(unit) == "bytes";
    }
    if Lower(unit) == "bytes" {
      assert "bytes"[0] == Lower(unit)[0] && "bytes"[1] == Lower(unit)[1] && "bytes"[2] == Lower(unit)[2]
             && "bytes"[3] == Lower(unit)[3] && "bytes"[4] == Lower(unit)[4];
    }
  }

  /** A header without a unit is refused by both parsers. */
  lemma HeaderWithoutUnit(value: string)
    requires '=' !in value
    ensures ParseRangeHeader(value) == Failure(if value == "" then Empty else MissingEquals)
    ensures ParseLineHeader(value) == Failure(if value == "" then Empty else MissingEquals)
  {
    SplitOnceSound(value, '=');
  }

  lemma SpellsTrimmed(spec: string, a: string, b: string)
    requires Spelled(spec, a, b)
    ensures Trimmed(spec)
  {
    SpecSplits(a, b);
    assert spec[0] in spec && spec[|spec| - 1] in spec;
  }

  lemma TrimReads(range: string, spec: string, a: string, b: string)
    requires Spelled(spec, a, b)
    ensures Trim(range) == spec <==> exists p, q :: Pads(range, p, spec, q)
  {
    SpellsTrimmed(spec, a, b);
    TrimIff(range, spec);
  }

  ghost predicate PadsBytes(range: string, r: ByteRange, spec: string, a: string, b: string) {
    SpellsBytes(spec, r, a, b) && exists p, q :: Pads(range, p, spec, q)
  }

  ghost predicate PadsLines(range: string, r: LineRange, spec: string, a: string, b: string) {
    SpellsLines(spec, r, a, b) && exists p, q :: Pads(range, p, spec, q)
  }

  /** What a `Range` header with a unit reads as: an unknown unit is kept, in lower case, and
      its range ignored; `bytes`, in any case, takes one range, possibly between blanks,
      of exactly the grammar. */
  lemma RangeHeaderReads(unit: string, range: string, r: ByteRange)
    requires '=' !in unit
    ensures var parsed := ParseRangeHeader(unit + "=" + range);
            && (range == "" ==> parsed == Failure(NoRanges))
            && (range != "" && !IsBytes(unit) ==> parsed == Success(ParsedRange(Lower(unit), None)))
            && (range != "" && IsBytes(unit) && ',' in range ==> parsed == Failure(InvalidSpec(ONE_RANGE)))
            && (IsBytes(unit) && ',' !in range ==>
                  (parsed == Success(ParsedRange("bytes", Some(r))) <==>
                     exists spec, a, b :: PadsBytes(range, r, spec, a, b)))
            && (range != "" && IsBytes(unit) && ',' !in range && parsed.Failure? ==>
                  parsed == Failure(if exists a, b :: BytesOverflow(Trim(range), a, b) then OverflowU64
                                    else InvalidSpec(Trim(range))))
  {
    SplitOnceAt(unit, '=', range);
    ByteRefusals(Trim(range));
    LowerIsBytes(unit);
    var spec := Trim(range);
    ByteGrammar(spec, r);
    if a, b :| SpellsBytes(spec, r, a, b) {
      TrimReads(range, spec, a, b);
      assert PadsBytes(range, r, spec, a, b);
    }
    if s, a, b :| PadsBytes(range, r, s, a, b) {
      TrimReads(range, s, a, b);
      var p, q :| Pads(range, p, s, q);
      assert Plain(s) by { SpecSplits(a, b); }
      assert range != "";
    }
  }

  /** What a line header reads as, whatever its unit is called. */
  lemma LineHeaderReads(unit: string, range: string, r: LineRange)
    requires '=' !in unit
    ensures var parsed := ParseLineHeader(unit + "=" + range);
            && (range == "" ==> parsed == Failure(NoRanges))
            && (',' in range ==> parsed == Failure(InvalidSpec("multi-range lines= not supported")))
            && (parsed == Success(r) <==> exists spec, a, b :: PadsLines(range, r, spec, a, b))
            && (range != "" && ',' !in range && parsed.Failure? ==>
                  parsed == Failure(if exists a, b :: LinesOverflow(Trim(range), a, b) then OverflowU64
                                    else InvalidSpec(Trim(range))))
  {
    SplitOnceAt(unit, '=', range);
    LineRefusals(Trim(range));
    CommaSurvives(range);
    var spec := Trim(range);
    LineGrammar(spec, r);
    if a, b :| SpellsLines(spec, r, a, b) {
      TrimReads(range, spec, a, b);
      SpecSplits(a, b);
      assert PadsLines(range, r, spec, a, b);
    }
    if s, a, b :| PadsLines(range, r, s, a, b) {
      TrimReads(range, s, a, b);
      SpecSplits(a, b);
      assert ',' !in s;
    }
  }

  lemma CommaSurvives(range: string)
    ensures ',' in range <==> ',' in Trim(range)
  {
    TrimSound(range);
    var p, q :| Pads(range, p, Trim(range), q);
    assert !IsWhitespace(',');
  }

  // ---------------------------------------------------------------- round trips

  lemma LowerBytes()
    ensures Lower("bytes") == "bytes"
  {
    assert "bytes"[1..] == "ytes" && "ytes"[1..] == "tes" && "tes"[1..] == "es" && "es"[1..] == "s";
  }

  /** Printing then parsing a byte range returns it exactly when it is well formed. */
  lemma BytesRoundTrip(r: ByteRange)
    ensures ParseRangeHeader(PrintBytes(r)) == Success(ParsedRange("bytes", Some(r))) <==> ByteWellFormed(r)
  {
    ByteSpecReads(r);
    PlainSurvives("bytes", ByteSpec(r));
    assert PrintBytes(r) == "bytes" + "=" + ByteSpec(r);
    LowerBytes();
  }

  /** Printing then parsing a line range returns it exactly when it is well formed. The
      insert form, one below its own line, included. */
  lemma LinesRoundTrip(r: LineRange)
    requires r.Insert? ==> r.before >= 1
    ensures ParseLineHeader(PrintLines(r)) == Success(r) <==> LineWellFormed(r)
  {
    LineSpecReads(r);
    PlainSurvives("lines", LineSpec(r));
    assert PrintLines(r) == "lines" + "=" + LineSpec(r);
  }

  /** A number as one writes it: digits, and no zero in front of another. */
  ghost predicate Canonical(s: string) {
    s == "" || (AllDigits(s) && (s[0] == '0' ==> s == "0"))
  }

  /** How a range prints: its unit, and a spec of plain decimals that spells it. */
  lemma PrintedForms(b: ByteRange, l: LineRange)
    requires ByteWellFormed(b) && LineWellFormed(l)
    ensures PrintBytes(b) == "bytes=" + ByteSpec(b) && PrintLines(l) == "lines=" + LineSpec(l)
    ensures exists x, y :: Canonical(x) && Canonical(y) && SpellsBytes(ByteSpec(b), b, x, y)
    ensures exists x, y :: Canonical(x) && Canonical(y) && SpellsLines(LineSpec(l), l, x, y)
  {
    var x, y := PrintedBytes(b);
    x, y := PrintedLines(l);
  }

  lemma PrintedBytes(b: ByteRange) returns (x: string, y: string)
    requires ByteWellFormed(b)
    ensures Canonical(x) && Canonical(y) && SpellsBytes(ByteSpec(b), b, x, y)
  {
    match b
    case FromStart(first, last) =>
      DecimalReads(first);
      DecimalReads(last);
      x, y := Decimal(first), Decimal(last);
    case FromStartOpen(first) =>
      DecimalReads(first);
      x, y := Decimal(first), "";
      assert ByteSpec(b) == x + "-" + y;
    case Suffix(length) =>
      DecimalReads(length);
      x, y := "", Decimal(length);
      assert ByteSpec(b) == x + "-" + y;
  }

  lemma PrintedLines(l: LineRange) returns (x: string, y: string)
    requires LineWellFormed(l)
    ensures Canonical(x) && Canonical(y) && SpellsLines(LineSpec(l), l, x, y)
  {
    match l
    case Lines(from, to) =>
      DecimalReads(from);
      DecimalReads(to);
      x, y := Decimal(from), Decimal(to);
    case LinesOpen(from) =>
      DecimalReads(from);
      x, y := Decimal(from), "";
      assert LineSpec(l) == x + "-" + y;
    case LastLines(count) =>
      DecimalReads(count);
      x, y := "", Decimal(count);
      assert LineSpec(l) == x + "-" + y;
    case Insert(before) =>
      DecimalReads(before);
      DecimalReads(before - 1);
      x, y := Decimal(before), Decimal(before - 1);
  }

  /** Both parsers yield only well-formed ranges, so what they accept prints to a header
      they read the same way. */
  lemma ParsedBytesReprint(value: string)
    requires ParseRangeHeader(value).Success? && ParseRangeHeader(value).value.range.Some?
    ensures var p := ParseRangeHeader(value);
            && ByteWellFormed(p.value.range.value)
            && ParseRangeHeader(PrintBytes(p.value.range.value)) == p
  {
    BytesRoundTrip(ParseRangeHeader(value).value.range.value);
  }

  lemma ParsedLinesReprint(value: string)
    requires ParseLineHeader(value).Success?
    ensures var p := ParseLineHeader(value);
            LineWellFormed(p.value) && ParseLineHeader(PrintLines(p.value)) == p
  {
    LinesRoundTrip(ParseLineHeader(value).value);
  }

  // ---------------------------------------------------------------- resolving bytes

  function ToExclusive(r: ByteRange, total: u64): Option<(u64, u64)> {
    match r
    case FromStart(first, last) =>
      if first > last || first >= total then None
      else Some((first, (if last < total - 1 then last else total - 1) + 1))
    case FromStartOpen(first) =>
      if first >= total then None else Some((first, total))
    case Suffix(length) =>
      if length == 0 || total == 0 then None
      else Some((if total < length then 0 else total - length, total))
  }

  /** The positions a range asks for, in an object of `total` bytes. */
  predicate Asks(r: ByteRange, total: u64, p: nat) {
    match r
    case FromStart(first, last) => first <= p <= last
    case FromStartOpen(first) => first <= p
    case Suffix(length) => total <= p + length
  }

  /** A byte range resolves to exactly the positions it asks for that the object has, and
      to nothing exactly when there are none; its `Content-Range` names the first and
      last of them. */
  lemma ResolvesToIntersection(r: ByteRange, total: u64)
    ensures ToExclusive(r, total).None? <==> forall p :: 0 <= p < total ==> !Asks(r, total, p)
    ensures ToExclusive(r, total).Some? ==>
              var (a, b) := ToExclusive(r, total).value;
              && a < b <= total
              && (forall p :: a <= p < b <==> 0 <= p < total && Asks(r, total, p))
              && Asks(r, total, a) && Asks(r, total, b - 1)
  {
    if ToExclusive(r, total).Some? {
      var (a, b) := ToExclusive(r, total).value;
      assert Asks(r, total, a);
    }
  }

  // ---------------------------------------------------------------- lines

  datatype LineIndex = LineIndex(starts: seq<nat>, totalLines: nat, totalBytes: nat)

  const LF: byte := 10
  const CR: byte := 13

  /** Where lines begin: at 0, and after every newline that is not the last byte. */
  predicate IsLineStart(bytes: Bytes, p: nat) {
    p < |bytes| && (p == 0 || bytes[p - 1] == LF)
  }

  ghost predicate Ascending(starts: seq<nat>) {
    forall i, j :: 0 <= i < j < |starts| ==> starts[i] < starts[j]
  }

  ghost predicate IsIndex(index: LineIndex, bytes: Bytes) {
    && Ascending(index.starts)
    && (forall p: nat :: p in index.starts <==> IsLineStart(bytes, p))
    && index.totalLines == |index.starts|
    && index.totalBytes == |bytes|
  }

  /** `LineIndex::from_bytes`: the carriage-return branch only skips ahead, and the line
      starts are the same as if it were not there. */
  method FromBytes(bytes: Bytes) returns (index: LineIndex)
    ensures IsIndex(index, bytes)
  {
    if bytes == [] {
      return LineIndex([], 0, 0);
    }
    var starts: seq<nat> := [0];
    var i := 0;
    while i < |bytes|
      invariant 0 <= i <= |bytes|
      invariant Ascending(starts)
      invariant forall p: nat :: p in starts <==> IsLineStart(bytes, p) && p <= i
      decreases |bytes| - i
    {
      assert forall n :: 0 <= n < |starts| ==> starts[n] in starts;
      if bytes[i] == CR && i + 1 < |bytes| && bytes[i + 1] == LF {
        i := i + 2;
        if i < |bytes| {
          starts := starts + [i];
        }
      } else if bytes[i] == LF {
        i := i + 1;
        if i < |bytes| {
          starts := starts + [i];
        }
      } else {
        i := i + 1;
      }
    }
    index := LineIndex(starts, |starts|, |bytes|);
  }

  /** Where line `k` (from 0) begins; past the last line, the end of the bytes. */
  function StartOf(index: LineIndex, k: nat): nat {
    if k < |index.starts| then index.starts[k] else index.totalBytes
  }

  function ByteRangeOf(index: LineIndex, r: LineRange): Option<(nat, nat)> {
    match r
    case Lines(from, to) =>
      if from == 0 || from > index.totalLines || from > Saturating(to) then None
      else
        var clamped := if to < index.totalLines then to else index.totalLines;
        Some((StartOf(index, from - 1),
              if clamped == index.totalLines then index.totalBytes else StartOf(index, clamped)))
    case LinesOpen(from) =>
      if from == 0 || from > index.totalLines then None
      else Some((StartOf(index, from - 1), index.totalBytes))
    case LastLines(count) =>
      if count == 0 || index.totalLines == 0 then None
      else
        var clamped := if count < index.totalLines then count else index.totalLines;
        Some((StartOf(index, index.totalLines - clamped), index.totalBytes))
    case Insert(before) =>
      if before == 0 || before > index.totalLines + 1 then None
      else if before == index.totalLines + 1 then Some((index.totalBytes, index.totalBytes))
      else Some((StartOf(index, before - 1), StartOf(index, before - 1)))
  }

  /** `last.saturating_add(1)`. */
  function Saturating(n: u64): u64 {
    if n == U64_MAX then n else n + 1
  }

  /** The first and last line a `Content-Range` names. */
  function ContentRange(index: LineIndex, r: LineRange): (int, int) {
    match r
    case Lines(from, to) => (from, if to < index.totalLines then to else index.totalLines)
    case LinesOpen(from) => (from, index.totalLines)
    case LastLines(count) =>
      (index.totalLines - (if count < index.totalLines then count else index.totalLines) + 1, index.totalLines)
    case Insert(before) => (before, before - 1)
  }

  // ---------------------------------------------------------------- what the lines are

  ghost function Line(index: LineIndex, bytes: Bytes, k: nat): Bytes
    requires IsIndex(index, bytes) && k < index.totalLines
  {
    StartBounds(index, bytes, k);
    bytes[StartOf(index, k)..StartOf(index, k + 1)]
  }

  lemma StartBounds(index: LineIndex, bytes: Bytes, k: nat)
    requires IsIndex(index, bytes) && k <= index.totalLines
    ensures StartOf(index, k) <= |bytes|
    ensures k < index.totalLines ==> StartOf(index, k) < StartOf(index, k + 1) <= |bytes|
    ensures bytes != [] ==> index.totalLines >= 1
    ensures StartOf(index, 0) == 0
  {
    assert forall n :: 0 <= n < |index.starts| ==> index.starts[n] in index.starts;
    if bytes != [] {
      assert IsLineStart(bytes, 0);
      var i :| 0 <= i < |index.starts| && index.starts[i] == 0;
      assert index.starts[0] <= index.starts[i];
    }
  }

  /** Lines `i` to `j`, joined. */
  ghost function Join(index: LineIndex, bytes: Bytes, i: nat, j: nat): Bytes
    requires IsIndex(index, bytes) && i <= j <= index.totalLines
    decreases j - i
  {
    if i == j then [] else Join(index, bytes, i, j - 1) + Line(index, bytes, j - 1)
  }

  lemma {:induction false} JoinIsSlice(index: LineIndex, bytes: Bytes, i: nat, j: nat)
    requires IsIndex(index, bytes) && i <= j <= index.totalLines
    ensures StartOf(index, i) <= StartOf(index, j) <= |bytes|
    ensures Join(index, bytes, i, j) == bytes[StartOf(index, i)..StartOf(index, j)]
    decreases j - i
  {
    StartBounds(index, bytes, i);
    StartBounds(index, bytes, j);
    if i < j {
      StartBounds(index, bytes, j - 1);
      JoinIsSlice(index, bytes, i, j - 1);
    }
  }

  /** The lines partition the bytes: each is non-empty, holds a newline only as its last
      byte, has one there unless it is the last line, and joined they are the object. */
  lemma LinesPartition(index: LineIndex, bytes: Bytes)
    requires IsIndex(index, bytes)
    ensures Join(index, bytes, 0, index.totalLines) == bytes
    ensures forall k :: 0 <= k < index.totalLines ==>
              var line := Line(index, bytes, k);
              && line != []
              && (forall i :: 0 <= i < |line| - 1 ==> line[i] != LF)
              && (k + 1 < index.totalLines ==> line[|line| - 1] == LF)
  {
    JoinIsSlice(index, bytes, 0, index.totalLines);
    StartBounds(index, bytes, 0);
    forall k | 0 <= k < index.totalLines
      ensures var line := Line(index, bytes, k);
              && line != []
              && (forall i :: 0 <= i < |line| - 1 ==> line[i] != LF)
              && (k + 1 < index.totalLines ==> line[|line| - 1] == LF)
    {
      LineShape(index, bytes, k);
    }
  }

  lemma LineShape(index: LineIndex, bytes: Bytes, k: nat)
    requires IsIndex(index, bytes) && k < index.totalLines
    ensures var line := Line(index, bytes, k);
            && line != []
            && (forall i :: 0 <= i < |line| - 1 ==> line[i] != LF)
            && (k + 1 < index.totalLines ==> line[|line| - 1] == LF)
  {
    StartBounds(index, bytes, k);
    var line := Line(index, bytes, k);
    var a, b := StartOf(index, k), StartOf(index, k + 1);
    if k + 1 < index.totalLines {
      assert index.starts[k + 1] in index.starts;
    }
    assert forall n :: 0 <= n < |index.starts| ==> index.starts[n] <= a || b <= index.starts[n];
    forall i | 0 <= i < |line| - 1 ensures line[i] != LF {
      assert a + i + 1 !in index.starts;
    }
  }

  /** Whether a range names existing lines, or, as an insert or a range that ends one
      before it starts, a place between lines. */
  predicate LinesExist(r: LineRange, total: nat) {
    match r
    case Lines(from, to) => 1 <= from <= to + 1 && from <= total
    case LinesOpen(from) => 1 <= from <= total
    case LastLines(count) => count >= 1 && total >= 1
    case Insert(before) => 1 <= before <= total + 1
  }

  /** A satisfiable range runs from the start of its first line to the end of its last. */
  lemma RangeSpansLines(index: LineIndex, r: LineRange)
    requires index.totalLines == |index.starts|
    ensures ByteRangeOf(index, r).Some? <==> LinesExist(r, index.totalLines)
    ensures ByteRangeOf(index, r).Some? ==>
              var (first, last) := ContentRange(index, r);
              && 1 <= first <= last + 1 && last <= index.totalLines
              && ByteRangeOf(index, r).value == (StartOf(index, first - 1), StartOf(index, last))
  {
  }

  /** The lines a range asks for, of `total`, counted from 1. */
  predicate AsksLine(r: LineRange, total: nat, k: nat) {
    match r
    case Lines(from, to) => from <= k <= to
    case LinesOpen(from) => from <= k
    case LastLines(count) => total < k + count
    case Insert(_) => false
  }

  /** A satisfiable range's `Content-Range` names exactly the lines it asks for that exist;
      an insert's names its own line, as the one after an empty stretch. */
  lemma NamesLinesAsked(index: LineIndex, r: LineRange, k: nat)
    requires ByteRangeOf(index, r).Some? && 1 <= k <= index.totalLines
    ensures var (first, last) := ContentRange(index, r);
            && (first <= k <= last <==> AsksLine(r, index.totalLines, k))
            && (r.Insert? ==> (first, last) == (r.before, r.before - 1))
            && (r.Lines? ==> first == r.from)
  {
  }

  /** Every satisfiable line range is exactly the lines it asks for, which are those its
      `Content-Range` names, joined; an insert asks for none, and its place is where its
      line begins. */
  lemma RangeIsItsLines(index: LineIndex, bytes: Bytes, r: LineRange)
    requires IsIndex(index, bytes)
    ensures ByteRangeOf(index, r).Some? <==> LinesExist(r, index.totalLines)
    ensures ByteRangeOf(index, r).Some? ==>
              var (a, b) := ByteRangeOf(index, r).value;
              var (first, last) := ContentRange(index, r);
              && 1 <= first <= last + 1 && last <= index.totalLines
              && (last < first <==> r.Insert? || (r.Lines? && r.from == r.to + 1))
              && a <= b <= |bytes|
              && a == StartOf(index, first - 1)
              && bytes[a..b] == Join(index, bytes, first - 1, last)
              && (forall k :: 1 <= k <= index.totalLines ==>
                    (first <= k <= last <==> AsksLine(r, index.totalLines, k)))
              && (r.Insert? ==> first == r.before)
  {
    RangeSpansLines(index, r);
    if LinesExist(r, index.totalLines) {
      var (first, last) := ContentRange(index, r);
      JoinIsSlice(index, bytes, first - 1, last);
      forall k | 1 <= k <= index.totalLines ensures first <= k <= last <==> AsksLine(r, index.totalLines, k) {
        NamesLinesAsked(index, r, k);
      }
    }
  }
}
