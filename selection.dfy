/** The selection surface of the pipeline: `parse_numbers`, which turns a
    years or months argument into a list of integers, and the checks `main`
    makes on the parsed lists before any download starts. */
module Selection {
  import opened Wrappers
  import opened Text

  /** The two `ValueError`s `parse_numbers` raises. */
  datatype ParseError =
    | StartNotBelowEnd  // a range `a-b` whose start is not below its end
    | NotNumbers        // neither a range nor a comma-separated list

  /** The part before the first `c`, the first result of `s.split(c, 1)`. */
  function Before(s: string, c: char): string
    requires c in s
  {
    s[..IndexOf(s, c)]
  }

  /** The part after the first `c`, the second result of `s.split(c, 1)`. */
  function After(s: string, c: char): string
    requires c in s
  {
    s[IndexOf(s, c) + 1..]
  }

  /** A full match of the range pattern `\d+-\d+`. A run of digits holds no
      dash, so the dash of the pattern is the first dash of `s`. */
  predicate IsRangeForm(s: string) {
    '-' in s && IsDigitRun(Before(s, '-')) && IsDigitRun(After(s, '-'))
  }

  /** A full match of the list pattern `\d+(,\d+)*`: every comma-separated
      field is a run of digits. */
  predicate IsListForm(s: string) {
    var fields := Split(s, ',');
    forall i :: 0 <= i < |fields| ==> IsDigitRun(fields[i])
  }

  function RangeStart(s: string): nat
    requires IsRangeForm(s)
  {
    DigitsValue(Before(s, '-'))
  }

  function RangeEnd(s: string): nat
    requires IsRangeForm(s)
  {
    DigitsValue(After(s, '-'))
  }

  /** `list(range(lo, hi + 1))`: the integers from `lo` to `hi` inclusive. */
  function Interval(lo: nat, hi: nat): (r: seq<nat>)
    ensures |r| == if lo <= hi then hi - lo + 1 else 0
    ensures forall i :: 0 <= i < |r| ==> r[i] == lo + i
    decreases hi + 1 - lo
  {
    if lo > hi then [] else [lo] + Interval(lo + 1, hi)
  }

  /** `list(map(int, fields))` for fields of digits. */
  function Values(fields: seq<string>): (xs: seq<nat>)
    requires forall i :: 0 <= i < |fields| ==> IsDigitRun(fields[i])
  {
    seq(|fields|, i requires 0 <= i < |fields| => assert IsDigitRun(fields[i]); DigitsValue(fields[i]))
  }

  /** `str` of each number, in order. */
  function Shown(xs: seq<nat>): (fields: seq<string>) {
    seq(|xs|, i requires 0 <= i < |xs| => ShowNat(xs[i]))
  }

  /** `parse_numbers`: a range `a-b` with `a < b` gives `a, a+1, ..., b`; a
      comma-separated list of digit runs gives their values in order;
      anything else is an error. */
  function ParseNumbers(s: string): (r: Result<seq<nat>, ParseError>)
    ensures r.Ok? ==> |r.value| >= 1
  {
    if IsRangeForm(s) then
      var lo, hi := RangeStart(s), RangeEnd(s);
      if lo >= hi then Err(StartNotBelowEnd) else Ok(Interval(lo, hi))
    else if IsListForm(s) then
      Ok(Values(Split(s, ',')))
    else
      Err(NotNumbers)
  }

  /** The two patterns never both match: a list has no dash. */
  lemma ListFormIsNotRangeForm(s: string)
    requires IsListForm(s)
    ensures !IsRangeForm(s)
  {
    var fields := Split(s, ',');
    assert forall i :: 0 <= i < |fields| ==> '-' !in fields[i];
    JoinExcludes(fields, ",", '-');
    JoinSplit(s, ',');
  }

  /** Two digit runs around a dash form a range, and `split("-", 1)` gives
      the two runs back. */
  lemma RangeFormOf(a: string, b: string)
    requires IsDigitRun(a) && IsDigitRun(b)
    ensures IsRangeForm(a + "-" + b)
    ensures Before(a + "-" + b, '-') == a && After(a + "-" + b, '-') == b
  {
    var s := a + "-" + b;
    assert '-' !in a;
    IndexOfAfter(a, b, '-');
    assert s[..|a|] == a;
    assert s[|a| + 1..] == b;
  }

  /** Every string the range pattern matches is two digit runs around a dash. */
  lemma RangeFormShape(s: string)
    requires IsRangeForm(s)
    ensures s == Before(s, '-') + "-" + After(s, '-')
  {
  }

  /** Comma-joined digit runs match the list pattern, field by field. */
  lemma ListFormOf(runs: seq<string>)
    requires |runs| >= 1
    requires forall i :: 0 <= i < |runs| ==> IsDigitRun(runs[i])
    ensures IsListForm(Join(runs, ","))
    ensures Split(Join(runs, ","), ',') == runs
  {
    assert forall i :: 0 <= i < |runs| ==> ',' !in runs[i];
    SplitJoin(runs, ',');
  }

  /** Every string the list pattern matches is its fields joined by commas. */
  lemma ListFormShape(s: string)
    requires IsListForm(s)
    ensures s == Join(Split(s, ','), ",")
  {
    JoinSplit(s, ',');
  }

  /** A range `a-b` expands to the inclusive interval when `a < b` and is
      rejected, not turned into an empty list, when `a >= b`. */
  lemma ParseRange(a: string, b: string)
    requires IsDigitRun(a) && IsDigitRun(b)
    ensures DigitsValue(a) < DigitsValue(b) ==>
      ParseNumbers(a + "-" + b) == Ok(Interval(DigitsValue(a), DigitsValue(b)))
    ensures DigitsValue(a) >= DigitsValue(b) ==>
      ParseNumbers(a + "-" + b) == Err(StartNotBelowEnd)
  {
    RangeFormOf(a, b);
  }

  /** The range result is `lo, lo+1, ..., hi`: `hi - lo + 1` numbers, each
      one more than the one before. */
  lemma RangeExpandsInclusive(s: string)
    requires IsRangeForm(s) && ParseNumbers(s).Ok?
    ensures var xs, lo, hi := ParseNumbers(s).value, RangeStart(s), RangeEnd(s);
      && lo < hi
      && |xs| == hi - lo + 1
      && xs[0] == lo && xs[|xs| - 1] == hi
      && forall i :: 0 <= i < |xs| - 1 ==> xs[i + 1] == xs[i] + 1
  {
  }

  /** A comma-separated list of digit runs gives one number per field, the
      value of that field, in input order. */
  lemma ParseList(runs: seq<string>)
    requires |runs| >= 1
    requires forall i :: 0 <= i < |runs| ==> IsDigitRun(runs[i])
    ensures ParseNumbers(Join(runs, ",")) == Ok(Values(runs))
  {
    ListFormOf(runs);
    ListFormIsNotRangeForm(Join(runs, ","));
  }

  /** Writing numbers out with commas and parsing them gives the numbers back. */
  lemma ParseShownList(xs: seq<nat>)
    requires |xs| >= 1
    ensures ParseNumbers(Join(Shown(xs), ",")) == Ok(xs)
  {
    var runs := Shown(xs);
    ParseList(runs);
    forall i | 0 <= i < |xs|
      ensures DigitsValue(runs[i]) == xs[i]
    {
      ShowNatRoundTrip(xs[i]);
    }
    assert Values(runs) == xs;
  }

  /** Writing `a-b` out and parsing it gives `a..b` when `a < b` and the
      start-not-below-end error otherwise. */
  lemma ParseShownRange(a: nat, b: nat)
    ensures a < b ==> ParseNumbers(ShowNat(a) + "-" + ShowNat(b)) == Ok(Interval(a, b))
    ensures a >= b ==> ParseNumbers(ShowNat(a) + "-" + ShowNat(b)) == Err(StartNotBelowEnd)
  {
    ShowNatRoundTrip(a);
    ShowNatRoundTrip(b);
    ParseRange(ShowNat(a), ShowNat(b));
  }

  /** `parse_numbers` accepts exactly the strings of the two patterns, less
      the ranges whose start is not below their end, and says which error. */
  lemma ParseAcceptsExactly(s: string)
    ensures ParseNumbers(s).Ok? <==>
      (IsRangeForm(s) && RangeStart(s) < RangeEnd(s)) || IsListForm(s)
    ensures ParseNumbers(s) == Err(StartNotBelowEnd) <==>
      IsRangeForm(s) && RangeStart(s) >= RangeEnd(s)
    ensures ParseNumbers(s) == Err(NotNumbers) <==> !IsRangeForm(s) && !IsListForm(s)
  {
    if IsListForm(s) {
      ListFormIsNotRangeForm(s);
    }
  }

  /** Where the first `c` of `a + [c] + b` cuts the string. */
  lemma CutAtFirst(a: string, b: string, c: char)
    requires c !in a
    ensures c in a + [c] + b
    ensures Before(a + [c] + b, c) == a && After(a + [c] + b, c) == b
    ensures Split(a + [c] + b, c) == [a] + Split(b, c)
  {
    var s := a + [c] + b;
    assert s[|a|] == c;
    IndexOfAfter(a, b, c);
    assert s[..|a|] == a;
    assert s[|a| + 1..] == b;
  }

  /** The same cut, at a position `k` of `s` that holds the first `c`. */
  lemma CutAt(s: string, k: nat, c: char)
    requires k < |s| && s[k] == c && c !in s[..k]
    ensures c in s
    ensures Before(s, c) == s[..k] && After(s, c) == s[k + 1..]
    ensures Split(s, c) == [s[..k]] + Split(s[k + 1..], c)
  {
    assert s == s[..k] + [c] + s[k + 1..];
    CutAtFirst(s[..k], s[k + 1..], c);
  }

  /** A string without a comma is a single field of the list pattern. */
  lemma OneField(s: string)
    requires ',' !in s
    ensures IsListForm(s) <==> IsDigitRun(s)
  {
    assert Split(s, ',')[0] == s;
  }

  /** `str(n)` spelled out: the digits of a literal have its value. */
  lemma Spelled(n: nat, s: string)
    requires ShowNat(n) == s
    ensures IsDigitRun(s) && DigitsValue(s) == n
  {
    ShowNatRoundTrip(n);
  }

  /** The accepted cases of the module's tests: a single number. */
  lemma AcceptsSingleNumber(s: string)
    requires s == "2024"
    ensures ParseNumbers(s) == Ok([2024])
  {
    Spelled(2024, s);
    ParseList([s]);
    assert Values([s]) == [2024];
  }

  /** Three comma-separated digit runs give their three values, in order. */
  lemma ParseThree(a: string, b: string, c: string)
    requires IsDigitRun(a) && IsDigitRun(b) && IsDigitRun(c)
    ensures ParseNumbers(a + "," + b + "," + c) == Ok([DigitsValue(a), DigitsValue(b), DigitsValue(c)])
  {
    ParseList([a, b, c]);
    JoinThree(a, b, c);
    ValuesThree(a, b, c);
  }

  lemma JoinThree(a: string, b: string, c: string)
    ensures Join([a, b, c], ",") == a + "," + b + "," + c
  {
    assert [a, b] == [a] + [b] && [a, b, c] == [a, b] + [c];
    JoinSnoc([a], ",", b);
    JoinSnoc([a, b], ",", c);
  }

  lemma ValuesThree(a: string, b: string, c: string)
    requires IsDigitRun(a) && IsDigitRun(b) && IsDigitRun(c)
    ensures Values([a, b, c]) == [DigitsValue(a), DigitsValue(b), DigitsValue(c)]
  {
  }

  /** The accepted cases of the module's tests: a list keeps its order. */
  lemma AcceptsList(s: string)
    requires s == "2019,2021,2023"
    ensures ParseNumbers(s) == Ok([2019, 2021, 2023])
  {
    var a, b, c := "2019", "2021", "2023";
    assert s == a + "," + b + "," + c;
    Spelled(2019, a);
    Spelled(2021, b);
    Spelled(2023, c);
    ParseThree(a, b, c);
  }

  /** The accepted cases of the module's tests: a range expands inclusively. */
  lemma AcceptsRange(s: string)
    requires s == "2019-2021"
    ensures ParseNumbers(s) == Ok([2019, 2020, 2021])
  {
    assert s == ShowNat(2019) + "-" + ShowNat(2021);
    ParseShownRange(2019, 2021);
    Interval2019To2021();
  }

  lemma Interval2019To2021()
    ensures Interval(2019, 2021) == [2019, 2020, 2021]
  {
  }

  /** Rejected cases of the module's tests: empty, blank, a letter. */
  lemma RejectsNonDigits(s: string)
    requires s in ["", " ", "20a4"]
    ensures ParseNumbers(s) == Err(NotNumbers)
  {
    OneField(s);
    if s != "" {
      NotDigitRunWith(s, if s == " " then 0 else 2);
    }
  }

  /** Rejected cases of the module's tests: a trailing or leading comma. */
  lemma RejectsStrayComma(s: string)
    requires s in ["2024,", ",2024"]
    ensures ParseNumbers(s) == Err(NotNumbers)
  {
    assert '-' !in s;
    if s == "2024," {
      CutAt(s, 4, ',');
      assert Split(s[5..], ',') == [""];
      assert !IsDigitRun(Split(s, ',')[1]);
    } else {
      CutAt(s, 0, ',');
      assert !IsDigitRun(Split(s, ',')[0]);
    }
  }

  /** Rejected cases of the module's tests: a trailing, leading or doubled dash. */
  lemma RejectsStrayDash(s: string)
    requires s in ["2024-", "-2024", "2024--2025"]
    ensures ParseNumbers(s) == Err(NotNumbers)
  {
    if s == "2024--2025" {
      DoubledDash(s);
    } else {
      OneField(s);
      var k := if s == "2024-" then 4 else 0;
      CutAt(s, k, '-');
      NotDigitRunWith(s, k);
    }
  }

  lemma DoubledDash(s: string)
    requires s == "2024--2025"
    ensures ParseNumbers(s) == Err(NotNumbers)
  {
    OneField(s);
    CutAt(s, 4, '-');
    NotDigitRunWith(s[5..], 0);
    NotDigitRunWith(s, 4);
  }

  /** A list field that is itself a range, `a,b-c`, matches neither
      pattern. */
  lemma ListWithRangeRejected(a: string, b: string, c: string)
    requires IsDigitRun(a) && IsDigitRun(b) && IsDigitRun(c)
    ensures ParseNumbers(a + "," + b + "-" + c) == Err(NotNumbers)
  {
    DashAfterComma(a, b, c);
    CommaBeforeDash(a, b, c);
  }

  /** The text before the dash of `a,b-c` holds the comma. */
  lemma DashAfterComma(a: string, b: string, c: string)
    requires IsDigitRun(a) && IsDigitRun(b) && IsDigitRun(c)
    ensures !IsRangeForm(a + "," + b + "-" + c)
  {
    var head := a + "," + b;
    assert '-' !in head by {
      assert forall i :: 0 <= i < |head| ==> head[i] == ',' || IsDigit(head[i]);
    }
    CutAtFirst(head, c, '-');
    NotDigitRunWith(head, |a|);
  }

  /** The second comma-separated field of `a,b-c` holds the dash. */
  lemma CommaBeforeDash(a: string, b: string, c: string)
    requires IsDigitRun(a) && IsDigitRun(b) && IsDigitRun(c)
    ensures !IsListForm(a + "," + b + "-" + c)
  {
    var t := b + "-" + c;
    assert a + "," + b + "-" + c == a + [','] + t;
    assert ',' !in t by {
      assert forall i :: 0 <= i < |t| ==> t[i] == '-' || IsDigit(t[i]);
    }
    CutAtFirst(a, t, ',');
    NotDigitRunWith(t, |b|);
    assert Split(a + [','] + t, ',')[1] == t;
  }

  /** Rejected case of the module's tests: a list mixed with a range. */
  lemma RejectsListWithRange(s: string)
    requires s == "2024,2025-2026"
    ensures ParseNumbers(s) == Err(NotNumbers)
  {
    var a, b, c := s[..4], s[5..9], s[10..];
    assert s == a + "," + b + "-" + c;
    ListWithRangeRejected(a, b, c);
  }

  /** Rejected case of the module's tests: blanks around the dash. */
  lemma RejectsSpacedRange(s: string)
    requires s == "2024 - 2025"
    ensures ParseNumbers(s) == Err(NotNumbers)
  {
    OneField(s);
    CutAt(s, 5, '-');
    NotDigitRunWith(s[..5], 4);
    NotDigitRunWith(s, 4);
  }

  /** The rejected case of the module's tests that is a backwards range. */
  lemma RejectsBackwardsRange(s: string)
    requires s == "2025-2024"
    ensures ParseNumbers(s) == Err(StartNotBelowEnd)
  {
    assert s == ShowNat(2025) + "-" + ShowNat(2024);
    ParseShownRange(2025, 2024);
  }

  /** The years with published files when the pipeline was written. */
  const MinYear: nat := 2019
  const MaxYear: nat := 2021

  predicate AllWithin(xs: seq<nat>, lo: nat, hi: nat) {
    forall i :: 0 <= i < |xs| ==> lo <= xs[i] <= hi
  }

  /** Why `main` refuses a selection, one case per `ValueError` it raises
      before any download. `Unparsable` carries the argument its message names. */
  datatype SelectionError =
    | Unparsable(argument: string)
    | MonthOutOfRange
    | YearOutOfRange

  /** The first bound `main` finds broken: every month is checked before
      any year. */
  function BoundsError(years: seq<nat>, months: seq<nat>): Option<SelectionError> {
    if !AllWithin(months, 1, 12) then Some(MonthOutOfRange)
    else if !AllWithin(years, MinYear, MaxYear) then Some(YearOutOfRange)
    else None
  }

  /** The two checking loops of `main`: a month outside 1..12 is refused,
      then a year outside 2019..2021. */
  method CheckBounds(years: seq<nat>, months: seq<nat>) returns (e: Option<SelectionError>)
    ensures e == None <==> AllWithin(months, 1, 12) && AllWithin(years, MinYear, MaxYear)
    ensures e == Some(MonthOutOfRange) <==> !AllWithin(months, 1, 12)
    ensures e == Some(YearOutOfRange) <==>
      AllWithin(months, 1, 12) && !AllWithin(years, MinYear, MaxYear)
    ensures e == BoundsError(years, months)
  {
    for i := 0 to |months|
      invariant AllWithin(months[..i], 1, 12)
    {
      if months[i] < 1 || months[i] > 12 {
        return Some(MonthOutOfRange);
      }
    }
    assert months[..|months|] == months;
    for i := 0 to |years|
      invariant AllWithin(years[..i], MinYear, MaxYear)
    {
      if years[i] < MinYear || years[i] > MaxYear {
        return Some(YearOutOfRange);
      }
    }
    assert years[..|years|] == years;
    return None;
  }

  /** A selection that passed every check of `main`. */
  datatype Selection = Selection(years: seq<nat>, months: seq<nat>)

  /** The checks at the start of `main`: parse the years, parse the months,
      then check the bounds. The failure to parse the months is reported
      under the name "months". */
  function Select(yearsArg: string, monthsArg: string): (r: Result<Selection, SelectionError>)
    ensures r.Ok? <==>
      && ParseNumbers(yearsArg).Ok? && ParseNumbers(monthsArg).Ok?
      && AllWithin(ParseNumbers(monthsArg).value, 1, 12)
      && AllWithin(ParseNumbers(yearsArg).value, MinYear, MaxYear)
    ensures r.Ok? ==>
      r.value == Selection(ParseNumbers(yearsArg).value, ParseNumbers(monthsArg).value)
    ensures r == Err(Unparsable("years")) <==> ParseNumbers(yearsArg).Err?
    ensures r == Err(Unparsable("months")) <==>
      ParseNumbers(yearsArg).Ok? && ParseNumbers(monthsArg).Err?
  {
    match ParseNumbers(yearsArg)
    case Err(_) => Err(Unparsable("years"))
    case Ok(years) =>
      match ParseNumbers(monthsArg)
      case Err(_) => Err(Unparsable("months"))
      case Ok(months) =>
        match BoundsError(years, months)
        case Some(e) => Err(e)
        case None => Ok(Selection(years, months))
  }

  /** The same checks as they are written: the failure to parse the months
      raises the message that names "years". */
  function SelectAsWritten(yearsArg: string, monthsArg: string): (r: Result<Selection, SelectionError>)
    ensures r != Err(Unparsable("months"))
    ensures ParseNumbers(monthsArg).Err? ==> r == Err(Unparsable("years"))
    ensures r.Ok? <==> Select(yearsArg, monthsArg).Ok?
  {
    match ParseNumbers(yearsArg)
    case Err(_) => Err(Unparsable("years"))
    case Ok(years) =>
      match ParseNumbers(monthsArg)
      case Err(_) => Err(Unparsable("years"))
      case Ok(months) =>
        match BoundsError(years, months)
        case Some(e) => Err(e)
        case None => Ok(Selection(years, months))
  }

  /** With valid years and a malformed months argument, the code as written
      blames the years; the corrected check blames the months. Both agree
      on every other input. */
  lemma MonthsParseFailureBlamesYears(yearsArg: string, monthsArg: string)
    requires yearsArg == "2021" && monthsArg == "x"
    ensures SelectAsWritten(yearsArg, monthsArg) == Err(Unparsable("years"))
    ensures Select(yearsArg, monthsArg) == Err(Unparsable("months"))
  {
    AcceptsSingleNumberValue(yearsArg);
    OneField(monthsArg);
    NotDigitRunWith(monthsArg, 0);
  }

  lemma AcceptsSingleNumberValue(s: string)
    requires s == "2021"
    ensures ParseNumbers(s).Ok?
  {
    Spelled(2021, s);
    ParseList([s]);
  }

  lemma SelectAgreesElsewhere(yearsArg: string, monthsArg: string)
    requires !(ParseNumbers(yearsArg).Ok? && ParseNumbers(monthsArg).Err?)
    ensures SelectAsWritten(yearsArg, monthsArg) == Select(yearsArg, monthsArg)
  {
  }
}
