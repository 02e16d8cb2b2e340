/** Choosing the pool of cascades to sample from
    (`midterm/code/data_extraction/001_sample_cascades.py`): every post in
    the stream reports how often it has been retweeted so far; the largest
    count reported for each post id is kept, retweeted posts only when they
    were created inside the cascade window; the pool is every id whose
    count reaches one retweet.

    Naive datetimes are whole seconds, counted so that the calendar day
    with proleptic Gregorian ordinal `n` (Python's `date.toordinal`)
    starts at `Midnight(n)`. */
module SampleCascades {
  import opened Wrappers
  import opened PyStrings
  import opened JsonValue
  import IntArith

  const CasStartDate: string := "2022-11-02"
  const CasEndDate: string := "2022-11-08"
  const MinCasSize: int := 2
  const SampleSize: int := 10000
  const RetweetedStatus: string := "retweeted_status"

  // ---------------------------------------------------------------------
  // The calendar
  // ---------------------------------------------------------------------

  predicate IsLeap(y: int) {
    y % 4 == 0 && (y % 100 != 0 || y % 400 == 0)
  }

  function DaysInMonth(y: int, m: int): (n: int)
    requires 1 <= m <= 12
    ensures 28 <= n <= 31
    ensures m == 2 ==> (n == 29 <==> IsLeap(y))
  {
    if m == 2 then (if IsLeap(y) then 29 else 28)
    else if m == 4 || m == 6 || m == 9 || m == 11 then 30
    else 31
  }

  /** Days of the year `y` before the first of month `m`. */
  function DaysBeforeMonth(y: int, m: int): (n: int)
    requires 1 <= m <= 12
    ensures m == 1 ==> n == 0
    ensures m > 1 ==> n == DaysBeforeMonth(y, m - 1) + DaysInMonth(y, m - 1)
    ensures n + DaysInMonth(y, m) <= (if IsLeap(y) then 366 else 365)
    ensures m == 12 ==> n + DaysInMonth(y, m) == (if IsLeap(y) then 366 else 365)
  {
    [0, 31, 59, 90, 120, 151, 181, 212, 243, 273, 304, 334][m - 1] + (if m > 2 && IsLeap(y) then 1 else 0)
  }

  /** Days before the first of January of year `y`, from 0001-01-01. */
  function DaysBeforeYear(y: int): int
    requires y >= 1
  {
    var y1 := y - 1;
    y1 * 365 + y1 / 4 - y1 / 100 + y1 / 400
  }

  predicate ValidDate(y: int, m: int, d: int) {
    1 <= y <= 9999 && 1 <= m <= 12 && 1 <= d <= DaysInMonth(y, m)
  }

  /** `date(y, m, d).toordinal()`. */
  function Ordinal(y: int, m: int, d: int): (n: int)
    requires ValidDate(y, m, d)
    ensures n >= 1
  {
    DaysBeforeYear(y) + DaysBeforeMonth(y, m) + d
  }

  /** The datetime at the start of the day with ordinal `ord`. */
  function Midnight(ord: int): int {
    ord * 86400
  }

  /** The calendar date after (y, m, d). */
  function NextDay(y: int, m: int, d: int): (r: (int, int, int))
    requires ValidDate(y, m, d)
    ensures r.0 == y || r.0 == y + 1
  {
    if d < DaysInMonth(y, m) then (y, m, d + 1)
    else if m < 12 then (y, m + 1, 1)
    else (y + 1, 1, 1)
  }

  /** A year has 366 days exactly when it is a leap year. */
  lemma YearLength(y: int)
    requires y >= 1
    ensures DaysBeforeYear(y + 1) == DaysBeforeYear(y) + (if IsLeap(y) then 366 else 365)
  {
    DivStep(y, 4);
    DivStep(y, 100);
    DivStep(y, 400);
    ModOfMultiple(y, 100, 4);
    ModOfMultiple(y, 4, 25);
  }

  /** Going from `y - 1` to `y` the quotient by `n` grows by one exactly
      when `n` divides `y`. */
  lemma DivStep(y: int, n: int)
    requires n > 0
    ensures y / n - (y - 1) / n == if y % n == 0 then 1 else 0
  {
    var q, r := (y - 1) / n, (y - 1) % n;
    assert y == q * n + (r + 1);
    if r + 1 == n {
      assert y == (q + 1) * n + 0;
      IntArith.DivModOf(y, n, q + 1, 0);
    } else {
      IntArith.DivModOf(y, n, q, r + 1);
    }
  }

  /** A multiple of `a * b` is a multiple of `a`. */
  lemma ModOfMultiple(y: int, a: int, b: int)
    requires a > 0 && b > 0
    ensures y % (a * b) == 0 ==> y % a == 0
  {
    if y % (a * b) == 0 {
      var k := y / (a * b);
      assert y == (k * b) * a + 0;
      IntArith.DivModOf(y, a, k * b, 0);
    }
  }

  /** Ordinals count days: the next calendar date has the next ordinal. */
  lemma OrdinalNextDay(y: int, m: int, d: int)
    requires ValidDate(y, m, d) && (y, m, d) != (9999, 12, 31)
    ensures var n := NextDay(y, m, d);
            ValidDate(n.0, n.1, n.2) && Ordinal(n.0, n.1, n.2) == Ordinal(y, m, d) + 1
  {
    if d == DaysInMonth(y, m) && m == 12 {
      YearLength(y);
    }
  }

  // ---------------------------------------------------------------------
  // "%Y-%m-%d"
  // ---------------------------------------------------------------------

  /** The value of a decimal digit character. */
  function DigitOf(c: char): int {
    c as int - '0' as int
  }

  /** The "%m" field at the start of `t`, as the month and the number of
      characters read: the first of "1[0-2]", "0[1-9]" and "[1-9]" that
      matches.  Falling back to a later alternative never helps the dash
      that follows, since a two-character match has a digit where the
      dash would have to be. */
  function MonthField(t: string): (r: Option<(int, nat)>)
    ensures r.Some? ==> 1 <= r.value.0 <= 12 && 1 <= r.value.1 <= 2 && r.value.1 <= |t|
    ensures r.Some? && r.value.1 == 1 ==> r.value.0 == DigitOf(t[0])
  {
    if |t| >= 2 && t[0] == '1' && '0' <= t[1] <= '2' then Some((10 + DigitOf(t[1]), 2))
    else if |t| >= 2 && t[0] == '0' && '1' <= t[1] <= '9' then Some((DigitOf(t[1]), 2))
    else if |t| >= 1 && '1' <= t[0] <= '9' then Some((DigitOf(t[0]), 1))
    else None
  }

  /** The "%d" field at the start of `t`, as the day and the number of
      characters read: the first of "3[01]", "[12]\d", "0[1-9]", "[1-9]"
      and " [1-9]" that matches. */
  function DayField(t: string): (r: Option<(int, nat)>)
    ensures r.Some? ==> 1 <= r.value.0 <= 31 && 1 <= r.value.1 <= 2 && r.value.1 <= |t|
    ensures r.Some? && r.value.1 == 1 ==> r.value.0 == DigitOf(t[0])
  {
    if |t| >= 2 && t[0] == '3' && '0' <= t[1] <= '1' then Some((30 + DigitOf(t[1]), 2))
    else if |t| >= 2 && '1' <= t[0] <= '2' && IsDigit(t[1]) then Some((10 * DigitOf(t[0]) + DigitOf(t[1]), 2))
    else if |t| >= 2 && t[0] == '0' && '1' <= t[1] <= '9' then Some((DigitOf(t[1]), 2))
    else if |t| >= 1 && '1' <= t[0] <= '9' then Some((DigitOf(t[0]), 1))
    else if |t| >= 2 && t[0] == ' ' && '1' <= t[1] <= '9' then Some((DigitOf(t[1]), 2))
    else None
  }

  /** `datetime.strptime(s, "%Y-%m-%d")`, as the ordinal of the day it
      names: four digits, a dash, the month field, a dash and the day
      field, with nothing left over.  A text that does not match, or a
      date that does not exist, raises ValueError. */
  function ParseDay(s: string): (r: Result<int>)
    ensures r.Err? ==> r.error == ValueError
    ensures r.Ok? ==> 8 <= |s| <= 10 && AllDigits(s[..4]) && s[4] == '-'
    ensures r.Ok? ==> 1 <= r.value <= MaxOrdinal
  {
    if |s| < 5 || !AllDigits(s[..4]) || s[4] != '-' then Err(ValueError)
    else
      match MonthField(s[5..])
      case None => Err(ValueError)
      case Some((m, mw)) =>
        var rest := s[5 + mw..];
        if |rest| == 0 || rest[0] != '-' then Err(ValueError)
        else
          match DayField(rest[1..])
          case None => Err(ValueError)
          case Some((d, dw)) =>
            if dw != |rest| - 1 then Err(ValueError)
            else
              var y := DigitsValue(s[..4]);
              if ValidDate(y, m, d) then OrdinalAtMostLast(y, m, d); Ok(Ordinal(y, m, d))
              else Err(ValueError)
  }

  /** Four digits, a dash, two digits, a dash, two digits. */
  predicate DateShaped(s: string) {
    |s| == 10 && s[4] == '-' && s[7] == '-' &&
    AllDigits(s[..4]) && AllDigits(s[5..7]) && AllDigits(s[8..])
  }

  /** Two digits read as a number. */
  lemma TwoDigits(t: string)
    requires |t| == 2 && AllDigits(t)
    ensures DigitsValue(t) == 10 * DigitOf(t[0]) + DigitOf(t[1])
  {
    assert t[..1][..0] == [];
  }

  /** A zero-padded text parses exactly when the date it spells exists,
      to that date's ordinal. */
  lemma ZeroPaddedParse(s: string)
    requires DateShaped(s)
    ensures var y, m, d := DigitsValue(s[..4]), DigitsValue(s[5..7]), DigitsValue(s[8..]);
            ParseDay(s) == if ValidDate(y, m, d) then Ok(Ordinal(y, m, d)) else Err(ValueError)
  {
    var m, d := DigitsValue(s[5..7]), DigitsValue(s[8..]);
    TwoDigits(s[5..7]);
    TwoDigits(s[8..]);
    var t := s[5..];
    assert t[0] == s[5] && t[1] == s[6] && IsDigit(s[5]) && IsDigit(s[6]);
    if 1 <= m <= 12 {
      assert MonthField(t) == Some((m, 2));
      assert s[5 + 2..][0] == '-' && s[5 + 2..][1..] == s[8..];
      var u := s[8..];
      assert IsDigit(u[0]) && IsDigit(u[1]);
      if 1 <= d <= 31 {
        assert DayField(u) == Some((d, 2));
      } else {
        assert DayField(u).None? || DayField(u).value.1 == 1;
      }
    } else {
      assert MonthField(t).None? || MonthField(t).value.1 == 1;
    }
  }

  lemma Year2022()
    ensures AllDigits("2022") && DigitsValue("2022") == 2022
  {
    assert "2022"[..3] == "202" && "202"[..2] == "20" && "20"[..1] == "2" && "2"[..0] == "";
  }

  /** Month and day fields may be one digit. */
  lemma OneDigitFieldsParse()
    ensures ValidDate(2022, 1, 2)
    ensures ParseDay("2022-1-2") == Ok(Ordinal(2022, 1, 2))
  {
    Year2022();
    assert "2022-1-2"[..4] == "2022";
    assert "2022-1-2"[5..] == "1-2" && "1-2"[1..] == "-2" && "-2"[1..] == "2";
  }

  /** The day may be padded with a space. */
  lemma SpacePaddedDayParses()
    ensures ValidDate(2022, 1, 2)
    ensures ParseDay("2022-01- 2") == Ok(Ordinal(2022, 1, 2))
  {
    Year2022();
    assert "2022-01- 2"[..4] == "2022";
    assert "2022-01- 2"[5..] == "01- 2" && "01- 2"[2..] == "- 2" && "- 2"[1..] == " 2";
  }

  /** Text left over after the day is refused. */
  lemma LeftOverRefused()
    ensures ParseDay("2022-01-123") == Err(ValueError)
  {
    Year2022();
    assert "2022-01-123"[..4] == "2022";
    assert "2022-01-123"[5..] == "01-123" && "01-123"[2..] == "-123" && "-123"[1..] == "123";
  }

  /** A month past 12 is refused: "1" is read and the dash is missing. */
  lemma MonthThirteenRefused()
    ensures ParseDay("2022-13-01") == Err(ValueError)
  {
    Year2022();
    assert "2022-13-01"[..4] == "2022";
    assert "2022-13-01"[5..] == "13-01" && "13-01"[1..] == "3-01";
  }

  /** `date(y, m, d).strftime("%Y-%m-%d")`. */
  function FormatDay(y: nat, m: nat, d: nat): (s: string)
  {
    ZFill(NatToString(y), 4) + "-" + ZFill(NatToString(m), 2) + "-" + ZFill(NatToString(d), 2)
  }

  function Pow10(k: nat): (p: nat)
    ensures p >= 1
  {
    if k == 0 then 1 else 10 * Pow10(k - 1)
  }

  /** A number below 10^k has at most k digits. */
  lemma {:induction false} NatToStringLength(n: nat, k: nat)
    requires k >= 1 && n < Pow10(k)
    ensures |NatToString(n)| <= k
    decreases k
  {
    if n >= 10 {
      NatToStringLength(n / 10, k - 1);
    }
  }

  /** A zero-padded number of at most `width` digits parses back. */
  lemma PaddedDigits(n: nat, width: nat)
    requires |NatToString(n)| <= width
    ensures var s := ZFill(NatToString(n), width);
            |s| == width && AllDigits(s) && DigitsValue(s) == n
  {
    var s := NatToString(n);
    DigitsValueOfNatToString(n);
    ZFillNatDigits(n, width);
    if |s| < width {
      LeadingZeros(width - |s|, s);
    }
  }

  /** Parsing reads back the date a valid date was written as. */
  lemma ParseFormatDay(y: nat, m: nat, d: nat)
    requires ValidDate(y, m, d)
    ensures ParseDay(FormatDay(y, m, d)) == Ok(Ordinal(y, m, d))
  {
    assert Pow10(4) == 10000 && Pow10(2) == 100;
    NatToStringLength(y, 4);
    NatToStringLength(m, 2);
    NatToStringLength(d, 2);
    PaddedDigits(y, 4);
    PaddedDigits(m, 2);
    PaddedDigits(d, 2);
    var ys, ms, ds := ZFill(NatToString(y), 4), ZFill(NatToString(m), 2), ZFill(NatToString(d), 2);
    var s := FormatDay(y, m, d);
    assert s == ys + "-" + ms + "-" + ds;
    assert s[..4] == ys && s[5..7] == ms && s[8..] == ds;
    ZeroPaddedParse(s);
  }

  // ---------------------------------------------------------------------
  // date_between
  // ---------------------------------------------------------------------

  /** `date_between(target, start, end)`: both dates parsed, the end moved
      a day later, and `start <= target <= end` checked, both ends
      included.  Moving the last representable day raises OverflowError. */
  function DateBetween(target: int, startDate: string, endDate: string): (r: Result<bool>)
    ensures ParseDay(startDate).Err? || ParseDay(endDate).Err? ==> r.Err?
  {
    var start :- ParseDay(startDate);
    var end :- ParseDay(endDate);
    if end == MaxOrdinal then Err(OverflowError)
    else Ok(Midnight(start) <= target <= Midnight(end + 1))
  }

  /** The window of `date_between` runs from the start of the first day up
      to and including midnight after the last day: every moment of the
      last day is inside it, and so is the first moment of the day after. */
  lemma DateBetweenWindow(target: int, y1: nat, m1: nat, d1: nat, y2: nat, m2: nat, d2: nat)
    requires ValidDate(y1, m1, d1) && ValidDate(y2, m2, d2) && (y2, m2, d2) != (9999, 12, 31)
    ensures var n := NextDay(y2, m2, d2);
            ValidDate(n.0, n.1, n.2) &&
            DateBetween(target, FormatDay(y1, m1, d1), FormatDay(y2, m2, d2)) ==
              Ok(Midnight(Ordinal(y1, m1, d1)) <= target <= Midnight(Ordinal(n.0, n.1, n.2)))
  {
    ParseFormatDay(y1, m1, d1);
    ParseFormatDay(y2, m2, d2);
    OrdinalNextDay(y2, m2, d2);
    var n := NextDay(y2, m2, d2);
    OrdinalAtMostLast(n.0, n.1, n.2);
    DateBetweenOrdinals(target, FormatDay(y1, m1, d1), FormatDay(y2, m2, d2), Ordinal(y1, m1, d1), Ordinal(y2, m2, d2));
  }

  lemma DateBetweenOrdinals(target: int, startDate: string, endDate: string, start: int, end: int)
    requires ParseDay(startDate) == Ok(start) && ParseDay(endDate) == Ok(end) && end < MaxOrdinal
    ensures DateBetween(target, startDate, endDate) == Ok(Midnight(start) <= target <= Midnight(end + 1))
  {
  }

  /** `date.max.toordinal()`, the ordinal of 9999-12-31. */
  const MaxOrdinal: int := 3652059

  lemma MaxOrdinalIsLastDay()
    ensures ValidDate(9999, 12, 31) && Ordinal(9999, 12, 31) == MaxOrdinal
  {
    assert DaysBeforeYear(9999) == 3651694;
  }

  /** No valid date comes after 9999-12-31. */
  lemma OrdinalAtMostLast(y: int, m: int, d: int)
    requires ValidDate(y, m, d)
    ensures Ordinal(y, m, d) <= MaxOrdinal
  {
    MaxOrdinalIsLastDay();
    if y < 9999 {
      YearLength(y);
      YearOrdering(y + 1, 9999);
    }
  }

  /** Later years start later. */
  lemma {:induction false} YearOrdering(a: int, b: int)
    requires 1 <= a <= b
    ensures DaysBeforeYear(a) <= DaysBeforeYear(b)
    decreases b - a
  {
    if a < b {
      YearLength(a);
      YearOrdering(a + 1, b);
    }
  }

  /** The cascade window: from 2022-11-02 00:00 to 2022-11-09 00:00, both
      included. */
  function InCascadeWindow(t: int): bool {
    Midnight(Ordinal(2022, 11, 2)) <= t <= Midnight(Ordinal(2022, 11, 9))
  }

  /** `date_between(t, CAS_START_DATE, CAS_END_DATE)`. */
  function CasWindow(t: int): Result<bool> {
    DateBetween(t, CasStartDate, CasEndDate)
  }

  lemma CascadeWindow(t: int)
    ensures CasWindow(t) == Ok(InCascadeWindow(t))
  {
    CasDatesFormatted();
    DateBetweenWindow(t, 2022, 11, 2, 2022, 11, 8);
  }

  /** The two window dates are the days 2022-11-02 and 2022-11-08 written
      as `strftime` writes them. */
  lemma CasDatesFormatted()
    ensures CasStartDate == FormatDay(2022, 11, 2) && CasEndDate == FormatDay(2022, 11, 8)
  {
    CasDigits();
    assert ZFill("2", 2) == "02" && ZFill("8", 2) == "08" && ZFill("11", 2) == "11" && ZFill("2022", 4) == "2022";
  }

  lemma CasDigits()
    ensures NatToString(2022) == "2022" && NatToString(11) == "11" && NatToString(2) == "2" && NatToString(8) == "8"
  {
    assert NatToString(2) == "2" && NatToString(20) == "20" && NatToString(202) == "202";
  }

  // ---------------------------------------------------------------------
  // The running maximum
  // ---------------------------------------------------------------------

  /** What one line does to the counter: nothing, a count for an id, or an
      exception that ends the file.  Reading a missing id from the
      `defaultdict` stores 0 for it before `max` can raise, so an exception
      raised by `max` still leaves the id `touched`. */
  datatype LineOutcome = Skipped | Counted(id: Json, count: int) | Raised(touched: Option<Json>)

  /** The value `max(previous, count)` compares: integers, with booleans
      as 0 and 1; anything else cannot be compared with an int. */
  function CountValue(c: Json): (r: Result<int>)
    ensures r.Ok? <==> c.JInt? || c.JBool?
    ensures c.JInt? ==> r == Ok(c.i)
  {
    match c
    case JInt(n) => Ok(n)
    case JBool(b) => Ok(if b then 1 else 0)
    case _ => Err(TypeError)
  }

  /** The counter update for one status object. */
  function CountStatus(status: Json): (r: LineOutcome)
    ensures r.Counted? ==> status.JDict? && "id_str" in status.fields && r.id == status.fields["id_str"]
    ensures (status.JDict? && "id_str" in status.fields && "retweet_count" in status.fields &&
             Hashable(status.fields["id_str"]) && status.fields["retweet_count"].JInt?) ==>
              r == Counted(status.fields["id_str"], status.fields["retweet_count"].i)
    ensures !r.Skipped?
  {
    match GetItem(status, "id_str")
    case Err(_) => Raised(None)
    case Ok(id) =>
      match GetItem(status, "retweet_count")
      case Err(_) => Raised(None)
      case Ok(c) =>
        if !Hashable(id) then Raised(None)
        else
          match CountValue(c)
          case Err(_) => Raised(Some(id))
          case Ok(n) => Counted(id, n)
  }

  /** One decoded line, given the parser of Twitter's "created_at" text
      and the window test (`CasWindow` in the script). */
  function LineOutcomeOf(data: Json, createdAtTime: Json -> Result<int>, inWindow: int -> Result<bool>)
    : LineOutcome
  {
    match In(RetweetedStatus, data)
    case Err(_) => Raised(None)
    case Ok(isRetweet) =>
      if !isRetweet then CountStatus(data)
      else
        match GetItem(data, RetweetedStatus)
        case Err(_) => Raised(None)
        case Ok(rtStatus) =>
          match GetItem(rtStatus, "created_at")
          case Err(_) => Raised(None)
          case Ok(createdAt) =>
            match createdAtTime(createdAt)
            case Err(_) => Raised(None)
            case Ok(t) =>
              match inWindow(t)
              case Err(_) => Raised(None)
              case Ok(inside) => if inside then CountStatus(rtStatus) else Skipped
  }

  /** Originals always count; a retweet counts its retweeted post, and only
      when that post was created inside the cascade window. */
  lemma LineOutcomeCases(data: Json, createdAtTime: Json -> Result<int>)
    requires data.JDict?
    ensures RetweetedStatus !in data.fields ==> LineOutcomeOf(data, createdAtTime, CasWindow) == CountStatus(data)
    ensures RetweetedStatus in data.fields ==>
              var rt := data.fields[RetweetedStatus];
              (rt.JDict? && "created_at" in rt.fields && createdAtTime(rt.fields["created_at"]).Ok? ==>
                 LineOutcomeOf(data, createdAtTime, CasWindow) ==
                   if InCascadeWindow(createdAtTime(rt.fields["created_at"]).value) then CountStatus(rt) else Skipped) &&
              (LineOutcomeOf(data, createdAtTime, CasWindow).Counted? ==>
                 rt.JDict? && "created_at" in rt.fields && createdAtTime(rt.fields["created_at"]).Ok? &&
                 InCascadeWindow(createdAtTime(rt.fields["created_at"]).value))
  {
    forall t | true
      ensures CasWindow(t) == Ok(InCascadeWindow(t))
    {
      CascadeWindow(t);
    }
    WindowedLineOutcome(data, createdAtTime, CasWindow, InCascadeWindow);
  }

  /** `LineOutcomeCases` for any window test that never raises. */
  lemma WindowedLineOutcome(data: Json, createdAtTime: Json -> Result<int>, inWindow: int -> Result<bool>,
                            window: int -> bool)
    requires data.JDict? && forall t :: inWindow(t) == Ok(window(t))
    ensures RetweetedStatus !in data.fields ==> LineOutcomeOf(data, createdAtTime, inWindow) == CountStatus(data)
    ensures RetweetedStatus in data.fields ==>
              var rt := data.fields[RetweetedStatus];
              (rt.JDict? && "created_at" in rt.fields && createdAtTime(rt.fields["created_at"]).Ok? ==>
                 LineOutcomeOf(data, createdAtTime, inWindow) ==
                   if window(createdAtTime(rt.fields["created_at"]).value) then CountStatus(rt) else Skipped) &&
              (LineOutcomeOf(data, createdAtTime, inWindow).Counted? ==>
                 rt.JDict? && "created_at" in rt.fields && createdAtTime(rt.fields["created_at"]).Ok? &&
                 window(createdAtTime(rt.fields["created_at"]).value))
  {
  }

  /** The (id, count) pairs one file feeds to the counter, and whether an
      exception ended it early; the lines after the exception are never
      read. */
  function FileRun(lines: seq<Json>, createdAtTime: Json -> Result<int>, inWindow: int -> Result<bool>)
    : (r: (seq<(Json, int)>, bool))
    ensures |r.0| <= |lines|
    decreases |lines|
  {
    if |lines| == 0 then ([], false)
    else
      var last := |lines| - 1;
      var before := FileRun(lines[..last], createdAtTime, inWindow);
      if before.1 then before
      else
        match LineOutcomeOf(lines[last], createdAtTime, inWindow)
        case Skipped => before
        case Counted(id, n) => (before.0 + [(id, n)], false)
        case Raised(None) => (before.0, true)
        case Raised(Some(id)) => (before.0 + [(id, 0)], true)
  }

  /** The pairs fed to the counter by all files, in order.  An exception
      only ends its own file. */
  function Observations(files: seq<seq<Json>>, createdAtTime: Json -> Result<int>, inWindow: int -> Result<bool>)
    : (obs: seq<(Json, int)>)
    decreases |files|
  {
    if |files| == 0 then []
    else
      var last := |files| - 1;
      Observations(files[..last], createdAtTime, inWindow) + FileRun(files[last], createdAtTime, inWindow).0
  }

  function Get(m: map<Json, int>, k: Json): int {
    if k in m then m[k] else 0
  }

  /** The counter after the given pairs: each pair stores the larger of
      its count and the value stored so far (0 when there is none). */
  function Tally(obs: seq<(Json, int)>): (t: map<Json, int>)
    decreases |obs|
  {
    if |obs| == 0 then map[]
    else
      var last := |obs| - 1;
      var t := Tally(obs[..last]);
      t[obs[last].0 := if obs[last].1 > Get(t, obs[last].0) then obs[last].1 else Get(t, obs[last].0)]
  }

  /** One more line of a file that has not raised yet. */
  lemma FileRunStep(lines: seq<Json>, j: nat, createdAtTime: Json -> Result<int>, inWindow: int -> Result<bool>,
                    o: LineOutcome)
    requires j < |lines| && !FileRun(lines[..j], createdAtTime, inWindow).1
    requires o == LineOutcomeOf(lines[j], createdAtTime, inWindow)
    ensures var before := FileRun(lines[..j], createdAtTime, inWindow).0;
            FileRun(lines[..j + 1], createdAtTime, inWindow) ==
              match o
              case Skipped => (before, false)
              case Counted(id, n) => (before + [(id, n)], false)
              case Raised(None) => (before, true)
              case Raised(Some(id)) => (before + [(id, 0)], true)
  {
    assert lines[..j + 1][..j] == lines[..j];
  }

  /** Feeding one more pair stores the larger of its count and the
      current value. */
  lemma TallySnoc(obs: seq<(Json, int)>, id: Json, n: int)
    ensures Tally(obs + [(id, n)]) == Tally(obs)[id := if n > Get(Tally(obs), id) then n else Get(Tally(obs), id)]
  {
    assert (obs + [(id, n)])[..|obs|] == obs;
  }

  /** The counter after one more line of a file that has not raised. */
  lemma CountFileStep(lines: seq<Json>, j: nat, createdAtTime: Json -> Result<int>, inWindow: int -> Result<bool>,
                      o: LineOutcome, fed0: seq<(Json, int)>)
    requires j < |lines| && !FileRun(lines[..j], createdAtTime, inWindow).1
    requires o == LineOutcomeOf(lines[j], createdAtTime, inWindow)
    ensures FileRun(lines[..j + 1], createdAtTime, inWindow).1 == o.Raised?
    ensures var t := Tally(fed0 + FileRun(lines[..j], createdAtTime, inWindow).0);
            Tally(fed0 + FileRun(lines[..j + 1], createdAtTime, inWindow).0) ==
              match o
              case Skipped => t
              case Counted(id, n) => t[id := if n > Get(t, id) then n else Get(t, id)]
              case Raised(None) => t
              case Raised(Some(id)) => t[id := if 0 > Get(t, id) then 0 else Get(t, id)]
  {
    FileRunStep(lines, j, createdAtTime, inWindow, o);
    var fed := fed0 + FileRun(lines[..j], createdAtTime, inWindow).0;
    match o
    case Skipped =>
    case Counted(id, n) =>
      TallySnoc(fed, id, n);
      assert fed0 + FileRun(lines[..j + 1], createdAtTime, inWindow).0 == fed + [(id, n)];
    case Raised(None) =>
    case Raised(Some(id)) =>
      TallySnoc(fed, id, 0);
      assert fed0 + FileRun(lines[..j + 1], createdAtTime, inWindow).0 == fed + [(id, 0)];
  }

  /** Once an exception has ended a file, the rest of it adds nothing. */
  lemma {:induction false} FileRunRaisedPersists(lines: seq<Json>, createdAtTime: Json -> Result<int>,
                                                 inWindow: int -> Result<bool>, n: nat)
    requires n <= |lines| && FileRun(lines[..n], createdAtTime, inWindow).1
    ensures FileRun(lines, createdAtTime, inWindow) == FileRun(lines[..n], createdAtTime, inWindow)
    decreases |lines| - n
  {
    if n < |lines| {
      assert lines[..n + 1][..n] == lines[..n];
      FileRunRaisedPersists(lines, createdAtTime, inWindow, n + 1);
    } else {
      assert lines[..n] == lines;
    }
  }

  /** The counter holds, for every id fed to it, the largest count fed for
      that id, and 0 when every count was negative; it holds no other id. */
  lemma {:induction false} TallyIsMax(obs: seq<(Json, int)>)
    ensures var t := Tally(obs);
            (forall i :: 0 <= i < |obs| ==> obs[i].0 in t && t[obs[i].0] >= obs[i].1) &&
            (forall k :: k in t ==> t[k] >= 0) &&
            (forall k :: k in t ==> exists i :: 0 <= i < |obs| && obs[i].0 == k && (t[k] == 0 || obs[i].1 == t[k]))
    decreases |obs|
  {
    if |obs| > 0 {
      var last := |obs| - 1;
      var prefix := obs[..last];
      TallyIsMax(prefix);
      var t0, t := Tally(prefix), Tally(obs);
      forall k | k in t
        ensures exists i :: 0 <= i < |obs| && obs[i].0 == k && (t[k] == 0 || obs[i].1 == t[k])
      {
        if k == obs[last].0 {
          assert obs[last].0 == k;
          if t[k] != obs[last].1 && t[k] != 0 {
            var i :| 0 <= i < last && prefix[i].0 == k && (t0[k] == 0 || prefix[i].1 == t0[k]);
            assert obs[i] == prefix[i];
          }
        } else {
          var i :| 0 <= i < last && prefix[i].0 == k && (t0[k] == 0 || prefix[i].1 == t0[k]);
          assert obs[i] == prefix[i];
        }
      }
      forall i | 0 <= i < |obs|
        ensures obs[i].0 in t && t[obs[i].0] >= obs[i].1
      {
        if i < last {
          assert obs[i] == prefix[i];
        }
      }
    }
  }

  /** Counts never go down: feeding more pairs keeps every id and never
      lowers its count. */
  lemma {:induction false} TallyNeverDecreases(obs: seq<(Json, int)>, n: nat)
    requires n <= |obs|
    ensures forall k :: k in Tally(obs[..n]) ==> k in Tally(obs) && Tally(obs)[k] >= Tally(obs[..n])[k]
    decreases |obs| - n
  {
    if n < |obs| {
      TallyNeverDecreases(obs, n + 1);
      assert obs[..n + 1][..n] == obs[..n];
    } else {
      assert obs[..n] == obs;
    }
  }

  /** The ids the sample is drawn from: those with at least
      `MinCasSize - 1` retweets. */
  function SamplePool(counter: map<Json, int>): (pool: set<Json>)
    ensures pool <= counter.Keys
  {
    set k | k in counter && counter[k] >= MinCasSize - 1
  }

  /** An id is in the pool exactly when some status reported it with at
      least one retweet. */
  lemma PoolMembers(obs: seq<(Json, int)>, k: Json)
    ensures k in SamplePool(Tally(obs)) <==> exists i :: 0 <= i < |obs| && obs[i].0 == k && obs[i].1 >= 1
  {
    TallyIsMax(obs);
  }

  // ---------------------------------------------------------------------
  // get_cascade_id_counter
  // ---------------------------------------------------------------------

  /** The body of the `try` block for one decoded line. */
  method CountLine(data: Json, createdAtTime: Json -> Result<int>, inWindow: int -> Result<bool>)
    returns (o: LineOutcome)
    ensures o == LineOutcomeOf(data, createdAtTime, inWindow)
  {
    var isRetweet := In(RetweetedStatus, data);
    if isRetweet.Err? {
      return Raised(None);
    }
    var status := data;
    if isRetweet.value {
      var rtStatus := GetItem(data, RetweetedStatus);
      if rtStatus.Err? {
        return Raised(None);
      }
      var createdAt := GetItem(rtStatus.value, "created_at");
      if createdAt.Err? {
        return Raised(None);
      }
      var rtCreation := createdAtTime(createdAt.value);
      if rtCreation.Err? {
        return Raised(None);
      }
      var windowed := inWindow(rtCreation.value);
      if windowed.Err? {
        return Raised(None);
      }
      if !windowed.value {
        return Skipped;
      }
      status := rtStatus.value;
    }
    var casId := GetItem(status, "id_str");
    if casId.Err? {
      return Raised(None);
    }
    var rtCount := GetItem(status, "retweet_count");
    if rtCount.Err? {
      return Raised(None);
    }
    if !Hashable(casId.value) {
      return Raised(None);
    }
    var count := CountValue(rtCount.value);
    if count.Err? {
      return Raised(Some(casId.value));
    }
    return Counted(casId.value, count.value);
  }

  /** `get_cascade_id_counter` over the decoded lines of each file.  An
      exception ends the file it was raised in, keeping what that file
      already stored, and the next file is read. */
  method GetCascadeIdCounter(files: seq<seq<Json>>, createdAtTime: Json -> Result<int>)
    returns (counter: map<Json, int>)
    ensures counter == Tally(Observations(files, createdAtTime, CasWindow))
  {
    counter := map[];
    for fi := 0 to |files|
      invariant counter == Tally(Observations(files[..fi], createdAtTime, CasWindow))
    {
      counter := CountFile(files[fi], createdAtTime, CasWindow, counter,
                           Observations(files[..fi], createdAtTime, CasWindow));
      assert files[..fi + 1][..fi] == files[..fi];
    }
    assert files[..|files|] == files;
  }

  /** What one line's outcome does to the `defaultdict`: read the stored
      value (0 when absent), store the larger of it and the count. */
  method ApplyOutcome(counter0: map<Json, int>, o: LineOutcome) returns (counter: map<Json, int>, raised: bool)
    ensures raised == o.Raised?
    ensures counter == match o
                       case Skipped => counter0
                       case Counted(id, n) => counter0[id := if n > Get(counter0, id) then n else Get(counter0, id)]
                       case Raised(None) => counter0
                       case Raised(Some(id)) => counter0[id := if 0 > Get(counter0, id) then 0 else Get(counter0, id)]
  {
    counter, raised := counter0, false;
    match o {
      case Skipped =>
      case Counted(id, n) =>
        var prev := if id in counter then counter[id] else 0;
        counter := counter[id := if n > prev then n else prev];
      case Raised(touched) =>
        if touched.Some? {
          var id := touched.value;
          var prev := if id in counter then counter[id] else 0;
          counter := counter[id := if 0 > prev then 0 else prev];
        }
        raised := true;
    }
  }

  /** The `try` block for one file: its lines in order, until one raises. */
  method CountFile(lines: seq<Json>, createdAtTime: Json -> Result<int>, inWindow: int -> Result<bool>,
                   counter0: map<Json, int>, ghost fed0: seq<(Json, int)>)
    returns (counter: map<Json, int>)
    requires counter0 == Tally(fed0)
    ensures counter == Tally(fed0 + FileRun(lines, createdAtTime, inWindow).0)
  {
    counter := counter0;
    var j := 0;
    var raised := false;
    assert fed0 + FileRun(lines[..0], createdAtTime, inWindow).0 == fed0;
    while j < |lines| && !raised
      invariant 0 <= j <= |lines|
      invariant FileRun(lines[..j], createdAtTime, inWindow).1 == raised
      invariant counter == Tally(fed0 + FileRun(lines[..j], createdAtTime, inWindow).0)
    {
      var o := CountLine(lines[j], createdAtTime, inWindow);
      CountFileStep(lines, j, createdAtTime, inWindow, o, fed0);
      counter, raised := ApplyOutcome(counter, o);
      j := j + 1;
    }
    if raised {
      FileRunRaisedPersists(lines, createdAtTime, inWindow, j);
    } else {
      assert lines[..j] == lines;
    }
  }

  /** The counter the script builds: for each id it keeps the largest count
      reported for it, never a smaller one, and the pool holds the ids
      reported with at least one retweet. */
  lemma CounterIsRunningMax(files: seq<seq<Json>>, createdAtTime: Json -> Result<int>, inWindow: int -> Result<bool>,
                            k: Json)
    ensures var obs := Observations(files, createdAtTime, inWindow);
            var counter := Tally(obs);
            (k in counter <==> exists i :: 0 <= i < |obs| && obs[i].0 == k) &&
            (k in counter ==> counter[k] >= 0 && forall i :: 0 <= i < |obs| && obs[i].0 == k ==> counter[k] >= obs[i].1) &&
            (k in SamplePool(counter) <==> exists i :: 0 <= i < |obs| && obs[i].0 == k && obs[i].1 >= 1)
  {
    var obs := Observations(files, createdAtTime, inWindow);
    TallyIsMax(obs);
    PoolMembers(obs, k);
  }
}
