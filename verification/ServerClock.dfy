/** The server-anchored clock: a closed-form day count and the HTTP date it is read from. */
module ServerClock {
  import opened Arithmetic
  import opened Basics

  // ---- The closed form ----

  /** Integer division that rounds toward zero. */
  function TruncDiv(a: int, d: int): int
    requires d > 0
  {
    if a >= 0 then a / d else -((-a) / d)
  }

  function DaysFromCivil(year: int, month: int, day: int): int {
    var y := if month <= 2 then year - 1 else year;
    var era := TruncDiv(if y >= 0 then y else y - 399, 400);
    var yoe := y - era * 400;
    var mp := (month + 9) % 12;
    var doy := TruncDiv(153 * mp + 2, 5) + day - 1;
    var doe := yoe * 365 + TruncDiv(yoe, 4) - TruncDiv(yoe, 100) + doy;
    era * 146097 + doe - 719468
  }

  // ---- The Gregorian calendar, by its rules ----

  predicate IsLeap(y: int) {
    y % 4 == 0 && (y % 100 != 0 || y % 400 == 0)
  }

  function DaysInMonth(y: int, m: int): (n: nat)
    requires 1 <= m <= 12
    ensures 28 <= n <= 31
  {
    if m == 2 then (if IsLeap(y) then 29 else 28)
    else if m in {4, 6, 9, 11} then 30
    else 31
  }

  datatype Date = Date(year: int, month: int, day: int)

  predicate ValidDate(d: Date) {
    1 <= d.month <= 12 && 1 <= d.day <= DaysInMonth(d.year, d.month)
  }

  function NextDay(d: Date): (n: Date)
    requires ValidDate(d)
    ensures ValidDate(n)
  {
    if d.day < DaysInMonth(d.year, d.month) then d.(day := d.day + 1)
    else if d.month < 12 then Date(d.year, d.month + 1, 1)
    else Date(d.year + 1, 1, 1)
  }

  function Advance(d: Date, n: nat): (r: Date)
    requires ValidDate(d)
    ensures ValidDate(r)
  {
    if n == 0 then d else NextDay(Advance(d, n - 1))
  }

  const EPOCH := Date(1970, 1, 1)

  function DayNumber(d: Date): int {
    DaysFromCivil(d.year, d.month, d.day)
  }

  // ---- The closed form counts days ----

  /** Years before March of year y, in closed form: the era split adds nothing to the plain count. */
  lemma MarchDays(y: int)
    ensures var era := TruncDiv(if y >= 0 then y else y - 399, 400);
            var yoe := y - era * 400;
            && 0 <= yoe < 400 && era == y / 400
            && era * 146097 + yoe * 365 + TruncDiv(yoe, 4) - TruncDiv(yoe, 100)
               == 365 * y + y / 4 - y / 100 + y / 400
  {
    var era := y / 400;
    var yoe := y % 400;
    assert y == 400 * era + yoe;
    if y < 0 {
      assert -(y - 399) == 400 * (-era) + (399 - yoe);
    }
    assert y / 4 == 100 * era + yoe / 4;
    assert y / 100 == 4 * era + yoe / 100;
  }

  /** Days from the first of March to the first of month m. */
  function MonthOffset(m: int): int {
    (153 * ((m + 9) % 12) + 2) / 5
  }

  lemma MonthTable()
    ensures MonthOffset(3) == 0 && MonthOffset(4) == 31 && MonthOffset(5) == 61 && MonthOffset(6) == 92
    ensures MonthOffset(7) == 122 && MonthOffset(8) == 153 && MonthOffset(9) == 184 && MonthOffset(10) == 214
    ensures MonthOffset(11) == 245 && MonthOffset(12) == 275 && MonthOffset(1) == 306 && MonthOffset(2) == 337
  {
  }

  /** Leap days up to and including year y, from an origin that cancels out. */
  function LeapDays(y: int): int {
    y / 4 - y / 100 + y / 400
  }

  /** The day count without eras. */
  lemma ClosedForm(d: Date)
    requires 1 <= d.month <= 12
    ensures var y := if d.month <= 2 then d.year - 1 else d.year;
            DayNumber(d) == 365 * y + LeapDays(y) + MonthOffset(d.month) + d.day - 1 - 719468
  {
    MarchDays(if d.month <= 2 then d.year - 1 else d.year);
  }

  lemma QuotientStep(y: int, d: nat)
    requires d > 0
    ensures y / d == (y - 1) / d + if y % d == 0 then 1 else 0
  {
    var q, r := (y - 1) / d, (y - 1) % d;
    assert y - 1 == d * q + r;
    if r + 1 < d {
      RemainderUnique(y, d, q, r + 1);
    } else {
      assert y == d * (q + 1) + 0;
      RemainderUnique(y, d, q + 1, 0);
    }
  }

  /** A leap day is counted in exactly the leap years. */
  lemma LeapYears(y: int)
    ensures LeapDays(y) == LeapDays(y - 1) + if IsLeap(y) then 1 else 0
  {
    QuotientStep(y, 4);
    QuotientStep(y, 100);
    QuotientStep(y, 400);
    if y % 400 == 0 {
      RemainderUnique(y, 100, 4 * (y / 400), 0);
    }
    if y % 100 == 0 {
      RemainderUnique(y, 4, 25 * (y / 100), 0);
    }
  }

  /** Each day is one more than the day before: the count is the day-by-day calendar. */
  lemma NextDayIsOneMore(d: Date)
    requires ValidDate(d)
    ensures DayNumber(NextDay(d)) == DayNumber(d) + 1
  {
    hide DaysFromCivil, MonthOffset, LeapDays, DayNumber, IsLeap;
    ClosedForm(d);
    ClosedForm(NextDay(d));
    LeapYears(d.year);
    MonthTable();
  }

  /** The epoch is day zero, and n days after any valid date the count is n larger. */
  lemma {:induction false} CountsDayByDay(d: Date, n: nat)
    requires ValidDate(d)
    ensures DayNumber(EPOCH) == 0
    ensures DayNumber(Advance(d, n)) == DayNumber(d) + n
  {
    hide DaysFromCivil;
    ClosedForm(EPOCH);
    if n > 0 {
      CountsDayByDay(d, n - 1);
      NextDayIsOneMore(Advance(d, n - 1));
    }
  }

  // ---- Order ----

  predicate Before(a: Date, b: Date) {
    || a.year < b.year
    || (a.year == b.year && a.month < b.month)
    || (a.year == b.year && a.month == b.month && a.day < b.day)
  }

  /** Days of a month that a month starts later than January. */
  lemma MonthGap(y: int, m: int, n: int)
    requires 1 <= m < n <= 12
    ensures DayNumber(Date(y, m, DaysInMonth(y, m))) < DayNumber(Date(y, n, 1))
  {
    hide DaysFromCivil, MonthOffset, LeapDays, DayNumber, IsLeap;
    MonthTable();
    ClosedForm(Date(y, m, DaysInMonth(y, m)));
    ClosedForm(Date(y, n, 1));
    LeapYears(y);
  }

  lemma {:induction false} YearGap(y: int, z: int)
    requires y < z
    ensures DayNumber(Date(y, 12, 31)) < DayNumber(Date(z, 1, 1))
    decreases z - y
  {
    hide DaysFromCivil, MonthOffset, LeapDays, DayNumber, IsLeap;
    MonthTable();
    ClosedForm(Date(y, 12, 31));
    ClosedForm(Date(z, 1, 1));
    if y + 1 < z {
      YearGap(y, z - 1);
      ClosedForm(Date(z - 1, 1, 1));
      LeapYears(z - 1);
    } else {
      LeapYears(y);
    }
  }

  lemma WithinYear(d: Date)
    requires ValidDate(d)
    ensures DayNumber(Date(d.year, 1, 1)) <= DayNumber(d) <= DayNumber(Date(d.year, 12, 31))
  {
    hide DaysFromCivil, MonthOffset, LeapDays, DayNumber, IsLeap;
    MonthTable();
    ClosedForm(d);
    ClosedForm(Date(d.year, 1, 1));
    ClosedForm(Date(d.year, 12, 31));
    LeapYears(d.year);
  }

  lemma WithinMonth(d: Date)
    requires ValidDate(d)
    ensures DayNumber(Date(d.year, d.month, 1)) <= DayNumber(d)
    ensures DayNumber(d) <= DayNumber(Date(d.year, d.month, DaysInMonth(d.year, d.month)))
    ensures DayNumber(d) == DayNumber(Date(d.year, d.month, 1)) + d.day - 1
  {
  }

  lemma BeforeIsLess(a: Date, b: Date)
    requires ValidDate(a) && ValidDate(b) && Before(a, b)
    ensures DayNumber(a) < DayNumber(b)
  {
    hide DaysFromCivil, DaysInMonth;
    if a.year < b.year {
      WithinYear(a);
      WithinYear(b);
      YearGap(a.year, b.year);
    } else {
      WithinMonth(a);
      WithinMonth(b);
      if a.month < b.month {
        MonthGap(a.year, a.month, b.month);
      }
    }
  }

  /** The count orders valid dates exactly as the calendar does. */
  lemma OrderExactly(a: Date, b: Date)
    requires ValidDate(a) && ValidDate(b)
    ensures Before(a, b) <==> DayNumber(a) < DayNumber(b)
  {
    hide DaysFromCivil;
    if Before(a, b) {
      BeforeIsLess(a, b);
    } else if Before(b, a) {
      BeforeIsLess(b, a);
    } else {
      assert a == b;
    }
  }

  // ---- Reading an HTTP date ----

  datatype Moment = Moment(date: Date, hour: int, minute: int, second: int)

  predicate ValidMoment(t: Moment) {
    ValidDate(t.date) && 0 <= t.hour < 24 && 0 <= t.minute < 60 && 0 <= t.second < 60
  }

  function Seconds(t: Moment): int {
    DayNumber(t.date) * 86400 + t.hour * 3600 + t.minute * 60 + t.second
  }

  predicate Sooner(a: Moment, b: Moment) {
    || Before(a.date, b.date)
    || (a.date == b.date && (a.hour < b.hour
        || (a.hour == b.hour && (a.minute < b.minute || (a.minute == b.minute && a.second < b.second)))))
  }

  /** Seconds since the epoch order moments exactly as the calendar and the clock do. */
  lemma SecondsOrderExactly(a: Moment, b: Moment)
    requires ValidMoment(a) && ValidMoment(b)
    ensures Sooner(a, b) <==> Seconds(a) < Seconds(b)
  {
    hide DayNumber, Before, ValidDate;
    OrderExactly(a.date, b.date);
    OrderExactly(b.date, a.date);
    if a.date != b.date {
      DifferentDays(a.date, b.date);
    } else {
      NotBeforeItself(a.date);
    }
  }

  lemma NotBeforeItself(d: Date)
    ensures !Before(d, d)
  {
  }

  lemma DifferentDays(a: Date, b: Date)
    requires a != b
    ensures Before(a, b) || Before(b, a)
  {
  }

  /** White space as `split_whitespace` sees it, within ASCII. */
  predicate IsSpace(c: char) {
    c == ' ' || '\t' <= c <= '\r'
  }

  function SkipSpace(s: string): string {
    if s != [] && IsSpace(s[0]) then SkipSpace(s[1..]) else s
  }

  function WordLen(s: string): (n: nat)
    ensures n <= |s|
  {
    if s == [] || IsSpace(s[0]) then 0 else 1 + WordLen(s[1..])
  }

  /** First word and what follows it; None when only white space is left. */
  function NextWord(s: string): (r: Option<(string, string)>) {
    var t := SkipSpace(s);
    if t == [] then None else Some((t[..WordLen(t)], t[WordLen(t)..]))
  }

  predicate IsDigit(c: char) {
    '0' <= c <= '9'
  }

  function Digits(s: string): (n: Option<nat>) {
    if s == [] then Some(0)
    else if !IsDigit(s[|s| - 1]) then None
    else match Digits(s[..|s| - 1])
      case None => None
      case Some(n) => Some(n * 10 + (s[|s| - 1] as int - '0' as int))
  }

  const I64_MAX := 0x7fff_ffff_ffff_ffff

  /** `parse` to an integer in [low, high]: an optional sign, at least one digit, no overflow. */
  function ParseInt(s: string, low: int, high: int): Option<int> {
    var (sign, body) := if s != [] && s[0] == '+' then (1, s[1..])
                        else if s != [] && s[0] == '-' && low < 0 then (-1, s[1..]) else (1, s);
    if body == [] then None
    else match Digits(body)
      case None => None
      case Some(n) => if low <= sign * n <= high then Some(sign * n) else None
  }

  function ParseI64(s: string): Option<int> {
    ParseInt(s, -I64_MAX - 1, I64_MAX)
  }

  function ParseU32(s: string): Option<int> {
    ParseInt(s, 0, U32_LIMIT - 1)
  }

  /** Length of s up to the first separator. */
  function FieldLen(s: string): (n: nat)
    ensures n <= |s|
  {
    if s == [] || s[0] == ':' then 0 else 1 + FieldLen(s[1..])
  }

  /** The first three `:`-separated fields; further fields are ignored. */
  function Hms(s: string): Option<(int, int, int)> {
    var i := FieldLen(s);
    if i == |s| then None
    else
      var j := i + 1 + FieldLen(s[i + 1..]);
      if j == |s| then None
      else
        var k := j + 1 + FieldLen(s[j + 1..]);
        match (ParseI64(s[..i]), ParseI64(s[i + 1..j]), ParseI64(s[j + 1..k]))
        case (Some(h), Some(m), Some(sec)) => Some((h, m, sec))
        case _ => None
  }

  const MONTHS: seq<string> := ["Jan", "Feb", "Mar", "Apr", "May", "Jun", "Jul", "Aug", "Sep", "Oct", "Nov", "Dec"]

  function MonthFrom(name: string, i: nat): Option<int>
    requires i <= 12
    decreases 12 - i
  {
    if i == 12 then None else if MONTHS[i] == name then Some(i + 1) else MonthFrom(name, i + 1)
  }

  /** What follows the first ", ". */
  function AfterComma(s: string): Option<string> {
    if |s| < 2 then None
    else if s[0] == ',' && s[1] == ' ' then Some(s[2..])
    else AfterComma(s[1..])
  }

  /** The parser: no field is range-checked, the weekday and the zone are not read. */
  function ParseImfFixdate(value: string): Option<nat> {
    match AfterComma(value)
    case None => None
    case Some(rest) => ParseDayMonthYear(rest)
  }

  function ParseDayMonthYear(rest: string): Option<nat> {
    match NextWord(rest)
    case None => None
    case Some((dayWord, rest1)) =>
      match (ParseU32(dayWord), NextWord(rest1))
      case (Some(day), Some((monthWord, rest2))) =>
        (match (MonthFrom(monthWord, 0), NextWord(rest2))
         case (Some(month), Some((yearWord, rest3))) =>
           (match (ParseI64(yearWord), NextWord(rest3))
            case (Some(year), Some((timeWord, _))) => ParseTime(Date(year, month, day), timeWord)
            case _ => None)
         case _ => None)
      case _ => None
  }

  function ParseTime(date: Date, timeWord: string): Option<nat> {
    match Hms(timeWord)
    case None => None
    case Some((h, m, s)) =>
      var total := Seconds(Moment(date, h, m, s));
      if 0 <= total < U64_LIMIT then Some(total) else None
  }

  // ---- Writing one, and reading it back ----

  function Digit(n: nat): (c: char)
    requires n < 10
    ensures IsDigit(c) && c as int - '0' as int == n
  {
    '0' + n as char
  }

  /** n in exactly w decimal digits. */
  function Decimal(n: nat, w: nat): (s: string)
    ensures |s| == w
  {
    if w == 0 then "" else Decimal(n / 10, w - 1) + [Digit(n % 10)]
  }

  function Pow10(w: nat): (p: nat)
    ensures p > 0
  {
    if w == 0 then 1 else 10 * Pow10(w - 1)
  }

  lemma {:induction false} DecimalDigits(n: nat, w: nat)
    requires n < Pow10(w)
    ensures Digits(Decimal(n, w)) == Some(n)
    ensures forall c :: c in Decimal(n, w) ==> IsDigit(c)
  {
    if w > 0 {
      DecimalDigits(n / 10, w - 1);
      var s := Decimal(n, w);
      assert s[..w - 1] == Decimal(n / 10, w - 1);
    }
  }

  lemma DecimalParses(n: nat, w: nat, low: int, high: int)
    requires 0 < w <= 4 && n < Pow10(w) && low <= 0 && high >= 9999
    ensures ParseInt(Decimal(n, w), low, high) == Some(n)
  {
    hide Digits, Decimal, Pow10;
    DecimalDigits(n, w);
    FourDigits(w);
    assert IsDigit(Decimal(n, w)[0]);
  }

  /** Numbers with a sign: a plus is passed over, a minus is read only where negative numbers are allowed,
      and what is out of range or has no digits is refused. */
  lemma SignedParses(n: int, w: nat, low: int, high: int)
    requires 0 < w && 0 <= n < Pow10(w) && low <= 0 <= high
    ensures ParseInt(Decimal(n, w), low, high) == if n <= high then Some(n) else None
    ensures ParseInt("+" + Decimal(n, w), low, high) == if n <= high then Some(n) else None
    ensures ParseInt("-" + Decimal(n, w), low, high) == if low < 0 && low <= -n then Some(-n) else None
    ensures ParseInt("", low, high) == ParseInt("+", low, high) == ParseInt("-", low, high) == None
  {
    hide Digits, Decimal, Pow10;
    var digits := Decimal(n, w);
    DecimalDigits(n, w);
    assert IsDigit(digits[0]);
    assert ("+" + digits)[1..] == digits && ("-" + digits)[1..] == digits;
    assert "+"[1..] == "" && "-"[1..] == "";
    NotADigit("-" + digits, '-');
    NotADigit("-", '-');
  }

  /** A text with any other character is no number. */
  lemma {:induction false} NotADigit(s: string, c: char)
    requires c in s && !IsDigit(c)
    ensures Digits(s) == None
    decreases |s|
  {
    var n := |s| - 1;
    if s[n] != c {
      assert s == s[..n] + [s[n]];
      NotADigit(s[..n], c);
    }
  }

  lemma FourDigits(w: nat)
    requires w <= 4
    ensures Pow10(w) <= 10000
  {
    assert Pow10(4) == 10000 && Pow10(3) == 1000 && Pow10(2) == 100 && Pow10(1) == 10;
  }

  /** A word ends at the first white space. */
  lemma {:induction false} WordEnds(word: string, rest: string)
    requires forall c :: c in word ==> !IsSpace(c)
    requires rest == [] || IsSpace(rest[0])
    ensures WordLen(word + rest) == |word|
  {
    if word == [] {
      assert word + rest == rest;
    } else {
      assert (word + rest)[1..] == word[1..] + rest;
      WordEnds(word[1..], rest);
    }
  }

  lemma FirstWord(word: string, rest: string)
    requires word != [] && forall c :: c in word ==> !IsSpace(c)
    requires rest == [] || IsSpace(rest[0])
    ensures NextWord(word + rest) == Some((word, rest))
    ensures NextWord(" " + word + rest) == Some((word, rest))
  {
    var s := word + rest;
    WordEnds(word, rest);
    assert s[0] == word[0] && word[0] in word;
    assert (" " + word + rest)[1..] == s;
    assert s[..|word|] == word && s[|word|..] == rest;
  }

  lemma {:induction false} FieldEnds(field: string, rest: string)
    requires ':' !in field
    requires rest == [] || rest[0] == ':'
    ensures FieldLen(field + rest) == |field|
  {
    if field == [] {
      assert field + rest == rest;
    } else {
      assert field[0] in field;
      assert (field + rest)[1..] == field[1..] + rest;
      FieldEnds(field[1..], rest);
    }
  }

  /** A time is its first three fields, whatever they hold and whatever follows; with fewer it is none. */
  lemma HmsSplits(a: string, b: string, c: string, rest: string)
    requires ':' !in a && ':' !in b && ':' !in c && (rest == "" || rest[0] == ':')
    ensures Hms(a + (":" + (b + (":" + (c + rest))))) ==
            (match (ParseI64(a), ParseI64(b), ParseI64(c))
             case (Some(h), Some(m), Some(s)) => Some((h, m, s))
             case _ => None)
  {
    hide ParseI64, Hms, FieldLen;
    var last := c + rest;
    var after := b + (":" + last);
    var t := a + (":" + after);
    FieldEnds(a, ":" + after);
    FieldEnds(b, ":" + last);
    FieldEnds(c, rest);
    AtColon(a, after);
    AtColon(b, last);
    assert last[..|c|] == c;
    SuffixOfSuffix(t, |a| + 1, |b| + 1);
    HmsIs(t, |a|, |b|, |c|);
  }

  lemma AtColon(x: string, y: string)
    ensures (x + (":" + y))[..|x|] == x && (x + (":" + y))[|x| + 1..] == y
  {
  }

  lemma SuffixOfSuffix(t: string, i: nat, j: nat)
    requires i + j <= |t|
    ensures t[i..][j..] == t[i + j..]
  {
  }

  /** The fields of a time, by their lengths. */
  lemma HmsIs(t: string, i: nat, j: nat, k: nat)
    requires i == FieldLen(t) < |t| && j == FieldLen(t[i + 1..]) < |t[i + 1..]| && k == FieldLen(t[i + 1..][j + 1..])
    ensures var rest := t[i + 1..];
            Hms(t) == (match (ParseI64(t[..i]), ParseI64(rest[..j]), ParseI64(rest[j + 1..][..k]))
                       case (Some(h), Some(m), Some(s)) => Some((h, m, s))
                       case _ => None)
  {
    hide ParseI64, FieldLen;
    var rest := t[i + 1..];
    assert rest[j + 1..] == t[i + 1 + j + 1..];
    assert rest[..j] == t[i + 1..i + 1 + j] && rest[j + 1..][..k] == t[i + 1 + j + 1..i + 1 + j + 1 + k];
  }

  lemma HmsTooShort(a: string, b: string)
    requires ':' !in a && ':' !in b
    ensures Hms(a + (":" + b)) == None && Hms(a) == None
  {
    hide ParseInt;
    FieldEnds(a, ":" + b);
    FieldEnds(b, "");
    FieldEnds(a, "");
    assert (a + (":" + b))[|a| + 1..] == b && b + "" == b && a + "" == a;
  }

  function ClockText(h: nat, m: nat, s: nat): string {
    Decimal(h, 2) + (":" + (Decimal(m, 2) + (":" + Decimal(s, 2))))
  }

  lemma ClockParses(h: nat, m: nat, s: nat)
    requires h < 100 && m < 100 && s < 100
    ensures Hms(ClockText(h, m, s)) == Some((h, m, s))
    ensures forall c :: c in ClockText(h, m, s) ==> !IsSpace(c)
  {
    hide Decimal, Digits;
    assert Pow10(2) == 100;
    DecimalDigits(h, 2);
    DecimalDigits(m, 2);
    DecimalDigits(s, 2);
    DecimalParses(h, 2, -I64_MAX - 1, I64_MAX);
    DecimalParses(m, 2, -I64_MAX - 1, I64_MAX);
    DecimalParses(s, 2, -I64_MAX - 1, I64_MAX);
    var a, b, c := Decimal(h, 2), Decimal(m, 2), Decimal(s, 2);
    FieldEnds(a, ":" + (b + (":" + c)));
    FieldEnds(b, ":" + c);
    FieldEnds(c, "");
    var t := ClockText(h, m, s);
    assert t[..2] == a && t[3..] == b + (":" + c) && t[3..5] == b && t[6..] == c && t[6..8] == c;
    assert c + "" == c;
  }

  /** The date as a server writes it: "Wed, 06 Aug 2026 13:05:29 GMT". */
  function ImfFixdate(weekday: string, t: Moment): string
    requires ValidMoment(t) && 0 <= t.date.year < 10000
  {
    weekday + ", " + (Decimal(t.date.day, 2) + DateTail(t))
  }

  /** The names of the months, section 7.1.1.1 of RFC 7231. */
  function MonthName(m: int): string
    requires 1 <= m <= 12
  {
    match m
    case 1 => "Jan" case 2 => "Feb" case 3 => "Mar" case 4 => "Apr" case 5 => "May" case 6 => "Jun"
    case 7 => "Jul" case 8 => "Aug" case 9 => "Sep" case 10 => "Oct" case 11 => "Nov" case _ => "Dec"
  }

  function DateTail(t: Moment): string
    requires ValidMoment(t) && 0 <= t.date.year < 10000
  {
    " " + MonthName(t.date.month) + (" " + Decimal(t.date.year, 4) + (" " + ClockText(t.hour, t.minute, t.second) + " GMT"))
  }

  lemma {:induction false} CommaFound(weekday: string, rest: string)
    requires forall c :: c in weekday ==> c != ','
    ensures AfterComma(weekday + ", " + rest) == Some(rest)
  {
    var s := weekday + ", " + rest;
    if weekday == [] {
      assert s[2..] == rest;
    } else {
      assert weekday[0] in weekday;
      assert s[1..] == weekday[1..] + ", " + rest;
      assert forall c :: c in weekday[1..] ==> c in weekday;
      CommaFound(weekday[1..], rest);
    }
  }

  lemma MonthNames(m: int)
    requires 1 <= m <= 12
    ensures MonthFrom(MonthName(m), 0) == Some(m)
    ensures MonthName(m) != [] && forall c :: c in MonthName(m) ==> !IsSpace(c)
  {
    assert MONTHS[m - 1] == MonthName(m);
    MonthIsFirst(m, 0);
  }

  /** Only these twelve names are months. */
  lemma MonthFromExactly(name: string, m: int)
    ensures MonthFrom(name, 0) == Some(m) <==> 1 <= m <= 12 && name == MonthName(m)
    ensures MonthFrom(name, 0) == None <==> forall k :: 1 <= k <= 12 ==> name != MonthName(k)
  {
    hide MonthName;
    MonthFound(name, 0);
    if 1 <= m <= 12 {
      MonthNames(m);
    }
    forall k | 1 <= k <= 12
      ensures MonthFrom(MonthName(k), 0) == Some(k) && MONTHS[k - 1] == MonthName(k)
    {
      MonthNames(k);
      SameName(k);
    }
  }

  lemma SameName(k: int)
    requires 1 <= k <= 12
    ensures MONTHS[k - 1] == MonthName(k)
  {
  }

  lemma {:induction false} MonthFound(name: string, i: nat)
    requires i <= 12
    ensures var r := MonthFrom(name, i);
            r.Some? ==> i < r.value <= 12 && MONTHS[r.value - 1] == name
    decreases 12 - i
  {
    if i < 12 {
      MonthFound(name, i + 1);
    }
  }

  lemma {:induction false} MonthIsFirst(m: int, i: nat)
    requires 1 <= m <= 12 && i < m
    ensures MonthFrom(MONTHS[m - 1], i) == Some(m)
    decreases m - i
  {
    if i < m - 1 {
      MonthsDiffer(i, m - 1);
      MonthIsFirst(m, i + 1);
    }
  }

  lemma MonthsDiffer(i: nat, j: nat)
    requires i < j < 12
    ensures MONTHS[i] != MONTHS[j]
  {
    var a, b := MONTHS[i], MONTHS[j];
    assert a[0] != b[0] || a[1] != b[1] || a[2] != b[2];
  }

  lemma DigitsAreNotSpace(s: string)
    requires forall c :: c in s ==> IsDigit(c)
    ensures forall c :: c in s ==> !IsSpace(c)
  {
  }

  /** Reading back the date of any moment of the years 0 to 9999 gives its seconds since the epoch, or
      nothing when it lies before the epoch. */
  lemma FixdateRoundTrip(weekday: string, t: Moment)
    requires ValidMoment(t) && 0 <= t.date.year < 10000 && forall c :: c in weekday ==> c != ','
    ensures 0 <= Seconds(t) <==> 1970 <= t.date.year
    ensures ParseImfFixdate(ImfFixdate(weekday, t)) == if 1970 <= t.date.year then Some(Seconds(t)) else None
  {
    hide Decimal, DayNumber, NextWord, ParseInt, MonthFrom, MonthName, Hms, ClockText, Digits, IsSpace;
    SecondsAreSmall(t);
    var d := t.date;
    var dayWord, monthWord, yearWord, timeWord :=
      Decimal(d.day, 2), MonthName(d.month), Decimal(d.year, 4), ClockText(t.hour, t.minute, t.second);
    CommaFound(weekday, dayWord + DateTail(t));
    assert Pow10(2) == 100 && Pow10(4) == 10000;
    DecimalParses(d.day, 2, 0, U32_LIMIT - 1);
    DecimalParses(d.year, 4, -I64_MAX - 1, I64_MAX);
    DecimalDigits(d.day, 2);
    DecimalDigits(d.year, 4);
    DigitsAreNotSpace(dayWord);
    DigitsAreNotSpace(yearWord);
    MonthNames(d.month);
    ClockParses(t.hour, t.minute, t.second);
    SpaceIsSpace();
    FirstWord(dayWord, DateTail(t));
    FirstWord(monthWord, " " + yearWord + (" " + timeWord + " GMT"));
    FirstWord(yearWord, " " + timeWord + " GMT");
    FirstWord(timeWord, " GMT") by { ClockNotEmpty(t.hour, t.minute, t.second); }
  }

  /** The example of that section, word by word. */
  lemma StandardExample()
    ensures ParseImfFixdate("Sun" + ", " + ("06" + (" " + "Nov" + (" " + "1994" + (" " + "08:49:37" + " GMT")))))
         == Some(784111777)
  {
    hide ParseImfFixdate, Decimal, DayNumber, DaysFromCivil;
    var t := Moment(Date(1994, 11, 6), 8, 49, 37);
    ExampleIsWritten(t);
    FixdateRoundTrip("Sun", t);
    ExampleDays();
  }

  lemma TwoDigits(n: nat)
    requires n < 100
    ensures Decimal(n, 2) == [Digit(n / 10), Digit(n % 10)]
  {
    assert Decimal(n / 10 / 10, 0) == "";
    assert Decimal(n / 10, 1) == [Digit(n / 10)];
  }

  lemma ExampleYear()
    ensures Decimal(1994, 4) == "1994"
  {
    assert Decimal(1, 1) == "1";
    assert Decimal(19, 2) == "19";
    assert Decimal(199, 3) == "199";
  }

  lemma ExampleClock()
    ensures ClockText(8, 49, 37) == "08:49:37"
  {
    hide Decimal;
    TwoDigits(8);
    TwoDigits(49);
    TwoDigits(37);
  }

  lemma ExampleIsWritten(t: Moment)
    requires t == Moment(Date(1994, 11, 6), 8, 49, 37)
    ensures ImfFixdate("Sun", t) == "Sun" + ", " + ("06" + (" " + "Nov" + (" " + "1994" + (" " + "08:49:37" + " GMT"))))
  {
    hide Decimal, ClockText;
    ExampleDay();
    ExampleYear();
    ExampleClock();
  }

  lemma ExampleDay()
    ensures Decimal(6, 2) == "06"
  {
    hide Decimal;
    TwoDigits(6);
  }

  lemma ExampleDays()
    ensures Seconds(Moment(Date(1994, 11, 6), 8, 49, 37)) == 784111777
  {
  }

  lemma SpaceIsSpace()
    ensures IsSpace(' ')
  {
  }

  lemma ClockNotEmpty(h: nat, m: nat, s: nat)
    ensures ClockText(h, m, s) != []
  {
    assert |ClockText(h, m, s)| == 8;
  }

  lemma SecondsAreSmall(t: Moment)
    requires ValidMoment(t) && 0 <= t.date.year < 10000
    ensures Seconds(t) < U64_LIMIT && (0 <= Seconds(t) <==> 1970 <= t.date.year)
  {
    hide DaysFromCivil, DayNumber, DaysInMonth;
    OrderExactly(t.date, EPOCH);
    OrderExactly(t.date, Date(10000, 1, 1));
    FarAway();
  }

  lemma FarAway()
    ensures DayNumber(EPOCH) == 0 && DayNumber(Date(10000, 1, 1)) < 0x100_0000
  {
  }
}
