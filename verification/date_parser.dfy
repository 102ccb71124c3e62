/**
 * Listing-page date strings to timestamps (`utils/date_parser.py`).
 *
 * Three textual shapes are recognised after stripping and mapping Persian
 * digits to ASCII: ISO 8601 (`2025-01-05T10:00:00`), a Jalali date with a
 * month name (`10 آذر 04 - 14:15`) and a numeric Jalali date
 * (`1404-09-10 14:34`). Calendar arithmetic is done by libraries the model
 * does not interpret; they are the two functions of a `Calendar`.
 */
module DateParser {

  import opened Wrappers
  import opened PyValues
  import opened PyStrings

  /**
   * The foreign calendar code: `datetime.fromisoformat(s)` followed by
   * `.timestamp()`, and `jdatetime.datetime(y, m, d, H, M).togregorian()`
   * followed by `.timestamp()`. Either may raise.
   */
  datatype Calendar = Calendar(
    fromIso: string -> Result<int, Error>,
    jalali: (int, int, int, int, int) -> Result<int, Error>)

  // ---------------------------------------------------------------------------
  // Persian digits
  // ---------------------------------------------------------------------------

  const PersianDigits: string := "۰۱۲۳۴۵۶۷۸۹"
  const AsciiDigits: string := "0123456789"

  predicate IsPersianDigit(c: char) {
    '۰' <= c <= '۹'
  }

  /** The ASCII digit with the same value as a Persian digit; other characters unchanged. */
  function DigitToAscii(c: char): (d: char)
    ensures IsPersianDigit(c) ==> IsDigit(d) && d as int - '0' as int == c as int - '۰' as int
    ensures !IsPersianDigit(c) ==> d == c
  {
    if IsPersianDigit(c) then ('0' as int + (c as int - '۰' as int)) as char else c
  }

  /** `s.replace(f, e)` for one-character strings. */
  function ReplaceChar(s: string, f: char, e: char): (r: string)
    ensures |r| == |s|
    ensures forall i :: 0 <= i < |s| ==> r[i] == (if s[i] == f then e else s[i])
  {
    seq(|s|, i requires 0 <= i < |s| => if s[i] == f then e else s[i])
  }

  /** The loop of `fa_to_en_numbers`: replace the digits `k..9` one after the other. */
  function ReplaceDigitsFrom(s: string, k: nat): string
    requires k <= 10
    decreases 10 - k
  {
    if k == 10 then s
    else ReplaceDigitsFrom(ReplaceChar(s, PersianDigits[k], AsciiDigits[k]), k + 1)
  }

  lemma DigitTables(k: nat)
    requires k < 10
    ensures PersianDigits[k] as int == '۰' as int + k
    ensures AsciiDigits[k] as int == '0' as int + k
  {
    if k == 0 {} else if k == 1 {} else if k == 2 {} else if k == 3 {} else if k == 4 {}
    else if k == 5 {} else if k == 6 {} else if k == 7 {} else if k == 8 {} else {}
  }

  /** The first `k` Persian digits already mapped, the rest not yet. */
  function PartlyMapped(c: char, k: nat): char {
    if IsPersianDigit(c) && c as int - '۰' as int < k then DigitToAscii(c) else c
  }

  lemma {:induction false} ReplaceDigitsFromSpec(s0: string, s: string, k: nat)
    requires k <= 10
    requires |s| == |s0|
    requires forall i :: 0 <= i < |s| ==> s[i] == PartlyMapped(s0[i], k)
    ensures var r := ReplaceDigitsFrom(s, k);
      |r| == |s0| && forall i :: 0 <= i < |s0| ==> r[i] == DigitToAscii(s0[i])
    decreases 10 - k
  {
    if k < 10 {
      DigitTables(k);
      var t := ReplaceChar(s, PersianDigits[k], AsciiDigits[k]);
      forall i | 0 <= i < |s|
        ensures t[i] == PartlyMapped(s0[i], k + 1)
      {
        var c := s0[i];
        if IsPersianDigit(c) && c as int - '۰' as int < k {
          assert s[i] == DigitToAscii(c);
        }
      }
      ReplaceDigitsFromSpec(s0, t, k + 1);
    }
  }

  /**
   * `fa_to_en_numbers(s)`: every Persian digit becomes the ASCII digit of the
   * same value; every other character stays where it is.
   */
  function FaToEnNumbers(s: string): (r: string)
    ensures |r| == |s|
    ensures forall i :: 0 <= i < |s| ==> r[i] == DigitToAscii(s[i])
  {
    ReplaceDigitsFromSpec(s, s, 0);
    ReplaceDigitsFrom(s, 0)
  }

  predicate NoPersianDigit(s: string) {
    forall i :: 0 <= i < |s| ==> !IsPersianDigit(s[i])
  }

  /** The output holds no Persian digit, and mapping it again changes nothing. */
  lemma FaToEnIdempotent(s: string)
    ensures NoPersianDigit(FaToEnNumbers(s))
    ensures FaToEnNumbers(FaToEnNumbers(s)) == FaToEnNumbers(s)
  {
  }

  /** A string without Persian digits is left as it is. */
  lemma FaToEnIdentity(s: string)
    requires NoPersianDigit(s)
    ensures FaToEnNumbers(s) == s
  {
  }

  /** `str.strip` and the digit mapping commute: digits are never whitespace. */
  lemma {:induction false} StripCommutes(s: string)
    ensures Strip(FaToEnNumbers(s)) == FaToEnNumbers(Strip(s))
  {
    LStripCommutes(s);
    RStripCommutes(LStrip(s));
  }

  lemma {:induction false} LStripCommutes(s: string)
    ensures LStrip(FaToEnNumbers(s)) == FaToEnNumbers(LStrip(s))
    decreases |s|
  {
    var m := FaToEnNumbers(s);
    if |s| > 0 {
      assert IsSpace(m[0]) == IsSpace(s[0]);
      if IsSpace(s[0]) {
        assert m[1..] == FaToEnNumbers(s[1..]);
        LStripCommutes(s[1..]);
      }
    }
  }

  lemma {:induction false} RStripCommutes(s: string)
    ensures RStrip(FaToEnNumbers(s)) == FaToEnNumbers(RStrip(s))
    decreases |s|
  {
    var m := FaToEnNumbers(s);
    if |s| > 0 {
      assert IsSpace(m[|s| - 1]) == IsSpace(s[|s| - 1]);
      if IsSpace(s[|s| - 1]) {
        assert m[..|s| - 1] == FaToEnNumbers(s[..|s| - 1]);
        RStripCommutes(s[..|s| - 1]);
      }
    }
  }

  // ---------------------------------------------------------------------------
  // Month names
  // ---------------------------------------------------------------------------

  /** `month_map`: the twelve Jalali month names. */
  const MonthMap: map<string, int> := map[
    "فروردین" := 1, "اردیبهشت" := 2, "خرداد" := 3, "تیر" := 4,
    "مرداد" := 5, "شهریور" := 6, "مهر" := 7, "آبان" := 8,
    "آذر" := 9, "دی" := 10, "بهمن" := 11, "اسفند" := 12]

  /** The name of month `m`, the inverse of `MonthMap`. */
  function MonthName(m: int): string
    requires 1 <= m <= 12
  {
    match m
    case 1 => "فروردین"
    case 2 => "اردیبهشت"
    case 3 => "خرداد"
    case 4 => "تیر"
    case 5 => "مرداد"
    case 6 => "شهریور"
    case 7 => "مهر"
    case 8 => "آبان"
    case 9 => "آذر"
    case 10 => "دی"
    case 11 => "بهمن"
    case _ => "اسفند"
  }

  /** Each month number names a key of `month_map` that maps back to it. */
  lemma MonthNameInverse(m: int)
    requires 1 <= m <= 12
    ensures MonthName(m) in MonthMap && MonthMap[MonthName(m)] == m
  {
  }

  /**
   * `month_map` is a bijection from its names onto 1..12: every key maps into
   * 1..12 and is the name of its number, every number is reached by its name.
   */
  lemma MonthMapBijection()
    ensures forall name :: name in MonthMap ==>
      1 <= MonthMap[name] <= 12 && MonthName(MonthMap[name]) == name
    ensures forall m :: 1 <= m <= 12 ==> MonthName(m) in MonthMap && MonthMap[MonthName(m)] == m
  {
    forall m | 1 <= m <= 12
      ensures MonthName(m) in MonthMap && MonthMap[MonthName(m)] == m
    {
      MonthNameInverse(m);
    }
  }

  /** Every month name is a whitespace-free token of Persian letters. */
  lemma MonthNameLetters(m: int)
    requires 1 <= m <= 12
    ensures IsToken(MonthName(m))
    ensures forall i :: 0 <= i < |MonthName(m)| ==>
      var c := MonthName(m)[i]; 'آ' <= c <= 'ی' && !IsPersianDigit(c)
  {
  }

  /** `any(m in s for m in month_map)`. */
  predicate MentionsMonth(s: string) {
    exists name :: name in MonthMap && HasInfix(s, name)
  }

  // ---------------------------------------------------------------------------
  // parse_date
  // ---------------------------------------------------------------------------

  /**
   * The text every format test sees: stripped, then Persian digits mapped. It
   * holds no Persian digit and no whitespace at either end.
   */
  function Normalise(raw: string): (s: string)
    ensures NoPersianDigit(s) && NoEdgeSpace(s)
  {
    var t := Strip(raw);
    FaToEnEdges(t);
    FaToEnIdempotent(t);
    FaToEnNumbers(t)
  }

  /** Digit mapping neither adds nor removes whitespace at the ends. */
  lemma FaToEnEdges(t: string)
    requires NoEdgeSpace(t)
    ensures NoEdgeSpace(FaToEnNumbers(t))
  {
    var r := FaToEnNumbers(t);
    if |t| > 0 {
      assert r[0] == DigitToAscii(t[0]);
      assert r[|t| - 1] == DigitToAscii(t[|t| - 1]);
    }
  }

  /**
   * The two-digit Jalali year pivot: every year below 100 (a negative one
   * too, since `int()` reads a sign) is moved up by 1400, so 0..99 lands in
   * 1400..1499; a year from 100 on is kept.
   */
  function Pivot(year: int): (y: int)
    ensures year < 100 ==> y - year == 1400
    ensures 0 <= year < 100 ==> 1400 <= y < 1500
    ensures year >= 100 ==> y == year
  {
    if year < 100 then year + 1400 else year
  }

  /**
   * `hour, minute = map(int, t.split(":"))`: ValueError unless the text has
   * exactly one `:` between two texts `int()` reads.
   */
  function ParseClock(t: string): (r: Result<(int, int), Error>)
    ensures r.Err? ==> r.error == BadValue
    ensures r.Ok? ==> CountChar(t, ':') == 1
    ensures r.Ok? ==>
      && |Split(t, ":")| == 2
      && IntParse(Split(t, ":")[0]) == Ok(r.value.0)
      && IntParse(Split(t, ":")[1]) == Ok(r.value.1)
  {
    var parts := Split(t, ":");
    SplitCharCount(t, ':');
    if |parts| != 2 then Err(BadValue)
    else
      var hour :- IntParse(parts[0]);
      var minute :- IntParse(parts[1]);
      Ok((hour, minute))
  }

  /** The shape the month-name branch unpacks: two halves around `" - "`, three fields, a month name in the middle. */
  predicate MonthNameFields(s: string) {
    var halves := Split(s, " - ");
    |halves| == 2 && |SplitWs(halves[0])| == 3 && SplitWs(halves[0])[1] in MonthMap
  }

  /**
   * The branch for `10 آذر 04 - 14:15`. Unpacking the wrong number of parts
   * raises ValueError, an unknown month name raises KeyError.
   */
  function ParseMonthNameDate(s: string, cal: Calendar): (r: Result<int, Error>)
    ensures r.Ok? ==> MonthNameFields(s)
    ensures |Split(s, " - ")| != 2 || |SplitWs(Split(s, " - ")[0])| != 3 ==> r == Err(BadValue)
    ensures |Split(s, " - ")| == 2 && |SplitWs(Split(s, " - ")[0])| == 3 && SplitWs(Split(s, " - ")[0])[1] !in MonthMap
      ==> r == Err(KeyError(SplitWs(Split(s, " - ")[0])[1]))
  {
    var halves := Split(s, " - ");
    if |halves| != 2 then Err(BadValue)
    else
      var fields := SplitWs(halves[0]);
      if |fields| != 3 then Err(BadValue)
      else if fields[1] !in MonthMap then Err(KeyError(fields[1]))
      else
        var month := MonthMap[fields[1]];
        var year :- IntParse(fields[2]);
        var clock :- ParseClock(halves[1]);
        var day :- IntParse(fields[0]);
        cal.jalali(Pivot(year), month, day, clock.0, clock.1)
  }

  /**
   * The shape the numeric branch unpacks: two halves around a space, a
   * `y-mo-d` date of three integers and an `h:mi` clock.
   */
  predicate NumericFields(s: string) {
    var halves := Split(s, " ");
    && |halves| == 2
    && var ymd := Split(halves[0], "-");
    && |ymd| == 3 && IntParse(ymd[0]).Ok? && IntParse(ymd[1]).Ok? && IntParse(ymd[2]).Ok?
    && ParseClock(halves[1]).Ok?
  }

  /**
   * The branch for `1404-09-10 14:34`: text without the numeric shape raises
   * ValueError, and text that gets through has exactly one space.
   */
  function ParseNumericDate(s: string, cal: Calendar): (r: Result<int, Error>)
    ensures !NumericFields(s) ==> r == Err(BadValue)
    ensures r.Ok? ==> NumericFields(s) && CountChar(s, ' ') == 1
  {
    var halves := Split(s, " ");
    SplitCharCount(s, ' ');
    if |halves| != 2 then Err(BadValue)
    else
      var ymd := Split(halves[0], "-");
      if |ymd| != 3 then Err(BadValue)
      else
        var year :- IntParse(ymd[0]);
        var month :- IntParse(ymd[1]);
        var day :- IntParse(ymd[2]);
        var clock :- ParseClock(halves[1]);
        cal.jalali(Pivot(year), month, day, clock.0, clock.1)
  }

  /** Which test of `parse_date` fires first on normalised text. */
  datatype Shape = IsoShape | MonthNameShape | NumericShape | Unrecognised

  /**
   * The tests of `parse_date` in their order: a `T` wins over everything, and
   * both Jalali shapes need a `-` (the month-name precedence is stated by
   * `MonthShapeOf`).
   */
  function ShapeOf(s: string): (shape: Shape)
    ensures shape == IsoShape <==> 'T' in s
    ensures shape == MonthNameShape || shape == NumericShape ==> 'T' !in s && '-' in s
    ensures shape == NumericShape ==> ' ' in s
    ensures 'T' !in s && '-' !in s ==> shape == Unrecognised
  {
    if 'T' in s then IsoShape
    else if '-' in s && MentionsMonth(s) then MonthNameShape
    else if '-' in s && ' ' in s then NumericShape
    else Unrecognised
  }

  /**
   * The month-name test needs a dash and a month name; the numeric test is
   * reached only without one, and needs a dash and a space.
   */
  lemma ShapeBranches(s: string)
    ensures ShapeOf(s) == MonthNameShape <==> 'T' !in s && '-' in s && MentionsMonth(s)
    ensures ShapeOf(s) == NumericShape <==> 'T' !in s && '-' in s && !MentionsMonth(s) && ' ' in s
  {
  }

  /**
   * `parse_date(date_str)`: the timestamp, or the exception it raises. Text
   * with a `T` goes to `fromisoformat`; text no test matches raises the
   * "Unrecognized date format" ValueError naming the normalised text.
   */
  function ParseDate(raw: string, cal: Calendar): (r: Result<int, Error>)
    ensures ShapeOf(Normalise(raw)) == IsoShape ==> r == cal.fromIso(Normalise(raw))
    ensures ShapeOf(Normalise(raw)) == Unrecognised ==>
      r == Err(ValueError("Unrecognized date format: " + Normalise(raw)))
  {
    ParseNormalised(Normalise(raw), cal)
  }

  /** The format dispatch of `parse_date` on already normalised text. */
  function ParseNormalised(s: string, cal: Calendar): Result<int, Error> {
    match ShapeOf(s)
    case IsoShape => cal.fromIso(s)
    case MonthNameShape => ParseMonthNameDate(s, cal)
    case NumericShape => ParseNumericDate(s, cal)
    case Unrecognised => Err(ValueError("Unrecognized date format: " + s))
  }

  // ---------------------------------------------------------------------------
  // Properties of parse_date
  // ---------------------------------------------------------------------------

  /** The format tests only ever see stripped, digit-mapped text. */
  lemma NormaliseIdempotent(raw: string)
    ensures Normalise(Normalise(raw)) == Normalise(raw)
  {
    var t := Strip(raw);
    StripCommutes(t);
    FaToEnIdempotent(t);
  }

  /** Stripping and digit mapping happen before any test: normalising first changes nothing. */
  lemma ParseDateNormalisesFirst(raw: string, cal: Calendar)
    ensures ParseDate(Normalise(raw), cal) == ParseDate(raw, cal)
  {
    NormaliseIdempotent(raw);
  }

  /** Persian and ASCII spellings of the same digits parse alike. */
  lemma ParseDateIgnoresDigitScript(a: string, b: string, cal: Calendar)
    requires FaToEnNumbers(a) == FaToEnNumbers(b)
    ensures ParseDate(a, cal) == ParseDate(b, cal)
  {
    StripCommutes(a);
    StripCommutes(b);
  }

  /** A `T` anywhere selects the ISO branch, whatever else the text holds. */
  lemma IsoTakesPrecedence(raw: string, cal: Calendar)
    requires 'T' in Normalise(raw)
    ensures ParseDate(raw, cal) == cal.fromIso(Normalise(raw))
  {
  }

  /** Text with neither `T` nor `-` is rejected with the "Unrecognized date format" error. */
  lemma RejectsWithoutDash(raw: string, cal: Calendar)
    requires 'T' !in Normalise(raw) && '-' !in Normalise(raw)
    ensures ParseDate(raw, cal) == Err(ValueError("Unrecognized date format: " + Normalise(raw)))
  {
  }

  /** Text with a `-` but no month name and no space is rejected the same way. */
  lemma RejectsDashOnly(raw: string, cal: Calendar)
    requires 'T' !in Normalise(raw) && !MentionsMonth(Normalise(raw)) && ' ' !in Normalise(raw)
    ensures ParseDate(raw, cal) == Err(ValueError("Unrecognized date format: " + Normalise(raw)))
  {
  }

  /** The characters the two Jalali formats are written with. */
  predicate DateChar(c: char) {
    IsDigit(c) || c == ' ' || c == '-' || c == ':' || ('آ' <= c <= 'ی')
  }

  predicate AllDateChars(s: string) {
    forall i :: 0 <= i < |s| ==> DateChar(s[i])
  }

  lemma DateCharsConcat(a: string, b: string)
    requires AllDateChars(a) && AllDateChars(b)
    ensures AllDateChars(a + b)
  {
  }

  /** A field of a Jalali date: a token of date characters without `-` or `:`. */
  predicate DateField(t: string) {
    IsToken(t) && AllDateChars(t) && '-' !in t && ':' !in t
  }

  /** Text below the Persian letters: no month name can occur in it. */
  predicate Ascii(s: string) {
    forall i :: 0 <= i < |s| ==> s[i] < 'آ'
  }

  lemma AsciiConcat(a: string, b: string)
    requires Ascii(a) && Ascii(b)
    ensures Ascii(a + b)
  {
  }

  /** A field written in ASCII only. */
  predicate AsciiField(t: string) {
    DateField(t) && Ascii(t)
  }

  lemma NatField(n: nat)
    ensures AsciiField(NatToString(n))
  {
  }

  /** Text made of date characters without whitespace at its ends is already normalised. */
  lemma DateTextNormalised(s: string)
    requires AllDateChars(s) && NoEdgeSpace(s)
    ensures Normalise(s) == s && 'T' !in s
  {
    assert Strip(s) == s;
    FaToEnIdentity(s);
  }

  /** Text made only of ASCII characters mentions no month name. */
  lemma AsciiMentionsNoMonth(s: string)
    requires Ascii(s)
    ensures !MentionsMonth(s)
  {
    forall name | name in MonthMap
      ensures !HasInfix(s, name)
    {
      MonthMapBijection();
      MonthNameLetters(MonthMap[name]);
      if HasInfix(s, name) {
        InfixFirstChar(s, name);
        assert false;
      }
    }
  }

  /** A `h:mi` clock made of two fields is a token of date characters without `-`. */
  lemma ClockText(h: string, mi: string)
    requires DateField(h) && DateField(mi)
    ensures var t := h + ":" + mi;
      IsToken(t) && AllDateChars(t) && '-' !in t && ' ' !in t
  {
    DateCharsConcat(h, ":");
    DateCharsConcat(h + ":", mi);
  }

  /** `map(int, (h + ":" + mi).split(":"))` gives the two numbers. */
  lemma ClockParse(h: string, mi: string, hour: int, minute: int)
    requires DateField(h) && DateField(mi)
    requires IntParse(h) == Ok(hour) && IntParse(mi) == Ok(minute)
    ensures ParseClock(h + ":" + mi) == Ok((hour, minute))
  {
    assert Join(":", [h, mi]) == h + ":" + mi;
    SplitJoin(":", [h, mi]);
  }

  /** Three fields separated by single spaces split back into those fields. */
  lemma ThreeFieldsSplitWs(d: string, n: string, y: string)
    requires IsToken(d) && IsToken(n) && IsToken(y)
    ensures SplitWs(d + " " + n + " " + y) == [d, n, y]
  {
    assert d + " " + n + " " + y == d + [' '] + (n + " " + y);
    SplitWsToken(d, ' ', n + " " + y);
    assert n + " " + y == n + [' '] + y;
    SplitWsToken(n, ' ', y);
    SplitWsSingle(y);
  }

  /** `date_part + " - " + time_part` splits on `" - "` into its two halves. */
  lemma DashHalvesSplit(datePart: string, timePart: string)
    requires '-' !in datePart && '-' !in timePart && ' ' !in timePart
    ensures Split(datePart + " - " + timePart, " - ") == [datePart, timePart]
  {
    var s := datePart + " - " + timePart;
    NoSepIfCharAbsent(datePart, " - ", 1, " - " + timePart);
    assert s == datePart + (" - " + timePart);
    SplitAt(s, " - ", |datePart|);
    assert s[..|datePart|] == datePart;
    assert s[|datePart| + 3..] == timePart;
    NoFirstCharNoSep(timePart, " - ", "");
    assert timePart + "" == timePart;
    SplitNone(timePart, " - ");
  }

  /** A month name inside dash-bearing text without `T` selects the month-name branch. */
  lemma MonthShapeOf(s: string, n: string)
    requires 'T' !in s && '-' in s
    requires n in MonthMap && HasInfix(s, n)
    ensures ShapeOf(s) == MonthNameShape
  {
  }

  /** Gluing date-character strings keeps every character a date character. */
  lemma DateCharsConcat5(a: string, b: string, c: string, e: string, f: string)
    requires AllDateChars(a) && AllDateChars(b) && AllDateChars(c) && AllDateChars(e) && AllDateChars(f)
    ensures AllDateChars(a + b + c + e + f)
  {
    DateCharsConcat(a, b);
    DateCharsConcat(a + b, c);
    DateCharsConcat(a + b + c, e);
    DateCharsConcat(a + b + c + e, f);
  }

  /** The month-name text is normalised already and selects the month-name branch. */
  lemma MonthTextShape(d: string, n: string, y: string, timePart: string)
    requires DateField(d) && DateField(n) && DateField(y)
    requires IsToken(timePart) && AllDateChars(timePart)
    requires n in MonthMap
    ensures var s := d + " " + n + " " + y + " - " + timePart;
      Normalise(s) == s && ShapeOf(s) == MonthNameShape
  {
    var pre := d + " ";
    var post := " " + y + " - " + timePart;
    DateCharsConcat5(" ", y, " ", "-", " ");
    DateCharsConcat(" " + y + " " + "-" + " ", timePart);
    assert post == " " + y + " " + "-" + " " + timePart;
    DateCharsConcat(d, " ");
    DateCharsConcat(pre, n);
    DateCharsConcat(pre + n, post);
    var s := pre + n + post;
    assert s == d + " " + n + " " + y + " - " + timePart;
    assert s[0] == d[0] && s[|s| - 1] == timePart[|timePart| - 1];
    DateTextNormalised(s);
    assert s[|pre| + |n| + |y| + 2] == '-';
    InfixOfConcat(pre, n, post);
    MonthShapeOf(s, n);
  }

  /** Normalised text takes the branch its shape selects. */
  lemma MonthNameDispatch(s: string, cal: Calendar)
    requires Normalise(s) == s && ShapeOf(s) == MonthNameShape
    ensures ParseDate(s, cal) == ParseMonthNameDate(s, cal)
  {
    assert ParseDate(s, cal) == ParseNormalised(s, cal);
  }

  lemma NumericDispatch(s: string, cal: Calendar)
    requires Normalise(s) == s && ShapeOf(s) == NumericShape
    ensures ParseDate(s, cal) == ParseNumericDate(s, cal)
  {
    assert ParseDate(s, cal) == ParseNormalised(s, cal);
  }

  /**
   * Text with a dash and a month name commits to the month-name branch: when
   * its shape is not `d <month> y - t` the call raises (ValueError from the
   * unpacking or KeyError for the middle field) and the numeric test is
   * never tried, even on text it would read.
   */
  lemma MonthNameBranchRaises(raw: string, cal: Calendar)
    requires ShapeOf(Normalise(raw)) == MonthNameShape && !MonthNameFields(Normalise(raw))
    ensures ParseDate(raw, cal).Err?
    ensures ParseDate(raw, cal).error == BadValue || ParseDate(raw, cal).error.KeyError?
  {
  }

  /**
   * The numeric branch reads only `y-mo-d h:mi` with integer fields and
   * exactly one space; any other text that reaches it raises ValueError.
   */
  lemma NumericBranchNeedsFields(raw: string, cal: Calendar)
    requires ShapeOf(Normalise(raw)) == NumericShape
    ensures !NumericFields(Normalise(raw)) ==> ParseDate(raw, cal) == Err(BadValue)
    ensures ParseDate(raw, cal).Ok? ==> NumericFields(Normalise(raw)) && CountChar(Normalise(raw), ' ') == 1
  {
  }

  /**
   * Text without `T` that has a dash and names a month is read by the
   * month-name branch, whatever else it holds.
   */
  lemma MonthNameBranchTaken(raw: string, cal: Calendar)
    requires var n := Normalise(raw); 'T' !in n && '-' in n && MentionsMonth(n)
    ensures ParseDate(raw, cal) == ParseMonthNameDate(Normalise(raw), cal)
  {
    ShapeBranches(Normalise(raw));
  }

  /**
   * Text without `T` and without a month name that has a dash and a space is
   * read by the numeric branch.
   */
  lemma NumericBranchTaken(raw: string, cal: Calendar)
    requires var n := Normalise(raw); 'T' !in n && '-' in n && !MentionsMonth(n) && ' ' in n
    ensures ParseDate(raw, cal) == ParseNumericDate(Normalise(raw), cal)
  {
    ShapeBranches(Normalise(raw));
  }

  lemma CharAbsentConcat(a: string, b: string, c: char)
    requires c !in a && c !in b
    ensures c !in a + b
  {
  }

  /** The month-name branch once its splits are known. */
  lemma MonthNameDateEval(s: string, datePart: string, timePart: string, d: string, n: string, y: string,
                          day: int, year: int, hour: int, minute: int, cal: Calendar)
    requires Split(s, " - ") == [datePart, timePart] && SplitWs(datePart) == [d, n, y]
    requires n in MonthMap
    requires IntParse(d) == Ok(day) && IntParse(y) == Ok(year)
    requires ParseClock(timePart) == Ok((hour, minute))
    ensures ParseMonthNameDate(s, cal) == cal.jalali(Pivot(year), MonthMap[n], day, hour, minute)
  {
  }

  /** The text `d n y - t` splits back into its parts. */
  lemma MonthTextSplits(d: string, n: string, y: string, timePart: string)
    requires IsToken(d) && IsToken(n) && IsToken(y) && '-' !in d && '-' !in n && '-' !in y
    requires '-' !in timePart && ' ' !in timePart
    ensures var datePart := d + " " + n + " " + y; var s := datePart + " - " + timePart;
      Split(s, " - ") == [datePart, timePart] && SplitWs(datePart) == [d, n, y]
  {
    CharAbsentConcat(d, " ", '-');
    CharAbsentConcat(d + " ", n, '-');
    CharAbsentConcat(d + " " + n, " ", '-');
    CharAbsentConcat(d + " " + n + " ", y, '-');
    DashHalvesSplit(d + " " + n + " " + y, timePart);
    ThreeFieldsSplitWs(d, n, y);
  }

  /** The month-name branch on `d n y - h:mi` built from well-formed fields. */
  lemma MonthTextParse(d: string, n: string, y: string, h: string, mi: string,
                       day: int, year: int, hour: int, minute: int, cal: Calendar)
    requires DateField(d) && DateField(n) && DateField(y) && DateField(h) && DateField(mi)
    requires n in MonthMap
    requires IntParse(d) == Ok(day) && IntParse(y) == Ok(year)
    requires IntParse(h) == Ok(hour) && IntParse(mi) == Ok(minute)
    ensures ParseDate((d + " " + n + " " + y) + " - " + (h + ":" + mi), cal)
      == cal.jalali(Pivot(year), MonthMap[n], day, hour, minute)
  {
    var datePart := d + " " + n + " " + y;
    var timePart := h + ":" + mi;
    var s := datePart + " - " + timePart;
    ClockText(h, mi);
    ClockParse(h, mi, hour, minute);
    MonthTextShape(d, n, y, timePart);
    MonthTextSplits(d, n, y, timePart);
    MonthNameDispatch(s, cal);
    MonthNameDateEval(s, datePart, timePart, d, n, y, day, year, hour, minute, cal);
  }

  /** The numeric text is normalised already and selects the numeric branch. */
  lemma NumericTextShape(datePart: string, timePart: string)
    requires |datePart| > 0 && IsDigit(datePart[0]) && '-' in datePart && ' ' !in datePart
    requires IsToken(timePart) && IsDigit(timePart[|timePart| - 1])
    requires AllDateChars(datePart) && AllDateChars(timePart)
    requires Ascii(datePart) && Ascii(timePart)
    ensures var s := datePart + " " + timePart;
      Normalise(s) == s && ShapeOf(s) == NumericShape
  {
    var s := datePart + " " + timePart;
    DateCharsConcat(datePart, " ");
    DateCharsConcat(datePart + " ", timePart);
    assert s[0] == datePart[0] && s[|s| - 1] == timePart[|timePart| - 1];
    DateTextNormalised(s);
    assert s[|datePart|] == ' ';
    AsciiConcat(datePart, " ");
    AsciiConcat(datePart + " ", timePart);
    AsciiMentionsNoMonth(s);
  }

  /** `y-mo-d` built from three ASCII fields. */
  lemma DashedDate(y: string, mo: string, d: string)
    requires AsciiField(y) && AsciiField(mo) && AsciiField(d)
    ensures var t := y + "-" + mo + "-" + d;
      && Split(t, "-") == [y, mo, d] && AllDateChars(t) && ' ' !in t && '-' in t
      && Ascii(t) && t[0] == y[0]
  {
    DashedDateChars(y, mo, d);
    DashedDateSplit(y, mo, d);
  }

  lemma DashedDateChars(y: string, mo: string, d: string)
    requires AsciiField(y) && AsciiField(mo) && AsciiField(d)
    ensures var t := y + "-" + mo + "-" + d;
      && AllDateChars(t) && ' ' !in t && '-' in t && Ascii(t) && t[0] == y[0]
  {
    var t := y + "-" + mo + "-" + d;
    DateCharsConcat(y, "-");
    DateCharsConcat(y + "-", mo);
    DateCharsConcat(y + "-" + mo, "-");
    DateCharsConcat(y + "-" + mo + "-", d);
    AsciiConcat(y, "-");
    AsciiConcat(y + "-", mo);
    AsciiConcat(y + "-" + mo, "-");
    AsciiConcat(y + "-" + mo + "-", d);
    assert t[|y|] == '-';
  }

  lemma DashedDateSplit(y: string, mo: string, d: string)
    requires DateField(y) && DateField(mo) && DateField(d)
    ensures Split(y + "-" + mo + "-" + d, "-") == [y, mo, d]
  {
    JoinCons("-", mo, [d]);
    JoinCons("-", y, [mo, d]);
    assert [y] + [mo, d] == [y, mo, d];
    ConcatAssoc(y + "-", mo + "-", d);
    ConcatAssoc(y + "-", mo, "-");
    SplitJoin("-", [y, mo, d]);
  }

  /** Two space-free halves joined by one space split back into those halves. */
  lemma SpaceHalvesSplit(datePart: string, timePart: string)
    requires ' ' !in datePart && ' ' !in timePart
    ensures Split(datePart + " " + timePart, " ") == [datePart, timePart]
  {
    assert Join(" ", [datePart, timePart]) == datePart + " " + timePart;
    SplitJoin(" ", [datePart, timePart]);
  }

  /** An ASCII clock `h:mi` is ASCII and ends with the last character of `mi`. */
  lemma AsciiClock(h: string, mi: string)
    requires AsciiField(h) && AsciiField(mi)
    ensures var t := h + ":" + mi;
      && Ascii(t) && t[|t| - 1] == mi[|mi| - 1]
  {
  }

  /** The numeric branch once its splits are known. */
  lemma NumericDateEval(s: string, datePart: string, timePart: string, y: string, mo: string, d: string,
                        year: int, month: int, day: int, hour: int, minute: int, cal: Calendar)
    requires Split(s, " ") == [datePart, timePart] && Split(datePart, "-") == [y, mo, d]
    requires IntParse(y) == Ok(year) && IntParse(mo) == Ok(month) && IntParse(d) == Ok(day)
    requires ParseClock(timePart) == Ok((hour, minute))
    ensures ParseNumericDate(s, cal) == cal.jalali(Pivot(year), month, day, hour, minute)
  {
  }

  /** The numeric branch on `y-mo-d h:mi` built from well-formed ASCII fields. */
  lemma NumericTextParse(y: string, mo: string, d: string, h: string, mi: string,
                         year: int, month: int, day: int, hour: int, minute: int, cal: Calendar)
    requires AsciiField(y) && AsciiField(mo) && AsciiField(d) && AsciiField(h) && AsciiField(mi)
    requires IntParse(y) == Ok(year) && IntParse(mo) == Ok(month) && IntParse(d) == Ok(day)
    requires IntParse(h) == Ok(hour) && IntParse(mi) == Ok(minute)
    requires IsDigit(y[0]) && IsDigit(mi[|mi| - 1])
    ensures ParseDate((y + "-" + mo + "-" + d) + " " + (h + ":" + mi), cal)
      == cal.jalali(Pivot(year), month, day, hour, minute)
  {
    var datePart := y + "-" + mo + "-" + d;
    var timePart := h + ":" + mi;
    var s := datePart + " " + timePart;
    ClockText(h, mi);
    ClockParse(h, mi, hour, minute);
    DashedDate(y, mo, d);
    AsciiClock(h, mi);
    NumericTextShape(datePart, timePart);
    NumericDispatch(s, cal);
    SpaceHalvesSplit(datePart, timePart);
    NumericDateEval(s, datePart, timePart, y, mo, d, year, month, day, hour, minute, cal);
  }

  /** `10 آذر 04 - 14:15` spelled from its fields. */
  function MonthNameText(day: nat, month: int, year: nat, hour: nat, minute: nat): string
    requires 1 <= month <= 12
  {
    (NatToString(day) + " " + MonthName(month) + " " + NatToString(year))
      + " - " + (NatToString(hour) + ":" + NatToString(minute))
  }

  /** `1404-09-10 14:34` spelled from its fields. */
  function NumericText(year: nat, month: nat, day: nat, hour: nat, minute: nat): string {
    (NatToString(year) + "-" + NatToString(month) + "-" + NatToString(day))
      + " " + (NatToString(hour) + ":" + NatToString(minute))
  }

  /**
   * Parsing a month-name date gives the calendar's answer for its fields, with
   * a year below 100 read as 1400 + year and any other year unchanged.
   */
  lemma MonthNameRoundTrip(day: nat, month: int, year: nat, hour: nat, minute: nat, cal: Calendar)
    requires 1 <= month <= 12
    ensures ParseDate(MonthNameText(day, month, year, hour, minute), cal)
      == cal.jalali(if year < 100 then year + 1400 else year, month, day, hour, minute)
  {
    NatField(day);
    NatField(year);
    NatField(hour);
    NatField(minute);
    MonthNameLetters(month);
    MonthNameInverse(month);
    IntParseNat(day);
    IntParseNat(year);
    IntParseNat(hour);
    IntParseNat(minute);
    var n := MonthName(month);
    assert DateField(n);
    MonthTextParse(NatToString(day), n, NatToString(year), NatToString(hour), NatToString(minute),
      day, year, hour, minute, cal);
  }

  /**
   * Parsing a numeric Jalali date gives the calendar's answer for its fields,
   * with the same two-digit year pivot.
   */
  lemma NumericRoundTrip(year: nat, month: nat, day: nat, hour: nat, minute: nat, cal: Calendar)
    ensures ParseDate(NumericText(year, month, day, hour, minute), cal)
      == cal.jalali(if year < 100 then year + 1400 else year, month, day, hour, minute)
  {
    NatField(year);
    NatField(month);
    NatField(day);
    NatField(hour);
    NatField(minute);
    IntParseNat(year);
    IntParseNat(month);
    IntParseNat(day);
    IntParseNat(hour);
    IntParseNat(minute);
    var ys, ms := NatToString(year), NatToString(minute);
    assert IsDigit(ys[0]) && IsDigit(ms[|ms| - 1]);
    NumericTextParse(NatToString(year), NatToString(month), NatToString(day),
      NatToString(hour), NatToString(minute), year, month, day, hour, minute, cal);
  }
}
