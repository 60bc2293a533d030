/**
 * The time-string helpers of src/utils/dateUtils.js: the validator for
 * 24-hour and 12-hour times, written as explicit recognisers of its two
 * anchored regular expressions, and the zero-padding branch of `formatTime`.
 */
module DateUtils {
  import opened Wrappers
  import opened JsStrings

  // ----- isValidTime -----

  /** `[01]?[0-9]|2[0-3]`: an hour of the 24-hour clock, with or without a leading zero. */
  predicate Hour24(h: string) {
    || (|h| == 1 && IsDigit(h[0]))
    || (|h| == 2 && (h[0] == '0' || h[0] == '1') && IsDigit(h[1]))
    || (|h| == 2 && h[0] == '2' && '0' <= h[1] <= '3')
  }

  /** `1[0-2]|0?[1-9]`: an hour of the 12-hour clock, with or without a leading zero. */
  predicate Hour12(h: string) {
    || (|h| == 2 && h[0] == '1' && '0' <= h[1] <= '2')
    || (|h| == 1 && '1' <= h[0] <= '9')
    || (|h| == 2 && h[0] == '0' && '1' <= h[1] <= '9')
  }

  /** `[0-5][0-9]`: two-digit minutes. */
  predicate Minutes(m: string) {
    |m| == 2 && '0' <= m[0] <= '5' && IsDigit(m[1])
  }

  /** `am|pm|AM|PM`: one of the four spellings, and no mixed case. */
  predicate Meridiem(t: string) {
    t == "am" || t == "pm" || t == "AM" || t == "PM"
  }

  /** A character that the regular-expression class `\s` matches. */
  predicate IsJsSpace(c: char) {
    || c == ' ' || c == '\t' || c == '\n' || c == '\r' || c == '\U{000B}' || c == '\U{000C}'
    || c == '\U{00A0}' || c == '\U{1680}' || ('\U{2000}' <= c <= '\U{200A}')
    || c == '\U{2028}' || c == '\U{2029}' || c == '\U{202F}' || c == '\U{205F}'
    || c == '\U{3000}' || c == '\U{FEFF}'
  }

  /** `^([01]?[0-9]|2[0-3]):([0-5][0-9])$`, by the length of the hour. */
  predicate Matches24(s: string) {
    || (|s| == 4 && Hour24(s[..1]) && s[1] == ':' && Minutes(s[2..]))
    || (|s| == 5 && Hour24(s[..2]) && s[2] == ':' && Minutes(s[3..]))
  }

  /** `\s?(am|pm|AM|PM)$`: an optional single white-space character, then the meridiem. */
  predicate Suffix12(t: string) {
    Meridiem(t) || (|t| >= 1 && IsJsSpace(t[0]) && Meridiem(t[1..]))
  }

  /** `^(1[0-2]|0?[1-9]):([0-5][0-9])\s?(am|pm|AM|PM)$` with an hour of `a` characters. */
  predicate Matches12At(s: string, a: nat) {
    |s| >= a + 3 && Hour12(s[..a]) && s[a] == ':' && Minutes(s[a + 1..a + 3]) && Suffix12(s[a + 3..])
  }

  predicate Matches12(s: string) {
    Matches12At(s, 1) || Matches12At(s, 2)
  }

  /**
   * `isValidTime(time)`: false for a missing or empty time, else either format.
   * An accepted time is a clock reading: digits for an hour of at most 23
   * before the first colon, then two digits for minutes of at most 59.
   */
  function IsValidTime(time: Option<string>): (r: bool)
    ensures r ==> time.Some? && ':' in time.value
    ensures r ==> var h := BeforeColon(time.value);
      (forall i :: 0 <= i < |h| ==> IsDigit(h[i])) && DecimalValue(h) <= 23
    ensures r ==> (|AfterColon(time.value)| >= 2 && Minutes(AfterColon(time.value)[..2])
                   && DecimalValue(AfterColon(time.value)[..2]) <= 59)
  {
    if time.None? || time.value == "" then false
    else if Matches24(time.value) then
      Valid24Meaning(time.value);
      assert AfterColon(time.value)[..2] == AfterColon(time.value);
      true
    else if Matches12(time.value) then
      Valid12Meaning(time.value);
      true
    else false
  }

  /** The number that a 24-hour time denotes is a real clock reading. */
  lemma Valid24Meaning(s: string)
    requires Matches24(s)
    ensures ':' in s && Minutes(AfterColon(s))
    ensures var h := BeforeColon(s);
      (forall i :: 0 <= i < |h| ==> IsDigit(h[i])) && DecimalValue(h) <= 23
    ensures DecimalValue(AfterColon(s)) <= 59
  {
    var k := if |s| == 4 then 1 else 2;
    SplitAt(s, k);
    ShortDecimalValue(s[..k]);
    ShortDecimalValue(s[k + 1..]);
  }

  /** The hour of a 12-hour time lies in 1..12 and its minutes in 0..59. */
  lemma Valid12Meaning(s: string)
    requires Matches12(s)
    ensures ':' in s
    ensures var h := BeforeColon(s);
      (forall i :: 0 <= i < |h| ==> IsDigit(h[i])) && 1 <= DecimalValue(h) <= 12
    ensures |AfterColon(s)| >= 3 && Minutes(AfterColon(s)[..2]) && DecimalValue(AfterColon(s)[..2]) <= 59
    ensures Suffix12(AfterColon(s)[2..])
  {
    var k := if Matches12At(s, 1) then 1 else 2;
    SplitAt(s, k);
    var rest := AfterColon(s);
    assert rest[..2] == s[k + 1..k + 3];
    assert rest[2..] == s[k + 3..];
    ShortDecimalValue(s[..k]);
    ShortDecimalValue(rest[..2]);
  }

  /** The value of a one- or two-digit string. */
  lemma ShortDecimalValue(d: string)
    requires 1 <= |d| <= 2 && forall i :: 0 <= i < |d| ==> IsDigit(d[i])
    ensures |d| == 1 ==> DecimalValue(d) == DigitValue(d[0])
    ensures |d| == 2 ==> DecimalValue(d) == DigitValue(d[0]) * 10 + DigitValue(d[1])
  {
    assert d[..|d| - 1][..0] == [];
    if |d| == 2 {
      assert d[..1][..0] == [];
      assert d[..1][0] == d[0];
    }
  }

  /** Two-digit minutes `mm` for a number below 60. */
  function TwoDigits(m: nat): (t: string)
    requires m < 100
    ensures |t| == 2 && (forall i :: 0 <= i < 2 ==> IsDigit(t[i])) && DecimalValue(t) == m
  {
    var t := [DigitChar(m / 10), DigitChar(m % 10)];
    ShortDecimalValue(t);
    t
  }

  /** Every reading of the 24-hour clock is accepted, written with one or two hour digits. */
  lemma Every24HourTimeValid(h: nat, m: nat)
    requires h <= 23 && m <= 59
    ensures IsValidTime(Some(DecimalString(h) + ":" + TwoDigits(m)))
    ensures IsValidTime(Some(TwoDigits(h) + ":" + TwoDigits(m)))
  {
    var s := DecimalString(h) + ":" + TwoDigits(m);
    var t := TwoDigits(h) + ":" + TwoDigits(m);
    var d := DecimalString(h);
    if h < 10 {
      assert s[..1] == d;
    } else {
      assert d == DecimalString(h / 10) + [DigitChar(h % 10)];
      assert d[0] == DigitChar(h / 10);
      assert s[..2] == d;
    }
    assert t[..2] == TwoDigits(h);
    assert s[|d| + 1..] == TwoDigits(m);
    assert t[3..] == TwoDigits(m);
  }

  /** Every reading of the 12-hour clock is accepted, with or without a space before the meridiem. */
  lemma Every12HourTimeValid(h: nat, m: nat, meridiem: string)
    requires 1 <= h <= 12 && m <= 59 && Meridiem(meridiem)
    ensures IsValidTime(Some(DecimalString(h) + ":" + TwoDigits(m) + meridiem))
    ensures IsValidTime(Some(DecimalString(h) + ":" + TwoDigits(m) + " " + meridiem))
  {
    var d := DecimalString(h);
    Hour12Decimal(h);
    assert Suffix12(" " + meridiem) by {
      assert (" " + meridiem)[1..] == meridiem;
    }
    Matches12Parts(d, TwoDigits(m), meridiem);
    Matches12Parts(d, TwoDigits(m), " " + meridiem);
    Accepts12(d + ":" + TwoDigits(m) + meridiem);
    Accepts12(d + ":" + TwoDigits(m) + (" " + meridiem));
    assert d + ":" + TwoDigits(m) + (" " + meridiem) == d + ":" + TwoDigits(m) + " " + meridiem;
  }

  /** The decimal form of an hour of the 12-hour clock is a 12-hour hour field. */
  lemma Hour12Decimal(h: nat)
    requires 1 <= h <= 12
    ensures 1 <= |DecimalString(h)| <= 2 && Hour12(DecimalString(h))
  {
    if h >= 10 {
      assert DecimalString(h) == DecimalString(h / 10) + [DigitChar(h % 10)];
    }
  }

  /** An hour, a colon, minutes and a suffix, put together, match the 12-hour pattern. */
  lemma Matches12Parts(d: string, mm: string, suffix: string)
    requires 1 <= |d| <= 2 && Hour12(d) && Minutes(mm) && Suffix12(suffix)
    ensures Matches12(d + ":" + mm + suffix)
  {
    var s := d + ":" + mm + suffix;
    var a := |d|;
    assert s[..a] == d;
    assert s[a + 1..a + 3] == mm;
    assert s[a + 3..] == suffix;
    assert Matches12At(s, a);
  }

  /** A text that the 12-hour pattern matches is accepted. */
  lemma Accepts12(s: string)
    requires Matches12(s)
    ensures IsValidTime(Some(s))
  {
  }

  /** The cases the validator is known to reject, one string at a time. */
  lemma RejectedTimes()
    ensures !IsValidTime(None) && !IsValidTime(Some(""))
    ensures !IsValidTime(Some("25:00")) && !IsValidTime(Some("14:60"))
    ensures !IsValidTime(Some("14:30 XM")) && !IsValidTime(Some("2:30 Am"))
  {
    RejectsHour25();
    RejectsMinute60();
    RejectsUnknownMeridiem();
    RejectsMixedCaseMeridiem();
  }

  lemma RejectsHour25()
    ensures !IsValidTime(Some("25:00"))
  {
    assert "25:00"[..2] == "25";
  }

  lemma RejectsMinute60()
    ensures !IsValidTime(Some("14:60"))
  {
    assert "14:60"[3..] == "60";
  }

  lemma RejectsUnknownMeridiem()
    ensures !IsValidTime(Some("14:30 XM"))
  {
    assert "14:30 XM"[5..] == " XM";
    assert "14:30 XM"[..1] == "1" && "14:30 XM"[1] == '4';
  }

  lemma RejectsMixedCaseMeridiem()
    ensures !IsValidTime(Some("2:30 Am"))
  {
    assert "2:30 Am"[4..] == " Am" && "2:30 Am"[4..][1..] == "Am";
    assert "2:30 Am"[..2] == "2:";
  }

  /** Some cases the validator accepts, one string at a time. */
  lemma AcceptedTimes()
    ensures IsValidTime(Some("00:00")) && IsValidTime(Some("14:30")) && IsValidTime(Some("23:59"))
    ensures IsValidTime(Some("12:00 PM")) && IsValidTime(Some("2:30 AM")) && IsValidTime(Some("11:59 pm"))
  {
    AcceptsMidnight();
    AcceptsAfternoon();
    AcceptsLastMinute();
    AcceptsNoon();
    AcceptsSingleDigitHour();
    AcceptsLowerCaseMeridiem();
  }

  lemma AcceptsMidnight()
    ensures IsValidTime(Some("00:00"))
  {
    assert "00:00"[..2] == "00" && "00:00"[3..] == "00";
  }

  lemma AcceptsAfternoon()
    ensures IsValidTime(Some("14:30"))
  {
    assert "14:30"[..2] == "14" && "14:30"[3..] == "30";
  }

  lemma AcceptsLastMinute()
    ensures IsValidTime(Some("23:59"))
  {
    assert "23:59"[..2] == "23" && "23:59"[3..] == "59";
  }

  lemma AcceptsNoon()
    ensures IsValidTime(Some("12:00 PM"))
  {
    assert "12:00 PM"[..2] == "12" && "12:00 PM"[3..5] == "00" && "12:00 PM"[5..][1..] == "PM";
  }

  lemma AcceptsSingleDigitHour()
    ensures IsValidTime(Some("2:30 AM"))
  {
    assert "2:30 AM"[..1] == "2";
    assert "2:30 AM"[2..4] == "30";
    assert "2:30 AM"[4..][1..] == "AM";
  }

  lemma AcceptsLowerCaseMeridiem()
    ensures IsValidTime(Some("11:59 pm"))
  {
    assert "11:59 pm"[..2] == "11" && "11:59 pm"[3..5] == "59" && "11:59 pm"[5..][1..] == "pm";
  }

  // ----- formatTime, without the 12-hour branch -----

  /** The first `:`-separated field: the text before the first colon, or all of it. */
  function BeforeColon(s: string): (r: string)
    ensures ':' !in r && r <= s
  {
    if s == [] || s[0] == ':' then [] else [s[0]] + BeforeColon(s[1..])
  }

  /** The text after the first colon, or nothing when there is none. */
  function AfterColon(s: string): string {
    if s == [] then []
    else if s[0] == ':' then s[1..]
    else AfterColon(s[1..])
  }

  /** `split(':')` loses nothing: the first field, the colon and the rest give back the text. */
  lemma {:induction false} SplitRoundTrip(s: string)
    ensures ':' in s ==> s == BeforeColon(s) + ":" + AfterColon(s)
    ensures ':' !in s ==> BeforeColon(s) == s
  {
    if s != [] && s[0] != ':' {
      SplitRoundTrip(s[1..]);
      assert s == [s[0]] + s[1..];
    }
  }

  /** A colon at `k` with none before it splits the text there. */
  lemma SplitAt(s: string, k: nat)
    requires k < |s| && s[k] == ':' && ':' !in s[..k]
    ensures BeforeColon(s) == s[..k] && AfterColon(s) == s[k + 1..]
  {
    SplitRoundTrip(s);
    var h := BeforeColon(s);
    assert s[..|h|] == h && s[|h|] == ':';
    forall j | 0 <= j < k
      ensures s[j] != ':'
    {
      assert s[..k][j] == s[j];
    }
    forall j | 0 <= j < |h|
      ensures s[j] != ':'
    {
      assert h[j] == s[j];
    }
    assert s[..k] + ":" + s[k + 1..] == s;
  }

  /** The first field of a text that has at least `n` characters and no colon among them. */
  lemma BeforeColonOfPrefix(s: string, n: nat)
    requires n <= |s| && ':' !in s[..n] && (n == |s| || s[n] == ':')
    ensures BeforeColon(s) == s[..n]
  {
    if n < |s| {
      SplitAt(s, n);
    } else {
      assert s[..n] == s;
      SplitRoundTrip(s);
    }
  }

  /** `padStart(2, '0')`: zeros in front up to width two; longer text is kept. */
  function PadStart2(s: string): (r: string)
    ensures |s| >= 2 ==> r == s
    ensures |s| < 2 ==> |r| == 2
  {
    if |s| >= 2 then s else if |s| == 1 then "0" + s else "00"
  }

  /** Padding only puts zeros in front: the text is a suffix of the result. */
  lemma PaddedShape(s: string)
    ensures var r := PadStart2(s);
      |s| <= |r| && r[|r| - |s|..] == s && forall i :: 0 <= i < |r| - |s| ==> r[i] == '0'
  {
  }

  /** Padding a field without a colon adds none. */
  lemma PaddedHasNoColon(m: string)
    requires ':' !in m
    ensures ':' !in PadStart2(m)
  {
    var pm := PadStart2(m);
    PaddedShape(m);
    forall i | 0 <= i < |pm|
      ensures pm[i] != ':'
    {
      if i >= |pm| - |m| {
        assert pm[i] == m[i - (|pm| - |m|)];
      }
    }
  }

  /** The lower-case forms of the characters at `i` and `i + 1`. */
  function PairAt(s: string, i: nat): (char, char)
    requires i + 1 < |s|
  {
    (LowerChar(s[i]), LowerChar(s[i + 1]))
  }

  /** Two neighbouring characters of `s` lower-case to `x` and `y`. */
  ghost predicate HasPair(s: string, x: char, y: char) {
    exists i: nat :: i + 1 < |s| && PairAt(s, i) == (x, y)
  }

  /** `time.toLowerCase().includes('am')` (or 'pm') in terms of neighbouring characters. */
  lemma {:induction false} IncludesPair(s: string, x: char, y: char)
    ensures Includes(ToLower(s), [x, y]) <==> HasPair(s, x, y)
  {
    if |s| >= 2 {
      var l := ToLower(s);
      assert l[..2] == [LowerChar(s[0]), LowerChar(s[1])] by {
        assert l == [LowerChar(s[0])] + ToLower(s[1..]);
        assert ToLower(s[1..]) == [LowerChar(s[1])] + ToLower(s[2..]);
      }
      assert l[1..] == ToLower(s[1..]);
      if l[..2] == [x, y] {
        assert PairAt(s, 0) == (x, y);
      }
      IncludesPair(s[1..], x, y);
      if HasPair(s[1..], x, y) {
        var i: nat :| i + 1 < |s[1..]| && PairAt(s[1..], i) == (x, y);
        assert PairAt(s, i + 1) == PairAt(s[1..], i);
      }
      if HasPair(s, x, y) {
        var i: nat :| i + 1 < |s| && PairAt(s, i) == (x, y);
        if i > 0 {
          assert PairAt(s[1..], i - 1) == PairAt(s, i);
        } else {
          assert l[..2] == [x, y];
        }
      }
    } else {
      assert !HasPair(s, x, y);
    }
  }

  /** A pair in a piece of a text is a pair in the whole text. */
  lemma PairInPart(a: string, b: string, x: char, y: char)
    ensures HasPair(a, x, y) || HasPair(b, x, y) ==> HasPair(a + b, x, y)
  {
    if HasPair(a, x, y) {
      var i: nat :| i + 1 < |a| && PairAt(a, i) == (x, y);
      assert PairAt(a + b, i) == PairAt(a, i);
    }
    if HasPair(b, x, y) {
      var i: nat :| i + 1 < |b| && PairAt(b, i) == (x, y);
      assert PairAt(a + b, |a| + i) == PairAt(b, i);
    }
  }

  /** Zero padding creates no pair whose first letter is not a zero. */
  lemma PairInPadded(h: string, x: char, y: char)
    requires x != '0'
    ensures HasPair(PadStart2(h), x, y) ==> HasPair(h, x, y)
  {
    var ph := PadStart2(h);
    if |h| < 2 {
      assert ph[0] == '0' && LowerChar('0') == '0';
      assert forall i: nat :: i + 1 < |ph| ==> PairAt(ph, i).0 == '0';
    }
  }

  /** Joining two texts with a colon creates no pair without a colon in it. */
  lemma PairAcrossColon(a: string, b: string, x: char, y: char)
    requires x != ':' && y != ':'
    ensures HasPair(a + ":" + b, x, y) ==> HasPair(a, x, y) || HasPair(b, x, y)
  {
    var r := a + ":" + b;
    if HasPair(r, x, y) {
      var i: nat :| i + 1 < |r| && PairAt(r, i) == (x, y);
      if i + 1 < |a| {
        assert PairAt(a, i) == PairAt(r, i);
      } else {
        assert i > |a| by {
          assert r[|a|] == ':';
        }
        assert PairAt(b, i - |a| - 1) == PairAt(r, i);
      }
    }
  }

  /** `formatTime` reads the text as 12-hour when its lower-case form contains 'am' or 'pm'. */
  predicate TwelveHour(s: string) {
    Includes(ToLower(s), "am") || Includes(ToLower(s), "pm")
  }

  /**
   * `formatTime(time)` for every input that does not take the 12-hour branch;
   * `None` marks an input that does, which date parsing handles and which is
   * not part of this model.
   */
  function FormatTime(time: Option<string>): (r: Option<string>)
    ensures r.None? <==> time.Some? && time.value != "" && TwelveHour(time.value)
    ensures time.None? || time.value == "" ==> r == Some("")
    ensures r.Some? && time.Some? && ':' !in time.value ==> r == time
  {
    if time.None? || time.value == "" then Some("")
    else if TwelveHour(time.value) then None
    else if ':' in time.value then
      Some(PadStart2(BeforeColon(time.value)) + ":" + PadStart2(BeforeColon(AfterColon(time.value))))
    else Some(time.value)
  }

  /**
   * With a colon, the result is the first two fields, each zero-padded to
   * width two, joined by one colon.
   */
  lemma FormatTimeFields(s: string)
    requires ':' in s && !TwelveHour(s)
    ensures var r := FormatTime(Some(s)).value;
      && ':' in r && |r| >= 5
      && BeforeColon(r) == PadStart2(BeforeColon(s))
      && AfterColon(r) == PadStart2(BeforeColon(AfterColon(s)))
  {
    var ph := PadStart2(BeforeColon(s));
    var pm := PadStart2(BeforeColon(AfterColon(s)));
    var r := ph + ":" + pm;
    PaddedShape(BeforeColon(s));
    assert r[..|ph|] == ph;
    assert r[|ph|] == ':';
    assert r[|ph| + 1..] == pm;
    assert ':' !in ph by {
      assert forall i :: 0 <= i < |ph| - |BeforeColon(s)| ==> ph[i] == '0';
      forall i | |ph| - |BeforeColon(s)| <= i < |ph|
        ensures ph[i] != ':'
      {
        assert ph[i] == BeforeColon(s)[i - (|ph| - |BeforeColon(s)|)];
      }
    }
    SplitAt(r, |ph|);
  }

  /** No 'am' or 'pm' appears in the padded result of a text without them. */
  lemma FormatTimeStaysTwentyFourHour(s: string)
    requires ':' in s && !TwelveHour(s)
    ensures !TwelveHour(FormatTime(Some(s)).value)
  {
    var r := FormatTime(Some(s)).value;
    IncludesPair(s, 'a', 'm');
    IncludesPair(s, 'p', 'm');
    FieldsKeepNoPair(s, 'a', 'm');
    FieldsKeepNoPair(s, 'p', 'm');
    IncludesPair(r, 'a', 'm');
    IncludesPair(r, 'p', 'm');
  }

  /** Padding and joining the first two fields of a text creates no pair of letters that it lacks. */
  lemma FieldsKeepNoPair(s: string, x: char, y: char)
    requires ':' in s && x != '0' && x != ':' && y != ':'
    ensures HasPair(PadStart2(BeforeColon(s)) + ":" + PadStart2(BeforeColon(AfterColon(s))), x, y) ==> HasPair(s, x, y)
  {
    PaddedJoinPairs(BeforeColon(s), BeforeColon(AfterColon(s)), x, y);
    FieldPairs(s, x, y);
  }

  /** A pair in the padded, colon-joined fields is a pair in one of the fields. */
  lemma PaddedJoinPairs(h: string, m: string, x: char, y: char)
    requires x != '0' && x != ':' && y != ':'
    ensures HasPair(PadStart2(h) + ":" + PadStart2(m), x, y) ==> HasPair(h, x, y) || HasPair(m, x, y)
  {
    PairAcrossColon(PadStart2(h), PadStart2(m), x, y);
    PairInPadded(h, x, y);
    PairInPadded(m, x, y);
  }

  /** A pair in one of the first two fields of a text is a pair in the text. */
  lemma FieldPairs(s: string, x: char, y: char)
    requires ':' in s
    ensures HasPair(BeforeColon(s), x, y) || HasPair(BeforeColon(AfterColon(s)), x, y) ==> HasPair(s, x, y)
  {
    var h := BeforeColon(s);
    var rest := AfterColon(s);
    var m := BeforeColon(rest);
    SplitRoundTrip(s);
    if HasPair(h, x, y) {
      var i: nat :| i + 1 < |h| && PairAt(h, i) == (x, y);
      assert s[i] == h[i] && s[i + 1] == h[i + 1];
      assert PairAt(s, i) == PairAt(h, i);
    } else if HasPair(m, x, y) {
      var i: nat :| i + 1 < |m| && PairAt(m, i) == (x, y);
      var j := |h| + 1 + i;
      assert rest[i] == m[i] && rest[i + 1] == m[i + 1];
      assert s[j] == rest[i] && s[j + 1] == rest[i + 1];
      assert PairAt(s, j) == PairAt(m, i);
    }
  }

  /** `formatTime` is idempotent on inputs that do not take the 12-hour branch. */
  lemma FormatTimeIdempotent(time: Option<string>)
    requires FormatTime(time).Some?
    ensures FormatTime(FormatTime(time)) == FormatTime(time)
  {
    if time.Some? && time.value != "" && ':' in time.value {
      var s := time.value;
      var r := FormatTime(time).value;
      FormatTimeFields(s);
      FormatTimeStaysTwentyFourHour(s);
      SplitRoundTrip(r);
      var pm := PadStart2(BeforeColon(AfterColon(s)));
      PaddedHasNoColon(BeforeColon(AfterColon(s)));
      SplitRoundTrip(pm);
    }
  }

  /** A 24-hour time holds only digits and a colon, so it never takes the 12-hour branch. */
  lemma NoMeridiemIn24(s: string)
    requires Matches24(s)
    ensures !TwelveHour(s)
  {
    assert forall i :: 0 <= i < |s| ==> s[i] == ':' || IsDigit(s[i]);
    forall i: nat | i + 1 < |s|
      ensures PairAt(s, i).0 != 'a' && PairAt(s, i).0 != 'p'
    {
      assert s[i] == ':' || IsDigit(s[i]);
    }
    IncludesPair(s, 'a', 'm');
    IncludesPair(s, 'p', 'm');
  }

  /** A 24-hour time comes out as `HH:mm` and stays valid. */
  lemma FormatTimeKeeps24Hour(s: string)
    requires Matches24(s)
    ensures FormatTime(Some(s)).Some?
    ensures var r := FormatTime(Some(s)).value;
      |r| == 5 && Matches24(r) && r == (if |s| == 4 then "0" + s else s)
  {
    var k := if |s| == 4 then 1 else 2;
    var h := s[..k];
    var m := s[k + 1..];
    SplitAt(s, k);
    NoMeridiemIn24(s);
    assert m[..2] == m;
    BeforeColonOfPrefix(m, 2);
    var ph := PadStart2(h);
    assert |ph| == 2 && ph[0] == (if k == 1 then '0' else h[0]) && ph[1] == h[k - 1];
    assert PadStart2(m) == m;
    var r := ph + ":" + m;
    assert FormatTime(Some(s)) == Some(r);
    assert r[..2] == ph && r[2] == ':' && r[3..] == m;
  }
}
