/**
 * Time strings: the first/last display of a title and the "HH:MM" window
 * test. The current time of day is passed in.
 */
module TimeUtils {
  import opened Wrappers
  import opened Text

  /** `format_time_display`: one time when both are equal, else "first - last". */
  function FormatTimeDisplay(firstTime: string, lastTime: string): (r: string)
    ensures firstTime == lastTime ==> r == firstTime
    ensures firstTime != lastTime ==> StartsWith(r, firstTime) && EndsWith(r, lastTime)
  {
    if firstTime == lastTime then firstTime else firstTime + " - " + lastTime
  }

  /**
   * When the first time holds no " - " and does not end in " -", the display
   * of two different times splits back into them.
   */
  lemma TimeDisplayRecovers(firstTime: string, lastTime: string)
    requires firstTime != lastTime && !Contains(firstTime, " - ") && !EndsWith(firstTime, " -")
    ensures SplitOnce(FormatTimeDisplay(firstTime, lastTime), " - ") == Some((firstTime, lastTime))
  {
    var s := firstTime + " - " + lastTime;
    var n := |firstTime|;
    assert OccursAt(s, " - ", n) by {
      assert s[n..n + 3] == " - ";
    }
    forall j | 0 <= j < n
      ensures !OccursAt(s, " - ", j)
    {
      assert " - " == [' ', '-', ' '] && " -" == [' ', '-'];
      if j + 3 <= n {
        assert firstTime[j..j + 3] == s[j..j + 3];
        assert !OccursAt(firstTime, " - ", j);
        assert !OccursAt(s, " - ", j);
      } else if j == n - 1 {
        assert s[j..j + 3][1] == s[n];
        assert !OccursAt(s, " - ", j);
        assert s[j + 1] == ' ';
      } else {
        assert firstTime[n - 2..] == [firstTime[n - 2], firstTime[n - 1]];
        assert s[n - 2] == firstTime[n - 2] && s[n - 1] == firstTime[n - 1];
        assert s[j..j + 3][0] == s[n - 2] && s[j..j + 3][1] == s[n - 1];
        assert !OccursAt(s, " - ", j);
      }
    }
    assert s[..n] == firstTime && s[n + 3..] == lastTime;
  }

  /** `is_in_time_range`: start <= current <= end under string order. */
  predicate IsInTimeRange(startTime: string, endTime: string, currentTime: string) {
    LexLe(startTime, currentTime) && LexLe(currentTime, endTime)
  }

  function DigitAt(t: string, i: nat): int
    requires i < |t|
  {
    t[i] as int - '0' as int
  }

  /** A time of day as `strftime("%H:%M")` writes it. */
  predicate ValidHHMM(t: string) {
    && |t| == 5
    && IsDigit(t[0]) && IsDigit(t[1]) && t[2] == ':' && IsDigit(t[3]) && IsDigit(t[4])
    && DigitAt(t, 0) * 10 + DigitAt(t, 1) < 24
    && DigitAt(t, 3) < 6
  }

  /** Minutes since midnight. */
  function Minutes(t: string): (m: int)
    requires ValidHHMM(t)
    ensures 0 <= m < 24 * 60
  {
    (DigitAt(t, 0) * 10 + DigitAt(t, 1)) * 60 + DigitAt(t, 3) * 10 + DigitAt(t, 4)
  }

  lemma LexLeUnfold(a: string, b: string)
    requires |a| > 0 && |b| > 0
    ensures LexLe(a, b) == if a[0] != b[0] then a[0] < b[0] else LexLe(a[1..], b[1..])
  {
  }

  /** On "HH:MM" strings the string order is the order of the times. */
  lemma LexLeIsTimeOrder(a: string, b: string)
    requires ValidHHMM(a) && ValidHHMM(b)
    ensures LexLe(a, b) <==> Minutes(a) <= Minutes(b)
  {
    LexLeUnfold(a, b);
    LexLeUnfold(a[1..], b[1..]);
    LexLeUnfold(a[2..], b[2..]);
    LexLeUnfold(a[3..], b[3..]);
    LexLeUnfold(a[4..], b[4..]);
    assert a[1..][1..] == a[2..] && b[1..][1..] == b[2..];
    assert a[2..][1..] == a[3..] && b[2..][1..] == b[3..];
    assert a[3..][1..] == a[4..] && b[3..][1..] == b[4..];
    assert |a[4..][1..]| == 0;
    var ha, hb := DigitAt(a, 0) * 10 + DigitAt(a, 1), DigitAt(b, 0) * 10 + DigitAt(b, 1);
    var ma, mb := DigitAt(a, 3) * 10 + DigitAt(a, 4), DigitAt(b, 3) * 10 + DigitAt(b, 4);
    assert Minutes(a) == ha * 60 + ma && Minutes(b) == hb * 60 + mb;
    assert 0 <= ma < 60 && 0 <= mb < 60;
  }

  /** On "HH:MM" times, `is_in_time_range` holds iff the time of day lies between start and end, both included. */
  lemma IsInTimeRangeMeans(startTime: string, endTime: string, currentTime: string)
    requires ValidHHMM(startTime) && ValidHHMM(endTime) && ValidHHMM(currentTime)
    ensures IsInTimeRange(startTime, endTime, currentTime) <==>
      Minutes(startTime) <= Minutes(currentTime) <= Minutes(endTime)
  {
    LexLeIsTimeOrder(startTime, currentTime);
    LexLeIsTimeOrder(currentTime, endTime);
  }

  /** The only time whose minutes are those of noon is "12:00". */
  lemma NoonUnique(t: string)
    requires ValidHHMM(t) && Minutes(t) == 12 * 60
    ensures t == "12:00"
  {
    var h, m := DigitAt(t, 0) * 10 + DigitAt(t, 1), DigitAt(t, 3) * 10 + DigitAt(t, 4);
    assert 0 <= m < 60;
    assert h * 60 + m == 720;
    assert h == 12 && m == 0;
    assert t[0] == '1' && t[1] == '2' && t[3] == '0' && t[4] == '0';
  }

  /**
   * Every time of day lies in the morning window 00:00-12:00 or the evening
   * window 12:00-23:59, and in both only at 12:00.
   */
  lemma WindowsCoverTheDay(t: string)
    requires ValidHHMM(t)
    ensures IsInTimeRange("00:00", "12:00", t) || IsInTimeRange("12:00", "23:59", t)
    ensures IsInTimeRange("00:00", "12:00", t) && IsInTimeRange("12:00", "23:59", t) <==> t == "12:00"
  {
    assert ValidHHMM("00:00") && Minutes("00:00") == 0;
    assert ValidHHMM("12:00") && Minutes("12:00") == 720;
    assert ValidHHMM("23:59") && Minutes("23:59") == 1439;
    LexLeIsTimeOrder("00:00", t);
    LexLeIsTimeOrder(t, "12:00");
    LexLeIsTimeOrder("12:00", t);
    LexLeIsTimeOrder(t, "23:59");
    if Minutes(t) == 720 {
      NoonUnique(t);
    }
  }
}
