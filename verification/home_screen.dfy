/** The home screen's plain logic: the countdown text of the current-prayer
    card, when that card is shown, which records the list shows, and the
    conversion of the date picker's milliseconds to a date. */
module HomeScreen {
  import opened Wrappers
  import opened Text
  import opened PrayerTimes
  import opened Seqs
  import opened Repository

  /** Kotlin's `/` on integers: the quotient truncated toward zero. */
  function TruncDiv(a: int, b: int): (q: int)
    requires b > 0
    ensures a >= 0 ==> q * b <= a < (q + 1) * b
    ensures a < 0 ==> (q - 1) * b < a <= q * b
  {
    if a >= 0 then a / b else -((-a) / b)
  }

  /** `ChronoUnit.SECONDS.between(now, end)` on two `LocalTime`s: the
      nanoseconds between them in whole seconds, truncated toward zero. */
  function SecondsBetween(now: TimeOfDay, end: TimeOfDay): (t: int)
    ensures end - now >= 0 ==> t * NanosPerSecond <= end - now < (t + 1) * NanosPerSecond
    ensures end - now < 0 ==> (t - 1) * NanosPerSecond < end - now <= t * NanosPerSecond
    ensures t > 0 ==> t * NanosPerSecond <= end - now < (t + 1) * NanosPerSecond
    ensures t <= 0 ==> end - now < NanosPerSecond
    ensures -86400 < t < 86400
  {
    TruncDiv(end - now, NanosPerSecond)
  }

  const EndedText: string := "Prayer time ended"

  /** The countdown text for `timeLeft` seconds: `%02d:%02d:%02d` of the
      hours, minutes and seconds while time is left, else the ended text. */
  function CountdownText(timeLeft: int): (text: string)
    ensures timeLeft <= 0 ==> text == EndedText
    ensures timeLeft > 0 ==> |text| >= 8 && forall i :: 0 <= i < |text| ==> text[i] == ':' || '0' <= text[i] <= '9'
  {
    if timeLeft > 0 then
      var hours := timeLeft / 3600;
      var minutes := (timeLeft % 3600) / 60;
      var seconds := timeLeft % 60;
      Format02(hours) + ":" + Format02(minutes) + ":" + Format02(seconds)
    else EndedText
  }

  /** The digits of a two-digit field of a countdown. */
  function Field(text: string, i: nat): nat
    requires i + 2 <= |text|
  {
    DecimalValue(text[i..i + 2])
  }

  /** While less than 100 hours are left the countdown is `HH:MM:SS`, and
      reading its three fields back gives the seconds left, with minutes and
      seconds below 60. */
  lemma {:induction false} CountdownReadsBack(timeLeft: int)
    requires 0 < timeLeft < 100 * 3600
    ensures var text := CountdownText(timeLeft);
            && |text| == 8 && text[2] == ':' && text[5] == ':'
            && Field(text, 3) < 60 && Field(text, 6) < 60
            && Field(text, 0) * 3600 + Field(text, 3) * 60 + Field(text, 6) == timeLeft
  {
    var h, m, s := timeLeft / 3600, (timeLeft % 3600) / 60, timeLeft % 60;
    var text := CountdownText(timeLeft);
    HoursMinutesSeconds(timeLeft);
    assert text == Format02(h) + ":" + Format02(m) + ":" + Format02(s);
    Colons(Format02(h), Format02(m), Format02(s));
    assert Field(text, 0) == h && Field(text, 3) == m && Field(text, 6) == s;
  }

  /** The hours, minutes and seconds the countdown shows add up to the time left. */
  lemma HoursMinutesSeconds(t: nat)
    ensures (t % 3600) / 60 < 60 && t % 60 < 60
    ensures (t / 3600) * 3600 + ((t % 3600) / 60) * 60 + t % 60 == t
  {
    var r := t % 3600;
    assert t == (t / 3600) * 3600 + r;
    assert r == (r / 60) * 60 + r % 60;
    assert t == ((t / 3600) * 60 + r / 60) * 60 + r % 60;
    assert r % 60 == t % 60;
  }

  /** Where the parts of `a:b:c` sit, for two-character parts. */
  lemma Colons(a: string, b: string, c: string)
    requires |a| == 2 && |b| == 2 && |c| == 2
    ensures var text := a + ":" + b + ":" + c;
            && |text| == 8 && text[2] == ':' && text[5] == ':'
            && text[0..2] == a && text[3..5] == b && text[6..8] == c
  {
    var text := a + ":" + b + ":" + c;
    assert text[0..2] == a;
    assert text[3..5] == b;
    assert text[6..8] == c;
  }

  /** The ended text is shown exactly when no whole second is left. */
  lemma CountdownEndedIff(timeLeft: int)
    ensures CountdownText(timeLeft) == EndedText <==> timeLeft <= 0
  {
    if timeLeft > 0 {
      var h := Format02(timeLeft / 3600);
      var text := CountdownText(timeLeft);
      assert text[2] == if |h| == 2 then ':' else h[2];
      assert text[2] != EndedText[2];
    }
  }

  /** One tick of the countdown loop: with a current prayer, the text for the
      time left until its end; without one, the text is left as it was. */
  function CountdownTick(previous: string, current: Option<PrayerTime>, now: TimeOfDay): (text: string)
    ensures current.None? ==> text == previous
    ensures current.Some? && current.value.endTime <= now ==> text == EndedText
    ensures current.Some? && current.value.endTime - now >= NanosPerSecond ==> |text| == 8
  {
    match current
    case None => previous
    case Some(p) =>
      var t := SecondsBetween(now, p.endTime);
      assert t > 0 ==> |CountdownText(t)| == 8 by {
        if t > 0 { CountdownReadsBack(t); }
      }
      CountdownText(t)
  }

  /** With a second or more to go, the card reads `HH:MM:SS` of the whole
      seconds left; both times lie within one day, so the hours stay below 24. */
  lemma CountdownTickReadsBack(previous: string, p: PrayerTime, now: TimeOfDay)
    requires p.endTime - now >= NanosPerSecond
    ensures var text := CountdownTick(previous, Some(p), now);
            && |text| == 8 && Field(text, 0) < 24 && Field(text, 3) < 60 && Field(text, 6) < 60
            && Field(text, 0) * 3600 + Field(text, 3) * 60 + Field(text, 6) == SecondsBetween(now, p.endTime)
  {
    CountdownReadsBack(SecondsBetween(now, p.endTime));
  }

  /** The screen computes the current prayer once per change of the stored
      list, at the clock reading `today0`/`now0` of that moment, and reads the
      clock afresh on every tick. When that prayer came from the fallback (no
      prayer of `today0` was in progress at `now0`), it had ended by `now0`,
      so any later tick says the prayer time has ended. */
  lemma FallbackShowsEnded(records: seq<PrayerTime>, today0: int, now0: TimeOfDay, now: TimeOfDay, previous: string)
    requires now0 <= now
    requires forall i :: 0 <= i < |records| ==> !Active(records[i], today0, now0)
    requires CurrentPrayer(records, today0, now0).Some?
    ensures CountdownTick(previous, CurrentPrayer(records, today0, now0), now) == EndedText
  {
    CurrentPrayerSpec(records, today0, now0);
    var i :| IsFirstMaxAt(records, EndedOn(today0, now0), EndKey, i)
             && CurrentPrayer(records, today0, now0) == Some(records[i]);
  }

  /** Across midnight the cached prayer outlives its day: a fallback Isha
      computed at 23:30 counts down again at 00:00, towards 23:00 of the new day. */
  lemma CachedFallbackCountsAgainAfterMidnight()
    ensures var isha := PrayerTime(0, "Isha", TimeOf(19, 0), TimeOf(23, 0));
            var current := CurrentPrayer([isha], 0, TimeOf(23, 30));
            && current == Some(isha)
            && CountdownTick("", current, TimeOf(0, 0)) == CountdownText(23 * 3600)
            && CountdownTick("", current, TimeOf(0, 0)) != EndedText
  {
    var isha := PrayerTime(0, "Isha", TimeOf(19, 0), TimeOf(23, 0));
    CurrentPrayerSpec([isha], 0, TimeOf(23, 30));
    assert Ended([isha][0], 0, TimeOf(23, 30));
    assert SecondsBetween(TimeOf(0, 0), TimeOf(23, 0)) == 23 * 3600;
    CountdownEndedIff(23 * 3600);
  }

  /** The current-prayer card: shown, with the current prayer, only while
      the selected date is today. */
  function CurrentCard(selected: int, today: int, current: Option<PrayerTime>): (card: Option<PrayerTime>)
    ensures card.Some? <==> selected == today && current.Some?
    ensures card.Some? ==> card == current
  {
    if selected == today then current else None
  }

  /** While the day the current prayer was computed on (`today0`) is still
      today, the card only ever shows one of the records listed below it,
      which are `ForDate(records, selected)`. */
  lemma CardIsListed(records: seq<PrayerTime>, today0: int, now0: TimeOfDay, selected: int, today: int)
    requires today0 == today
    ensures var card := CurrentCard(selected, today, CurrentPrayer(records, today0, now0));
            card.Some? ==> card.value in ForDate(records, selected)
  {
    var current := CurrentPrayer(records, today0, now0);
    if selected == today && current.Some? {
      var i :| 0 <= i < |records| && records[i] == current.value;
    }
  }

  /** After midnight, with the new day picked, the card still shows the
      prayer cached on the previous day, which the list of the new day lacks. */
  lemma CachedCardOutlivesItsDay()
    ensures var isha := PrayerTime(0, "Isha", TimeOf(19, 0), TimeOf(23, 0));
            var fajr := PrayerTime(1, "Fajr", TimeOf(5, 0), TimeOf(6, 0));
            var card := CurrentCard(1, 1, CurrentPrayer([isha, fajr], 0, TimeOf(23, 30)));
            card == Some(isha) && isha !in ForDate([isha, fajr], 1)
  {
    var isha := PrayerTime(0, "Isha", TimeOf(19, 0), TimeOf(23, 0));
    var fajr := PrayerTime(1, "Fajr", TimeOf(5, 0), TimeOf(6, 0));
    CurrentPrayerSpec([isha, fajr], 0, TimeOf(23, 30));
    assert Ended([isha, fajr][0], 0, TimeOf(23, 30));
  }

  const MillisPerDay: int := 24 * 60 * 60 * 1000

  /** `LocalDate.ofEpochDay(millis / (24 * 60 * 60 * 1000))` for the date
      picker's selection. */
  function EpochDayOfMillis(millis: int): (day: int)
    ensures millis >= 0 ==> day * MillisPerDay <= millis < (day + 1) * MillisPerDay
    ensures millis < 0 ==> (day - 1) * MillisPerDay < millis <= day * MillisPerDay
  {
    TruncDiv(millis, MillisPerDay)
  }

  /** The picker reports the selected day as its UTC midnight, which
      converts back to that day, before 1970 as well as after. */
  lemma EpochDayOfMidnight(day: int)
    ensures EpochDayOfMillis(day * MillisPerDay) == day
  {
  }

  /** A moment before 1970 that is not a midnight converts to the day after
      its own, since the division rounds toward zero. */
  lemma EpochDayBefore1970()
    ensures EpochDayOfMillis(-1) == 0
  {
  }
}
