/** The prayer-time record. Dates are epoch days (`LocalDate.toEpochDay`),
    times of day are nanoseconds since midnight (`LocalTime.toNanoOfDay`),
    so that comparisons and the clock arithmetic of the worker and the
    countdown are exact integer arithmetic. */
module PrayerTimes {

  const NanosPerSecond: int := 1_000_000_000
  const NanosPerMilli: int := 1_000_000
  const NanosPerMinute: int := 60 * NanosPerSecond
  const NanosPerHour: int := 60 * NanosPerMinute
  const NanosPerDay: int := 24 * NanosPerHour

  /** A `LocalTime`: any instant of one day, midnight included, 24:00 excluded. */
  type TimeOfDay = t: int | 0 <= t < NanosPerDay

  /** `LocalTime.of(hour, minute)`, the values an `HH:mm` field parses to. */
  function TimeOf(hour: nat, minute: nat): (t: TimeOfDay)
    requires hour < 24 && minute < 60
    ensures t % NanosPerMinute == 0
    ensures t / NanosPerHour == hour && (t % NanosPerHour) / NanosPerMinute == minute
  {
    hour * NanosPerHour + minute * NanosPerMinute
  }

  /** One imported row. Nothing relates `startTime` to `endTime`, and
      `prayerName` is any string: the record is four independent fields,
      compared field by field. */
  datatype PrayerTime = PrayerTime(date: int, prayerName: string, startTime: TimeOfDay, endTime: TimeOfDay)

  /** The five daily prayers, in their order through the day. */
  const PrayerNames: seq<string> := ["Fajr", "Dhuhr", "Asr", "Maghrib", "Isha"]

  lemma PrayerNamesDistinct()
    ensures |PrayerNames| == 5
    ensures forall i, j :: 0 <= i < j < |PrayerNames| ==> PrayerNames[i] != PrayerNames[j]
  {
  }

  /** A record may have its window inverted, and its name need not be one of the five. */
  lemma RecordIsUnconstrained()
    ensures exists p: PrayerTime :: p.endTime < p.startTime && p.prayerName !in PrayerNames
  {
    var p := PrayerTime(0, "Tahajjud", TimeOf(5, 0), TimeOf(4, 0));
    assert p.endTime < p.startTime;
    assert p.prayerName != PrayerNames[0];
  }
}
