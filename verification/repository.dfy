/** The prayer-time store: CSV import into an in-memory list that is
    replaced as a whole, and the four queries the home screen runs over it.
    The stored list, today's date and the current time of day are explicit
    parameters where the source reads a `StateFlow` and the clock. */
module Repository {
  import opened Wrappers
  import opened Seqs
  import opened Text
  import opened PrayerTimes

  /** `yyyy-MM-dd` parsing to an epoch day; `None` where the formatter throws. */
  type DateParser = string -> Option<int>

  /** `HH:mm` parsing to a time of day; `None` where the formatter throws. */
  type TimeParser = string -> Option<TimeOfDay>

  /** Why one data line was rejected; the four raw (untrimmed) fields are
      the ones the error message quotes. */
  datatype LineFault =
    | ColumnCount(got: nat)
    | UnparsableValues(date: string, prayer: string, start: string, end: string)

  datatype ImportError =
    | InvalidHeader
    | LineError(line: nat, fault: LineFault)

  /** The header check: the four column names must occur, case-sensitively, anywhere in the line. */
  predicate HeaderOk(header: string) {
    Contains(header, "date") && Contains(header, "prayer") && Contains(header, "start") && Contains(header, "end")
  }

  /** Because `split` keeps empty parts, a line is rejected for its column
      count exactly when it does not hold three commas; an empty line or a
      trailing comma therefore fails here. */
  function ParseLine(line: string, parseDate: DateParser, parseTime: TimeParser): (r: Result<PrayerTime, LineFault>)
    ensures (r.Failure? && r.error.ColumnCount?) <==> Count(line, ',') != 3
    ensures r.Failure? && r.error.ColumnCount? ==> r.error.got == Count(line, ',') + 1
  {
    ParseFields(Split(line, ','), parseDate, parseTime)
  }

  /** The header check looks for the four names anywhere in the line, in
      any order and with anything around them: each occurrence is given by its
      own split of the line. */
  lemma HeaderOkAnywhere(h: string, a1: string, b1: string, a2: string, b2: string,
                         a3: string, b3: string, a4: string, b4: string)
    requires h == a1 + "date" + b1 && h == a2 + "prayer" + b2
    requires h == a3 + "start" + b3 && h == a4 + "end" + b4
    ensures HeaderOk(h)
  {
    ContainsInfix(a1, "date", b1);
    ContainsInfix(a2, "prayer", b2);
    ContainsInfix(a3, "start", b3);
    ContainsInfix(a4, "end", b4);
  }

  /** The header the app's own error message asks for passes the check. */
  lemma ExpectedHeaderOk()
    ensures HeaderOk("date,prayer,start,end")
  {
    var h := "date,prayer,start,end";
    assert OccursAt(h, "date", 0);
    assert OccursAt(h, "prayer", 5);
    assert OccursAt(h, "start", 12);
    assert OccursAt(h, "end", 18);
  }

  /** The header check is case-sensitive, and an empty header line fails it. */
  lemma HeaderCaseSensitive()
    ensures !HeaderOk("Date,Prayer,Start,End")
    ensures !HeaderOk("")
  {
    var caps := "Date,Prayer,Start,End";
    assert 'd' !in caps[..18];
    forall i | 0 <= i <= |caps| - 4 ensures !OccursAt(caps, "date", i) {
      assert caps[i..i + 4][0] == caps[..18][i];
    }
  }

  /** The checks on the parts of one split line. */
  function ParseFields(parts: seq<string>, parseDate: DateParser, parseTime: TimeParser): (r: Result<PrayerTime, LineFault>)
    ensures (r.Failure? && r.error.ColumnCount?) <==> |parts| != 4
    ensures r.Failure? && r.error.ColumnCount? ==> r.error.got == |parts|
  {
    if |parts| != 4 then Failure(ColumnCount(|parts|))
    else
      var date := parseDate(Trim(parts[0]));
      var start := parseTime(Trim(parts[2]));
      var end := parseTime(Trim(parts[3]));
      if date.Some? && start.Some? && end.Some? then
        Success(PrayerTime(date.value, Trim(parts[1]), start.value, end.value))
      else
        Failure(UnparsableValues(parts[0], parts[1], parts[2], parts[3]))
  }

  /** A line made of four comma-free fields parses field by field, each trimmed first. */
  lemma ParseLineFields(d: string, n: string, s: string, e: string, parseDate: DateParser, parseTime: TimeParser)
    requires ',' !in d && ',' !in n && ',' !in s && ',' !in e
    ensures var r := ParseLine(d + "," + n + "," + s + "," + e, parseDate, parseTime);
            var date := parseDate(Trim(d));
            var start := parseTime(Trim(s));
            var end := parseTime(Trim(e));
            if date.Some? && start.Some? && end.Some? then
              r == Success(PrayerTime(date.value, Trim(n), start.value, end.value))
            else
              r == Failure(UnparsableValues(d, n, s, e))
  {
    var fields := [d, n, s, e];
    assert Join(fields, ',') == d + "," + n + "," + s + "," + e by {
      assert fields[1..] == [n, s, e];
      assert fields[1..][1..] == [s, e];
      assert fields[1..][1..][1..] == [e];
      assert Join([e], ',') == e;
      assert Join([s, e], ',') == s + "," + e;
      assert Join([n, s, e], ',') == n + "," + (s + "," + e);
    }
    SplitJoin(fields, ',');
  }

  /** The stored name is trimmed: it has no whitespace at either end. */
  lemma ParseLineTrimsName(line: string, parseDate: DateParser, parseTime: TimeParser)
    ensures var r := ParseLine(line, parseDate, parseTime);
            r.Success? ==> Trim(r.value.prayerName) == r.value.prayerName
  {
    var parts := Split(line, ',');
    if |parts| == 4 {
      TrimIdempotent(parts[1]);
    }
  }

  /** Parses the data lines in order, numbering them from `first`; the first
      bad line aborts with its number. */
  function ParseRows(lines: seq<string>, first: nat, parse: string -> Result<PrayerTime, LineFault>)
    : (r: Result<seq<PrayerTime>, ImportError>)
    ensures r.Success? <==> forall i :: 0 <= i < |lines| ==> parse(lines[i]).Success?
    ensures r.Success? ==> |r.value| == |lines|
    ensures r.Success? ==> forall i :: 0 <= i < |lines| ==> r.value[i] == parse(lines[i]).value
    ensures r.Failure? ==> r.error.LineError? && first <= r.error.line < first + |lines|
    ensures r.Failure? ==>
              && parse(lines[r.error.line - first]) == Failure(r.error.fault)
              && forall i :: 0 <= i < r.error.line - first ==> parse(lines[i]).Success?
  {
    if |lines| == 0 then Success([])
    else
      match parse(lines[0])
      case Failure(fault) => Failure(LineError(first, fault))
      case Success(row) =>
        match ParseRows(lines[1..], first + 1, parse)
        case Failure(e) => Failure(e)
        case Success(rows) => Success([row] + rows)
  }

  /** The stored list after an import, and the error the import threw, if any. */
  datatype ImportOutcome = ImportOutcome(prayerTimes: seq<PrayerTime>, error: Option<ImportError>)

  function DateKey(p: PrayerTime): int {
    p.date
  }

  /** The records' dates are compared through this key, as `LocalDate` compares chronologically. */
  function OnDate(d: int): PrayerTime -> bool {
    (p: PrayerTime) => p.date == d
  }

  /** CSV import: `lines` are the file's lines, header first, and `parseLine`
      is the per-line parser (`line => ParseLine(line, parseDate, parseTime)` in the app).
      On any error the stored list is left as it was; otherwise it becomes the
      parsed rows, stably sorted by date. */
  function ImportFromCsv(stored: seq<PrayerTime>, lines: seq<string>, parseLine: string -> Result<PrayerTime, LineFault>)
    : (r: ImportOutcome)
    ensures r.error.Some? ==> r.prayerTimes == stored
    ensures r.error == Some(InvalidHeader) <==> |lines| == 0 || !HeaderOk(lines[0])
    ensures r.error.Some? && r.error.value.LineError? ==>
              var n := r.error.value.line;
              && 2 <= n <= |lines|
              && parseLine(lines[n - 1]) == Failure(r.error.value.fault)
              && forall i :: 1 <= i < n - 1 ==> parseLine(lines[i]).Success?
    ensures r.error.None? ==>
              && |lines| > 0
              && (forall i :: 1 <= i < |lines| ==> parseLine(lines[i]).Success?)
              && |r.prayerTimes| == |lines| - 1
              && multiset(r.prayerTimes) == multiset(ParsedRows(lines, parseLine))
              && SortedBy(r.prayerTimes, DateKey)
  {
    if |lines| == 0 || !HeaderOk(lines[0]) then ImportOutcome(stored, Some(InvalidHeader))
    else
      match ParseRows(lines[1..], 2, parseLine)
      case Failure(e) => ImportOutcome(stored, Some(e))
      case Success(rows) =>
        assert forall i :: 1 <= i < |lines| ==> lines[1..][i - 1] == lines[i];
        assert rows == ParsedRows(lines, parseLine);
        ImportOutcome(SortBy(rows, DateKey), None)
  }

  /** The records of the data lines of a file whose every data line parses, in file order. */
  function ParsedRows(lines: seq<string>, parseLine: string -> Result<PrayerTime, LineFault>): (rows: seq<PrayerTime>)
    requires |lines| > 0
    requires forall i :: 1 <= i < |lines| ==> parseLine(lines[i]).Success?
    ensures |rows| == |lines| - 1
    ensures forall i :: 1 <= i < |lines| ==> rows[i - 1] == parseLine(lines[i]).value
  {
    seq(|lines| - 1, i requires 0 <= i < |lines| - 1 => parseLine(lines[i + 1]).value)
  }

  /** A successful import keeps the file order among records of the same date. */
  lemma {:induction false} ImportIsStable(stored: seq<PrayerTime>, lines: seq<string>,
                                          parseLine: string -> Result<PrayerTime, LineFault>, d: int)
    requires ImportFromCsv(stored, lines, parseLine).error.None?
    ensures ForDate(ImportFromCsv(stored, lines, parseLine).prayerTimes, d) == ForDate(ParsedRows(lines, parseLine), d)
  {
    var rows := ParseRows(lines[1..], 2, parseLine).value;
    assert rows == ParsedRows(lines, parseLine);
    SortByStable(rows, DateKey, OnDate(d), d);
  }

  /** Kotlin `getPrayerTimesForDate`: the stored records dated `d`, in stored order. */
  function ForDate(records: seq<PrayerTime>, d: int): (r: seq<PrayerTime>)
    ensures forall i :: 0 <= i < |r| ==> r[i].date == d && r[i] in records
    ensures forall i :: 0 <= i < |records| && records[i].date == d ==> records[i] in r
  {
    Filter(records, OnDate(d))
  }

  /** The records of a date keep their stored order: selecting from a
      concatenation selects from each part in turn. */
  lemma ForDateConcat(a: seq<PrayerTime>, b: seq<PrayerTime>, d: int)
    ensures ForDate(a + b, d) == ForDate(a, d) + ForDate(b, d)
    ensures ForDate([], d) == []
    ensures forall p :: ForDate([p], d) == if p.date == d then [p] else []
  {
    FilterAppend(a, b, OnDate(d));
  }

  /** The prayer window contains `now`, both ends included (`now in start..end`). */
  function InWindow(now: TimeOfDay): PrayerTime -> bool {
    (p: PrayerTime) => p.startTime <= now <= p.endTime
  }

  /** A record of `today` whose window contains `now`. */
  predicate Active(p: PrayerTime, today: int, now: TimeOfDay) {
    p.date == today && p.startTime <= now <= p.endTime
  }

  function ActiveOn(today: int, now: TimeOfDay): PrayerTime -> bool {
    (p: PrayerTime) => Active(p, today, now)
  }

  /** A record of `today` that ended at or before `now`. */
  predicate Ended(p: PrayerTime, today: int, now: TimeOfDay) {
    p.date == today && p.endTime <= now
  }

  function EndedOn(today: int, now: TimeOfDay): PrayerTime -> bool {
    (p: PrayerTime) => Ended(p, today, now)
  }

  function EndsBy(now: TimeOfDay): PrayerTime -> bool {
    (p: PrayerTime) => p.endTime <= now
  }

  function EndKey(p: PrayerTime): int {
    p.endTime
  }

  /** Kotlin `getCurrentPrayerTime`: the first of today's records whose
      window contains `now`, else the latest-ending of today's records that
      have already ended, else nothing. */
  function CurrentPrayer(records: seq<PrayerTime>, today: int, now: TimeOfDay): (r: Option<PrayerTime>)
    ensures r.Some? ==> r.value in records && r.value.date == today
  {
    var todays := ForDate(records, today);
    var active := FirstOrNone(todays, InWindow(now));
    if active.Some? then active
    else MaxByOrNone(Filter(todays, EndsBy(now)), EndKey)
  }

  /** The three steps of `CurrentPrayer`, stated over the stored list itself. */
  lemma CurrentPrayerSpec(records: seq<PrayerTime>, today: int, now: TimeOfDay)
    ensures var r := CurrentPrayer(records, today, now);
            && ((exists i :: 0 <= i < |records| && Active(records[i], today, now)) ==>
                  exists i :: IsFirstAt(records, ActiveOn(today, now), i) && r == Some(records[i]))
            && ((forall i :: 0 <= i < |records| ==> !Active(records[i], today, now)) &&
                (exists i :: 0 <= i < |records| && Ended(records[i], today, now)) ==>
                  exists i :: IsFirstMaxAt(records, EndedOn(today, now), EndKey, i) && r == Some(records[i]))
            && ((forall i :: 0 <= i < |records| ==> !Active(records[i], today, now) && !Ended(records[i], today, now)) ==>
                  r.None?)
  {
    var i := FirstOfFilter(records, OnDate(today), InWindow(now), ActiveOn(today, now));
    FilterFilter(records, OnDate(today), EndsBy(now), EndedOn(today, now));
    var k := MaxOfFilter(records, EndedOn(today, now), EndKey);
  }

  /** Unlike a window lookup, the current prayer may already be over: with
      nothing active, it is the most recently ended prayer of today. */
  lemma CurrentMayHaveEnded()
    ensures var fajr := PrayerTime(0, "Fajr", TimeOf(5, 0), TimeOf(6, 0));
            var r := CurrentPrayer([fajr], 0, TimeOf(7, 0));
            r == Some(fajr) && !(r.value.startTime <= TimeOf(7, 0) <= r.value.endTime)
  {
    var fajr := PrayerTime(0, "Fajr", TimeOf(5, 0), TimeOf(6, 0));
    CurrentPrayerSpec([fajr], 0, TimeOf(7, 0));
    assert Ended([fajr][0], 0, TimeOf(7, 0));
  }

  function StartsAfter(now: TimeOfDay): PrayerTime -> bool {
    (p: PrayerTime) => p.startTime > now
  }

  /** A record of `today` that starts strictly after `now`. */
  predicate Upcoming(p: PrayerTime, today: int, now: TimeOfDay) {
    p.date == today && p.startTime > now
  }

  function UpcomingOn(today: int, now: TimeOfDay): PrayerTime -> bool {
    (p: PrayerTime) => Upcoming(p, today, now)
  }

  function AfterDate(today: int): PrayerTime -> bool {
    (p: PrayerTime) => p.date > today
  }

  function StartKey(p: PrayerTime): int {
    p.startTime
  }

  /** Kotlin `getNextPrayerTime`: the earliest-starting of today's records
      that start after `now`; failing that, the first stored record of the
      earliest later date. */
  function NextPrayer(records: seq<PrayerTime>, today: int, now: TimeOfDay): (r: Option<PrayerTime>)
    ensures r.Some? ==> r.value in records && r.value.date >= today
  {
    var laterToday := MinByOrNone(Filter(ForDate(records, today), StartsAfter(now)), StartKey);
    if laterToday.Some? then laterToday
    else MinByOrNone(Filter(records, AfterDate(today)), DateKey)
  }

  /** The two steps of `NextPrayer`, stated over the stored list itself. */
  lemma NextPrayerSpec(records: seq<PrayerTime>, today: int, now: TimeOfDay)
    ensures var r := NextPrayer(records, today, now);
            && ((exists i :: 0 <= i < |records| && Upcoming(records[i], today, now)) ==>
                  exists i :: IsFirstMinAt(records, UpcomingOn(today, now), StartKey, i) && r == Some(records[i]))
            && ((forall i :: 0 <= i < |records| ==> !Upcoming(records[i], today, now)) &&
                (exists i :: 0 <= i < |records| && records[i].date > today) ==>
                  exists i :: IsFirstMinAt(records, AfterDate(today), DateKey, i) && r == Some(records[i]))
            && ((forall i :: 0 <= i < |records| ==> !Upcoming(records[i], today, now) && records[i].date <= today) ==>
                  r.None?)
  {
    FilterFilter(records, OnDate(today), StartsAfter(now), UpcomingOn(today, now));
    var i := MinOfFilter(records, UpcomingOn(today, now), StartKey);
    var k := MinOfFilter(records, AfterDate(today), DateKey);
  }

  /** On a later date the pick is by list order, not by start time: a file
      listing Isha before Fajr makes Isha the next prayer. */
  lemma NextDayFollowsListOrder()
    ensures var isha := PrayerTime(1, "Isha", TimeOf(19, 0), TimeOf(20, 0));
            var fajr := PrayerTime(1, "Fajr", TimeOf(5, 0), TimeOf(6, 0));
            NextPrayer([isha, fajr], 0, TimeOf(21, 0)) == Some(isha)
  {
    var isha := PrayerTime(1, "Isha", TimeOf(19, 0), TimeOf(20, 0));
    var fajr := PrayerTime(1, "Fajr", TimeOf(5, 0), TimeOf(6, 0));
    var records := [isha, fajr];
    NextPrayerSpec(records, 0, TimeOf(21, 0));
    assert records[0].date > 0;
  }

  function Identity(d: int): int {
    d
  }

  /** Kotlin `getAvailableDates`: the distinct stored dates, ascending. */
  function AvailableDates(records: seq<PrayerTime>): (r: seq<int>)
    ensures forall i, j :: 0 <= i < j < |r| ==> r[i] < r[j]
    ensures forall d :: d in r <==> exists i :: 0 <= i < |records| && records[i].date == d
  {
    var dates := Distinct(Map(records, DateKey));
    assert DistinctKeys(dates, Identity);
    SortByStrict(dates, Identity);
    var r := SortBy(dates, Identity);
    assert forall d :: d in r <==> d in multiset(dates);
    r
  }
}
