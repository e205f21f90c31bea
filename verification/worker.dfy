/** Notification scheduling: the target date-time of each of the three
    notifications of a prayer, the work request built for it (initial delay
    and input data), the unique-work queue it is enqueued into with REPLACE,
    and what running the request does with its input data.
    Date-times are `LocalDateTime`s without a zone, counted in nanoseconds
    from midnight of epoch day 0; `now` is the clock reading, already in
    the chosen zone, that `LocalDateTime.now(zone)` returns. */
module Worker {
  import opened Wrappers
  import opened PrayerTimes

  datatype NotificationType = Start | BeforeEnd | End

  /** The enum constant's `name`. */
  function TypeName(t: NotificationType): string {
    match t
    case Start => "START"
    case BeforeEnd => "BEFORE_END"
    case End => "END"
  }

  /** `NotificationType.valueOf`: `None` where it throws `IllegalArgumentException`. */
  function TypeValueOf(s: string): (r: Option<NotificationType>)
    ensures r.Some? ==> TypeName(r.value) == s
  {
    if s == "START" then Some(Start)
    else if s == "BEFORE_END" then Some(BeforeEnd)
    else if s == "END" then Some(End)
    else None
  }

  /** `valueOf` accepts exactly the three constant names, and inverts `name`. */
  lemma TypeValueOfName(t: NotificationType, s: string)
    ensures TypeValueOf(TypeName(t)) == Some(t)
    ensures TypeValueOf(s).Some? <==> s == "START" || s == "BEFORE_END" || s == "END"
  {
  }

  /** `LocalDateTime.of(date, time)`. */
  function DateTimeOf(date: int, time: TimeOfDay): int {
    date * NanosPerDay + time
  }

  /** The epoch day of a date-time (`toLocalDate`). */
  function DateOf(dt: int): int {
    dt / NanosPerDay
  }

  /** The time of day of a date-time (`toLocalTime`). */
  function TimeOfDayOf(dt: int): TimeOfDay {
    dt % NanosPerDay
  }

  /** A date-time splits back into the date and the time it was built from. */
  lemma DateTimeOfSplits(date: int, time: TimeOfDay)
    ensures DateOf(DateTimeOf(date, time)) == date
    ensures TimeOfDayOf(DateTimeOf(date, time)) == time
  {
  }

  /** How long before the end the "ending soon" notification fires. */
  const BeforeEndLead: int := 15 * NanosPerMinute

  /** When the notification of kind `t` is due. The start and end
      notifications fall on the record's date at its start and end times; the
      "ending soon" one 15 minutes before the end, on the previous day when
      the end is before 00:15. */
  function Target(p: PrayerTime, t: NotificationType): (dt: int)
    ensures t == Start ==> DateOf(dt) == p.date && TimeOfDayOf(dt) == p.startTime
    ensures t == End ==> DateOf(dt) == p.date && TimeOfDayOf(dt) == p.endTime
    ensures t == BeforeEnd && p.endTime >= BeforeEndLead ==>
              DateOf(dt) == p.date && TimeOfDayOf(dt) == p.endTime - BeforeEndLead
    ensures t == BeforeEnd && p.endTime < BeforeEndLead ==>
              DateOf(dt) == p.date - 1 && TimeOfDayOf(dt) == p.endTime + NanosPerDay - BeforeEndLead
  {
    match t
    case Start =>
      DateTimeOfSplits(p.date, p.startTime);
      DateTimeOf(p.date, p.startTime)
    case BeforeEnd =>
      if p.endTime >= BeforeEndLead then
        DateTimeOfSplits(p.date, p.endTime - BeforeEndLead);
        DateTimeOf(p.date, p.endTime) - BeforeEndLead
      else
        DateTimeOfSplits(p.date - 1, p.endTime + NanosPerDay - BeforeEndLead);
        DateTimeOf(p.date, p.endTime) - BeforeEndLead
    case End =>
      DateTimeOfSplits(p.date, p.endTime);
      DateTimeOf(p.date, p.endTime)
  }

  /** The end notification is due exactly 15 minutes after the "ending soon" one. */
  lemma EndFollowsBeforeEnd(p: PrayerTime)
    ensures Target(p, End) - Target(p, BeforeEnd) == BeforeEndLead
  {
  }

  /** A `OneTimeWorkRequest` as far as the scheduler and the worker see it. */
  datatype WorkRequest = WorkRequest(initialDelayMillis: nat, inputData: map<string, string>)

  const PrayerNameKey: string := "prayer_name"
  const NotificationTypeKey: string := "notification_type"

  /** The input data `workDataOf` builds for a notification. */
  function Payload(prayerName: string, t: NotificationType): (data: map<string, string>)
    ensures data.Keys == {PrayerNameKey, NotificationTypeKey}
    ensures data[PrayerNameKey] == prayerName
    ensures TypeValueOf(data[NotificationTypeKey]) == Some(t)
  {
    map[PrayerNameKey := prayerName, NotificationTypeKey := TypeName(t)]
  }

  /** `createWorkRequest`: a target in the past gives an immediate request
      with no input data; otherwise the delay is the time to the target in
      whole milliseconds (rounded down, as `Duration.toMillis` does for a
      non-negative duration) and the input data names the prayer and the kind. */
  function CreateWorkRequest(p: PrayerTime, t: NotificationType, now: int): (r: WorkRequest)
    ensures Target(p, t) < now ==> r.initialDelayMillis == 0 && r.inputData == map[]
    ensures Target(p, t) >= now ==>
              && r.initialDelayMillis * NanosPerMilli <= Target(p, t) - now < (r.initialDelayMillis + 1) * NanosPerMilli
              && r.inputData.Keys == {PrayerNameKey, NotificationTypeKey}
              && r.inputData[PrayerNameKey] == p.prayerName
              && TypeValueOf(r.inputData[NotificationTypeKey]) == Some(t)
  {
    var delay := Target(p, t) - now;
    if delay < 0 then WorkRequest(0, map[])
    else WorkRequest(delay / NanosPerMilli, Payload(p.prayerName, t))
  }

  /** A request due now, or less than a millisecond ahead, also has delay 0
      but keeps its input data: the delay alone does not tell a past target
      from a present one. */
  lemma ZeroDelayKeepsPayload(p: PrayerTime, t: NotificationType)
    ensures var r := CreateWorkRequest(p, t, Target(p, t));
            r.initialDelayMillis == 0 && r.inputData != map[]
    ensures var r := CreateWorkRequest(p, t, Target(p, t) + 1);
            r.initialDelayMillis == 0 && r.inputData == map[]
  {
    var r := CreateWorkRequest(p, t, Target(p, t));
    assert PrayerNameKey in r.inputData;
  }

  /** At the same clock reading the end notification never waits less than
      the "ending soon" one; when neither is in the past it waits exactly
      15 minutes (900 000 ms) longer. */
  lemma EndDelayAfterBeforeEndDelay(p: PrayerTime, now: int)
    ensures CreateWorkRequest(p, End, now).initialDelayMillis >= CreateWorkRequest(p, BeforeEnd, now).initialDelayMillis
    ensures Target(p, BeforeEnd) >= now ==>
              CreateWorkRequest(p, End, now).initialDelayMillis
              == CreateWorkRequest(p, BeforeEnd, now).initialDelayMillis + 900_000
  {
    var gap := Target(p, BeforeEnd) - now;
    EndFollowsBeforeEnd(p);
    if gap >= 0 {
      assert BeforeEndLead == 900_000 * NanosPerMilli;
      assert (gap + BeforeEndLead) / NanosPerMilli == gap / NanosPerMilli + 900_000;
    }
  }

  /** The unique work name `prayer_<kind>_<date>_<name>`, kept as its three parts. */
  datatype WorkKey = WorkKey(kind: NotificationType, date: int, prayerName: string)

  /** Unique work waiting to run, by name. */
  type WorkQueue = map<WorkKey, WorkRequest>

  /** `enqueueUniqueWork(name, REPLACE, request)`: any pending work of that name is replaced. */
  function EnqueueReplace(queue: WorkQueue, key: WorkKey, request: WorkRequest): (q: WorkQueue)
    ensures q.Keys == queue.Keys + {key}
    ensures q[key] == request
    ensures forall k :: k in queue && k != key ==> q[k] == queue[k]
  {
    queue[key := request]
  }

  /** `scheduleNotifications`: the three notifications of `p`, each built
      with its own clock reading (`createWorkRequest` reads the clock every time). */
  function ScheduleNotifications(queue: WorkQueue, p: PrayerTime, nowStart: int, nowBeforeEnd: int, nowEnd: int)
    : (q: WorkQueue)
    ensures q.Keys == queue.Keys + {WorkKey(Start, p.date, p.prayerName),
                                    WorkKey(BeforeEnd, p.date, p.prayerName),
                                    WorkKey(End, p.date, p.prayerName)}
    ensures q[WorkKey(Start, p.date, p.prayerName)] == CreateWorkRequest(p, Start, nowStart)
    ensures q[WorkKey(BeforeEnd, p.date, p.prayerName)] == CreateWorkRequest(p, BeforeEnd, nowBeforeEnd)
    ensures q[WorkKey(End, p.date, p.prayerName)] == CreateWorkRequest(p, End, nowEnd)
    ensures forall k :: k in queue && (k.date != p.date || k.prayerName != p.prayerName) ==> q[k] == queue[k]
  {
    var q1 := EnqueueReplace(queue, WorkKey(Start, p.date, p.prayerName), CreateWorkRequest(p, Start, nowStart));
    var q2 := EnqueueReplace(q1, WorkKey(BeforeEnd, p.date, p.prayerName), CreateWorkRequest(p, BeforeEnd, nowBeforeEnd));
    EnqueueReplace(q2, WorkKey(End, p.date, p.prayerName), CreateWorkRequest(p, End, nowEnd))
  }

  /** Scheduling the same prayer again with the same clock readings changes nothing. */
  lemma ScheduleIdempotent(queue: WorkQueue, p: PrayerTime, nowStart: int, nowBeforeEnd: int, nowEnd: int)
    ensures var q := ScheduleNotifications(queue, p, nowStart, nowBeforeEnd, nowEnd);
            ScheduleNotifications(q, p, nowStart, nowBeforeEnd, nowEnd) == q
  {
    var q := ScheduleNotifications(queue, p, nowStart, nowBeforeEnd, nowEnd);
    var q' := ScheduleNotifications(q, p, nowStart, nowBeforeEnd, nowEnd);
    assert q'.Keys == q.Keys;
    forall k | k in q ensures q'[k] == q[k] {
      if k.date == p.date && k.prayerName == p.prayerName {
        assert k == WorkKey(k.kind, p.date, p.prayerName);
      }
    }
  }

  /** The notification title for each kind: "<name> Prayer Time …". */
  function Title(prayerName: string, t: NotificationType): (title: string)
    ensures |title| > |prayerName| && title[..|prayerName|] == prayerName
    ensures " Prayer Time " <= title[|prayerName|..]
  {
    prayerName + TitleSuffix(t)
  }

  function TitleSuffix(t: NotificationType): string {
    match t
    case Start => " Prayer Time Started"
    case BeforeEnd => " Prayer Time Ending Soon"
    case End => " Prayer Time Ended"
  }

  /** Different prayers or kinds never share a title: the title names both. */
  lemma {:induction false} TitleInjective(n1: string, t1: NotificationType, n2: string, t2: NotificationType)
    requires Title(n1, t1) == Title(n2, t2)
    ensures n1 == n2 && t1 == t2
  {
    var s := Title(n1, t1);
    var a := TitleSuffix(t1);
    var b := TitleSuffix(t2);
    assert s[|s| - 3..] == a[|a| - 3..] by {
      assert s == n1 + a;
    }
    assert s[|s| - 3..] == b[|b| - 3..] by {
      assert s == n2 + b;
    }
    assert t1 == t2;
    assert n1 == s[..|n1|] && n2 == s[..|n2|];
  }

  /** What running a request returns. */
  datatype WorkOutcome =
    | WorkFailure                   // `Result.failure()`
    | WorkSuccess(notified: string) // `Result.success()`, after posting a notification with this title
    | Thrown                        // `valueOf` threw on an unknown kind name

  /** `doWork`: both input values must be present; the kind must be a constant name. */
  function DoWork(inputData: map<string, string>): (r: WorkOutcome)
    ensures r == WorkFailure <==> PrayerNameKey !in inputData || NotificationTypeKey !in inputData
    ensures r == Thrown <==>
              PrayerNameKey in inputData && NotificationTypeKey in inputData
              && TypeValueOf(inputData[NotificationTypeKey]).None?
    ensures r.WorkSuccess? ==>
              exists t :: TypeName(t) == inputData[NotificationTypeKey] && r.notified == Title(inputData[PrayerNameKey], t)
  {
    if PrayerNameKey !in inputData then WorkFailure
    else if NotificationTypeKey !in inputData then WorkFailure
    else
      match TypeValueOf(inputData[NotificationTypeKey])
      case None => Thrown
      case Some(t) => WorkSuccess(Title(inputData[PrayerNameKey], t))
  }

  /** Running a request built by `createWorkRequest`: a past target fails
      for want of input data; any other posts the notification of its kind. */
  lemma RunCreatedRequest(p: PrayerTime, t: NotificationType, now: int)
    ensures DoWork(CreateWorkRequest(p, t, now).inputData)
            == if Target(p, t) < now then WorkFailure else WorkSuccess(Title(p.prayerName, t))
  {
  }
}
