# Prayer-time notifications: the plain-data core

A Dafny model of the non-UI logic of an Android app. The app imports daily
prayer times from a CSV file and shows today's current and next prayer with a
countdown. It schedules three notifications per prayer: at the start, 15
minutes before the end, and at the end. It also keeps a few user settings,
which can be exported to and imported from JSON.

The model has eight modules:

- `Wrappers`: `Option` and `Result`.
- `Seqs`: the Kotlin collection operations the queries use, each with a
  contract of its own.
  - `filter`, `firstOrNull`, `maxByOrNull`/`minByOrNull` (the first extreme
    element), `sortedBy` (stable), `distinct` and `map`.
- `Text`: `contains`, JVM `trim`, Kotlin `split` on one character (empty
  parts kept) and `%02d` formatting.
- `PrayerTimes`: the record.
  - Dates are epoch days.
  - Times of day are nanoseconds since midnight, like `LocalTime.toNanoOfDay`.
    This makes `SECONDS.between` and `Duration.toMillis` exact.
- `Repository`: the CSV import and the four queries over the stored list.
  - The stored list, today's date and the time of day are parameters.
  - In the app they come from a `StateFlow` and the clock.
- `Worker`: notification targets, the work request, the unique-work queue
  with REPLACE, and what `doWork` does with the request's input data.
- `Preferences`: the settings store, as a map from eight keys to values.
  - Reads fall back to per-key defaults.
  - One setter per setting.
  - JSON import and export.
- `HomeScreen`:
  - the countdown text;
  - when the current-prayer card is shown;
  - which records the list shows;
  - the date picker's millisecond-to-date conversion.

Where a natural reading of the app and its code differ, the model follows the code:

- The current prayer need not be in progress. When no record of today
  contains `now`, it is the latest-ending record of today that has already
  ended (`Repository.CurrentMayHaveEnded`).
- On a later date, the next prayer is the first record of the earliest later
  date in list order, not the one with the earliest start
  (`Repository.NextDayFollowsListOrder`).
- Nothing requires a record's start to precede its end.
- Nothing requires its name to be one of the five prayers
  (`PrayerTimes.RecordIsUnconstrained`).

The worker has a notable quirk. A notification whose target time has passed
is still enqueued, with delay 0. That request carries no input data, so running
it fails and posts nothing (`Worker.RunCreatedRequest`).

## Model

| member | source | states |
|---|---|---|
| PrayerTimes.PrayerNamesDistinct | app/src/main/java/com/example/namaztimenotification/data/model/PrayerTime.kt:13 | The five prayer names are pairwise distinct. |
| PrayerTimes.RecordIsUnconstrained | app/src/main/java/com/example/namaztimenotification/data/model/PrayerTime.kt:6-11 | A record can end before it starts and can carry a name outside the five prayers; the data class enforces neither. |
| PrayerTimes.TimeOf | app/src/main/java/com/example/namaztimenotification/data/model/PrayerTime.kt:9-10 | An `HH:mm` time of day is a whole minute, and its hour and minute can be read back from it. |
| Repository.HeaderOkAnywhere | app/src/main/java/com/example/namaztimenotification/data/repository/PrayerTimeRepository.kt:35-38 | The header check passes whenever `date`, `prayer`, `start` and `end` each occur somewhere in the line, in any order and with anything around them. |
| Repository.ExpectedHeaderOk | app/src/main/java/com/example/namaztimenotification/data/repository/PrayerTimeRepository.kt:35-38 | The header `date,prayer,start,end`, the one the app's error message asks for, passes the check. |
| Repository.HeaderCaseSensitive | app/src/main/java/com/example/namaztimenotification/data/repository/PrayerTimeRepository.kt:35-38 | The check is case-sensitive: `Date,Prayer,Start,End` fails it. An empty header line fails it too. |
| Repository.ParseFields | app/src/main/java/com/example/namaztimenotification/data/repository/PrayerTimeRepository.kt:63-80 | A line is rejected for its column count exactly when it does not split into 4 parts, and the error reports the number of parts. |
| Repository.ParseLine | app/src/main/java/com/example/namaztimenotification/data/repository/PrayerTimeRepository.kt:63-67 | Because `split` keeps empty parts, the column check passes exactly when the line holds three commas; an empty line or a trailing comma fails it. |
| Repository.ParseLineFields | app/src/main/java/com/example/namaztimenotification/data/repository/PrayerTimeRepository.kt:69-79 | A line of four comma-free fields gives the record of the trimmed fields when all three parse. Otherwise the error quotes the four raw fields. |
| Repository.ParseLineTrimsName | app/src/main/java/com/example/namaztimenotification/data/repository/PrayerTimeRepository.kt:76 | A parsed record's name has no whitespace at either end. |
| Repository.ParseRows | app/src/main/java/com/example/namaztimenotification/data/repository/PrayerTimeRepository.kt:40-52 | Rows parse in file order. Success means every line parsed, giving one record per line. A failure names the first bad line by its number and carries that line's fault. |
| Repository.ImportFromCsv | app/src/main/java/com/example/namaztimenotification/data/repository/PrayerTimeRepository.kt:26-61 | A missing header, or one lacking `date`, `prayer`, `start` or `end`, is an invalid-header error. A bad data line is an error carrying its number (header = line 1), with all earlier lines good. On any error the stored list is unchanged. On success it is a permutation of the parsed rows, sorted by date. |
| Repository.ImportIsStable | app/src/main/java/com/example/namaztimenotification/data/repository/PrayerTimeRepository.kt:55 | After an import, the records of any one date appear in file order, so the sort by date is stable. |
| Repository.ForDate | app/src/main/java/com/example/namaztimenotification/data/repository/PrayerTimeRepository.kt:82-84 | The records for a date are stored records of that date, and every stored record of that date is among them. The home screen lists exactly this for the selected date. |
| Repository.ForDateConcat | app/src/main/java/com/example/namaztimenotification/data/repository/PrayerTimeRepository.kt:82-84 | Selecting by date distributes over concatenation, so the selection keeps stored order. |
| Repository.CurrentPrayer | app/src/main/java/com/example/namaztimenotification/data/repository/PrayerTimeRepository.kt:86-120 | Any current prayer is a stored record dated today. |
| Repository.CurrentPrayerSpec | app/src/main/java/com/example/namaztimenotification/data/repository/PrayerTimeRepository.kt:95-119 | If a record of today has start <= now <= end, the result is the first such record in list order. Otherwise it is the first record of today with the greatest end among those ended by `now`. Otherwise there is none. |
| Repository.CurrentMayHaveEnded | app/src/main/java/com/example/namaztimenotification/data/repository/PrayerTimeRepository.kt:107-116 | The current prayer can be one whose window no longer contains `now`. |
| Repository.NextPrayer | app/src/main/java/com/example/namaztimenotification/data/repository/PrayerTimeRepository.kt:122-151 | The next prayer is a stored record and is never dated before today. |
| Repository.NextPrayerSpec | app/src/main/java/com/example/namaztimenotification/data/repository/PrayerTimeRepository.kt:128-150 | If a record of today starts after `now`, the result is the earliest start, first among ties. Otherwise it is the first record in list order of the smallest later date. Otherwise there is none. |
| Repository.NextDayFollowsListOrder | app/src/main/java/com/example/namaztimenotification/data/repository/PrayerTimeRepository.kt:139-142 | On a later date the pick follows list order: Isha listed before Fajr is chosen over Fajr. |
| Repository.AvailableDates | app/src/main/java/com/example/namaztimenotification/data/repository/PrayerTimeRepository.kt:153-155 | The available dates are strictly ascending and are exactly the dates of the stored records. |
| Seqs.Filter | app/src/main/java/com/example/namaztimenotification/data/repository/PrayerTimeRepository.kt:83 | `filter` keeps only elements that pass, and keeps every one that does; `ForDateConcat` fixes their order. |
| Seqs.FirstOrNone | app/src/main/java/com/example/namaztimenotification/data/repository/PrayerTimeRepository.kt:98-100 | `firstOrNull` finds nothing exactly when no element passes, and otherwise an element that passes. |
| Seqs.MaxByOrNone | app/src/main/java/com/example/namaztimenotification/data/repository/PrayerTimeRepository.kt:111 | `maxByOrNull` is empty only on an empty list, and otherwise gives an element whose key no other element exceeds; `MaxOfFilter` fixes it as the first such. |
| Seqs.MinByOrNone | app/src/main/java/com/example/namaztimenotification/data/repository/PrayerTimeRepository.kt:132 | `minByOrNull` is empty only on an empty list, and otherwise gives an element whose key no other element undercuts; `MinOfFilter` fixes it as the first such. |
| Seqs.FirstOfFilter | app/src/main/java/com/example/namaztimenotification/data/repository/PrayerTimeRepository.kt:96-100 | `filter` then `firstOrNull` finds the first element meeting both conditions, and finds nothing exactly when no element meets both. |
| Seqs.MaxOfFilter | app/src/main/java/com/example/namaztimenotification/data/repository/PrayerTimeRepository.kt:108-111 | `filter` then `maxByOrNull` gives the first element with the greatest key among those passing the filter, or nothing when none passes. |
| Seqs.MinOfFilter | app/src/main/java/com/example/namaztimenotification/data/repository/PrayerTimeRepository.kt:140-142 | `filter` then `minByOrNull` gives the first element with the least key among those passing the filter, or nothing when none passes. |
| Seqs.SortBy | app/src/main/java/com/example/namaztimenotification/data/repository/PrayerTimeRepository.kt:55 | `sortedBy` returns a permutation of its input, ordered by the key. |
| Seqs.SortByStable | app/src/main/java/com/example/namaztimenotification/data/repository/PrayerTimeRepository.kt:55 | Among elements sharing a key, `sortedBy` keeps input order. |
| Seqs.SortByStrict | app/src/main/java/com/example/namaztimenotification/data/repository/PrayerTimeRepository.kt:154 | Sorting elements with distinct keys gives a strictly increasing sequence. |
| Seqs.Distinct | app/src/main/java/com/example/namaztimenotification/data/repository/PrayerTimeRepository.kt:154 | `distinct` keeps each element of its input exactly once and adds nothing. |
| Text.ContainsInfix | app/src/main/java/com/example/namaztimenotification/data/repository/PrayerTimeRepository.kt:35-36 | `contains` holds for any string placed anywhere inside another. |
| Text.Split | app/src/main/java/com/example/namaztimenotification/data/repository/PrayerTimeRepository.kt:64 | `split(",")` gives one more part than there are commas, and no part contains a comma. |
| Text.JoinSplit | app/src/main/java/com/example/namaztimenotification/data/repository/PrayerTimeRepository.kt:64 | Joining the parts of a split with the delimiter gives back the line. |
| Text.SplitJoin | app/src/main/java/com/example/namaztimenotification/data/repository/PrayerTimeRepository.kt:64 | Splitting a join of delimiter-free parts gives back the parts. |
| Text.Trim | app/src/main/java/com/example/namaztimenotification/data/repository/PrayerTimeRepository.kt:72-76 | `trim` leaves no whitespace at either end; with `TrimIsSlice` this characterises it fully. |
| Text.TrimIsSlice | app/src/main/java/com/example/namaztimenotification/data/repository/PrayerTimeRepository.kt:72-76 | `trim` returns a slice of its input, and everything cut off at either end is whitespace. |
| Text.TrimIdempotent | app/src/main/java/com/example/namaztimenotification/data/repository/PrayerTimeRepository.kt:76 | Trimming twice is trimming once. |
| Text.Format02 | app/src/main/java/com/example/namaztimenotification/ui/screens/HomeScreen.kt:184 | `%02d` of a number below 100 is two digits that read back as that number. |
| Worker.TypeValueOfName | app/src/main/java/com/example/namaztimenotification/worker/PrayerNotificationWorker.kt:148-150 | `valueOf` accepts exactly the three constant names and inverts `name`. |
| Worker.Target | app/src/main/java/com/example/namaztimenotification/worker/PrayerNotificationWorker.kt:77-82 | Targets by kind: START is at the record's date and start; END at its date and end. BEFORE_END is 15 minutes before the end, on the previous day when the end is before 00:15. |
| Worker.EndFollowsBeforeEnd | app/src/main/java/com/example/namaztimenotification/worker/PrayerNotificationWorker.kt:79-81 | The END target is exactly 15 minutes after the BEFORE_END target. |
| Worker.Payload | app/src/main/java/com/example/namaztimenotification/worker/PrayerNotificationWorker.kt:93-98 | The input data holds exactly `prayer_name` (the name) and `notification_type`, and the type reads back as the kind. |
| Worker.CreateWorkRequest | app/src/main/java/com/example/namaztimenotification/worker/PrayerNotificationWorker.kt:71-100 | A past target gives delay 0 and no input data. Otherwise the delay is the whole milliseconds to the target, rounded down, and the input data names the prayer and the kind. |
| Worker.ZeroDelayKeepsPayload | app/src/main/java/com/example/namaztimenotification/worker/PrayerNotificationWorker.kt:85-99 | A target exactly at `now` has delay 0 and keeps its payload. A target one nanosecond past has delay 0 and none: the delay alone cannot tell them apart. |
| Worker.EndDelayAfterBeforeEndDelay | app/src/main/java/com/example/namaztimenotification/worker/PrayerNotificationWorker.kt:77-92 | At one clock reading, END's delay is never below BEFORE_END's. It is exactly 900000 ms more when BEFORE_END is not in the past. |
| Worker.EnqueueReplace | app/src/main/java/com/example/namaztimenotification/worker/PrayerNotificationWorker.kt:40-44 | Enqueueing with REPLACE binds the name to the new request and leaves every other name as it was. |
| Worker.ScheduleNotifications | app/src/main/java/com/example/namaztimenotification/worker/PrayerNotificationWorker.kt:27-69 | Scheduling adds exactly the three keys (start, before-end, end) for the record's date and name. Each holds its request. Work of other dates or names is unchanged. |
| Worker.ScheduleIdempotent | app/src/main/java/com/example/namaztimenotification/worker/PrayerNotificationWorker.kt:27-69 | Scheduling the same prayer again with the same clock readings leaves the queue identical. |
| Worker.Title | app/src/main/java/com/example/namaztimenotification/worker/PrayerNotificationWorker.kt:134-138 | Every title starts with the prayer name, followed by " Prayer Time ". |
| Worker.TitleInjective | app/src/main/java/com/example/namaztimenotification/worker/PrayerNotificationWorker.kt:134-138 | Titles are "<name> Prayer Time Started/Ending Soon/Ended". Two titles are equal only for the same name and kind. |
| Worker.DoWork | app/src/main/java/com/example/namaztimenotification/worker/PrayerNotificationWorker.kt:103-116 | The worker fails exactly when either input value is missing. It throws exactly when both are present and the type is not a constant name. Otherwise it posts the title of the name and kind. |
| Worker.RunCreatedRequest | app/src/main/java/com/example/namaztimenotification/worker/PrayerNotificationWorker.kt:85-108 | Running a created request fails when its target was past. Otherwise it posts the notification for its prayer and kind. |
| Preferences.KeyName | app/src/main/java/com/example/namaztimenotification/data/preferences/UserPreferences.kt:15-26 | The name of each of the eight keys gives the key back, so no two keys share a name. |
| Preferences.PrayerKey | app/src/main/java/com/example/namaztimenotification/data/preferences/UserPreferences.kt:72-82 | A name has a flag key exactly when it is one of the five prayers, and that key belongs to that prayer. |
| Preferences.Get | app/src/main/java/com/example/namaztimenotification/data/preferences/UserPreferences.kt:28-52 | A read gives the stored value, or the key's default when nothing is stored. Only the time zone reads as a string. |
| Preferences.Read | app/src/main/java/com/example/namaztimenotification/data/preferences/UserPreferences.kt:43-52 | The per-prayer map has exactly the five prayer names as keys. |
| Preferences.EmptyStoreReadsDefaults | app/src/main/java/com/example/namaztimenotification/data/preferences/UserPreferences.kt:28-52 | An empty store reads: notifications on, not silent, `Asia/Dhaka`, every prayer on. |
| Preferences.SetNotificationsEnabled | app/src/main/java/com/example/namaztimenotification/data/preferences/UserPreferences.kt:54-58 | Writes its own key only. Every other key reads as before, and well-typed values stay well typed. |
| Preferences.SetSilentNotifications | app/src/main/java/com/example/namaztimenotification/data/preferences/UserPreferences.kt:60-64 | Writes its own key only. Every other key reads as before, and well-typed values stay well typed. |
| Preferences.SetTimeZone | app/src/main/java/com/example/namaztimenotification/data/preferences/UserPreferences.kt:66-70 | Writes the zone id under its own key only. Every other key reads as before. |
| Preferences.SetNotificationsEnabledReads | app/src/main/java/com/example/namaztimenotification/data/preferences/UserPreferences.kt:54-58 | The readers see the new value of that setting and no other change. |
| Preferences.SetSilentNotificationsReads | app/src/main/java/com/example/namaztimenotification/data/preferences/UserPreferences.kt:60-64 | The readers see the new value of that setting and no other change. |
| Preferences.SetTimeZoneReads | app/src/main/java/com/example/namaztimenotification/data/preferences/UserPreferences.kt:66-70 | The readers see the new zone and no other change. |
| Preferences.SetPrayerNotification | app/src/main/java/com/example/namaztimenotification/data/preferences/UserPreferences.kt:72-82 | Any name other than the five leaves the store unchanged. A prayer name writes only that prayer's key, and every other key reads as before. |
| Preferences.SetPrayerNotificationReads | app/src/main/java/com/example/namaztimenotification/data/preferences/UserPreferences.kt:72-82 | The readers see that prayer's new flag and no other change. |
| Preferences.OptBoolean | app/src/main/java/com/example/namaztimenotification/data/preferences/UserPreferences.kt:101-108 | `optBoolean` gives the default for a missing member and the member's value for a boolean one. |
| Preferences.OptString | app/src/main/java/com/example/namaztimenotification/data/preferences/UserPreferences.kt:103 | `optString` gives the default for a missing member and the member's value for a string one. |
| Preferences.ImportedValue | app/src/main/java/com/example/namaztimenotification/data/preferences/UserPreferences.kt:101-108 | A key whose member is missing imports as its default, and only the time zone imports as a string. |
| Preferences.ImportFromJson | app/src/main/java/com/example/namaztimenotification/data/preferences/UserPreferences.kt:99-110 | The import writes all eight keys, each from its member or its default, and leaves the store well typed. |
| Preferences.ImportReads | app/src/main/java/com/example/namaztimenotification/data/preferences/UserPreferences.kt:99-110 | After an import, every reader reports the `optBoolean`/`optString` of its key's name with that key's default. |
| Preferences.ImportIdempotent | app/src/main/java/com/example/namaztimenotification/data/preferences/UserPreferences.kt:99-110 | Importing the same JSON twice equals importing it once. The prior store does not affect what the readers report. |
| Preferences.ExportMapping | app/src/main/java/com/example/namaztimenotification/data/preferences/UserPreferences.kt:86-95 | The mapping block puts each key's read value under the key's name and nothing else. |
| Preferences.ExportToJson | app/src/main/java/com/example/namaztimenotification/data/preferences/UserPreferences.kt:84-97 | As written the export is empty, so every key imports as its default. |
| Preferences.ImportOfExportResets | app/src/main/java/com/example/namaztimenotification/data/preferences/UserPreferences.kt:84-110 | Exporting and importing back resets every setting to its default. |
| Preferences.ImportOfExportMappingRestores | app/src/main/java/com/example/namaztimenotification/data/preferences/UserPreferences.kt:86-108 | Importing the mapping's output restores every setting the readers report. |
| Preferences.ImportedValueOfExport | app/src/main/java/com/example/namaztimenotification/data/preferences/UserPreferences.kt:87-94 | The mapping and the import agree on each key's name, type and default. |
| HomeScreen.SecondsBetween | app/src/main/java/com/example/namaztimenotification/ui/screens/HomeScreen.kt:179 | `SECONDS.between` gives the whole seconds to the end, rounded toward zero, and stays within one day. |
| HomeScreen.CountdownText | app/src/main/java/com/example/namaztimenotification/ui/screens/HomeScreen.kt:180-187 | With no whole second left the text is "Prayer time ended"; otherwise it is at least 8 characters, all digits and colons. |
| HomeScreen.CountdownReadsBack | app/src/main/java/com/example/namaztimenotification/ui/screens/HomeScreen.kt:180-184 | With t seconds left (0 < t < 100 h), the text is `HH:MM:SS`. Its fields have minutes and seconds below 60 and add back to t. |
| HomeScreen.HoursMinutesSeconds | app/src/main/java/com/example/namaztimenotification/ui/screens/HomeScreen.kt:181-183 | h = t/3600, m = (t%3600)/60 and s = t%60 satisfy h*3600 + m*60 + s = t, with m, s < 60. |
| HomeScreen.CountdownEndedIff | app/src/main/java/com/example/namaztimenotification/ui/screens/HomeScreen.kt:180-186 | The text is "Prayer time ended" exactly when no whole second is left. |
| HomeScreen.CountdownTick | app/src/main/java/com/example/namaztimenotification/ui/screens/HomeScreen.kt:177-188 | Without a current prayer the text is unchanged. With one that has ended it is "Prayer time ended". With a second or more left it is 8 characters. |
| HomeScreen.CountdownTickReadsBack | app/src/main/java/com/example/namaztimenotification/ui/screens/HomeScreen.kt:179-184 | With a second or more left, the text shows hours below 24, and its fields add back to the seconds left. |
| HomeScreen.FallbackShowsEnded | app/src/main/java/com/example/namaztimenotification/ui/screens/HomeScreen.kt:56-58 | The current prayer is computed once per list change, at its own clock reading. If it came from the fallback, every later tick of that day reads "Prayer time ended". |
| HomeScreen.CachedFallbackCountsAgainAfterMidnight | app/src/main/java/com/example/namaztimenotification/ui/screens/HomeScreen.kt:177-187 | Across midnight that fails: a fallback Isha (19:00-23:00) computed at 23:30 reads `23:00:00` at the 00:00 tick, not "Prayer time ended". |
| HomeScreen.CurrentCard | app/src/main/java/com/example/namaztimenotification/ui/screens/HomeScreen.kt:223-227 | The card is shown exactly when the selected date is today and there is a current prayer, and it shows that prayer. |
| HomeScreen.CardIsListed | app/src/main/java/com/example/namaztimenotification/ui/screens/HomeScreen.kt:223-246 | While the current prayer's day is still today, a shown card's prayer is always among the listed prayers. |
| HomeScreen.CachedCardOutlivesItsDay | app/src/main/java/com/example/namaztimenotification/ui/screens/HomeScreen.kt:223-246 | Across midnight that fails: with the new day picked, the card shows the previous day's Isha, which the new day's list lacks. |
| HomeScreen.EpochDayOfMillis | app/src/main/java/com/example/namaztimenotification/ui/screens/HomeScreen.kt:265 | The picked day is the milliseconds divided by 86400000, rounded toward zero. |
| HomeScreen.EpochDayOfMidnight | app/src/main/java/com/example/namaztimenotification/ui/screens/HomeScreen.kt:265 | Any day's UTC midnight converts back to that day. |
| HomeScreen.EpochDayBefore1970 | app/src/main/java/com/example/namaztimenotification/ui/screens/HomeScreen.kt:265 | One millisecond before 1970 converts to day 0, not day -1. |

## Left out

- Reading the CSV stream is left out: the input is a sequence of lines already split on line terminators.
- Logging and file pickers are left out.
- Exception message text is not modelled; errors are structured values (`ImportError`, `LineFault`).
- `yyyy-MM-dd` and `HH:mm` parsing (ThreeTenBP formatters) is a pair of parameters, because the formatters are a foreign library.
  - Their leniency, such as day clamping, is not modelled.
- Clocks are parameters:
  - `LocalDate.now()` and `LocalTime.now()` in the queries and the countdown;
  - `LocalDateTime.now(zone)` in `createWorkRequest`, one reading per call, so three per `scheduleNotifications`.
- The `StateFlow` holding the list is a parameter and a returned value.
- Zone rules, DST and `ZoneId.of` validation are left out: `now` is a zone-less local date-time.
- WorkManager's execution is left out: timing, retries, request ids and the unique-name string formatting.
  - The unique name is kept as its three parts (`Worker.WorkKey`).
- Notification channels, the builder's other fields and `notify` are left out.
  - A run is represented by the title it would post.
- Worker.CreateWorkRequest: `Duration.toMillis` overflow is not modelled, because a target with a 4-digit year lies far inside the `Long` millisecond range of about 292 million years.
- DataStore persistence, `edit` transactions and the `Flow` machinery are left out.
  - The store is a map from the eight keys to values.
- A stored value of the wrong type makes the app throw `ClassCastException`; `Preferences.Get` falls back to the default instead.
  - Every setter and the import keep the store well typed, so this case arises only from outside the app.
- Preferences.OptBoolean: org.json's coercion of the strings "true"/"false" is not modelled. A member that is not a boolean reads as the default.
- Preferences.OptString: org.json's `toString` of non-string members is not modelled. A member that is not a string reads as the default.
- Preferences.SetTimeZone: stores the zone id string; `ZoneId.id` and `ZoneId.of` are not modelled.
- The Compose UI is left out: layout, dialogs, `SettingsScreen.kt` and both `MainActivity.kt` files.
- The countdown loop and its `delay(1000)` are left out; the model is one tick (`HomeScreen.CountdownTick`).
- HomeScreen.FallbackShowsEnded: holds only within the day the current prayer was computed on. The screen keeps that prayer until the list changes (`remember(prayerTimes)`), so after midnight it can count down again (`HomeScreen.CachedFallbackCountsAgainAfterMidnight`).
- HomeScreen.CardIsListed: holds only while that day is still today. After midnight the card can show a prayer the list lacks (`HomeScreen.CachedCardOutlivesItsDay`).
- Text.Format02: assumes a default locale with ASCII digits. `String.format` without a `Locale` writes the default locale's digits, which are not ASCII under, for example, Bengali or Arabic locales.
- A null `selectedDateMillis` is left out (the picker then does nothing).
- The zone the date picker works in is left out.

## Findings

| source | as written | input that shows it | evidently intended | confidence | as-written member | corrected member |
|---|---|---|---|---|---|---|
| app/src/main/java/com/example/namaztimenotification/data/preferences/UserPreferences.kt:84-97 | The `put` calls sit inside `dataStore.data.map { … }`, a cold `Flow` that is never collected, so `exportToJson` returns an empty object | any store, e.g. one with `silent_notifications = true`: the export has no members, and importing it back sets silent to false | the export holds every key's read value under its name, so that import(export) restores the settings | not executed | Preferences.ExportToJson (with Preferences.ImportOfExportResets) | Preferences.ExportMapping (with Preferences.ImportOfExportMappingRestores) |
