/** User settings: a key-value store (the DataStore `Preferences`) with
    per-key defaults on read, one-key setters, and JSON export/import. */
module Preferences {
  import opened Wrappers
  import opened PrayerTimes

  datatype Value = BoolValue(b: bool) | StringValue(s: string)

  /** The eight preference keys (`booleanPreferencesKey` / `stringPreferencesKey`). */
  datatype Key =
    | NotificationsEnabled | SilentNotifications | TimeZone
    | FajrNotification | DhuhrNotification | AsrNotification | MaghribNotification | IshaNotification

  /** The key whose name is `name`, if any. */
  function KeyOfName(name: string): Option<Key> {
    if name == "notifications_enabled" then Some(NotificationsEnabled)
    else if name == "silent_notifications" then Some(SilentNotifications)
    else if name == "time_zone" then Some(TimeZone)
    else if name == "fajr_notification" then Some(FajrNotification)
    else if name == "dhuhr_notification" then Some(DhuhrNotification)
    else if name == "asr_notification" then Some(AsrNotification)
    else if name == "maghrib_notification" then Some(MaghribNotification)
    else if name == "isha_notification" then Some(IshaNotification)
    else None
  }

  /** The key's name, under which it is stored and exported; no two keys
      share a name, as the name gives the key back. */
  function KeyName(k: Key): (name: string)
    ensures KeyOfName(name) == Some(k)
  {
    match k
    case NotificationsEnabled => "notifications_enabled"
    case SilentNotifications => "silent_notifications"
    case TimeZone => "time_zone"
    case FajrNotification => "fajr_notification"
    case DhuhrNotification => "dhuhr_notification"
    case AsrNotification => "asr_notification"
    case MaghribNotification => "maghrib_notification"
    case IshaNotification => "isha_notification"
  }

  /** The eight keys. */
  const AllKeys: set<Key> := {NotificationsEnabled, SilentNotifications, TimeZone,
    FajrNotification, DhuhrNotification, AsrNotification, MaghribNotification, IshaNotification}

  lemma AllKeysComplete()
    ensures forall k :: k in AllKeys
  {
    forall k ensures k in AllKeys {
      match k {
        case NotificationsEnabled =>
        case SilentNotifications =>
        case TimeZone =>
        case FajrNotification =>
        case DhuhrNotification =>
        case AsrNotification =>
        case MaghribNotification =>
        case IshaNotification =>
      }
    }
  }

  /** The stored preferences. */
  type Store = map<Key, Value>

  const DefaultTimeZone: string := "Asia/Dhaka"

  /** The prayer a flag key belongs to; `None` for the three general keys. */
  function PrayerOfKey(k: Key): Option<string> {
    match k
    case FajrNotification => Some("Fajr")
    case DhuhrNotification => Some("Dhuhr")
    case AsrNotification => Some("Asr")
    case MaghribNotification => Some("Maghrib")
    case IshaNotification => Some("Isha")
    case _ => None
  }

  /** The key of a prayer's on/off flag; `None` for any other name. Each of
      the five prayers has a key of its own. */
  function PrayerKey(name: string): (k: Option<Key>)
    ensures k.Some? <==> name in PrayerNames
    ensures k.Some? ==> PrayerOfKey(k.value) == Some(name)
  {
    if name == "Fajr" then Some(FajrNotification)
    else if name == "Dhuhr" then Some(DhuhrNotification)
    else if name == "Asr" then Some(AsrNotification)
    else if name == "Maghrib" then Some(MaghribNotification)
    else if name == "Isha" then Some(IshaNotification)
    else None
  }

  /** Every key holds a value of its declared type: the time zone a string, the rest booleans. */
  ghost predicate WellTyped(s: Store) {
    forall k :: k in s ==> (s[k].StringValue? <==> k == TimeZone)
  }

  /** Every key's default, the value its reader falls back to. */
  function Default(k: Key): Value {
    match k
    case SilentNotifications => BoolValue(false)
    case TimeZone => StringValue(DefaultTimeZone)
    case _ => BoolValue(true)
  }

  /** `preferences[key] ?: default`: the stored value, or the key's default
      when nothing is stored under the key. */
  function Get(s: Store, k: Key): (v: Value)
    ensures v.StringValue? <==> k == TimeZone
    ensures k !in s ==> v == Default(k)
    ensures WellTyped(s) && k in s ==> v == s[k]
  {
    if k in s && (s[k].StringValue? <==> k == TimeZone) then s[k] else Default(k)
  }

  /** What the settings screen sees: every reader's value at once. */
  datatype Settings = Settings(
    notificationsEnabled: bool,
    silentNotifications: bool,
    timeZone: string,
    prayerNotifications: map<string, bool>)

  /** The reader flows `notificationsEnabled`, `silentNotifications`,
      `timeZone` (its zone id) and `prayerNotifications`, on one snapshot. */
  function Read(s: Store): (r: Settings)
    ensures forall n :: n in r.prayerNotifications <==> n in PrayerNames
  {
    Settings(
      Get(s, NotificationsEnabled).b,
      Get(s, SilentNotifications).b,
      Get(s, TimeZone).s,
      map n | n in PrayerNames :: Get(s, PrayerKey(n).value).b)
  }

  /** The readers see the store only through `Get`. */
  lemma ReadOfSameValues(a: Store, b: Store)
    requires forall k :: Get(a, k) == Get(b, k)
    ensures Read(a) == Read(b)
  {
  }

  /** The settings of a fresh install. */
  const Defaults: Settings := Settings(true, false, DefaultTimeZone, map n | n in PrayerNames :: true)

  /** An empty store reads as: notifications on, not silent, Asia/Dhaka, every prayer on. */
  lemma EmptyStoreReadsDefaults()
    ensures Read(map[]) == Defaults
    ensures Defaults.notificationsEnabled && !Defaults.silentNotifications && Defaults.timeZone == DefaultTimeZone
    ensures forall n :: n in PrayerNames ==> n in Defaults.prayerNotifications && Defaults.prayerNotifications[n]
  {
  }

  /** `setNotificationsEnabled`. */
  function SetNotificationsEnabled(s: Store, enabled: bool): (r: Store)
    ensures r.Keys == s.Keys + {NotificationsEnabled}
    ensures Get(r, NotificationsEnabled) == BoolValue(enabled)
    ensures forall k :: k != NotificationsEnabled ==> Get(r, k) == Get(s, k)
    ensures WellTyped(s) ==> WellTyped(r)
  {
    s[NotificationsEnabled := BoolValue(enabled)]
  }

  /** `setSilentNotifications`. */
  function SetSilentNotifications(s: Store, silent: bool): (r: Store)
    ensures r.Keys == s.Keys + {SilentNotifications}
    ensures Get(r, SilentNotifications) == BoolValue(silent)
    ensures forall k :: k != SilentNotifications ==> Get(r, k) == Get(s, k)
    ensures WellTyped(s) ==> WellTyped(r)
  {
    s[SilentNotifications := BoolValue(silent)]
  }

  /** `setTimeZone`, given the zone's id. */
  function SetTimeZone(s: Store, zoneId: string): (r: Store)
    ensures r.Keys == s.Keys + {TimeZone}
    ensures Get(r, TimeZone) == StringValue(zoneId)
    ensures forall k :: k != TimeZone ==> Get(r, k) == Get(s, k)
    ensures WellTyped(s) ==> WellTyped(r)
  {
    s[TimeZone := StringValue(zoneId)]
  }

  /** `setNotificationsEnabled` changes that setting and no other. */
  lemma SetNotificationsEnabledReads(s: Store, enabled: bool)
    ensures Read(SetNotificationsEnabled(s, enabled)) == Read(s).(notificationsEnabled := enabled)
  {
  }

  /** `setSilentNotifications` changes that setting and no other. */
  lemma SetSilentNotificationsReads(s: Store, silent: bool)
    ensures Read(SetSilentNotifications(s, silent)) == Read(s).(silentNotifications := silent)
  {
  }

  /** `setTimeZone` changes that setting and no other. */
  lemma SetTimeZoneReads(s: Store, zoneId: string)
    ensures Read(SetTimeZone(s, zoneId)) == Read(s).(timeZone := zoneId)
  {
  }

  /** `setPrayerNotification`: the `when` has a branch for each of the five
      names and none for anything else, so any other name writes nothing. */
  function SetPrayerNotification(s: Store, prayerName: string, enabled: bool): (r: Store)
    ensures prayerName !in PrayerNames ==> r == s
    ensures prayerName in PrayerNames ==>
              && r.Keys == s.Keys + {PrayerKey(prayerName).value}
              && Get(r, PrayerKey(prayerName).value) == BoolValue(enabled)
              && forall k :: k != PrayerKey(prayerName).value ==> Get(r, k) == Get(s, k)
    ensures WellTyped(s) ==> WellTyped(r)
  {
    match PrayerKey(prayerName)
    case None => s
    case Some(key) => s[key := BoolValue(enabled)]
  }

  /** Switching one prayer's notifications changes that prayer's flag and nothing else. */
  lemma SetPrayerNotificationReads(s: Store, prayerName: string, enabled: bool)
    requires prayerName in PrayerNames
    ensures var before := Read(s);
            Read(SetPrayerNotification(s, prayerName, enabled))
            == before.(prayerNotifications := before.prayerNotifications[prayerName := enabled])
  {
    var key := PrayerKey(prayerName).value;
    var r := SetPrayerNotification(s, prayerName, enabled);
    var m := Read(s).prayerNotifications[prayerName := enabled];
    assert Read(r).prayerNotifications == m;
  }

  /** A JSON value as `optBoolean` and `optString` classify it. */
  datatype JsonValue = JsonBool(b: bool) | JsonString(s: string) | JsonOther

  /** A `JSONObject`: its members by name. */
  type Json = map<string, JsonValue>

  /** `optBoolean(key, default)`: the member if it is a boolean, else the default. */
  function OptBoolean(json: Json, key: string, default: bool): (b: bool)
    ensures key !in json ==> b == default
    ensures key in json && json[key].JsonBool? ==> b == json[key].b
  {
    if key in json && json[key].JsonBool? then json[key].b else default
  }

  /** `optString(key, default)`: the member if it is a string, else the default. */
  function OptString(json: Json, key: string, default: string): (r: string)
    ensures key !in json ==> r == default
    ensures key in json && json[key].JsonString? ==> r == json[key].s
  {
    if key in json && json[key].JsonString? then json[key].s else default
  }

  /** What `importFromJson` stores under `k`: the member named after the key
      if it has the key's type, else the key's default. */
  function ImportedValue(json: Json, k: Key): (v: Value)
    ensures KeyName(k) !in json ==> v == Default(k)
    ensures v.StringValue? <==> k == TimeZone
  {
    if k == TimeZone then StringValue(OptString(json, KeyName(k), DefaultTimeZone))
    else BoolValue(OptBoolean(json, KeyName(k), Default(k).b))
  }

  /** `importFromJson`: one edit writing all eight keys, each from the JSON
      member of the key's name, or from the key's default. */
  function ImportFromJson(s: Store, json: Json): (r: Store)
    ensures forall k :: k in r && r[k] == ImportedValue(json, k)
    ensures WellTyped(r)
  {
    AllKeysComplete();
    s + map k | k in AllKeys :: ImportedValue(json, k)
  }

  /** After an import every reader reports the JSON member of its key's
      name when that member has the right type, and its default otherwise. */
  lemma ImportReads(s: Store, json: Json)
    ensures var r := Read(ImportFromJson(s, json));
            && r.notificationsEnabled == OptBoolean(json, KeyName(NotificationsEnabled), true)
            && r.silentNotifications == OptBoolean(json, KeyName(SilentNotifications), false)
            && r.timeZone == OptString(json, KeyName(TimeZone), DefaultTimeZone)
            && forall n :: n in PrayerNames ==>
                 r.prayerNotifications[n] == OptBoolean(json, KeyName(PrayerKey(n).value), true)
  {
  }

  /** Importing the same JSON twice is importing it once, and what was
      stored before makes no difference to what the readers report. */
  lemma ImportIdempotent(s: Store, t: Store, json: Json)
    ensures ImportFromJson(ImportFromJson(s, json), json) == ImportFromJson(s, json)
    ensures Read(ImportFromJson(s, json)) == Read(ImportFromJson(t, json))
  {
    var r := ImportFromJson(s, json);
    var r' := ImportFromJson(r, json);
    assert r'.Keys == r.Keys;
    ReadOfSameValues(r, ImportFromJson(t, json));
  }

  /** A stored value as a JSON member. */
  function AsJson(v: Value): JsonValue {
    match v
    case BoolValue(b) => JsonBool(b)
    case StringValue(z) => JsonString(z)
  }

  /** The body of the `dataStore.data.map { … }` block in `exportToJson`:
      each key's reader value under the key's name, and nothing else. */
  function ExportMapping(s: Store): (json: Json)
    ensures forall k :: KeyName(k) in json && json[KeyName(k)] == AsJson(Get(s, k))
    ensures forall name :: name in json ==> KeyOfName(name).Some?
  {
    AllKeysComplete();
    map k | k in AllKeys :: KeyName(k) := AsJson(Get(s, k))
  }

  /** `exportToJson` as written: the mapping sits in a `Flow.map` that is
      never collected, so it never runs and the object returned is empty:
      every member an import looks for is missing. */
  function ExportToJson(s: Store): (json: Json)
    ensures forall k :: ImportedValue(json, k) == Default(k)
  {
    map[]
  }

  /** Hence exporting and importing back resets every setting to its default. */
  lemma ImportOfExportResets(s: Store, t: Store)
    ensures Read(ImportFromJson(t, ExportToJson(s))) == Defaults
  {
    ReadOfSameValues(ImportFromJson(t, ExportToJson(s)), map[]);
    EmptyStoreReadsDefaults();
  }

  /** Had the mapping run, importing its output would give back every
      setting the readers report, whatever the store imported into. */
  lemma ImportOfExportMappingRestores(s: Store, t: Store)
    ensures Read(ImportFromJson(t, ExportMapping(s))) == Read(s)
  {
    var json := ExportMapping(s);
    forall k ensures Get(ImportFromJson(t, json), k) == Get(s, k) {
      ImportedValueOfExport(s, k);
    }
    ReadOfSameValues(ImportFromJson(t, json), s);
  }

  /** The mapping and the import agree on every key's name, default and type. */
  lemma ImportedValueOfExport(s: Store, k: Key)
    ensures ImportedValue(ExportMapping(s), k) == Get(s, k)
  {
    var json := ExportMapping(s);
    var v := Get(s, k);
    assert KeyName(k) in json && json[KeyName(k)] == AsJson(v);
    if k == TimeZone {
      assert OptString(json, KeyName(k), DefaultTimeZone) == v.s;
    } else {
      assert OptBoolean(json, KeyName(k), Default(k).b) == v.b;
    }
  }
}
