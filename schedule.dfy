/**
 * The schedule-level validators of the time component: a six-part cron line,
 * the `at` time-of-day shorthand, and the rule that `cron`, `at` and the
 * individual field keys exclude each other.
 */
module Schedule {
  import opened Wrappers
  import opened Decimal
  import opened Cron

  /** The six cron fields, as the configuration keys name them. */
  datatype Field = Seconds | Minutes | Hours | DaysOfMonth | Months | DaysOfWeek

  /** Values for some of the fields, as a dictionary keyed by field. */
  type FieldMap = map<Field, seq<int>>

  /** The dictionary `validate_cron_raw` and `validate_time_at` return: the matched values of each field. */
  datatype FieldValues = FieldValues(
    seconds: seq<int>, minutes: seq<int>, hours: seq<int>,
    daysOfMonth: seq<int>, months: seq<int>, daysOfWeek: seq<int>)
  {
    /** The same values keyed by field, for merging into a configuration. */
    function AsMap(): (m: FieldMap)
      ensures m.Keys == {Seconds, Minutes, Hours, DaysOfMonth, Months, DaysOfWeek}
      ensures m[Seconds] == seconds && m[Minutes] == minutes && m[Hours] == hours
      ensures m[DaysOfMonth] == daysOfMonth && m[Months] == months && m[DaysOfWeek] == daysOfWeek
    {
      map[Seconds := seconds, Minutes := minutes, Hours := hours,
          DaysOfMonth := daysOfMonth, Months := months, DaysOfWeek := daysOfWeek]
    }
  }

  /** Every one of the six parts is an expression its field accepts. */
  ghost predicate LineAccepted(parts: seq<string>) {
    && |parts| == 6
    && Accepted(parts[0], SecondsSpec) && Accepted(parts[1], MinutesSpec) && Accepted(parts[2], HoursSpec)
    && Accepted(parts[3], DaysOfMonthSpec) && Accepted(parts[4], MonthsSpec) && Accepted(parts[5], DaysOfWeekSpec)
  }

  /** The error of the first of the six parts its field does not accept. */
  ghost predicate FirstFailure(parts: seq<string>, e: CronError)
    requires |parts| == 6
  {
    || TextVerdict(parts[0], SecondsSpec, Err(e))
    || (Accepted(parts[0], SecondsSpec) && TextVerdict(parts[1], MinutesSpec, Err(e)))
    || (Accepted(parts[0], SecondsSpec) && Accepted(parts[1], MinutesSpec) && TextVerdict(parts[2], HoursSpec, Err(e)))
    || (Accepted(parts[0], SecondsSpec) && Accepted(parts[1], MinutesSpec) && Accepted(parts[2], HoursSpec)
        && TextVerdict(parts[3], DaysOfMonthSpec, Err(e)))
    || (Accepted(parts[0], SecondsSpec) && Accepted(parts[1], MinutesSpec) && Accepted(parts[2], HoursSpec)
        && Accepted(parts[3], DaysOfMonthSpec) && TextVerdict(parts[4], MonthsSpec, Err(e)))
    || (Accepted(parts[0], SecondsSpec) && Accepted(parts[1], MinutesSpec) && Accepted(parts[2], HoursSpec)
        && Accepted(parts[3], DaysOfMonthSpec) && Accepted(parts[4], MonthsSpec) && TextVerdict(parts[5], DaysOfWeekSpec, Err(e)))
  }

  /** Each field of an accepted line holds what its validator gives for its part. */
  ghost predicate LineValues(parts: seq<string>, v: FieldValues)
    requires |parts| == 6
  {
    && TextVerdict(parts[0], SecondsSpec, Ok(v.seconds)) && TextVerdict(parts[1], MinutesSpec, Ok(v.minutes))
    && TextVerdict(parts[2], HoursSpec, Ok(v.hours)) && TextVerdict(parts[3], DaysOfMonthSpec, Ok(v.daysOfMonth))
    && TextVerdict(parts[4], MonthsSpec, Ok(v.months)) && TextVerdict(parts[5], DaysOfWeekSpec, Ok(v.daysOfWeek))
  }

  /**
   * `validate_cron_raw`: the line is split on single spaces into exactly six
   * parts, validated in order as seconds, minutes, hours, days of month,
   * months and days of week; the first part that fails raises.
   */
  method ValidateCronRaw(line: string) returns (r: Result<FieldValues, CronError>)
    ensures |Split(line, ' ')| != 6 ==> r == Err(WrongPartCount(|Split(line, ' ')|))
    ensures r.Ok? <==> LineAccepted(Split(line, ' '))
    ensures r.Ok? ==> LineValues(Split(line, ' '), r.value)
    ensures r.Err? && |Split(line, ' ')| == 6 ==> FirstFailure(Split(line, ' '), r.error)
  {
    var parts := Split(line, ' ');
    if |parts| != 6 {
      return Err(WrongPartCount(|parts|));
    }
    var seconds := Validate(Text(parts[0]), SecondsSpec);
    VerdictAccepts(parts[0], SecondsSpec, seconds);
    if seconds.Err? {
      return Err(seconds.error);
    }
    var minutes := Validate(Text(parts[1]), MinutesSpec);
    VerdictAccepts(parts[1], MinutesSpec, minutes);
    if minutes.Err? {
      return Err(minutes.error);
    }
    var hours := Validate(Text(parts[2]), HoursSpec);
    VerdictAccepts(parts[2], HoursSpec, hours);
    if hours.Err? {
      return Err(hours.error);
    }
    var daysOfMonth := Validate(Text(parts[3]), DaysOfMonthSpec);
    VerdictAccepts(parts[3], DaysOfMonthSpec, daysOfMonth);
    if daysOfMonth.Err? {
      return Err(daysOfMonth.error);
    }
    var months := Validate(Text(parts[4]), MonthsSpec);
    VerdictAccepts(parts[4], MonthsSpec, months);
    if months.Err? {
      return Err(months.error);
    }
    var daysOfWeek := Validate(Text(parts[5]), DaysOfWeekSpec);
    VerdictAccepts(parts[5], DaysOfWeekSpec, daysOfWeek);
    if daysOfWeek.Err? {
      return Err(daysOfWeek.error);
    }
    r := Ok(FieldValues(seconds.value, minutes.value, hours.value, daysOfMonth.value, months.value, daysOfWeek.value));
  }

  /**
   * `validate_time_at`: the time of day as single hour, minute and second
   * values, every day of month, every month and every day of week.
   */
  method ValidateTimeAt(hour: int, minute: int, second: int) returns (r: FieldValues)
    ensures r.hours == [hour] && r.minutes == [minute] && r.seconds == [second]
    ensures r.daysOfMonth == RangeList(DaysOfMonthSpec.min, DaysOfMonthSpec.max + 1)
    ensures r.months == RangeList(MonthsSpec.min, MonthsSpec.max + 1)
    ensures r.daysOfWeek == RangeList(DaysOfWeekSpec.min, DaysOfWeekSpec.max + 1)
  {
    var daysOfMonth := ValidateAny(DaysOfMonthSpec);
    var months := ValidateAny(MonthsSpec);
    var daysOfWeek := ValidateAny(DaysOfWeekSpec);
    r := FieldValues([second], [minute], [hour], daysOfMonth, months, daysOfWeek);
  }

  /** A field validator applied to `*`: the field's whole range, which it always accepts. */
  method ValidateAny(spec: FieldSpec) returns (values: seq<int>)
    ensures values == RangeList(spec.min, spec.max + 1)
  {
    var r := Validate(Text("*"), spec);
    FullRangeVerdict(spec, r);
    values := r.value;
  }

  /** A top-level key of a time trigger's configuration. */
  datatype Key = FieldKey(field: Field) | CronKey | AtKey | OtherKey(name: string)

  /**
   * A configuration value: a field's values, the field map the `cron` and `at`
   * validators produce, or something this model does not look into.
   */
  datatype ConfValue = Values(values: seq<int>) | Schedule(fields: FieldMap) | OtherValue(text: string)

  type Config = map<Key, ConfValue>

  /** Which shorthand a field key collided with. */
  datatype Shorthand = CronOption | AtOption

  datatype KeysError =
    | ConflictingOption(field: Field, shorthand: Shorthand)
    | AtWithCron
      /** `has_at_least_one_key` failed: none of the field keys is present. */
    | MissingField

  predicate HasFieldKey(config: Config) {
    exists f: Field :: FieldKey(f) in config
  }

  /** The entries `value.update(fields)` adds: one field key per field of the map. */
  function FieldEntries(fields: FieldMap): (m: Config)
    ensures forall k :: k in m <==> k.FieldKey? && k.field in fields
    ensures forall f :: f in fields ==> m[FieldKey(f)] == Values(fields[f])
  {
    map f | f in fields :: FieldKey(f) := Values(fields[f])
  }

  /**
   * The dictionary the shorthand branches return: the shorthand's key removed,
   * every other key kept, and a field key added for each field it held.
   */
  function Merged(config: Config, key: Key): (m: Config)
    requires key in config && config[key].Schedule?
    requires !HasFieldKey(config)
    ensures key !in m
    ensures forall k :: k in config && k != key ==> k in m && m[k] == config[k]
    ensures forall f :: FieldKey(f) in m <==> f in config[key].fields
    ensures forall f :: f in config[key].fields ==> m[FieldKey(f)] == Values(config[key].fields[f])
    ensures forall k :: k in m ==> k in config || k.FieldKey?
  {
    (config - {key}) + FieldEntries(config[key].fields)
  }

  /**
   * What `validate_cron_keys` promises. With `cron`: a field key beside it is
   * an error naming that key, then `at` beside it is an error, else the merged
   * dictionary. With `at` alone likewise. With neither: the configuration as
   * it is when some field key is present, otherwise an error.
   */
  ghost predicate KeysVerdict(config: Config, r: Result<Config, KeysError>)
    requires CronKey in config ==> config[CronKey].Schedule?
    requires AtKey in config ==> config[AtKey].Schedule?
  {
    if CronKey in config then
      if HasFieldKey(config) then
        r.Err? && r.error.ConflictingOption? && r.error.shorthand == CronOption && FieldKey(r.error.field) in config
      else if AtKey in config then r == Err(AtWithCron)
      else r == Ok(Merged(config, CronKey))
    else if AtKey in config then
      if HasFieldKey(config) then
        r.Err? && r.error.ConflictingOption? && r.error.shorthand == AtOption && FieldKey(r.error.field) in config
      else r == Ok(Merged(config, AtKey))
    else if HasFieldKey(config) then r == Ok(config)
    else r == Err(MissingField)
  }

  /** The key loop of a shorthand branch: some field key of the configuration, if there is one. */
  method FindFieldKey(config: Config) returns (found: Option<Field>)
    ensures found.None? <==> !HasFieldKey(config)
    ensures found.Some? ==> FieldKey(found.value) in config
  {
    var keys := config.Keys;
    while keys != {}
      invariant keys <= config.Keys
      invariant forall k :: k in config && k !in keys ==> !k.FieldKey?
      decreases keys
    {
      var key := PickKey(keys);
      if key.FieldKey? {
        return Some(key.field);
      }
      keys := keys - {key};
    }
    found := None;
  }

  /** The next key of a dictionary's iteration, in an order the model does not fix. */
  method PickKey(keys: set<Key>) returns (key: Key)
    requires keys != {}
    ensures key in keys
  {
    key :| key in keys;
  }

  /** `{x: value[x] for x in value if x != key}`. */
  method Without(config: Config, key: Key) returns (value: Config)
    ensures value == config - {key}
  {
    value := map k | k in config && k != key :: config[k];
  }

  /** `value.update(fields)`, one field at a time in an order the model does not fix. */
  method Update(value0: Config, fields: FieldMap) returns (value: Config)
    ensures value == value0 + FieldEntries(fields)
  {
    value := value0;
    var rest := fields.Keys;
    NoneDone(value0, fields);
    while rest != {}
      invariant rest <= fields.Keys
      invariant value == value0 + FieldEntries(fields - rest)
      decreases rest
    {
      var f :| f in rest;
      OneMoreDone(value0, fields, rest, f);
      value := value[FieldKey(f) := Values(fields[f])];
      rest := rest - {f};
    }
    AllDone(fields);
  }

  lemma NoneDone(value0: Config, fields: FieldMap)
    ensures value0 == value0 + FieldEntries(fields - fields.Keys)
  {
    assert fields - fields.Keys == map[];
    assert FieldEntries(map[]) == map[];
    UnionEmpty(value0);
  }

  lemma OneMoreDone(value0: Config, fields: FieldMap, rest: set<Field>, f: Field)
    requires f in rest && rest <= fields.Keys
    ensures (value0 + FieldEntries(fields - rest))[FieldKey(f) := Values(fields[f])]
            == value0 + FieldEntries(fields - (rest - {f}))
  {
    assert fields - (rest - {f}) == (fields - rest)[f := fields[f]];
    UpdateStep(value0, fields - rest, f, fields[f]);
  }

  lemma AllDone(fields: FieldMap)
    ensures fields - {} == fields
  {
  }

  lemma UnionEmpty<K, V>(a: map<K, V>)
    ensures a + map[] == a
  {
  }

  lemma UpdateAfterUnion<K, V>(a: map<K, V>, b: map<K, V>, k: K, v: V)
    ensures (a + b)[k := v] == a + b[k := v]
  {
  }

  /** Adding one field's entry to the merged dictionary is adding that field to the merged fields. */
  lemma UpdateStep(value0: Config, done: FieldMap, f: Field, v: seq<int>)
    ensures (value0 + FieldEntries(done))[FieldKey(f) := Values(v)] == value0 + FieldEntries(done[f := v])
  {
    FieldEntriesUpdate(done, f, v);
    UpdateAfterUnion(value0, FieldEntries(done), FieldKey(f), Values(v));
  }

  lemma FieldEntriesUpdate(done: FieldMap, f: Field, v: seq<int>)
    ensures FieldEntries(done[f := v]) == FieldEntries(done)[FieldKey(f) := Values(v)]
  {
  }

  /** `validate_cron_keys`. */
  method ValidateCronKeys(config: Config) returns (r: Result<Config, KeysError>)
    requires CronKey in config ==> config[CronKey].Schedule?
    requires AtKey in config ==> config[AtKey].Schedule?
    ensures KeysVerdict(config, r)
  {
    if CronKey in config {
      var found := FindFieldKey(config);
      if found.Some? {
        return Err(ConflictingOption(found.value, CronOption));
      }
      if AtKey in config {
        return Err(AtWithCron);
      }
      var value := Without(config, CronKey);
      value := Update(value, config[CronKey].fields);
      return Ok(value);
    }
    if AtKey in config {
      var found := FindFieldKey(config);
      if found.Some? {
        return Err(ConflictingOption(found.value, AtOption));
      }
      var value := Without(config, AtKey);
      value := Update(value, config[AtKey].fields);
      return Ok(value);
    }
    var found := FindFieldKey(config);
    if found.None? {
      return Err(MissingField);
    }
    return Ok(config);
  }

  /**
   * Whatever `validate_cron_keys` accepts holds neither shorthand any more, and
   * a shorthand holding every field leaves every field key in place.
   */
  lemma AcceptedKeysAreExpanded(config: Config, r: Result<Config, KeysError>)
    requires CronKey in config ==> config[CronKey].Schedule?
    requires AtKey in config ==> config[AtKey].Schedule?
    requires KeysVerdict(config, r) && r.Ok?
    ensures CronKey !in r.value && AtKey !in r.value
    ensures HasFieldKey(r.value) || (CronKey in config && config[CronKey].fields == map[])
                                 || (AtKey in config && config[AtKey].fields == map[])
    ensures forall k :: k in config && !k.FieldKey? && k != CronKey && k != AtKey ==> k in r.value && r.value[k] == config[k]
  {
    if CronKey in config && config[CronKey].fields != map[] {
      var f :| f in config[CronKey].fields;
      assert FieldKey(f) in r.value;
    } else if CronKey !in config && AtKey in config && config[AtKey].fields != map[] {
      var f :| f in config[AtKey].fields;
      assert FieldKey(f) in r.value;
    }
  }

  /**
   * A shorthand that holds the dictionary `validate_cron_raw` or
   * `validate_time_at` returned, once accepted, leaves all six field keys in
   * the configuration, each with the values of its field.
   */
  lemma ShorthandExpanded(config: Config, key: Key, v: FieldValues, r: Result<Config, KeysError>)
    requires key == CronKey || key == AtKey
    requires key in config && config[key] == Schedule(v.AsMap())
    requires CronKey in config ==> config[CronKey].Schedule?
    requires AtKey in config ==> config[AtKey].Schedule?
    requires KeysVerdict(config, r) && r.Ok?
    ensures CronKey !in r.value && AtKey !in r.value
    ensures r.value[FieldKey(Seconds)] == Values(v.seconds) && r.value[FieldKey(Minutes)] == Values(v.minutes)
    ensures r.value[FieldKey(Hours)] == Values(v.hours) && r.value[FieldKey(DaysOfMonth)] == Values(v.daysOfMonth)
    ensures r.value[FieldKey(Months)] == Values(v.months) && r.value[FieldKey(DaysOfWeek)] == Values(v.daysOfWeek)
  {
  }
}
